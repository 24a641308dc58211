/** The command-line side of a detached session as objects: the platform client, the live workspace,
    and the driver that keeps the durable checkpoint. Every method may be stopped between any two of
    its effects; what it leaves behind is then one of the protocol's runs. */
module HostedSession {
  import opened Options
  import opened Workspace
  import opened WorkspaceSync
  import opened SyncProtocol
  import opened SyncSafety
  import opened SyncRuns
  import opened SessionRuns
  import S = SessionState

  /** A synchronized snapshot; whether it has been stored already is decided by identity. */
  class WorkspaceSnapshot {
    const files: Tree

    constructor (files: Tree)
      ensures this.files == files
    {
      this.files := files;
    }
  }

  /** The platform as the client reaches it: besides its state, the uploads it has received and whether the
      final handoff has been acknowledged to it. */
  class PlatformClient {
    var server: Server
    var received: seq<Patch>
    var handedOff: bool

    method DownloadPatch(k: nat) returns (patch: Option<Patch>)
      requires IsPatch(server, k)
      ensures patch == if k in server.objects then Some(server.events[k].ops) else None
    {
      patch := if k in server.objects then Some(server.events[k].ops) else None;
    }

    /** The acknowledged object is deleted; `found` is false when it was already gone. */
    method AcknowledgePatch(k: nat) returns (found: bool)
      modifies this`server
      ensures server == old(server).(objects := old(server).objects - {k})
      ensures found <==> k in old(server).objects
    {
      found := k in server.objects;
      server := server.(objects := server.objects - {k});
    }

    /** The platform's answer to an upload is its own; the workspace it leaves is recorded. */
    method UploadPatch(patch: Patch, tree: Tree)
      modifies this`server, this`received
      ensures server == old(server).(history := old(server).history + [tree])
      ensures received == old(received) + [patch]
    {
      server, received := server.(history := server.history + [tree]), received + [patch];
    }

    method AcknowledgeWorkspace()
      modifies this`handedOff
      ensures handedOff
    {
      handedOff := true;
    }

    method DownloadWorkspace() returns (final: Tree)
      requires server.history != []
      ensures final == FinalTree(server)
    {
      final := server.history[|server.history| - 1];
    }
  }

  class LiveWorkspace {
    const client: PlatformClient
    const root: LocalRoot
    var synchronized: WorkspaceSnapshot
    var conflicts: set<Path>

    constructor (client: PlatformClient, root: LocalRoot, synchronized: WorkspaceSnapshot, conflicts: set<Path>)
      ensures this.client == client && this.root == root
      ensures this.synchronized == synchronized && this.conflicts == conflicts
    {
      this.client, this.root := client, root;
      this.synchronized, this.conflicts := synchronized, conflicts;
    }

    /** Apply one announced patch and advance the base by base plus patch, up to the point where the
        caller's checkpoint runs. A process that lives for fewer paths than the patch has stops. */
    method ReceivePatch(k: nat, ioErrors: set<Path>, life: nat) returns (landed: bool)
      requires IsPatch(client.server, k) && WellFormed(client.server.events[k].ops) && k in client.server.objects
      modifies this, root
      ensures var ops := client.server.events[k].ops;
              var rejected := Rejected(old(root.fs), ops, ioErrors);
              && (landed <==> |ops| <= life)
              && root.fs == Merge(old(root.fs), old(root.fs).files, ops[..Min(life, |ops|)], {}, ioErrors).fs
              && (landed ==>
                    && synchronized.files == Absorb(old(synchronized).files, ops, rejected)
                    && conflicts == old(conflicts) + rejected
                    && fresh(synchronized)
                    && Pending(root.fs.files, synchronized.files)
                         == old(Pending(root.fs.files, synchronized.files)) - (PathsOf(ops) - rejected))
    {
      var content := client.DownloadPatch(k);
      var patch := content.value;
      var before := root.fs;
      var applied, rejected := root.ApplyWorkspacePatch(patch, ioErrors, life);
      if life < |patch| {
        return false;
      }
      assert patch[..|patch|] == patch;
      PatchKeepsPendingEdits(before, synchronized.files, patch, ioErrors);
      conflicts := conflicts + (set p | p in rejected);
      var files := ApplyPatchToSnapshot(synchronized.files, patch, rejected);
      synchronized := new WorkspaceSnapshot(files);
      return true;
    }

    /** Send local edits made since the last synchronized snapshot; `tree`, `accepted` and `refused`
        are the platform's answer. A process that dies before reading the answer learns nothing. */
    method PushLocal(order: seq<Path>, tree: Tree, accepted: seq<Path>, refused: set<Path>, answered: bool)
      returns (advanced: bool, sent: bool)
      requires Enumerates(order, synchronized.files.Keys + root.fs.files.Keys)
      requires Answer(root.fs.files, synchronized.files, tree, accepted, refused)
      modifies this, client`server, client`received
      ensures sent <==> old(Pending(root.fs.files, synchronized.files)) != {}
      ensures sent ==> client.server == old(client.server).(history := old(client.server).history + [tree])
      ensures sent ==>
                client.received == old(client.received) + [Changes(old(synchronized).files, root.fs.files, order)]
      ensures !sent ==> client.server == old(client.server) && client.received == old(client.received) && !advanced
      ensures !(sent && answered) ==> synchronized == old(synchronized) && conflicts == old(conflicts)
      ensures sent && answered ==>
                && conflicts == old(conflicts) + refused
                && synchronized.files == BaseAfterUpload(old(synchronized).files, root.fs.files, accepted, refused)
                && (synchronized == old(synchronized) || fresh(synchronized))
                && (advanced <==> refused == {})
                && Pending(root.fs.files, synchronized.files)
                     == (if refused == {} then {}
                         else old(Pending(root.fs.files, synchronized.files)) - (set p | p in accepted))
    {
      var current := root.fs.files;
      var content := BuildWorkspacePatch(synchronized.files, current, order);
      SameEverywhere(synchronized.files, current);
      if content.None? {
        return false, false;
      }
      UploadSettlesAccepted(current, synchronized.files, accepted);
      client.UploadPatch(content.value, tree);
      if !answered {
        return false, true;
      }
      conflicts := conflicts + refused;
      if refused != {} {
        if accepted != [] {
          var files := AdvanceSnapshotPaths(synchronized.files, current, accepted);
          synchronized := new WorkspaceSnapshot(files);
        }
        return false, true;
      }
      synchronized := new WorkspaceSnapshot(current);
      return true, true;
    }

    /** Reconcile the final remote workspace into the root. */
    method Finalize(order: seq<Path>, ioErrors: set<Path>, life: nat)
      returns (final: Tree, applied: seq<Path>, clashes: seq<Path>)
      requires client.server.history != []
      requires Enumerates(order, synchronized.files.Keys + FinalTree(client.server).Keys)
      modifies root
      ensures final == FinalTree(client.server)
      ensures var stop := Min(life, |order|);
              Outcome(root.fs, applied, clashes) == Merge(old(root.fs), old(root.fs).files,
                Changes(synchronized.files, final, order[..stop]), conflicts, ioErrors)
    {
      final := client.DownloadWorkspace();
      applied, clashes := root.SyncWorkspace(synchronized.files, final, conflicts, order, ioErrors, life);
    }
  }

  // ------------------------------------------------------------------ the driver

  /** Where a process that handles one patch is stopped: after so many paths, before the checkpoint,
      inside its save, around the acknowledgement, or inside the save that follows. */
  datatype Fate = Fate(paths: nat, marks: bool, firstSave: nat, acks: bool, clears: bool, secondSave: nat)

  /** The archives a session may ever store have different sixteen-digit names. */
  ghost predicate Distinguishes(hash: Tree -> string, archives: iset<Tree>) {
    && S.HexHash(hash)
    && forall a, b :: a in archives && b in archives && S.Short(hash(a)) == S.Short(hash(b)) ==> a == b
  }

  /** The durable checkpoint in one session's files. */
  ghost function CheckpointOf(session: Option<S.Session>, journal: seq<Entry>): Option<Checkpoint> {
    if session.Some? && session.value.base.Ok? && session.value.state.workspace.Some? then
      var state := session.value.state;
      var workspace := state.workspace.value;
      Some(Checkpoint(state.cursor, session.value.base.value, workspace.conflicts, workspace.pendingAck, journal))
    else None
  }

  lemma SavePremises(before: S.Disk, hash: Tree -> string, was: S.State, base: Tree, updated: S.State,
                     archive: Option<Tree>, archives: iset<Tree>)
    requires Distinguishes(hash, archives) && base in archives && (archive.Some? ==> archive.value in archives)
    requires was.workspace.Some? && updated.workspace.Some? && updated.sessionId == was.sessionId
    requires updated.workspace.value.baseDigest == was.workspace.value.baseDigest
    requires S.View(before, hash, was.sessionId) == Some(S.Session(was, S.Ok(base)))
    ensures S.LoadBase(before, hash, updated.sessionId, updated) == S.Ok(base)
    ensures S.Carries(before, hash, updated, archive) && S.Intact(before, hash, updated.sessionId)
    ensures archive.Some? ==> S.NoClash(before, hash, updated.sessionId, archive.value)
  {
  }

  /** A save cut anywhere leaves the old session or the new one; the new one has the given base. */
  lemma SaveOutcome(before: S.Disk, hash: Tree -> string, was: S.State, base: Tree, updated: S.State,
                    archive: Option<Tree>, archives: iset<Tree>, life: nat, after: S.Disk, finished: bool)
    requires Distinguishes(hash, archives) && base in archives && (archive.Some? ==> archive.value in archives)
    requires was.workspace.Some? && updated.workspace.Some? && updated.sessionId == was.sessionId
    requires updated.workspace.value.baseDigest == was.workspace.value.baseDigest
    requires S.View(before, hash, was.sessionId) == Some(S.Session(was, S.Ok(base)))
    requires S.SavedUpTo(before, hash, updated, archive, life, after, finished)
    ensures var saved := Some(S.Session(S.Stored(hash, updated, archive),
                                        S.Ok(if archive.Some? then archive.value else base)));
            var found := S.View(after, hash, was.sessionId);
            && (found == saved || (!finished && found == S.View(before, hash, was.sessionId)))
            && S.Intact(after, hash, was.sessionId)
  {
    var steps :| S.SaveScript(before, hash, updated, archive, steps)
      && after == S.Cut(before, steps, life) && (finished <==> |steps| <= life);
    SavePremises(before, hash, was, base, updated, archive, archives);
    S.SaveCrashConsistent(before, hash, updated, archive, steps, life);
  }

  /** The stored session, if there is one, is the one of this id and of this directory. */
  ghost predicate RootedAt(session: Option<S.Session>, id: string, home: string) {
    session.Some? ==>
      var state := session.value.state;
      state.sessionId == id && state.workspace.Some? && state.workspace.value.root == home
  }

  /** What a save leaves of the session: the old checkpoint or the new one, and the new one once it finished,
      in the same directory. */
  lemma SavedCheckpoint(before: S.Disk, hash: Tree -> string, was: S.State, base: Tree, updated: S.State,
                        archive: Option<Tree>, archives: iset<Tree>, life: nat, after: S.Disk, finished: bool,
                        journal: seq<Entry>)
    requires Distinguishes(hash, archives) && base in archives && (archive.Some? ==> archive.value in archives)
    requires was.workspace.Some? && updated.workspace.Some? && updated.sessionId == was.sessionId
    requires updated.workspace.value.baseDigest == was.workspace.value.baseDigest
    requires updated.workspace.value.root == was.workspace.value.root
    requires S.View(before, hash, was.sessionId) == Some(S.Session(was, S.Ok(base)))
    requires S.SavedUpTo(before, hash, updated, archive, life, after, finished)
    ensures var now := if archive.Some? then archive.value else base;
            var checkpoint := Checkpoint(updated.cursor, now, updated.workspace.value.conflicts,
                                         updated.workspace.value.pendingAck, journal);
            var found := S.View(after, hash, was.sessionId);
            && S.Intact(after, hash, was.sessionId)
            && RootedAt(found, was.sessionId, was.workspace.value.root)
            && (found != S.View(before, hash, was.sessionId) ==> CheckpointOf(found, journal) == Some(checkpoint))
            && (finished ==> CheckpointOf(found, journal) == Some(checkpoint)
                             && found == Some(S.Session(S.Stored(hash, updated, archive), S.Ok(now))))
  {
    SaveOutcome(before, hash, was, base, updated, archive, archives, life, after, finished);
    S.FieldsKept(hash, updated, archive);
  }

  lemma DeletionOutcome(before: S.Disk, hash: Tree -> string, id: string, life: nat, after: S.Disk, finished: bool)
    requires S.DeletedUpTo(before, id, life, after, finished)
    ensures S.View(after, hash, id) == if life == 0 then S.View(before, hash, id) else None
    ensures finished ==> life > 0
  {
    var steps :| S.DeleteScript(before, id, steps) && after == S.Cut(before, steps, life)
                 && (finished <==> |steps| <= life);
    S.DeleteCrashConsistent(before, hash, id, steps, life);
  }

  /** What the files say of one session: the checkpoint, over an intact base, of this directory. */
  ghost predicate Says(disk: S.Disk, hash: Tree -> string, id: string, home: string, stored: Option<Checkpoint>) {
    var found := S.View(disk, hash, id);
    && S.Intact(disk, hash, id) && RootedAt(found, id, home)
    && stored == CheckpointOf(found, if stored.Some? then stored.value.journal else [])
  }

  /** The checkpoint that a save of this state over this base stands for. */
  function CheckpointAs(state: S.State, base: Tree, journal: seq<Entry>): Checkpoint
    requires state.workspace.Some?
  {
    var workspace := state.workspace.value;
    Checkpoint(state.cursor, base, workspace.conflicts, workspace.pendingAck, journal)
  }

  /** What the files say after a save: what they said before, or the new checkpoint. */
  function SaidAfter(before: S.Disk, after: S.Disk, hash: Tree -> string, id: string, finished: bool,
                     stored: Option<Checkpoint>, saved: Checkpoint): Option<Checkpoint> {
    if finished || S.View(after, hash, id) != S.View(before, hash, id) then Some(saved) else stored
  }

  /** After a save the files say what they said before or what was saved, and the latter once it finished. */
  lemma SaysSaved(before: S.Disk, hash: Tree -> string, id: string, home: string, stored: Option<Checkpoint>,
                  was: S.State, base: Tree, updated: S.State, archive: Option<Tree>, archives: iset<Tree>, life: nat,
                  after: S.Disk, finished: bool, saved: Checkpoint)
    requires Says(before, hash, id, home, stored)
    requires Distinguishes(hash, archives) && base in archives && (archive.Some? ==> archive.value in archives)
    requires was.workspace.Some? && updated.workspace.Some? && updated.sessionId == was.sessionId == id
    requires updated.workspace.value.baseDigest == was.workspace.value.baseDigest
    requires updated.workspace.value.root == was.workspace.value.root
    requires S.View(before, hash, id) == Some(S.Session(was, S.Ok(base)))
    requires S.SavedUpTo(before, hash, updated, archive, life, after, finished)
    requires saved == CheckpointAs(updated, if archive.Some? then archive.value else base, saved.journal)
    ensures Says(after, hash, id, home, SaidAfter(before, after, hash, id, finished, stored, saved))
    ensures finished ==> S.View(after, hash, id) == Some(S.Session(S.Stored(hash, updated, archive), S.Ok(saved.base)))
  {
    SavedCheckpoint(before, hash, was, base, updated, archive, archives, life, after, finished, saved.journal);
  }

  lemma SaysNothing(before: S.Disk, hash: Tree -> string, id: string, home: string, stored: Option<Checkpoint>,
                    life: nat, after: S.Disk, finished: bool)
    requires Says(before, hash, id, home, stored) && S.DeletedUpTo(before, id, life, after, finished)
    ensures Says(after, hash, id, home, if life > 0 then None else stored)
    ensures finished ==> life > 0 && S.View(after, hash, id) == None
  {
    DeletionOutcome(before, hash, id, life, after, finished);
  }

  /** Nothing stops the handling of a patch with so many paths; a save takes at most `room` file steps. */
  predicate Lasts(fate: Fate, paths: nat, room: nat) {
    paths <= fate.paths && fate.marks && room <= fate.firstSave && fate.acks && fate.clears && room <= fate.secondSave
  }

  predicate EventLasts(s: Server, k: nat, fate: Fate, room: nat) {
    IsPatch(s, k) ==> Lasts(fate, |s.events[k].ops|, room)
  }

  ghost predicate PageLasts(s: Server, page: seq<nat>, fates: nat -> Fate, room: nat, life: nat) {
    room <= life && forall i :: 0 <= i < |page| ==> EventLasts(s, page[i], fates(i), room)
  }

  lemma LessLasts(s: Server, k: nat, fate: Fate, room: nat, less: nat)
    requires less <= room && EventLasts(s, k, fate, room)
    ensures EventLasts(s, k, fate, less)
  {
  }

  class DetachedCommandDriver {
    const client: PlatformClient
    const store: S.SessionStateStore
    const workspace: LiveWorkspace
    const id: string
    ghost const home: string
    var state: S.State
    var cursor: nat
    var pendingAck: Option<nat>
    var persisted: WorkspaceSnapshot
    var alive: bool
    ghost var torn: bool
    ghost var stored: Option<Checkpoint>
    ghost var phase: Phase
    ghost var journal: seq<Entry>
    ghost var edited: set<Path>
    ghost var overwrites: seq<Overwrite>

    /** Resolve a stored session and rehydrate its workspace from the stored base. */
    constructor (client: PlatformClient, store: S.SessionStateStore, id: string, root: LocalRoot,
                 ghost archives: iset<Tree>, ghost was: World)
      requires S.ValidId(id) && Distinguishes(store.hash, archives)
      requires S.View(store.disk, store.hash, id).Some? && S.View(store.disk, store.hash, id).value.base.Ok?
      requires S.View(store.disk, store.hash, id).value.state.sessionId == id
      requires S.View(store.disk, store.hash, id).value.base.value in archives
      requires was.local == root.fs && was.server == client.server && was.client.Off? && was.disk.Some?
      requires was.disk == CheckpointOf(S.View(store.disk, store.hash, id), was.disk.value.journal)
      ensures Linked(archives) && StoreOk(archives) && alive && View() == StartStep(was, false).value
      ensures this.client == client && this.store == store && this.id == id && workspace.root == root
              && fresh(workspace)
      ensures home == S.View(store.disk, store.hash, id).value.state.workspace.value.root
    {
      var session := S.View(store.disk, store.hash, id).value;
      var snapshot := new WorkspaceSnapshot(session.base.value);
      this.client, this.store, this.id := client, store, id;
      this.workspace := new LiveWorkspace(client, root, snapshot, session.state.workspace.value.conflicts);
      this.state, this.cursor := session.state, session.state.cursor;
      this.pendingAck := session.state.workspace.value.pendingAck;
      this.persisted, this.alive, this.torn := snapshot, true, false;
      this.home := session.state.workspace.value.root;
      this.phase, this.journal, this.stored := Retrying(false), was.disk.value.journal, was.disk;
      this.edited, this.overwrites := was.edited, was.overwrites;
    }

    ghost function Mem(): Checkpoint
      reads this`cursor, this`pendingAck, this`journal, workspace
    {
      Checkpoint(cursor, workspace.synchronized.files, workspace.conflicts, pendingAck, journal)
    }

    ghost function View(): World
      reads this`cursor, this`pendingAck, this`journal, this`stored, this`alive, this`phase, this`edited,
            this`overwrites, client`server, workspace, workspace.root
    {
      World(workspace.root.fs, client.server, stored, if alive then On(Mem(), phase, false) else Off,
            edited, overwrites)
    }

    ghost predicate Linked(archives: iset<Tree>)
      reads this`alive, this`torn, workspace
    {
      workspace.client == client && (alive ==> !torn && workspace.synchronized.files in archives)
    }

    /** The state held in memory is the stored one and names the snapshot last stored, unless a save
        was cut short; then the files hold the old session or the new one. */
    ghost predicate StoreOk(archives: iset<Tree>)
      reads this`state, this`persisted, this`torn, this`stored, store
    {
      && S.ValidId(id) && Distinguishes(store.hash, archives)
      && Says(store.disk, store.hash, id, home, stored)
      && (!torn ==>
            && state.sessionId == id && state.workspace.Some? && persisted.files in archives
            && S.View(store.disk, store.hash, id) == Some(S.Session(state, S.Ok(persisted.files))))
    }

    // ---------------------------------------------------------------- the durable checkpoint

    /** Advance the durable checkpoint to what is in memory; a process that dies keeps the old one or
        the new one. */
    method Store(ghost archives: iset<Tree>, life: nat)
      requires Linked(archives) && StoreOk(archives) && alive
      modifies this`state, this`persisted, this`alive, this`torn, this`stored, store
      ensures Linked(archives) && StoreOk(archives)
      ensures alive ==> View() == Kept(old(View()))
      ensures !alive ==> View() == Dead(old(View())) || View() == Dead(Kept(old(View())))
      ensures |old(store.disk)| + 4 <= life ==> alive
      ensures |store.disk| <= |old(store.disk)| + 2
    {
      Persist(archives, life);
    }

    method Persist(ghost archives: iset<Tree>, life: nat)
      requires Linked(archives) && StoreOk(archives) && alive
      modifies this`state, this`persisted, this`alive, this`torn, this`stored, store
      ensures Linked(archives) && StoreOk(archives)
      ensures alive ==> stored == Some(Mem())
      ensures !alive ==> stored == old(stored) || stored == Some(Mem())
      ensures |old(store.disk)| + 4 <= life ==> alive
      ensures |store.disk| <= |old(store.disk)| + 2
    {
      var update := state.workspace.value.(pendingAck := pendingAck, conflicts := workspace.conflicts);
      var archive := if workspace.synchronized != persisted then Some(workspace.synchronized.files) else None;
      if cursor == state.cursor && Some(update) == state.workspace && archive.None? {
        stored := Some(Mem());
        return;
      }
      ghost var before := store.disk;
      var saved, finished := SaveState(state.(cursor := cursor, workspace := Some(update)), archive, archives, life);
      stored := SaidAfter(before, store.disk, store.hash, id, finished, stored, Mem());
      alive, torn := finished, !finished;
      if finished {
        state, persisted := saved, workspace.synchronized;
      }
    }

    /** Hand the state to the store, as far as the process lives. */
    method Write(updated: S.State, archive: Option<Tree>, life: nat) returns (saved: S.State, finished: bool)
      requires S.ValidId(updated.sessionId) && updated.workspace.Some?
      modifies store
      ensures saved == S.Stored(store.hash, updated, archive)
      ensures S.SavedUpTo(old(store.disk), store.hash, updated, archive, life, store.disk, finished)
      ensures |old(store.disk)| + 4 <= life ==> finished
      ensures |store.disk| <= |old(store.disk)| + 2
    {
      var result;
      result, finished := store.Save(updated, archive, life);
      saved := result.value;
    }

    method SaveState(updated: S.State, archive: Option<Tree>, ghost archives: iset<Tree>, life: nat)
      returns (saved: S.State, finished: bool)
      requires Linked(archives) && StoreOk(archives) && alive
      requires updated == state.(cursor := cursor,
                                 workspace := Some(state.workspace.value.(pendingAck := pendingAck,
                                                                          conflicts := workspace.conflicts)))
      requires workspace.synchronized.files == if archive.Some? then archive.value else persisted.files
      modifies store
      ensures Says(store.disk, store.hash, id, home,
                   SaidAfter(old(store.disk), store.disk, store.hash, id, finished, stored, Mem()))
      ensures finished ==>
                && saved.sessionId == id && saved.workspace.Some?
                && S.View(store.disk, store.hash, id) == Some(S.Session(saved, S.Ok(workspace.synchronized.files)))
      ensures |old(store.disk)| + 4 <= life ==> finished
      ensures |store.disk| <= |old(store.disk)| + 2
    {
      ghost var before := store.disk;
      saved, finished := Write(updated, archive, life);
      SaysSaved(before, store.hash, id, home, stored, state, persisted.files, updated, archive, archives, life,
                store.disk, finished, Mem());
    }

    /** Store what is in memory between two events. */
    method PersistIdle(ghost archives: iset<Tree>, life: nat)
      requires Linked(archives) && StoreOk(archives) && alive && phase.Idle?
      modifies this`state, this`persisted, this`alive, this`torn, this`stored, store
      ensures Linked(archives) && StoreOk(archives) && Reaches(old(View()), View())
      ensures alive ==> View() == PersistStep(old(View())).value
      ensures |old(store.disk)| + 4 <= life ==> alive
      ensures |store.disk| <= |old(store.disk)| + 2
    {
      KeptReaches(View());
      Store(archives, life);
    }

    // ---------------------------------------------------------------- one patch

    /** Download and apply one patch and advance the base, up to the caller's checkpoint. */
    method Receive(k: nat, ioErrors: set<Path>, paths: nat, survives: bool, ghost archives: iset<Tree>)
      requires Linked(archives) && alive && phase.Idle?
      requires BeginStep(View(), k).Some? && WellFormed(client.server.events[k].ops)
      requires forall rejected ::
        Absorb(workspace.synchronized.files, client.server.events[k].ops, rejected) in archives
      modifies this`alive, this`phase, this`journal, this`edited, this`overwrites, workspace, workspace.root
      ensures Linked(archives)
      ensures alive ==> View() == AfterLanding(old(View()), k, ioErrors)
      ensures !alive ==> View() == Dead(AfterPaths(old(View()), k, ioErrors, Min(paths, |client.server.events[k].ops|)))
      ensures alive <==> |client.server.events[k].ops| <= paths && survives
    {
      ghost var start := View();
      ghost var ops := client.server.events[k].ops;
      var landed := TakePaths(k, ioErrors, paths, archives);
      alive := landed && survives;
      if alive {
        phase, journal := Landed(k), journal + [Delivered(k, ops, Rejected(start.local, ops, ioErrors))];
        LandedIs(start, View(), k, ioErrors);
      }
    }

    /** Download the patch and visit its paths, as far as the process lives. */
    method TakePaths(k: nat, ioErrors: set<Path>, paths: nat, ghost archives: iset<Tree>) returns (landed: bool)
      requires Linked(archives) && alive && BeginStep(View(), k).Some? && WellFormed(client.server.events[k].ops)
      modifies this`edited, this`overwrites, workspace, workspace.root
      ensures Dead(View()) == Dead(AfterPaths(old(View()), k, ioErrors, Min(paths, |client.server.events[k].ops|)))
      ensures landed <==> |client.server.events[k].ops| <= paths
      ensures landed ==>
                var ops := client.server.events[k].ops;
                var rejected := Rejected(old(workspace.root.fs), ops, ioErrors);
                Mem() == old(Mem()).(base := Absorb(old(workspace.synchronized.files), ops, rejected),
                                     conflicts := old(workspace.conflicts) + rejected)
    {
      ghost var fs, ops := workspace.root.fs, client.server.events[k].ops;
      landed := workspace.ReceivePatch(k, ioErrors, paths);
      edited, overwrites := {}, overwrites + Replaced(fs, fs.files, ops[..Min(paths, |ops|)], {}, ioErrors);
    }

    /** The event counts as processed and its acknowledgement as owed. */
    method NoteDelivery(k: nat, ghost archives: iset<Tree>)
      requires Linked(archives) && alive && phase == Landed(k)
      modifies this`cursor, this`pendingAck, this`journal, this`phase
      ensures Linked(archives) && phase == Marked(k)
      ensures View() == OwedStep(old(View())).value && Reaches(old(View()), View())
    {
      OwedReaches(View());
      journal := journal + Dropped(pendingAck, client.server.objects);
      cursor, pendingAck, phase := k, Some(k), Marked(k);
    }

    /** Store the checkpoint that covers patch `k` before its acknowledgement is sent. */
    method CheckpointBeforeAck(k: nat, ghost archives: iset<Tree>, life: nat)
      requires Linked(archives) && StoreOk(archives) && alive && phase == Marked(k)
      modifies this`state, this`persisted, this`alive, this`torn, this`stored, this`phase, store
      ensures Linked(archives) && StoreOk(archives) && Reaches(old(View()), View())
      ensures alive ==> phase == Saved(k) && View() == SaveStep(old(View())).value
      ensures |old(store.disk)| + 4 <= life ==> alive
      ensures |store.disk| <= |old(store.disk)| + 2
    {
      KeptReaches(View());
      Store(archives, life);
      if alive {
        phase := Saved(k);
      }
    }

    /** Send the acknowledgement, then forget it; the process may die before or in between. */
    method Acknowledge(k: nat, sends: bool, survives: bool, ghost archives: iset<Tree>)
      requires Linked(archives) && alive && phase == Saved(k)
      modifies this`alive, this`pendingAck, this`phase, client`server
      ensures Linked(archives) && Reaches(old(View()), View())
      ensures alive ==>
                && phase.Idle? && AckStep(old(View())).Some?
                && View() == ClearStep(AckStep(old(View())).value).value
      ensures alive <==> sends && survives
    {
      ghost var before := View();
      AckReaches(before);
      ghost var acked := AckStep(before).value;
      if !sends {
        alive := false;
        assert View() == Dead(before);
        return;
      }
      var found := client.AcknowledgePatch(k);
      if !survives {
        alive := false;
        assert View() == Dead(acked);
        return;
      }
      pendingAck, phase := None, Idle;
      assert View() == ClearStep(acked).value;
    }

    /** Checkpoint a landed patch: the first half of its delivery. */
    method Secure(k: nat, life: nat, ghost archives: iset<Tree>)
      requires Linked(archives) && StoreOk(archives) && alive && phase == Landed(k)
      modifies this`cursor, this`pendingAck, this`journal, this`state, this`persisted, this`alive, this`torn
      modifies this`stored, this`phase, store
      ensures Linked(archives) && StoreOk(archives) && Reaches(old(View()), View())
      ensures alive ==> phase == Saved(k) && View() == SaveStep(OwedStep(old(View())).value).value
      ensures |old(store.disk)| + 4 <= life ==> alive
      ensures |store.disk| <= |old(store.disk)| + 2
    {
      ghost var start := View();
      NoteDelivery(k, archives);
      ghost var marked := View();
      CheckpointBeforeAck(k, archives, life);
      ReachesOn(start, marked, View());
    }

    /** Acknowledge a checkpointed patch, forget the acknowledgement, and store that. */
    method Settle(k: nat, fate: Fate, ghost archives: iset<Tree>)
      requires Linked(archives) && StoreOk(archives) && alive && phase == Saved(k)
      modifies this`pendingAck, this`state, this`persisted, this`alive, this`torn, this`stored, this`phase
      modifies client`server, store
      ensures Linked(archives) && StoreOk(archives) && Reaches(old(View()), View())
      ensures alive ==>
                && phase.Idle? && AckStep(old(View())).Some?
                && View() == PersistStep(ClearStep(AckStep(old(View())).value).value).value
      ensures fate.acks && fate.clears && |old(store.disk)| + 4 <= fate.secondSave ==> alive
      ensures |store.disk| <= |old(store.disk)| + 2
    {
      ghost var start := View();
      Acknowledge(k, fate.acks, fate.clears, archives);
      if !alive {
        return;
      }
      ghost var cleared := View();
      PersistIdle(archives, fate.secondSave);
      ReachesOn(start, cleared, View());
    }

    /** Checkpoint a landed patch, then settle its acknowledgement. */
    method Deliver(k: nat, fate: Fate, ghost archives: iset<Tree>)
      requires Linked(archives) && StoreOk(archives) && alive && phase == Landed(k)
      modifies this, client`server, store
      ensures Linked(archives) && StoreOk(archives) && Reaches(old(View()), View())
      ensures alive ==> phase.Idle? && View() == AfterDelivery(old(View()))
      ensures Lasts(fate, 0, |old(store.disk)| + 6) ==> alive
      ensures |store.disk| <= |old(store.disk)| + 4
    {
      ghost var start := View();
      Secure(k, fate.firstSave, archives);
      if !alive {
        return;
      }
      ghost var saved := View();
      Settle(k, fate, archives);
      ReachesOn(start, saved, View());
    }

    /** One announced patch from download to the stored, acknowledged checkpoint. Wherever the
        process dies, some run of the protocol leads there. */
    method HandlePatch(k: nat, ioErrors: set<Path>, fate: Fate, ghost archives: iset<Tree>)
      requires Linked(archives) && StoreOk(archives) && alive && phase.Idle?
      requires BeginStep(View(), k).Some? && WellFormed(client.server.events[k].ops)
      requires forall rejected ::
        Absorb(workspace.synchronized.files, client.server.events[k].ops, rejected) in archives
      modifies this, client`server, store, workspace, workspace.root
      ensures Linked(archives) && StoreOk(archives)
      ensures Reaches(old(View()), View())
      ensures alive ==> phase.Idle? && View() == AfterDelivery(AfterLanding(old(View()), k, ioErrors))
      ensures Lasts(fate, |old(client.server).events[k].ops|, |old(store.disk)| + 6) ==> alive
      ensures |store.disk| <= |old(store.disk)| + 4
    {
      ghost var start := View();
      PatchLanded(start, k, ioErrors);
      PathsCut(start, k, ioErrors, Min(fate.paths, |client.server.events[k].ops|));
      Receive(k, ioErrors, fate.paths, fate.marks, archives);
      if !alive {
        return;
      }
      ghost var landed := View();
      Deliver(k, fate, archives);
      ReachesOn(start, landed, View());
    }

    // ---------------------------------------------------------------- the commands around it

    /** Deliver the acknowledgement an earlier invocation could not send, then forget it durably. */
    method RetryPendingAck(sends: bool, ghost archives: iset<Tree>, life: nat)
      requires Linked(archives) && StoreOk(archives) && alive && phase == Retrying(false)
      modifies this`pendingAck, this`state, this`persisted, this`alive, this`torn, this`stored, this`phase
      modifies client`server, store
      ensures Linked(archives) && StoreOk(archives) && Reaches(old(View()), View())
      ensures alive ==> phase.Idle? && View() == Kept(RetryStep(old(View())).value)
      ensures (sends || old(pendingAck).None?) && |old(store.disk)| + 4 <= life ==> alive
    {
      ghost var start := View();
      RetryReaches(start);
      SendPending(sends, archives);
      if alive {
        ghost var retried := View();
        KeptReaches(retried);
        Store(archives, life);
        ReachesOn(start, retried, View());
      }
    }

    method SendPending(sends: bool, ghost archives: iset<Tree>)
      requires Linked(archives) && alive && phase == Retrying(false)
      modifies this`pendingAck, this`alive, this`phase, client`server
      ensures Linked(archives) && (alive <==> sends || old(pendingAck).None?)
      ensures alive ==> phase.Idle? && View() == RetryStep(old(View())).value
      ensures !alive ==> View() == Dead(old(View()))
    {
      if pendingAck.Some? {
        if !sends {
          alive := false;
          return;
        }
        var found := client.AcknowledgePatch(pendingAck.value);
      }
      pendingAck, phase := None, Idle;
    }

    /** Upload local edits made since the checkpoint, then store it. A failed upload changes nothing. */
    method PushWorkspace(order: seq<Path>, tree: Tree, accepted: seq<Path>, refused: set<Path>, answered: bool,
                         ghost archives: iset<Tree>, life: nat)
      requires Linked(archives) && StoreOk(archives) && alive && phase.Idle?
      requires Enumerates(order, workspace.synchronized.files.Keys + workspace.root.fs.files.Keys)
      requires Answer(workspace.root.fs.files, workspace.synchronized.files, tree, accepted, refused)
      requires BaseAfterUpload(workspace.synchronized.files, workspace.root.fs.files, accepted, refused) in archives
      modifies this`journal, this`state, this`persisted, this`alive, this`torn, this`stored, workspace
      modifies client`server, client`received, store
      ensures Linked(archives) && StoreOk(archives) && Reaches(old(View()), View())
      ensures alive ==> View() == Kept(AfterUpload(old(View()), tree, accepted, refused, answered))
      ensures |old(store.disk)| + 4 <= life ==> alive
      ensures client.received
           == old(client.received)
              + (if old(Pending(workspace.root.fs.files, workspace.synchronized.files)) == {} then []
                 else [Changes(old(workspace.synchronized.files), workspace.root.fs.files, order)])
    {
      ghost var start := View();
      Exchange(order, tree, accepted, refused, answered, archives);
      ghost var pushed := View();
      KeptReaches(pushed);
      Store(archives, life);
      ReachesOn(start, pushed, View());
    }

    method Exchange(order: seq<Path>, tree: Tree, accepted: seq<Path>, refused: set<Path>, answered: bool,
                    ghost archives: iset<Tree>)
      requires Linked(archives) && alive && phase.Idle?
      requires Enumerates(order, workspace.synchronized.files.Keys + workspace.root.fs.files.Keys)
      requires Answer(workspace.root.fs.files, workspace.synchronized.files, tree, accepted, refused)
      requires BaseAfterUpload(workspace.synchronized.files, workspace.root.fs.files, accepted, refused) in archives
      modifies this`journal, workspace, client`server, client`received
      ensures Linked(archives) && Reaches(old(View()), View())
      ensures View() == AfterUpload(old(View()), tree, accepted, refused, answered)
      ensures client.received
           == old(client.received)
              + (if old(Pending(workspace.root.fs.files, workspace.synchronized.files)) == {} then []
                 else [Changes(old(workspace.synchronized.files), workspace.root.fs.files, order)])
    {
      ghost var start := View();
      UploadReaches(start, tree, accepted, refused, answered);
      var advanced, sent := workspace.PushLocal(order, tree, accepted, refused, answered);
      if sent && answered {
        journal := journal + UploadEntry(start.local.files, accepted, refused);
      }
    }

    /** Fetch one page of events, process each, and store the checkpoint it ends at. */
    method Poll(page: seq<nat>, lastSeq: nat, ioErrors: nat -> set<Path>, fates: nat -> Fate,
                ghost archives: iset<Tree>, life: nat)
      requires Linked(archives) && StoreOk(archives) && alive && phase.Idle? && Inv(View())
      requires PageOf(client.server, cursor, lastSeq, page) && ClosedUnder(archives, client.server)
      modifies this, client`server, store, workspace, workspace.root
      ensures Linked(archives) && StoreOk(archives) && Reaches(old(View()), View())
      ensures alive ==> phase.Idle? && cursor == lastSeq && stored == Some(Mem())
      ensures alive ==> PageLeaves(old(View()), View(), page, ioErrors, |page|)
      ensures PageLasts(old(client.server), page, fates, |old(store.disk)| + 4 * |page| + 6, life) ==> alive
    {
      ghost var start, room := View(), |store.disk| + 4 * |page| + 6;
      ReachesSame(start);
      NothingDone(start, page, ioErrors);
      HandlePage(start, page, lastSeq, ioErrors, fates, archives, room);
      if alive {
        EndPage(start, page, lastSeq, ioErrors, archives, life);
      }
    }

    /** How far a page has been handled: the first `i` events, or the process has died, which it does only if
        something stops it. */
    ghost predicate OnPage(start: World, page: seq<nat>, ioErrors: nat -> set<Path>, fates: nat -> Fate, i: nat,
                           archives: iset<Tree>, room: nat)
      requires i <= |page| && start.client.On?
      reads this, client`server, store, workspace, workspace.root
    {
      && Linked(archives) && StoreOk(archives) && Reaches(start, View())
      && (alive ==> PageDone(start, View(), page, ioErrors, i))
      && |store.disk| + 4 * (|page| - i) + 6 <= room
      && (alive || !forall j :: 0 <= j < |page| ==> EventLasts(start.server, page[j], fates(j), room))
    }

    /** The events of a page, one after the other, as far as the process lives. */
    method HandlePage(ghost start: World, page: seq<nat>, ghost lastSeq: nat, ioErrors: nat -> set<Path>,
                      fates: nat -> Fate, ghost archives: iset<Tree>, ghost room: nat)
      requires start.client.On? && PageOf(start.server, start.client.mem.cursor, lastSeq, page)
               && ClosedUnder(archives, start.server) && Inv(start)
      requires alive && OnPage(start, page, ioErrors, fates, 0, archives, room)
      modifies this, client`server, store, workspace, workspace.root
      ensures OnPage(start, page, ioErrors, fates, |page|, archives, room)
    {
      for i := 0 to |page|
        invariant alive && OnPage(start, page, ioErrors, fates, i, archives, room)
      {
        HandleNext(start, page, lastSeq, i, ioErrors, fates, archives, room);
        if !alive {
          return;
        }
      }
    }

    method HandleNext(ghost start: World, page: seq<nat>, ghost lastSeq: nat, i: nat, ioErrors: nat -> set<Path>,
                      fates: nat -> Fate, ghost archives: iset<Tree>, ghost room: nat)
      requires i < |page|
      requires start.client.On? && PageOf(start.server, start.client.mem.cursor, lastSeq, page)
               && ClosedUnder(archives, start.server) && Inv(start)
      requires alive && OnPage(start, page, ioErrors, fates, i, archives, room)
      modifies this, client`server, store, workspace, workspace.root
      ensures OnPage(start, page, ioErrors, fates, i + 1, archives, room)
    {
      ghost var before := View();
      if EventLasts(start.server, page[i], fates(i), room) {
        LessLasts(start.server, page[i], fates(i), room, |store.disk| + 6);
      }
      HandleEvent(start, page, lastSeq, i, ioErrors(i), fates(i), archives);
      if alive {
        PageNext(start, before, View(), page, ioErrors, i);
      }
    }

    /** Move the cursor to the end of the page and store the checkpoint. */
    method EndPage(ghost start: World, ghost page: seq<nat>, lastSeq: nat, ghost ioErrors: nat -> set<Path>,
                   ghost archives: iset<Tree>, life: nat)
      requires Linked(archives) && StoreOk(archives) && alive && start.client.On?
      requires PageOf(start.server, start.client.mem.cursor, lastSeq, page)
      requires PageDone(start, View(), page, ioErrors, |page|)
      modifies this`cursor, this`state, this`persisted, this`alive, this`torn, this`stored, store
      ensures Linked(archives) && StoreOk(archives) && Reaches(start, View())
      ensures alive ==> cursor == lastSeq && stored == Some(Mem()) && phase.Idle?
      ensures alive ==> PageLeaves(start, View(), page, ioErrors, |page|)
      ensures |old(store.disk)| + 4 <= life ==> alive
    {
      ghost var handled := View();
      SkipReaches(start, handled, start.client.mem.cursor, lastSeq, page, |page|, lastSeq);
      cursor := lastSeq;
      ghost var processed := View();
      KeptReaches(processed);
      Store(archives, life);
      ReachesOn(start, processed, View());
      if alive {
        LeavesStored(start, handled, View(), page, ioErrors);
      }
    }

    /** One event of a page; a patch is carried to its stored, acknowledged checkpoint. */
    method HandleEvent(ghost start: World, page: seq<nat>, ghost lastSeq: nat, i: nat, ioErrors: set<Path>, fate: Fate,
                       ghost archives: iset<Tree>)
      requires Linked(archives) && StoreOk(archives) && alive && i < |page|
      requires start.client.On? && PageOf(start.server, start.client.mem.cursor, lastSeq, page)
               && ClosedUnder(archives, start.server)
      requires Inv(start) && Between(start, View(), if i == 0 then start.client.mem.cursor else page[i - 1])
      modifies this, client`server, store, workspace, workspace.root
      ensures Linked(archives) && StoreOk(archives) && Reaches(start, View())
      ensures alive ==> Between(start, View(), page[i]) && EventDone(old(View()), View(), page[i], ioErrors)
      ensures EventLasts(start.server, page[i], fate, |old(store.disk)| + 6) ==> alive
      ensures |store.disk| <= |old(store.disk)| + 4
    {
      ghost var now := View();
      ghost var cursorBefore := if i == 0 then start.client.mem.cursor else page[i - 1];
      if IsPatch(client.server, page[i]) {
        ReachesKeeps(start, now);
        NextPatchReady(now, start.client.mem.cursor, lastSeq, page, i);
        HandlePatch(page[i], ioErrors, fate, archives);
        ReachesOn(start, now, View());
        if alive {
          DeliveryFacts(start, now, page[i], ioErrors, cursorBefore, View());
        }
      } else {
        SkipReaches(start, now, start.client.mem.cursor, lastSeq, page, i, page[i]);
        cursor := page[i];
      }
    }

    // ---------------------------------------------------------------- the end of a session

    /** Visit the changed paths of the final workspace, as far as the process lives. */
    method VisitPaths(order: seq<Path>, ghost some: Patch, ioErrors: set<Path>, paths: nat, ghost archives: iset<Tree>)
      returns (final: Tree, clashes: seq<Path>)
      requires Linked(archives) && alive && client.server.history != []
      requires Enumerates(order, workspace.synchronized.files.Keys + FinalTree(client.server).Keys)
      requires some == Changes(workspace.synchronized.files, FinalTree(client.server), order[..Min(paths, |order|)])
      modifies this`edited, this`overwrites, workspace.root
      ensures View() == Visited(old(View()), some, ioErrors) && final == FinalTree(client.server)
      ensures clashes == [] <==> Clashes(old(workspace.root.fs), some, workspace.conflicts, ioErrors) == {}
    {
      ghost var fs := workspace.root.fs;
      NoClashes(fs, some, workspace.conflicts, ioErrors);
      ghost var outcome := Merge(fs, fs.files, some, workspace.conflicts, ioErrors);
      var applied;
      final, applied, clashes := workspace.Finalize(order, ioErrors, paths);
      assert Outcome(workspace.root.fs, applied, clashes) == outcome;
      edited, overwrites := {}, overwrites + Replaced(fs, fs.files, some, workspace.conflicts, ioErrors);
    }

    /** Merge the final remote workspace into the root. */
    method Reconcile(order: seq<Path>, ioErrors: set<Path>, paths: nat, survives: bool, ghost archives: iset<Tree>)
      returns (final: Tree, clashes: seq<Path>)
      requires Linked(archives) && alive && phase.Idle? && client.server.history != []
      requires Enumerates(order, workspace.synchronized.files.Keys + FinalTree(client.server).Keys)
      modifies this`alive, this`phase, this`edited, this`overwrites, workspace.root
      ensures Linked(archives) && Reaches(old(View()), View())
      ensures alive ==> phase.Merged? && (clashes == [] <==> phase.clashes == {}) && phase.final == final
      ensures var ops := Changes(workspace.synchronized.files, FinalTree(client.server), order);
              alive ==> View() == DoneMerging(old(View()), ops, ioErrors)
      ensures alive <==> |order| <= paths && survives
    {
      ghost var start := View();
      ghost var base, remote := workspace.synchronized.files, FinalTree(client.server);
      ghost var n := Min(paths, |order|);
      ghost var ops, some := Changes(base, remote, order), Changes(base, remote, order[..n]);
      FinalOpsOf(base, remote, order, n);
      final, clashes := VisitPaths(order, some, ioErrors, paths, archives);
      if paths < |order| || !survives {
        MergeStops(start, ops, some, ioErrors);
        alive := false;
        return;
      }
      NoteMerged(start, ops, ioErrors, clashes, archives);
    }

    /** Every changed path has been visited: the clashes are noted. */
    method NoteMerged(ghost start: World, ghost ops: Patch, ghost ioErrors: set<Path>, clashes: seq<Path>,
                      ghost archives: iset<Tree>)
      requires Linked(archives) && alive && BeginFinalStep(start).Some? && View() == Visited(start, ops, ioErrors)
      requires FinalOps(start.client.mem.base, FinalTree(start.server), ops)
      requires Pending(FinalTree(start.server), start.client.mem.base) - PathsOf(ops) == {}
      requires clashes == [] <==> Clashes(start.local, ops, start.client.mem.conflicts, ioErrors) == {}
      modifies this`phase
      ensures Linked(archives) && View() == DoneMerging(start, ops, ioErrors) && Reaches(start, View())
      ensures phase.Merged? && (clashes == [] <==> phase.clashes == {}) && !phase.recovered
    {
      MergeFinishes(start, ops, ioErrors);
      phase := Merged(FinalTree(start.server), Clashes(start.local, ops, start.client.mem.conflicts, ioErrors), false);
    }

    /** Keep a conflicting result as a whole, acknowledge the handoff, and delete the stored session. A
        handoff that is gone by then counts as acknowledged. */
    method CloseSession(final: Tree, clashes: seq<Path>, recovers: bool, acks: bool, ghost archives: iset<Tree>,
                        life: nat)
      returns (recovery: Option<Tree>)
      requires Linked(archives) && StoreOk(archives) && alive && phase.Merged? && phase.final == final
      requires clashes == [] <==> phase.clashes == {}
      modifies this`alive, this`torn, this`stored, this`phase, client`handedOff, store
      ensures StoreOk(archives) && Reaches(old(View()), View())
      ensures recovery == if clashes != [] && recovers then Some(final) else None
      ensures alive ==> phase.Closed? && stored == None && S.View(store.disk, store.hash, id) == None
      ensures alive && clashes != [] ==> recovery.Some?
      ensures alive ==> client.handedOff
      ensures client.handedOff && !old(client.handedOff) ==> clashes == [] || recovery.Some?
      ensures stored != old(stored) ==> client.handedOff
      ensures (clashes == [] || recovers) && acks && |old(store.disk)| + 2 <= life ==> alive
    {
      ghost var start := View();
      ReachesSame(start);
      recovery := KeepConflicting(final, clashes, recovers);
      if !alive {
        return;
      }
      HandOff(acks, start);
      if alive {
        Forget(archives, life, start);
      }
    }

    /** Acknowledge the final handoff. */
    method HandOff(acks: bool, ghost start: World)
      requires alive && phase.Merged? && (phase.clashes == {} || phase.recovered) && Reaches(start, View())
      modifies this`alive, this`phase, client`handedOff
      ensures Reaches(start, View()) && (alive <==> acks)
      ensures alive ==> phase.Closed?
      ensures client.handedOff == (old(client.handedOff) || acks)
    {
      ghost var kept := View();
      ReachesDead(start, kept);
      if !acks {
        alive := false;
        return;
      }
      client.AcknowledgeWorkspace();
      HandoffReaches(kept);
      phase := Closed;
      ReachesOn(start, kept, View());
    }

    method KeepConflicting(final: Tree, clashes: seq<Path>, recovers: bool) returns (recovery: Option<Tree>)
      requires alive && phase.Merged? && (clashes == [] <==> phase.clashes == {})
      modifies this`alive, this`phase
      ensures Reaches(old(View()), View())
      ensures recovery == if clashes != [] && recovers then Some(final) else None
      ensures alive <==> clashes == [] || recovers
      ensures alive ==> phase.Merged? && (phase.clashes == {} || phase.recovered)
    {
      ghost var start := View();
      ReachesSame(start);
      recovery := None;
      if clashes != [] {
        if !recovers {
          ReachesDead(start, start);
          alive := false;
          return;
        }
        RecoveryReaches(start);
        phase, recovery := phase.(recovered := true), Some(final);
      }
    }

    /** The platform has no final workspace to download: only the stored session is deleted. */
    method CloseWithoutArchive(ghost archives: iset<Tree>, life: nat)
      requires Linked(archives) && StoreOk(archives) && alive && phase.Idle?
      modifies this`alive, this`torn, this`stored, this`phase, store
      ensures StoreOk(archives) && Reaches(old(View()), View())
      ensures alive ==> phase.Closed? && stored == None && S.View(store.disk, store.hash, id) == None
      ensures |old(store.disk)| + 2 <= life ==> alive
    {
      ghost var start := View();
      NoArchiveReaches(start);
      phase := Closed;
      Forget(archives, life, start);
    }

    method Forget(ghost archives: iset<Tree>, life: nat, ghost start: World)
      requires StoreOk(archives) && alive && phase.Closed? && Reaches(start, View())
      modifies this`alive, this`torn, this`stored, store
      ensures StoreOk(archives) && Reaches(start, View())
      ensures alive ==> stored == None && S.View(store.disk, store.hash, id) == None
      ensures |old(store.disk)| + 2 <= life ==> alive
    {
      ghost var closed := View();
      ForgetReaches(start, closed);
      Erase(archives, life);
      assert View() == if alive then Forgotten(closed) else if life > 0 then Dead(Forgotten(closed)) else Dead(closed);
    }

    /** Delete the stored session, as far as the process lives. */
    method Remove(life: nat) returns (gone: bool)
      requires S.ValidId(id)
      modifies store
      ensures S.DeletedUpTo(old(store.disk), id, life, store.disk, gone)
      ensures |old(store.disk)| + 2 <= life ==> gone
    {
      var result := store.Delete(id, life);
      gone := result.value;
    }

    method Erase(ghost archives: iset<Tree>, life: nat)
      requires StoreOk(archives) && alive
      modifies this`alive, this`torn, this`stored, store
      ensures StoreOk(archives) && stored == if life > 0 then None else old(stored)
      ensures alive ==> life > 0 && S.View(store.disk, store.hash, id) == None
      ensures |old(store.disk)| + 2 <= life ==> alive
    {
      ghost var before := store.disk;
      var gone := Remove(life);
      SaysNothing(before, store.hash, id, home, stored, life, store.disk, gone);
      alive, torn := gone, true;
      if life > 0 {
        stored := None;
      }
    }
  }
}
