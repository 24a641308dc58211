/** The driver of an ending command that finds no usable workspace: the directory is gone, or the stored
    base cannot be read. It reads the transcript without applying a patch, stores the cursor it reaches,
    and keeps the final result as a whole. */
module EndingSession {
  import opened Options
  import opened Workspace
  import opened WorkspaceSync
  import opened SyncProtocol
  import opened SyncSafety
  import opened SyncRuns
  import opened SessionRuns
  import H = HostedSession
  import S = SessionState

  /** The stored session says what the checkpoint says, whether or not its base can be read. */
  ghost predicate Holds(session: Option<S.Session>, stored: Option<Checkpoint>) {
    match stored
    case None => session.None?
    case Some(cp) =>
      && session.Some? && session.value.state.workspace.Some?
      && var state, workspace := session.value.state, session.value.state.workspace.value;
         && state.cursor == cp.cursor && workspace.conflicts == cp.conflicts
         && workspace.pendingAck == cp.pendingAck
         && (session.value.base.Ok? ==> session.value.base.value == cp.base)
  }

  /** Once the base can be read, it is the checkpoint that any other command starts from. */
  lemma HeldIsCheckpoint(session: Option<S.Session>, stored: Option<Checkpoint>)
    requires Holds(session, stored) && stored.Some? && session.value.base.Ok?
    ensures H.CheckpointOf(session, stored.value.journal) == stored
  {
  }

  lemma SavedWithoutArchive(before: S.Disk, hash: Tree -> string, was: S.State, updated: S.State, life: nat,
                            after: S.Disk, finished: bool, stored: Option<Checkpoint>, cp: Checkpoint, home: string)
    requires S.HexHash(hash) && S.Load(before, was.sessionId) == Some(was) && updated.sessionId == was.sessionId
    requires was.workspace.Some? && updated.workspace.Some?
    requires updated.workspace.value.baseDigest == was.workspace.value.baseDigest
    requires Holds(S.View(before, hash, was.sessionId), stored) && stored.Some? && stored.value.base == cp.base
    requires updated.cursor == cp.cursor && updated.workspace.value.conflicts == cp.conflicts
    requires updated.workspace.value.pendingAck == cp.pendingAck
    requires H.RootedAt(S.View(before, hash, was.sessionId), was.sessionId, home)
    requires updated.workspace.value.root == home
    requires S.SavedUpTo(before, hash, updated, None, life, after, finished)
    ensures var found := S.View(after, hash, was.sessionId);
            && Holds(found, H.SaidAfter(before, after, hash, was.sessionId, finished, stored, cp))
            && H.RootedAt(found, was.sessionId, home)
            && (finished ==> S.Load(after, was.sessionId) == Some(updated))
  {
    var steps :| S.SaveScript(before, hash, updated, None, steps)
      && after == S.Cut(before, steps, life) && (finished <==> |steps| <= life);
    S.StateSaveKeepsBase(before, hash, updated, steps, life);
  }

  class EndingDriver {
    const client: H.PlatformClient
    const store: S.SessionStateStore
    const id: string
    var state: S.State
    var cursor: nat
    var pendingAck: Option<nat>
    var alive: bool
    ghost const base: Tree
    ghost const conflicts: set<Path>
    ghost const world: World
    ghost const home: string
    ghost var torn: bool
    ghost var stored: Option<Checkpoint>
    ghost var phase: Phase
    ghost var journal: seq<Entry>

    /** Resolve a stored session whose workspace cannot be loaded. */
    constructor (client: H.PlatformClient, store: S.SessionStateStore, id: string, ghost was: World)
      requires S.ValidId(id) && S.HexHash(store.hash) && was.server == client.server
      requires was.client.Off? && was.disk.Some? && Holds(S.View(store.disk, store.hash, id), was.disk)
      requires S.View(store.disk, store.hash, id).value.state.sessionId == id
      ensures StoreOk() && alive && View() == StartStep(was, true).value
      ensures this.client == client && this.store == store && this.id == id
      ensures home == S.Load(store.disk, id).value.workspace.value.root
    {
      var session := S.Load(store.disk, id).value;
      this.client, this.store, this.id := client, store, id;
      this.state, this.cursor, this.pendingAck := session, session.cursor, session.workspace.value.pendingAck;
      this.alive, this.torn, this.base, this.conflicts := true, false, was.disk.value.base, was.disk.value.conflicts;
      this.home := session.workspace.value.root;
      this.world, this.stored, this.phase, this.journal := was, was.disk, Retrying(true), was.disk.value.journal;
    }

    ghost function Mem(): Checkpoint
      reads this`cursor, this`pendingAck, this`journal
    {
      Checkpoint(cursor, base, conflicts, pendingAck, journal)
    }

    /** The directory, if there is one, is not touched. */
    ghost function View(): World
      reads this`cursor, this`pendingAck, this`journal, this`stored, this`alive, this`phase, client`server
    {
      World(world.local, client.server, stored, if alive then On(Mem(), phase, false) else Off,
            world.edited, world.overwrites)
    }

    ghost predicate StoreOk()
      reads this`state, this`torn, this`stored, this`alive, this`phase, store
    {
      && S.ValidId(id) && S.HexHash(store.hash)
      && Holds(S.View(store.disk, store.hash, id), stored)
      && H.RootedAt(S.View(store.disk, store.hash, id), id, home)
      && (stored.Some? ==> stored.value.base == base)
      && (alive && !phase.Closed? ==> !torn)
      && (!torn ==>
            && stored.Some? && state.sessionId == id && state.workspace.Some?
            && state.workspace.value.conflicts == conflicts && state.workspace.value.root == home
            && S.Load(store.disk, id) == Some(state))
    }

    /** Advance the stored cursor and the pending acknowledgement; conflicts and base stay as they are. */
    method Persist(life: nat)
      requires StoreOk() && alive && phase.Passing?
      modifies this`state, this`alive, this`torn, this`stored, store
      ensures StoreOk() && Reaches(old(View()), View())
      ensures alive ==> View() == Kept(old(View()))
      ensures |old(store.disk)| + 4 <= life ==> alive
    {
      KeptReaches(View());
      Keep(life);
    }

    method Keep(life: nat)
      requires StoreOk() && alive && phase.Passing?
      modifies this`state, this`alive, this`torn, this`stored, store
      ensures StoreOk()
      ensures alive ==> stored == Some(Mem())
      ensures !alive ==> stored == old(stored) || stored == Some(Mem())
      ensures |old(store.disk)| + 4 <= life ==> alive
    {
      var update := state.workspace.value.(pendingAck := pendingAck);
      if cursor == state.cursor && Some(update) == state.workspace {
        stored := Some(Mem());
        return;
      }
      ghost var before := store.disk;
      var saved, finished := SaveState(state.(cursor := cursor, workspace := Some(update)), life);
      stored := H.SaidAfter(before, store.disk, store.hash, id, finished, stored, Mem());
      alive, torn := finished, !finished;
      if finished {
        state := saved;
      }
    }

    /** Hand the state to the store, as far as the process lives. */
    method Write(updated: S.State, life: nat) returns (saved: S.State, finished: bool)
      requires S.ValidId(updated.sessionId)
      modifies store
      ensures saved == updated && S.SavedUpTo(old(store.disk), store.hash, updated, None, life, store.disk, finished)
      ensures |old(store.disk)| + 4 <= life ==> finished
    {
      var result;
      result, finished := store.Save(updated, None, life);
      saved := result.value;
    }

    method SaveState(updated: S.State, life: nat) returns (saved: S.State, finished: bool)
      requires StoreOk() && alive && phase.Passing?
      requires updated == state.(cursor := cursor,
                                 workspace := Some(state.workspace.value.(pendingAck := pendingAck)))
      modifies store
      ensures saved == updated && (finished ==> S.Load(store.disk, id) == Some(updated))
      ensures Holds(S.View(store.disk, store.hash, id),
                    H.SaidAfter(old(store.disk), store.disk, store.hash, id, finished, stored, Mem()))
      ensures H.RootedAt(S.View(store.disk, store.hash, id), id, home)
      ensures |old(store.disk)| + 4 <= life ==> finished
    {
      ghost var before := store.disk;
      saved, finished := Write(updated, life);
      SavedWithoutArchive(before, store.hash, state, updated, life, store.disk, finished, stored, Mem(), home);
    }

    /** Deliver the acknowledgement an earlier invocation could not send, then forget it durably. */
    method RetryPendingAck(sends: bool, life: nat)
      requires StoreOk() && alive && phase == Retrying(true)
      modifies this`pendingAck, this`state, this`alive, this`torn, this`stored, this`phase, client`server, store
      ensures StoreOk() && Reaches(old(View()), View())
      ensures alive ==> phase.Passing? && View() == Kept(RetryStep(old(View())).value)
      ensures (sends || old(pendingAck).None?) && |old(store.disk)| + 4 <= life ==> alive
    {
      ghost var start := View();
      RetryReaches(start);
      if pendingAck.Some? {
        if !sends {
          alive := false;
          return;
        }
        var found := client.AcknowledgePatch(pendingAck.value);
      }
      pendingAck, phase := None, Passing;
      ghost var retried := View();
      assert retried == RetryStep(start).value;
      Persist(life);
      ReachesOn(start, retried, View());
    }

    /** Fetch one page of events, move the cursor over each, and store where it ends. Every patch on it is
        passed: neither downloaded nor acknowledged. */
    method Poll(page: seq<nat>, lastSeq: nat, life: nat)
      requires StoreOk() && alive && phase.Passing? && PageOf(client.server, cursor, lastSeq, page)
      modifies this`cursor, this`journal, this`state, this`alive, this`torn, this`stored, store
      ensures StoreOk() && Reaches(old(View()), View())
      ensures alive ==> phase.Passing? && cursor == lastSeq && stored == Some(Mem())
      ensures |old(store.disk)| + 4 <= life ==> alive
      ensures forall k :: k in page && IsPatch(client.server, k) ==> Passed(k) in journal
    {
      ghost var start := View();
      PassPage(page, lastSeq, start);
      ghost var read := View();
      Persist(life);
      ReachesOn(start, read, View());
    }

    method PassPage(page: seq<nat>, lastSeq: nat, ghost start: World)
      requires StoreOk() && alive && phase.Passing? && PageOf(client.server, cursor, lastSeq, page) && start == View()
      modifies this`cursor, this`journal
      ensures StoreOk() && Reaches(start, View()) && cursor == lastSeq
      ensures forall k :: k in page && IsPatch(client.server, k) ==> Passed(k) in journal
    {
      ReachesSame(start);
      ghost var from := cursor;
      for i := 0 to |page|
        invariant StoreOk() && alive && Reaches(start, View())
        invariant cursor == if i == 0 then from else page[i - 1]
        invariant forall j :: 0 <= j < i && IsPatch(client.server, page[j]) ==> Passed(page[j]) in journal
      {
        assert page[i] in page && (i > 0 ==> page[i - 1] in page);
        forall j: nat | cursor < j < page[i] ensures !IsPatch(client.server, j) {
          NothingBetween(client.server, from, lastSeq, page, i, j);
        }
        HandleEvent(page[i], start);
      }
      assert |page| > 0 ==> page[|page| - 1] in page;
      forall j: nat | cursor < j < lastSeq + 1 ensures !IsPatch(client.server, j) {
        NothingBetween(client.server, from, lastSeq, page, |page|, j);
      }
      HandleEvent(lastSeq, start);
    }

    /** Move the cursor to one event; a patch that is announced there is noted as passed. */
    method HandleEvent(to: nat, ghost start: World)
      requires StoreOk() && alive && phase.Passing? && Reaches(start, View()) && PassStep(View(), to).Some?
      modifies this`cursor, this`journal
      ensures StoreOk() && Reaches(start, View()) && cursor == to
      ensures journal == old(journal) + Skipped(client.server, old(cursor), to)
    {
      ghost var before := View();
      PassReaches(before, to);
      journal := journal + Skipped(client.server, cursor, to);
      cursor := to;
      assert View() == PassStep(before, to).value;
      ReachesOn(start, before, View());
    }

    /** Keep the final workspace as a recovery archive without a local sync, acknowledge the handoff, and
        delete the stored session; without a final workspace only the session is deleted. */
    method Finish(found: bool, recovers: bool, acks: bool, life: nat) returns (recovery: Option<Tree>)
      requires StoreOk() && alive && phase.Passing? && client.server.history != []
      modifies this`alive, this`torn, this`stored, this`phase, client`handedOff, store
      ensures StoreOk() && Reaches(old(View()), View())
      ensures recovery == if found && recovers then Some(FinalTree(client.server)) else None
      ensures alive ==> phase.Closed? && stored == None && S.View(store.disk, store.hash, id) == None
      ensures alive && found ==> recovery.Some? && client.handedOff
      ensures client.handedOff && !old(client.handedOff) ==> recovery.Some?
      ensures found && stored != old(stored) ==> client.handedOff
      ensures (found ==> recovers && acks) && |old(store.disk)| + 2 <= life ==> alive
    {
      recovery := None;
      ghost var start := View();
      if found {
        recovery := KeepFinal(recovers, acks);
        if !alive {
          return;
        }
      } else {
        NoArchiveReaches(start);
        phase := Closed;
      }
      Forget(life, start);
    }

    method KeepFinal(recovers: bool, acks: bool) returns (recovery: Option<Tree>)
      requires alive && phase.Passing? && client.server.history != []
      modifies this`alive, this`phase, client`handedOff
      ensures Reaches(old(View()), View())
      ensures recovery == if recovers then Some(FinalTree(client.server)) else None
      ensures alive <==> recovers && acks
      ensures alive ==> phase.Closed?
      ensures client.handedOff == (old(client.handedOff) || alive)
    {
      ghost var start := View();
      var final := client.DownloadWorkspace();
      if !recovers {
        ReachesSame(start);
        ReachesDead(start, start);
        alive := false;
        return None;
      }
      SalvageReaches(start);
      phase := Merged(final, {}, true);
      ghost var kept := View();
      if !acks {
        ReachesDead(start, kept);
        alive := false;
        return Some(final);
      }
      client.AcknowledgeWorkspace();
      HandoffReaches(kept);
      phase := Closed;
      ReachesOn(start, kept, View());
      return Some(final);
    }

    method Forget(life: nat, ghost start: World)
      requires StoreOk() && alive && phase.Closed? && Reaches(start, View())
      modifies this`alive, this`torn, this`stored, store
      ensures StoreOk() && Reaches(start, View())
      ensures alive ==> stored == None && S.View(store.disk, store.hash, id) == None
      ensures |old(store.disk)| + 2 <= life ==> alive
    {
      ghost var closed := View();
      ForgetReaches(start, closed);
      Erase(life);
      assert View() == if alive then Forgotten(closed) else if life > 0 then Dead(Forgotten(closed)) else Dead(closed);
    }

    method Erase(life: nat)
      requires StoreOk() && alive && phase.Closed?
      modifies this`alive, this`torn, this`stored, store
      ensures StoreOk() && stored == if life > 0 then None else old(stored)
      ensures alive ==> life > 0 && S.View(store.disk, store.hash, id) == None
      ensures |old(store.disk)| + 2 <= life ==> alive
    {
      ghost var before := store.disk;
      var gone := Remove(life);
      H.DeletionOutcome(before, store.hash, id, life, store.disk, gone);
      alive, torn := gone, true;
      if life > 0 {
        stored := None;
      }
    }

    /** Delete the stored session, as far as the process lives. */
    method Remove(life: nat) returns (gone: bool)
      requires S.ValidId(id)
      modifies store
      ensures S.DeletedUpTo(old(store.disk), id, life, store.disk, gone)
      ensures |old(store.disk)| + 2 <= life ==> gone
    {
      var result := store.Delete(id, life);
      gone := result.value;
    }
  }
}
