/** What holds in every state any run of the sync protocol can reach: no local work is lost, every
    patch is either still deliverable or already in the checkpoint, no acknowledgement leaks. */
module SyncSafety {
  import opened Options
  import opened Workspace
  import opened WorkspaceSync
  import opened SyncProtocol

  // ------------------------------------------------------------------ invariants

  /** The base after what one journal entry says. */
  function Moved(base: Tree, entry: Entry): Tree {
    match entry
    case Delivered(_, ops, rejected) => Absorb(base, ops, rejected)
    case AcceptedSome(snapshot, paths) => Overlay(base, snapshot, paths)
    case AcceptedAll(snapshot) => snapshot
    case SlotLost(_) => base
    case Passed(_) => base
  }

  /** The base that a journal of deliveries and uploads leads to. */
  function Replay(initial: Tree, journal: seq<Entry>): Tree {
    if journal == [] then initial
    else Moved(Replay(initial, journal[..|journal| - 1]), journal[|journal| - 1])
  }

  ghost predicate BaseHeld(history: seq<Tree>, base: Tree) {
    forall p :: Held(history, p, At(base, p))
  }

  predicate Delivers(entry: Entry, k: nat) {
    entry.Delivered? && entry.event == k
  }

  /** The outcome of patch `k` is part of the checkpoint: the base replays a journal in which the
      patch was absorbed, and whatever it could not apply is among the conflicts. */
  ghost predicate OutcomeIn(cp: Checkpoint, s: Server, k: nat)
  {
    && IsPatch(s, k) && s.history != []
    && cp.base == Replay(s.history[0], cp.journal)
    && exists j :: 0 <= j < |cp.journal| && Delivers(cp.journal[j], k)
         && cp.journal[j].ops == s.events[k].ops && cp.journal[j].rejected <= cp.conflicts
  }

  /** Some delivery of patch `k` is in the journal. */
  ghost predicate DeliveredIn(journal: seq<Entry>, k: nat) {
    exists j :: 0 <= j < |journal| && Delivers(journal[j], k)
  }

  /** Every delivery in the journal is that of an announced patch, as it was announced. */
  ghost predicate Genuine(cp: Checkpoint, s: Server) {
    forall j :: 0 <= j < |cp.journal| && cp.journal[j].Delivered? ==>
      IsPatch(s, cp.journal[j].event) && cp.journal[j].ops == s.events[cp.journal[j].event].ops
      && cp.journal[j].rejected <= cp.conflicts
  }

  /** Every patch at or below the cursor was delivered, unless a command without a workspace passed it. */
  ghost predicate Covered(cp: Checkpoint, s: Server) {
    forall k: nat :: IsPatch(s, k) && k <= cp.cursor ==> DeliveredIn(cp.journal, k) || Passed(k) in cp.journal
  }

  ghost predicate Sound(cp: Checkpoint, s: Server) {
    && s.history != []
    && cp.cursor <= s.last
    && cp.base == Replay(s.history[0], cp.journal)
    && BaseHeld(s.history, cp.base)
    && Genuine(cp, s) && Covered(cp, s)
    && (cp.pendingAck.Some? ==> IsPatch(s, cp.pendingAck.value) && cp.pendingAck.value <= cp.cursor)
  }

  /** Every patch above the cursor can still be downloaded. */
  ghost predicate Deliverable(cp: Checkpoint, s: Server) {
    forall k: nat :: IsPatch(s, k) && cp.cursor < k ==> k in s.objects
  }

  ghost predicate ServerOk(s: Server) {
    && s.history != []
    && (forall k :: k in s.events ==> k <= s.last)
    && (forall k :: k in s.objects ==> IsPatch(s, k))
    && (forall k: nat :: IsPatch(s, k) ==> WellFormed(s.events[k].ops) && OpsHeld(s.history, s.events[k].ops))
  }

  ghost predicate NextPatch(s: Server, cursor: nat, k: nat) {
    IsPatch(s, k) && cursor < k && NoPatchBetween(s, cursor, k)
  }

  /** Outside the paths the user has just edited, the rest of the patch meets the tree it scanned. */
  ghost predicate ScanFresh(w: World, scan: Tree, ops: Patch, next: nat) {
    forall i :: next <= i < |ops| && ops[i].path !in w.edited ==>
      At(w.local.files, ops[i].path) == At(scan, ops[i].path)
  }

  ghost predicate Arrived(w: World, final: Tree, base: Tree, todo: set<Path>, clashes: set<Path>) {
    forall p :: At(final, p) != At(base, p) && p !in todo && p !in clashes && p !in w.edited
      ==> At(w.local.files, p) == At(final, p)
  }

  ghost predicate PhaseOk(w: World)
    requires w.client.On?
  {
    var mem, s := w.client.mem, w.server;
    && (w.client.attached ==> w.disk.None?)
    && (w.client.attached || w.client.phase.Closed? || w.disk.Some?)
    && match w.client.phase
       case Retrying(_) => !w.client.attached && w.disk == Some(mem)
       case Idle => true
       case Passing => !w.client.attached
       case Applying(k, scan, next, _) =>
         NextPatch(s, mem.cursor, k) && next <= |s.events[k].ops| && ScanFresh(w, scan, s.events[k].ops, next)
       case Recorded(k, rejected) => NextPatch(s, mem.cursor, k) && rejected <= mem.conflicts
       case Landed(k) => NextPatch(s, mem.cursor, k) && DeliveredIn(mem.journal, k)
       case Counted(k) => IsPatch(s, k) && k <= mem.cursor
       case Marked(k) => IsPatch(s, k) && k <= mem.cursor
       case Saved(k) => IsPatch(s, k) && k <= mem.cursor && (w.client.attached || k <= w.disk.value.cursor)
       case Acked(k) => IsPatch(s, k) && k !in s.objects
       case Uploading(snapshot, applied, refused) =>
         && (forall p :: p in applied ==> p !in refused)
         && (forall p :: p !in refused ==> Held(s.history, p, At(snapshot, p)))
       case Merging(final, scan, todo, clashes) =>
         && (forall p :: p in todo && p !in w.edited ==> At(w.local.files, p) == At(scan, p))
         && Arrived(w, final, mem.base, todo, clashes)
       case Merged(final, clashes, recovered) => recovered || Arrived(w, final, mem.base, {}, clashes)
       case Closed => true
  }

  ghost predicate NothingLost(w: World) {
    forall i :: 0 <= i < |w.overwrites| ==>
      w.overwrites[i].edited || Held(w.server.history, w.overwrites[i].path, w.overwrites[i].state)
  }

  /** The patch lost its acknowledgement slot, or never had one. */
  predicate Disowned(journal: seq<Entry>, k: nat) {
    SlotLost(k) in journal || Passed(k) in journal
  }

  /** Of the patches at or below the cursor that still have their object, exactly those have lost their
      slot or were passed that are neither pending nor in flight. */
  ghost predicate Slots(cp: Checkpoint, s: Server, inFlight: Option<nat>) {
    && (forall k: nat :: Disowned(cp.journal, k) ==> k <= cp.cursor)
    && forall k: nat :: IsPatch(s, k) && k in s.objects && k <= cp.cursor ==>
         (Disowned(cp.journal, k) <==> cp.pendingAck != Some(k) && inFlight != Some(k))
  }

  ghost predicate SlotsOk(w: World) {
    && (w.disk.Some? ==> Slots(w.disk.value, w.server, None))
    && (w.client.On? ==>
         var mem, phase := w.client.mem, w.client.phase;
         && Slots(mem, w.server, InFlight(w.client))
         && (w.client.attached ==> mem.pendingAck.None?)
         && (phase.Counted? ==> mem.pendingAck != Some(phase.event))
         && (!w.client.attached && (phase.Marked? || phase.Saved? || phase.Acked?) ==>
               mem.pendingAck == Some(phase.event)))
  }

  ghost predicate Inv(w: World) {
    && ServerOk(w.server)
    && (w.disk.Some? ==> Sound(w.disk.value, w.server) && Deliverable(w.disk.value, w.server))
    && (w.client.On? ==> Sound(w.client.mem, w.server) && Deliverable(w.client.mem, w.server) && PhaseOk(w))
    && NothingLost(w)
    && SlotsOk(w)
  }

  // ------------------------------------------------------------------ how the platform evolves

  ghost predicate Grows(s: Server, s': Server) {
    && s.history <= s'.history && s.last <= s'.last
    && (forall k :: k in s.events ==> k in s'.events && s'.events[k] == s.events[k])
    && (forall k :: k in s'.events && k !in s.events ==> s.last < k)
  }

  lemma HeldGrows(history: seq<Tree>, more: seq<Tree>, p: Path, state: Option<FileState>)
    requires history <= more && Held(history, p, state)
    ensures Held(more, p, state)
  {
    var i :| 0 <= i < |history| && At(history[i], p) == state;
    assert more[i] == history[i];
  }

  lemma SoundGrows(cp: Checkpoint, s: Server, s': Server)
    requires Sound(cp, s) && Grows(s, s')
    ensures Sound(cp, s')
  {
    assert s'.history[0] == s.history[0];
    forall p ensures Held(s'.history, p, At(cp.base, p)) {
      HeldGrows(s.history, s'.history, p, At(cp.base, p));
    }
  }

  lemma ServerStays(s: Server, s': Server)
    requires ServerOk(s) && s.history <= s'.history && s'.events == s.events && s'.last == s.last
             && s'.objects <= s.objects
    ensures ServerOk(s') && Grows(s, s')
  {
    forall k: nat | IsPatch(s', k) ensures OpsHeld(s'.history, s'.events[k].ops) {
      var ops := s.events[k].ops;
      assert IsPatch(s, k);
      forall i | 0 <= i < |ops|
        ensures Held(s'.history, ops[i].path, ops[i].before) && Held(s'.history, ops[i].path, ops[i].after)
      {
        HeldGrows(s.history, s'.history, ops[i].path, ops[i].before);
        HeldGrows(s.history, s'.history, ops[i].path, ops[i].after);
      }
    }
  }

  lemma LossStays(w: World, w': World)
    requires NothingLost(w) && w'.overwrites == w.overwrites && w.server.history <= w'.server.history
    ensures NothingLost(w')
  {
    forall i | 0 <= i < |w.overwrites| && !w.overwrites[i].edited
      ensures Held(w'.server.history, w.overwrites[i].path, w.overwrites[i].state)
    {
      HeldGrows(w.server.history, w'.server.history, w.overwrites[i].path, w.overwrites[i].state);
    }
  }

  // ------------------------------------------------------------------ the platform and the user

  lemma EditKeeps(w: World, fs: Fs)
    requires Inv(w)
    ensures Inv(EditStep(w, fs))
  {
  }

  lemma ChangeRemoteKeeps(w: World, tree: Tree)
    requires Inv(w)
    ensures Inv(w.(server := w.server.(history := w.server.history + [tree])))
  {
    GrowthKeeps(w, w.server.(history := w.server.history + [tree]));
  }

  /** More remote history, with transcript and objects as they were, disturbs nothing. */
  lemma GrowthKeeps(w: World, s: Server)
    requires Inv(w)
    requires w.server.history <= s.history && s.events == w.server.events && s.last == w.server.last
             && s.objects == w.server.objects
    ensures Inv(w.(server := s))
  {
    var w' := w.(server := s);
    ServerStays(w.server, s);
    LossStays(w, w');
    if w.disk.Some? { SoundGrows(w.disk.value, w.server, s); }
    if w.client.On? {
      SoundGrows(w.client.mem, w.server, s);
      PhaseGrows(w, s);
    }
  }

  lemma PhaseGrows(w: World, s: Server)
    requires w.client.On? && PhaseOk(w) && Grows(w.server, s) && w.server.history != []
    requires w.client.phase.Acked? ==> w.client.phase.event !in s.objects
    requires forall k: nat :: IsPatch(w.server, k) ==> k <= w.server.last
    ensures PhaseOk(w.(server := s))
  {
    var w' := w.(server := s);
    var mem := w.client.mem;
    match w.client.phase
    case Applying(k, _, _, _) => NextPatchGrows(w.server, s, mem.cursor, k);
    case Recorded(k, _) => NextPatchGrows(w.server, s, mem.cursor, k);
    case Landed(k) => NextPatchGrows(w.server, s, mem.cursor, k);
    case Uploading(snapshot, _, refused) =>
      forall p | p !in refused ensures Held(s.history, p, At(snapshot, p)) {
        HeldGrows(w.server.history, s.history, p, At(snapshot, p));
      }
    case _ =>
  }

  lemma NextPatchGrows(s: Server, s': Server, cursor: nat, k: nat)
    requires NextPatch(s, cursor, k) && Grows(s, s') && k <= s.last
    ensures NextPatch(s', cursor, k)
  {
    forall j: nat | cursor < j < k ensures !IsPatch(s', j) {
      assert !IsPatch(s, j);
    }
  }

  /** The platform after one more event. */
  function WithEvent(s: Server, k: nat, event: Event): Server {
    s.(events := s.events[k := event], last := k, objects := if event.PatchEvent? then s.objects + {k} else s.objects)
  }

  lemma EventGrows(s: Server, k: nat, event: Event)
    requires ServerOk(s) && k > s.last
    requires event.PatchEvent? ==> WellFormed(event.ops) && OpsHeld(s.history, event.ops)
    ensures ServerOk(WithEvent(s, k, event)) && Grows(s, WithEvent(s, k, event))
    ensures forall j: nat :: IsPatch(WithEvent(s, k, event), j) ==> (j == k && event.PatchEvent?) || IsPatch(s, j)
  {
  }

  /** A new patch is above every cursor and has its object. */
  lemma CheckpointGrows(cp: Checkpoint, s: Server, k: nat, event: Event)
    requires ServerOk(s) && Sound(cp, s) && Deliverable(cp, s) && k > s.last
    requires event.PatchEvent? ==> WellFormed(event.ops) && OpsHeld(s.history, event.ops)
    ensures Sound(cp, WithEvent(s, k, event)) && Deliverable(cp, WithEvent(s, k, event))
    ensures forall inFlight :: Slots(cp, s, inFlight) ==> Slots(cp, WithEvent(s, k, event), inFlight)
  {
    EventGrows(s, k, event);
    SoundGrows(cp, s, WithEvent(s, k, event));
  }

  lemma EventKeeps(w: World, k: nat, event: Event)
    requires Inv(w) && k > w.server.last
    requires event.PatchEvent? ==> WellFormed(event.ops) && OpsHeld(w.server.history, event.ops)
    ensures Inv(w.(server := WithEvent(w.server, k, event)))
  {
    var s := WithEvent(w.server, k, event);
    EventGrows(w.server, k, event);
    if w.disk.Some? { CheckpointGrows(w.disk.value, w.server, k, event); }
    if w.client.On? {
      CheckpointGrows(w.client.mem, w.server, k, event);
      PhaseGrows(w, s);
    }
    LossStays(w, w.(server := s));
  }

  // ------------------------------------------------------------------ starting and moving on

  lemma StartKeeps(w: World, blind: bool)
    requires Inv(w) && StartStep(w, blind).Some?
    ensures Inv(StartStep(w, blind).value)
  {
  }

  /** Acknowledging a patch the stored checkpoint already covers removes nothing anyone needs. */
  lemma ObjectGone(w: World, k: nat, s: Server)
    requires Inv(w) && s == w.server.(objects := w.server.objects - {k})
    requires w.disk.Some? ==> k <= w.disk.value.cursor
    requires w.client.On? ==> k <= w.client.mem.cursor
    ensures ServerOk(s) && NothingLost(w.(server := s))
    ensures w.disk.Some? ==> Sound(w.disk.value, s) && Deliverable(w.disk.value, s)
    ensures w.client.On? ==> Sound(w.client.mem, s) && Deliverable(w.client.mem, s)
  {
    ServerStays(w.server, s);
    LossStays(w, w.(server := s));
    if w.disk.Some? { SoundGrows(w.disk.value, w.server, s); }
    if w.client.On? { SoundGrows(w.client.mem, w.server, s); }
  }

  lemma RetryKeeps(w: World)
    requires Inv(w) && RetryStep(w).Some?
    ensures Inv(RetryStep(w).value)
  {
    var mem := w.client.mem;
    if mem.pendingAck.Some? {
      var k := mem.pendingAck.value;
      var s := w.server.(objects := w.server.objects - {k});
      ObjectGone(w, k, s);
      CursorOnly(mem, mem.(pendingAck := None), s);
    }
  }

  /** Soundness of a checkpoint does not depend on the acknowledgement slot or on what the journal notes
      beside the base, nor on the cursor as long as every patch it moves over is accounted for. */
  lemma CursorOnly(cp: Checkpoint, cp': Checkpoint, s: Server)
    requires Sound(cp, s) && cp'.base == cp.base && cp.conflicts <= cp'.conflicts
    requires cp.journal <= cp'.journal && Replay(s.history[0], cp'.journal) == cp.base
    requires forall j :: |cp.journal| <= j < |cp'.journal| ==> !cp'.journal[j].Delivered?
    requires cp'.cursor <= s.last
    requires forall k: nat :: IsPatch(s, k) && cp.cursor < k <= cp'.cursor ==>
               DeliveredIn(cp.journal, k) || Passed(k) in cp'.journal
    requires cp'.pendingAck.Some? ==> IsPatch(s, cp'.pendingAck.value) && cp'.pendingAck.value <= cp'.cursor
    ensures Sound(cp', s)
  {
    forall k: nat | IsPatch(s, k) && k <= cp'.cursor
      ensures DeliveredIn(cp'.journal, k) || Passed(k) in cp'.journal
    {
      NotedStays(cp.journal, cp'.journal, k);
    }
    GenuineStays(cp, cp', s);
  }

  lemma GenuineStays(cp: Checkpoint, cp': Checkpoint, s: Server)
    requires Genuine(cp, s) && cp.journal <= cp'.journal && cp.conflicts <= cp'.conflicts
    requires forall j :: |cp.journal| <= j < |cp'.journal| && cp'.journal[j].Delivered? ==>
               IsPatch(s, cp'.journal[j].event) && cp'.journal[j].ops == s.events[cp'.journal[j].event].ops
               && cp'.journal[j].rejected <= cp'.conflicts
    ensures Genuine(cp', s)
  {
    forall j | 0 <= j < |cp'.journal| && cp'.journal[j].Delivered?
      ensures IsPatch(s, cp'.journal[j].event) && cp'.journal[j].ops == s.events[cp'.journal[j].event].ops
      ensures cp'.journal[j].rejected <= cp'.conflicts
    {
      if j < |cp.journal| {
        assert cp'.journal[j] == cp.journal[j];
      }
    }
  }

  /** What a journal notes stays noted. */
  lemma NotedStays(journal: seq<Entry>, more: seq<Entry>, k: nat)
    requires journal <= more
    ensures DeliveredIn(journal, k) ==> DeliveredIn(more, k)
    ensures forall entry :: entry in journal ==> entry in more
  {
    if DeliveredIn(journal, k) {
      var j :| 0 <= j < |journal| && Delivers(journal[j], k);
      assert more[j] == journal[j];
    }
  }

  /** For a sound checkpoint, the outcome of a patch is there as soon as a delivery of it is. */
  lemma OutcomeIsDelivery(cp: Checkpoint, s: Server, k: nat)
    requires Sound(cp, s)
    ensures OutcomeIn(cp, s, k) <==> DeliveredIn(cp.journal, k)
  {
    if DeliveredIn(cp.journal, k) {
      var j :| 0 <= j < |cp.journal| && Delivers(cp.journal[j], k);
      assert cp.journal[j].Delivered?;
    }
  }

  /** Noting a lost slot changes nothing else. */
  lemma NotedSlot(initial: Tree, journal: seq<Entry>, slot: Option<nat>, objects: set<nat>)
    ensures Replay(initial, journal + Dropped(slot, objects)) == Replay(initial, journal)
    ensures forall k: nat :: Disowned(journal + Dropped(slot, objects), k)
                        <==> Disowned(journal, k) || (slot == Some(k) && k in objects)
    ensures forall j :: |journal| <= j < |journal + Dropped(slot, objects)| ==>
              !(journal + Dropped(slot, objects))[j].Delivered?
  {
    if slot.Some? && slot.value in objects {
      assert (journal + [SlotLost(slot.value)])[..|journal|] == journal;
    } else {
      assert journal + [] == journal;
    }
  }

  lemma SkipKeeps(w: World, to: nat)
    requires Inv(w) && SkipStep(w, to).Some?
    ensures Inv(SkipStep(w, to).value)
  {
    var mem := w.client.mem;
    assert forall k: nat :: mem.cursor < k <= to ==> !IsPatch(w.server, k);
    CursorOnly(mem, mem.(cursor := to), w.server);
  }

  lemma PassKeeps(w: World, to: nat)
    requires Inv(w) && PassStep(w, to).Some?
    ensures Inv(PassStep(w, to).value)
  {
    PassSound(w, to);
    NotedPass(w.server, w.client.mem.journal, w.client.mem.cursor, to);
  }

  /** Of the patches that the cursor moves over, the one it reaches is noted and there is no other. */
  lemma PassSound(w: World, to: nat)
    requires Inv(w) && PassStep(w, to).Some?
    ensures Sound(PassStep(w, to).value.client.mem, w.server)
  {
    PassedSound(w.client.mem, w.server, to);
  }

  lemma PassedSound(cp: Checkpoint, s: Server, to: nat)
    requires Sound(cp, s) && cp.cursor <= to <= s.last && NoPatchBetween(s, cp.cursor, to)
    ensures Sound(cp.(cursor := to, journal := cp.journal + Skipped(s, cp.cursor, to)), s)
  {
    var cp' := cp.(cursor := to, journal := cp.journal + Skipped(s, cp.cursor, to));
    NotedPass(s, cp.journal, cp.cursor, to);
    forall k: nat | IsPatch(s, k) && cp.cursor < k <= to ensures Passed(k) in cp'.journal {
      assert k == to;
    }
    CursorOnly(cp, cp', s);
  }

  lemma NotedPass(s: Server, journal: seq<Entry>, cursor: nat, to: nat)
    requires s.history != []
    ensures Replay(s.history[0], journal + Skipped(s, cursor, to)) == Replay(s.history[0], journal)
    ensures forall k: nat :: Disowned(journal + Skipped(s, cursor, to), k)
                        <==> Disowned(journal, k) || (k == to && cursor < to && IsPatch(s, to))
    ensures cursor < to && IsPatch(s, to) ==> Passed(to) in journal + Skipped(s, cursor, to)
    ensures forall j :: |journal| <= j < |journal + Skipped(s, cursor, to)| ==>
              !(journal + Skipped(s, cursor, to))[j].Delivered?
  {
    if cursor < to && IsPatch(s, to) {
      assert (journal + [Passed(to)])[..|journal|] == journal;
    } else {
      assert journal + [] == journal;
    }
  }

  lemma BeginKeeps(w: World, k: nat)
    requires Inv(w) && BeginStep(w, k).Some?
    ensures Inv(BeginStep(w, k).value)
  {
  }

  // ------------------------------------------------------------------ receiving a patch

  lemma ApplyKeeps(w: World, ioError: bool)
    requires Inv(w) && ApplyStep(w, ioError).Some?
    ensures Inv(ApplyStep(w, ioError).value)
  {
    var phase := w.client.phase;
    var ops := w.server.events[phase.event].ops;
    var op := ops[phase.next];
    var verdict := Judge(w.local, At(phase.scan, op.path), op, false, ioError);
    var w' := ApplyStep(w, ioError).value;
    EffectFootprint(w.local, op, verdict);
    assert WellFormed(ops) && OpsHeld(w.server.history, ops);
    forall i | phase.next + 1 <= i < |ops| && ops[i].path !in w'.edited
      ensures At(w'.local.files, ops[i].path) == At(phase.scan, ops[i].path)
    {
      assert ops[i].path != op.path;
    }
    WriteKeepsLoss(w, op, verdict);
  }

  /** Only a state the remote side has had is overwritten, unless the user changed it meanwhile. */
  lemma WriteKeepsLoss(w: World, op: Operation, verdict: Verdict)
    requires NothingLost(w)
    requires verdict == Applied && op.path !in w.edited ==> Held(w.server.history, op.path, At(w.local.files, op.path))
    ensures NothingLost(Write(w, op, verdict))
  {
  }

  lemma RecordKeeps(w: World)
    requires Inv(w) && RecordStep(w).Some?
    ensures Inv(RecordStep(w).value)
  {
    var mem := w.client.mem;
    CursorOnly(mem, mem.(conflicts := mem.conflicts + w.client.phase.rejected), w.server);
  }

  /** The base moves only to states the remote side has had, and keeps every earlier outcome. */
  lemma BaseMoves(cp: Checkpoint, cp': Checkpoint, s: Server, entry: Entry)
    requires Sound(cp, s) && cp'.journal == cp.journal + [entry] && cp'.cursor == cp.cursor
    requires cp.conflicts <= cp'.conflicts && cp'.pendingAck == cp.pendingAck
    requires cp'.base == Replay(s.history[0], cp'.journal) && BaseHeld(s.history, cp'.base)
    requires entry.Delivered? ==>
               IsPatch(s, entry.event) && entry.ops == s.events[entry.event].ops && entry.rejected <= cp'.conflicts
    ensures Sound(cp', s)
  {
    GenuineStays(cp, cp', s);
    forall k: nat | IsPatch(s, k) && k <= cp'.cursor
      ensures DeliveredIn(cp'.journal, k) || Passed(k) in cp'.journal
    {
      NotedStays(cp.journal, cp'.journal, k);
    }
  }

  /** Journal entries about the base say nothing about slots. */
  lemma EntrySlots(cp: Checkpoint, cp': Checkpoint, s: Server)
    requires Slots(cp, s, None) && cp'.cursor == cp.cursor && cp'.pendingAck == cp.pendingAck
    requires forall k: nat :: Disowned(cp'.journal, k) <==> Disowned(cp.journal, k)
    ensures Slots(cp', s, None)
  {
  }

  /** Deliveries and uploads disown nothing, and nothing more. */
  lemma SameOwners(journal: seq<Entry>, entry: Entry)
    requires !entry.SlotLost? && !entry.Passed?
    ensures forall k: nat :: Disowned(journal + [entry], k) <==> Disowned(journal, k)
  {
  }

  lemma AdvanceBaseKeeps(w: World)
    requires Inv(w) && AdvanceBaseStep(w).Some?
    ensures Inv(AdvanceBaseStep(w).value)
  {
    var mem, mem' := w.client.mem, AdvanceBaseStep(w).value.client.mem;
    AbsorbedSound(w);
    assert Delivers(mem'.journal[|mem.journal|], w.client.phase.event);
    SameOwners(mem.journal, mem'.journal[|mem.journal|]);
    EntrySlots(mem, mem', w.server);
  }

  /** Absorbing a patch between held states gives a held state. */
  lemma AbsorbedHeld(history: seq<Tree>, base: Tree, ops: Patch, rejected: set<Path>)
    requires BaseHeld(history, base) && WellFormed(ops) && OpsHeld(history, ops)
    ensures BaseHeld(history, Absorb(base, ops, rejected))
  {
    AbsorbPointwise(base, ops, rejected);
    forall p ensures Held(history, p, At(Absorb(base, ops, rejected), p)) {
      if p in PathsOf(ops) {
        var i :| 0 <= i < |ops| && ops[i].path == p;
      }
      assert Held(history, p, At(base, p));
    }
  }

  /** A patch moves the base to states the remote side has had. */
  lemma AbsorbedSound(w: World)
    requires Inv(w) && AdvanceBaseStep(w).Some?
    ensures Sound(AdvanceBaseStep(w).value.client.mem, w.server)
  {
    var phase, s := w.client.phase, w.server;
    assert WellFormed(s.events[phase.event].ops) && OpsHeld(s.history, s.events[phase.event].ops);
    DeliveredSound(w.client.mem, s, phase.event, phase.rejected);
  }

  lemma DeliveredSound(cp: Checkpoint, s: Server, k: nat, rejected: set<Path>)
    requires Sound(cp, s) && IsPatch(s, k) && rejected <= cp.conflicts
    requires WellFormed(s.events[k].ops) && OpsHeld(s.history, s.events[k].ops)
    ensures Sound(cp.(base := Absorb(cp.base, s.events[k].ops, rejected),
                      journal := cp.journal + [Delivered(k, s.events[k].ops, rejected)]), s)
  {
    var entry := Delivered(k, s.events[k].ops, rejected);
    var base := Absorb(cp.base, entry.ops, rejected);
    ReplayMore(s.history[0], cp.journal, entry);
    AbsorbedHeld(s.history, cp.base, entry.ops, rejected);
    BaseMoves(cp, cp.(base := base, journal := cp.journal + [entry]), s, entry);
  }

  lemma ReplayMore(initial: Tree, journal: seq<Entry>, entry: Entry)
    ensures Replay(initial, journal + [entry]) == Moved(Replay(initial, journal), entry)
  {
    assert (journal + [entry])[..|journal|] == journal;
  }

  lemma CountKeeps(w: World)
    requires Inv(w) && CountStep(w).Some?
    ensures Inv(CountStep(w).value)
  {
    var mem, k := w.client.mem, w.client.phase.event;
    assert k <= w.server.last;
    forall j: nat | IsPatch(w.server, j) && mem.cursor < j <= k ensures DeliveredIn(mem.journal, j) {
      assert j == k;
    }
    CursorOnly(mem, mem.(cursor := k), w.server);
    CountSlots(w);
  }

  lemma CountSlots(w: World)
    requires Inv(w) && CountStep(w).Some?
    ensures SlotsOk(CountStep(w).value)
  {
    var mem, k := w.client.mem, w.client.phase.event;
    forall j: nat | IsPatch(w.server, j) && j <= k ensures j == k || j <= mem.cursor {
    }
  }

  /** A slot or an acknowledgement in flight that is given up is noted if its object is still there. */
  lemma SlotGivenUp(cp: Checkpoint, cp': Checkpoint, s: Server, slot: Option<nat>, was: Option<nat>, left: Option<nat>)
    requires s.history != [] && Slots(cp, s, was) && (slot.Some? ==> slot.value <= cp.cursor)
    requires cp'.cursor == cp.cursor && cp'.journal == cp.journal + Dropped(slot, s.objects)
    requires forall k: nat :: cp'.pendingAck == Some(k) || left == Some(k)
                         <==> (cp.pendingAck == Some(k) || was == Some(k)) && slot != Some(k)
    ensures Slots(cp', s, left)
  {
    NotedSlot(s.history[0], cp.journal, slot, s.objects);
  }

  lemma MarkKeeps(w: World)
    requires Inv(w) && MarkStep(w).Some?
    ensures Inv(MarkStep(w).value)
  {
    var mem, mem' := w.client.mem, MarkStep(w).value.client.mem;
    NotedSlot(w.server.history[0], mem.journal, mem.pendingAck, w.server.objects);
    CursorOnly(mem, mem', w.server);
    SlotGivenUp(mem, mem', w.server, mem.pendingAck, InFlight(w.client), InFlight(MarkStep(w).value.client));
  }

  lemma SaveKeeps(w: World)
    requires Inv(w) && SaveStep(w).Some?
    ensures Inv(SaveStep(w).value)
  {
  }

  lemma AckKeeps(w: World)
    requires Inv(w) && AckStep(w).Some?
    ensures Inv(AckStep(w).value)
  {
    var k := w.client.phase.event;
    ObjectGone(w, k, w.server.(objects := w.server.objects - {k}));
  }

  lemma ClearKeeps(w: World)
    requires Inv(w) && ClearStep(w).Some?
    ensures Inv(ClearStep(w).value)
  {
    CursorOnly(w.client.mem, w.client.mem.(pendingAck := None), w.server);
  }

  // ------------------------------------------------------------------ pushing local edits

  lemma UploadKeeps(w: World, tree: Tree, accepted: seq<Path>, refused: set<Path>)
    requires Inv(w) && UploadStep(w, tree, accepted, refused).Some?
    ensures Inv(UploadStep(w, tree, accepted, refused).value)
  {
    var s := w.server.(history := w.server.history + [tree]);
    var grown := w.(server := s);
    GrowthKeeps(w, s);
    var base := w.client.mem.base;
    forall p | p !in refused ensures Held(s.history, p, At(w.local.files, p)) {
      if p in Pending(w.local.files, base) {
        assert s.history[|w.server.history|] == tree;
      } else {
        assert Held(s.history, p, At(base, p));
      }
    }
    assert Inv(grown);
  }

  lemma AbsorbVerdictKeeps(w: World)
    requires Inv(w) && AbsorbVerdictStep(w).Some?
    ensures Inv(AbsorbVerdictStep(w).value)
  {
    VerdictSound(w);
    VerdictSlots(w);
  }

  lemma VerdictSlots(w: World)
    requires Inv(w) && AbsorbVerdictStep(w).Some?
    ensures Slots(AbsorbVerdictStep(w).value.client.mem, w.server, None)
  {
    var mem, mem' := w.client.mem, AbsorbVerdictStep(w).value.client.mem;
    if mem'.journal != mem.journal {
      SameOwners(mem.journal, mem'.journal[|mem.journal|]);
    }
    EntrySlots(mem, mem', w.server);
  }

  lemma NoteRefusedKeeps(w: World)
    requires Inv(w) && NoteRefusedStep(w).Some?
    ensures Inv(NoteRefusedStep(w).value)
  {
    var mem := w.client.mem;
    CursorOnly(mem, mem.(conflicts := mem.conflicts + w.client.phase.refused), w.server);
  }

  /** The base moves to what was uploaded at accepted paths only: everywhere else it was held before. */
  lemma VerdictSound(w: World)
    requires Inv(w) && AbsorbVerdictStep(w).Some?
    ensures Sound(AbsorbVerdictStep(w).value.client.mem, w.server)
  {
    var mem, phase := w.client.mem, w.client.phase;
    var noted := mem.(conflicts := mem.conflicts + phase.refused);
    CursorOnly(mem, noted, w.server);
    if phase.refused == {} {
      AllSound(noted, w.server, phase.snapshot);
    } else if phase.applied != [] {
      SomeSound(noted, w.server, phase.snapshot, phase.applied, phase.refused);
    }
  }

  lemma AllSound(cp: Checkpoint, s: Server, snapshot: Tree)
    requires Sound(cp, s) && BaseHeld(s.history, snapshot)
    ensures Sound(cp.(base := snapshot, journal := cp.journal + [AcceptedAll(snapshot)]), s)
  {
    var entry := AcceptedAll(snapshot);
    ReplayMore(s.history[0], cp.journal, entry);
    BaseMoves(cp, cp.(base := snapshot, journal := cp.journal + [entry]), s, entry);
  }

  lemma SomeSound(cp: Checkpoint, s: Server, snapshot: Tree, paths: seq<Path>, refused: set<Path>)
    requires Sound(cp, s) && forall p :: p in paths ==> p !in refused
    requires forall p :: p !in refused ==> Held(s.history, p, At(snapshot, p))
    ensures Sound(cp.(base := Overlay(cp.base, snapshot, paths),
                      journal := cp.journal + [AcceptedSome(snapshot, paths)]), s)
  {
    var entry, base := AcceptedSome(snapshot, paths), Overlay(cp.base, snapshot, paths);
    ReplayMore(s.history[0], cp.journal, entry);
    forall p ensures Held(s.history, p, At(base, p)) {
      OverlayPointwise(cp.base, snapshot, paths, p);
      assert Held(s.history, p, At(cp.base, p));
    }
    BaseMoves(cp, cp.(base := base, journal := cp.journal + [entry]), s, entry);
  }

  // ------------------------------------------------------------------ the final merge

  lemma BeginFinalKeeps(w: World)
    requires Inv(w) && BeginFinalStep(w).Some?
    ensures Inv(BeginFinalStep(w).value)
  {
  }

  lemma MergeKeeps(w: World, p: Path, ioError: bool)
    requires Inv(w) && MergeStep(w, p, ioError).Some?
    ensures Inv(MergeStep(w, p, ioError).value)
  {
    var mem, phase := w.client.mem, w.client.phase;
    var op := Operation(p, At(mem.base, p), At(phase.final, p));
    var verdict := Judge(w.local, At(phase.scan, p), op, p in mem.conflicts, ioError);
    EffectFootprint(w.local, op, verdict);
    assert Held(w.server.history, p, At(mem.base, p));
    WriteKeepsLoss(w, op, verdict);
  }

  lemma FinishMergeKeeps(w: World)
    requires Inv(w) && FinishMergeStep(w).Some?
    ensures Inv(FinishMergeStep(w).value)
  {
  }

  lemma RecoveryKeeps(w: World)
    requires Inv(w)
    ensures KeepRecoveryStep(w).Some? ==> Inv(KeepRecoveryStep(w).value)
    ensures SalvageStep(w).Some? ==> Inv(SalvageStep(w).value)
  {
  }

  lemma HandoffKeeps(w: World)
    requires Inv(w)
    ensures AckFinalStep(w).Some? ==> Inv(AckFinalStep(w).value)
    ensures NoArchiveStep(w).Some? ==> Inv(NoArchiveStep(w).value)
    ensures ForgetStep(w).Some? ==> Inv(ForgetStep(w).value)
  {
  }

  // ------------------------------------------------------------------ checkpoints and faults

  lemma PersistKeeps(w: World)
    requires Inv(w) && PersistStep(w).Some?
    ensures Inv(PersistStep(w).value)
  {
  }

  /** An attached run hands over a checkpoint as good as one a detached start would have left. */
  lemma PromoteKeeps(w: World)
    requires Inv(w) && PromoteStep(w).Some?
    ensures Inv(PromoteStep(w).value)
  {
    CursorOnly(w.client.mem, w.client.mem.(pendingAck := None), w.server);
  }

  lemma FaultKeeps(w: World, a: Action)
    requires Inv(w) && Step(w, a).Some? && (a.Interrupt? || a.Crash?)
    ensures Inv(Step(w, a).value)
  {
    if a.Interrupt? {
      InterruptKeeps(w);
    }
  }

  lemma InterruptKeeps(w: World)
    requires Inv(w) && InterruptStep(w).Some?
    ensures Inv(InterruptStep(w).value)
  {
    var mem, mem' := w.client.mem, InterruptStep(w).value.client.mem;
    InterruptSound(w);
    SlotGivenUp(mem, mem', w.server, InFlight(w.client), InFlight(w.client), None);
  }

  lemma InterruptSound(w: World)
    requires Inv(w) && InterruptStep(w).Some?
    ensures Sound(InterruptStep(w).value.client.mem, w.server)
  {
    var mem := w.client.mem;
    NotedSlot(w.server.history[0], mem.journal, InFlight(w.client), w.server.objects);
    CursorOnly(mem, InterruptStep(w).value.client.mem, w.server);
  }

  // ------------------------------------------------------------------ all runs

  predicate IsEnvironment(a: Action) {
    a.EditLocal? || a.ChangeRemote? || a.Announce? || a.AnnounceOther? || a.Interrupt? || a.Crash?
  }

  predicate IsReceiving(a: Action) {
    || a.Begin? || a.ApplyPath? || a.RecordConflicts? || a.AdvanceBase? || a.Count? || a.Mark? || a.Save? || a.Ack?
    || a.Clear?
  }

  predicate IsFinishing(a: Action) {
    || a.BeginFinal? || a.MergePath? || a.FinishMerge? || a.KeepRecovery? || a.Salvage? || a.AckFinal?
    || a.NoArchive? || a.Forget?
  }

  lemma EnvironmentKeeps(w: World, a: Action)
    requires Inv(w) && Step(w, a).Some? && IsEnvironment(a)
    ensures Inv(Step(w, a).value)
  {
    if a.EditLocal? || a.ChangeRemote? {
      ChangesKeep(w, a);
    } else if a.Announce? || a.AnnounceOther? {
      AnnouncementsKeep(w, a);
    } else {
      FaultKeeps(w, a);
    }
  }

  lemma ChangesKeep(w: World, a: Action)
    requires Inv(w) && Step(w, a).Some? && (a.EditLocal? || a.ChangeRemote?)
    ensures Inv(Step(w, a).value)
  {
    match a
    case EditLocal(fs) => EditKeeps(w, fs);
    case ChangeRemote(tree) => ChangeRemoteKeeps(w, tree);
  }

  lemma AnnouncementsKeep(w: World, a: Action)
    requires Inv(w) && Step(w, a).Some? && (a.Announce? || a.AnnounceOther?)
    ensures Inv(Step(w, a).value)
  {
    match a
    case Announce(k, ops) => EventKeeps(w, k, PatchEvent(ops));
    case AnnounceOther(k) => EventKeeps(w, k, OtherEvent);
  }

  lemma ReceivingKeeps(w: World, a: Action)
    requires Inv(w) && Step(w, a).Some? && IsReceiving(a)
    ensures Inv(Step(w, a).value)
  {
    match a
    case Begin(k) => BeginKeeps(w, k);
    case ApplyPath(ioError) => ApplyKeeps(w, ioError);
    case RecordConflicts => RecordKeeps(w);
    case AdvanceBase => AdvanceBaseKeeps(w);
    case Count => CountKeeps(w);
    case Mark => MarkKeeps(w);
    case Save => SaveKeeps(w);
    case Ack => AckKeeps(w);
    case Clear => ClearKeeps(w);
  }

  lemma SendingKeeps(w: World, a: Action)
    requires Inv(w) && Step(w, a).Some? && !IsEnvironment(a) && !IsReceiving(a) && !IsFinishing(a)
    ensures Inv(Step(w, a).value)
  {
    match a
    case Start(blind) => StartKeeps(w, blind);
    case RetryAck => RetryKeeps(w);
    case Skip(to) => SkipKeeps(w, to);
    case Pass(to) => PassKeeps(w, to);
    case Persist => PersistKeeps(w);
    case Promote => PromoteKeeps(w);
    case Upload(tree, accepted, refused) => UploadKeeps(w, tree, accepted, refused);
    case NoteRefused => NoteRefusedKeeps(w);
    case AbsorbVerdict => AbsorbVerdictKeeps(w);
  }

  lemma FinishingKeeps(w: World, a: Action)
    requires Inv(w) && Step(w, a).Some? && IsFinishing(a)
    ensures Inv(Step(w, a).value)
  {
    if a.BeginFinal? || a.MergePath? || a.FinishMerge? {
      MergingKeeps(w, a);
    } else if a.KeepRecovery? || a.Salvage? {
      RecoveryKeeps(w);
    } else {
      HandoffKeeps(w);
    }
  }

  lemma MergingKeeps(w: World, a: Action)
    requires Inv(w) && Step(w, a).Some? && (a.BeginFinal? || a.MergePath? || a.FinishMerge?)
    ensures Inv(Step(w, a).value)
  {
    match a
    case BeginFinal => BeginFinalKeeps(w);
    case MergePath(p, ioError) => MergeKeeps(w, p, ioError);
    case FinishMerge => FinishMergeKeeps(w);
  }

  lemma StepKeeps(w: World, a: Action)
    requires Inv(w) && Step(w, a).Some?
    ensures Inv(Step(w, a).value)
  {
    if IsEnvironment(a) {
      EnvironmentKeeps(w, a);
    } else if IsReceiving(a) {
      ReceivingKeeps(w, a);
    } else if IsFinishing(a) {
      FinishingKeeps(w, a);
    } else {
      SendingKeeps(w, a);
    }
  }

  lemma InitialHolds(w: World)
    requires Initial(w)
    ensures Inv(w)
  {
    var initial := w.server.history[0];
    forall p ensures Held(w.server.history, p, At(initial, p)) {
    }
  }

  /** Every state that any interleaving can reach satisfies the invariant. */
  lemma {:induction false} RunKeeps(w: World, actions: seq<Action>)
    requires Initial(w) && Run(w, actions).Some?
    ensures Inv(Run(w, actions).value)
  {
    if actions == [] {
      InitialHolds(w);
    } else {
      var last := |actions| - 1;
      RunKeeps(w, actions[..last]);
      StepKeeps(Run(w, actions[..last]).value, actions[last]);
    }
  }

  /** No-loss: a sync action replaces or removes a local state only if the remote side has held that
      exact state for that path, or the user changed the path while the action was running. */
  lemma NoLocalWorkLost(w: World, actions: seq<Action>, i: nat)
    requires Initial(w) && Run(w, actions).Some?
    requires i < |Run(w, actions).value.overwrites|
    ensures var end := Run(w, actions).value;
            var lost := end.overwrites[i];
            lost.edited || Held(end.server.history, lost.path, lost.state)
  {
    RunKeeps(w, actions);
  }

  /** Delivery safety: after any crash or interrupt, a patch above the stored cursor can still be
      downloaded, and the outcome of a patch at or below it is in the stored checkpoint exactly unless a
      command without a workspace passed the patch before any delivery of it was stored. */
  lemma DeliverySafety(w: World, actions: seq<Action>, k: nat)
    requires Initial(w) && Run(w, actions).Some?
    requires var end := Run(w, actions).value; end.disk.Some? && IsPatch(end.server, k)
    ensures var end, stored := Run(w, actions).value, Run(w, actions).value.disk.value;
            if stored.cursor < k then k in end.server.objects
            else OutcomeIn(stored, end.server, k) <==> Passed(k) !in stored.journal || DeliveredIn(stored.journal, k)
  {
    RunKeeps(w, actions);
    var end := Run(w, actions).value;
    OutcomeIsDelivery(end.disk.value, end.server, k);
  }

  /** A patch at or below the stored cursor whose object still exists is the one the stored checkpoint will
      retry exactly when it was not passed and did not lose its slot: given to a later patch, or never
      taken because the command was cut off first. */
  lemma LeakedExactly(w: World, actions: seq<Action>, k: nat)
    requires Initial(w) && Run(w, actions).Some?
    requires var end := Run(w, actions).value;
             end.disk.Some? && IsPatch(end.server, k) && k in end.server.objects && k <= end.disk.value.cursor
    ensures var stored := Run(w, actions).value.disk.value;
            stored.pendingAck == Some(k) <==> SlotLost(k) !in stored.journal && Passed(k) !in stored.journal
  {
    RunKeeps(w, actions);
  }

  // ------------------------------------------------------------------ calm runs

  /** A Ctrl-C that lands between counting a patch and acknowledging it. */
  predicate CutsAck(w: World, a: Action) {
    a.Interrupt? && w.client.On? && (w.client.phase.Counted? || w.client.phase.Marked? || w.client.phase.Saved?)
  }

  /** A command without a workspace that moves over a patch. */
  predicate PassesPatch(w: World, a: Action) {
    a.Pass? && w.client.On? && w.client.mem.cursor < a.to && IsPatch(w.server, a.to)
  }

  predicate Disturbs(w: World, a: Action) {
    CutsAck(w, a) || PassesPatch(w, a)
  }

  ghost predicate Calm(w: World, actions: seq<Action>) {
    actions == [] ||
    var last := |actions| - 1;
    && Calm(w, actions[..last])
    && (Run(w, actions[..last]).Some? ==> !Disturbs(Run(w, actions[..last]).value, actions[last]))
  }

  ghost predicate NoneLost(journal: seq<Entry>) {
    forall k: nat :: !Disowned(journal, k)
  }

  /** No patch was passed, no slot was lost, and outside an acknowledgement the slot names no object. */
  ghost predicate Tidy(w: World) {
    && (w.disk.Some? ==> NoneLost(w.disk.value.journal))
    && (w.client.On? ==>
         var mem, phase := w.client.mem, w.client.phase;
         && NoneLost(mem.journal)
         && (mem.pendingAck.Some? && !phase.Retrying? && !phase.Marked? && !phase.Saved? ==>
               mem.pendingAck.value !in w.server.objects))
  }

  lemma TidyMark(w: World)
    requires Inv(w) && Tidy(w) && MarkStep(w).Some?
    ensures Tidy(MarkStep(w).value)
  {
    NotedSlot(w.server.history[0], w.client.mem.journal, w.client.mem.pendingAck, w.server.objects);
  }

  lemma TidyPass(w: World, to: nat)
    requires Inv(w) && Tidy(w) && PassStep(w, to).Some? && !PassesPatch(w, Pass(to))
    ensures Tidy(PassStep(w, to).value)
  {
    NotedPass(w.server, w.client.mem.journal, w.client.mem.cursor, to);
  }

  lemma TidyInterrupt(w: World)
    requires Inv(w) && Tidy(w) && InterruptStep(w).Some? && !CutsAck(w, Interrupt)
    ensures Tidy(InterruptStep(w).value)
  {
    NotedSlot(w.server.history[0], w.client.mem.journal, InFlight(w.client), w.server.objects);
  }

  lemma TidyDelivery(w: World, a: Action)
    requires Inv(w) && Tidy(w) && Step(w, a).Some?
    requires a.Count? || a.Save? || a.Ack? || a.Clear? || a.RetryAck? || a.Start? || a.Persist? || a.Promote? || a.Skip?
    ensures Tidy(Step(w, a).value)
  {
  }

  lemma TidyReceiving(w: World, a: Action)
    requires Inv(w) && Tidy(w) && Step(w, a).Some?
    requires || a.Begin? || a.ApplyPath? || a.RecordConflicts? || a.AdvanceBase? || a.Upload? || a.NoteRefused?
             || a.AbsorbVerdict?
    ensures Tidy(Step(w, a).value)
  {
    if a.AdvanceBase? || a.AbsorbVerdict? {
      var journal, more := w.client.mem.journal, Step(w, a).value.client.mem.journal;
      if more != journal {
        SameOwners(journal, more[|journal|]);
      }
    }
  }

  lemma TidyEnvironment(w: World, a: Action)
    requires Inv(w) && Tidy(w) && Step(w, a).Some? && IsEnvironment(a) && !a.Interrupt?
    ensures Tidy(Step(w, a).value)
  {
  }

  lemma TidyFinishing(w: World, a: Action)
    requires Inv(w) && Tidy(w) && Step(w, a).Some? && IsFinishing(a)
    ensures Tidy(Step(w, a).value)
  {
  }

  lemma TidyStep(w: World, a: Action)
    requires Inv(w) && Tidy(w) && Step(w, a).Some? && !Disturbs(w, a)
    ensures Tidy(Step(w, a).value)
  {
    if a.Mark? {
      TidyMark(w);
    } else if a.Pass? {
      TidyPass(w, a.to);
    } else if a.Interrupt? {
      TidyInterrupt(w);
    } else if IsEnvironment(a) {
      TidyEnvironment(w, a);
    } else if IsFinishing(a) {
      TidyFinishing(w, a);
    } else if a.Count? || a.Save? || a.Ack? || a.Clear? || a.RetryAck? || a.Start? || a.Persist? || a.Promote?
              || a.Skip? {
      TidyDelivery(w, a);
    } else {
      TidyReceiving(w, a);
    }
  }

  lemma {:induction false} CalmStaysTidy(w: World, actions: seq<Action>)
    requires Initial(w) && Run(w, actions).Some? && Calm(w, actions)
    ensures Tidy(Run(w, actions).value)
  {
    if actions != [] {
      var last := |actions| - 1;
      CalmStaysTidy(w, actions[..last]);
      RunKeeps(w, actions[..last]);
      TidyStep(Run(w, actions[..last]).value, actions[last]);
    }
  }

  /** No leaked acknowledgement: as long as no Ctrl-C is caught between counting and acknowledging, and no
      command without a workspace passes a patch, an applied patch whose object still exists is the one
      the stored checkpoint will retry, and the outcome of every patch at or below its cursor is in it. */
  lemma NoLeakedAcknowledgement(w: World, actions: seq<Action>, k: nat)
    requires Initial(w) && Run(w, actions).Some? && Calm(w, actions)
    requires var end := Run(w, actions).value;
             end.disk.Some? && IsPatch(end.server, k) && k <= end.disk.value.cursor
    ensures var end := Run(w, actions).value;
            && OutcomeIn(end.disk.value, end.server, k)
            && (k in end.server.objects ==> end.disk.value.pendingAck == Some(k))
  {
    CalmStaysTidy(w, actions);
    DeliverySafety(w, actions, k);
    var end := Run(w, actions).value;
    assert !Disowned(end.disk.value.journal, k);
    if k in end.server.objects {
      LeakedExactly(w, actions, k);
    }
  }

  /** The next command, with a workspace or without one, clears what a fault left pending: once it has
      retried and persisted, the patches at or below the stored cursor that still have an object are
      exactly those that were passed or lost their slot, and after a calm run there is none. */
  lemma NextCommandClears(w: World, actions: seq<Action>, blind: bool)
    requires Initial(w) && Run(w, actions).Some?
    requires var end := Run(w, actions).value; end.disk.Some? && end.client.Off?
    ensures var end, resumed := Run(w, actions).value, Run(Run(w, actions).value, [Start(blind), RetryAck, Persist]);
            && resumed.Some? && resumed.value.disk.Some?
            && var stored := resumed.value.disk.value;
               && stored.pendingAck == None && stored.journal == end.disk.value.journal
               && (forall k: nat :: IsPatch(resumed.value.server, k) && k in resumed.value.server.objects ==>
                     (k <= stored.cursor <==> Disowned(stored.journal, k)))
               && (Calm(w, actions) ==> NoneLost(stored.journal))
  {
    RunKeeps(w, actions);
    var end := Run(w, actions).value;
    ThreeSteps(end, Start(blind), RetryAck, Persist);
    Cleared(end, blind);
    if Calm(w, actions) {
      CalmStaysTidy(w, actions);
    }
  }

  lemma Cleared(w: World, blind: bool)
    requires Inv(w) && w.disk.Some? && w.client.Off?
    ensures var started := StartStep(w, blind).value;
            var retried := RetryStep(started);
            && Step(w, Start(blind)) == Some(started) && Step(started, RetryAck) == retried && retried.Some?
            && var cleared := PersistStep(retried.value);
               && Step(retried.value, Persist) == cleared && cleared.Some? && cleared.value.disk.Some?
               && var stored := cleared.value.disk.value;
                  && stored.pendingAck == None && stored.journal == w.disk.value.journal
                  && forall k: nat :: IsPatch(cleared.value.server, k) && k in cleared.value.server.objects ==>
                       (k <= stored.cursor <==> Disowned(stored.journal, k))
  {
  }

  lemma OneStep(w: World, sofar: seq<Action>, a: Action)
    requires Run(w, sofar).Some?
    ensures Run(w, sofar + [a]) == Step(Run(w, sofar).value, a)
  {
    assert (sofar + [a])[..|sofar|] == sofar;
  }

  lemma ThreeSteps(w: World, a: Action, b: Action, c: Action)
    requires Step(w, a).Some? && Step(Step(w, a).value, b).Some?
    ensures Run(w, [a, b, c]) == Step(Step(Step(w, a).value, b).value, c)
  {
    OneStep(w, [], a);
    OneStep(w, [a], b);
    OneStep(w, [a, b], c);
    assert [] + [a] == [a] && [a] + [b] == [a, b] && [a, b] + [c] == [a, b, c];
  }

  /** The agent's work is never dropped: once the final handoff is acknowledged, every path the
      remote side changed has arrived, was edited during the merge, or is kept in the recovery copy. */
  lemma HandoffLosesNothing(w: World, actions: seq<Action>, p: Path)
    requires Initial(w) && Run(w, actions).Some? && AckFinalStep(Run(w, actions).value).Some?
    ensures var end := Run(w, actions).value;
            var phase := end.client.phase;
            phase.recovered || p in end.edited || At(phase.final, p) == At(end.client.mem.base, p)
              || At(end.local.files, p) == At(phase.final, p)
  {
    RunKeeps(w, actions);
  }
}
