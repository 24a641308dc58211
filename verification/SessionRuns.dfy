/** The runs behind each action of a detached session: what storing, acknowledging, uploading, polling
    a page and closing the session amount to as steps of the protocol. */
module SessionRuns {
  import opened Options
  import opened Workspace
  import opened WorkspaceSync
  import opened SyncProtocol
  import opened SyncSafety
  import opened SyncRuns

  function Min(a: nat, b: nat): nat {
    if a < b then a else b
  }

  function FinalTree(s: Server): Tree
    requires s.history != []
  {
    s.history[|s.history| - 1]
  }

  /** What an upload of `snapshot` over `base` can be answered with. */
  ghost predicate Answer(snapshot: Tree, base: Tree, tree: Tree, accepted: seq<Path>, refused: set<Path>) {
    var changed := Pending(snapshot, base);
    && refused <= changed
    && (forall p :: p in accepted ==> p in changed && p !in refused)
    && (forall p :: p in changed && p !in refused ==> At(tree, p) == At(snapshot, p))
  }

  function BaseAfterUpload(base: Tree, snapshot: Tree, accepted: seq<Path>, refused: set<Path>): Tree {
    if refused == {} then snapshot else Overlay(base, snapshot, accepted)
  }

  /** A process that has visited all paths and holds the absorbed checkpoint has landed the patch. */
  lemma LandedIs(w: World, now: World, k: nat, ioErrors: set<Path>)
    requires w.client.On? && IsPatch(w.server, k)
    requires var ops := w.server.events[k].ops;
             && Dead(now) == Dead(AfterPaths(w, k, ioErrors, |ops|))
             && now.client == On(Absorbed(w.client.mem, k, ops, Rejected(w.local, ops, ioErrors)), Landed(k),
                                 w.client.attached)
    ensures now == AfterLanding(w, k, ioErrors)
  {
  }

  /** A landed patch once it has been marked, stored, acknowledged, cleared and stored again. */
  ghost function AfterDelivery(w: World): World
    requires w.client.On? && w.client.phase.Landed? && !w.client.attached
  {
    var saved := SaveStep(OwedStep(w).value).value;
    PersistStep(ClearStep(AckStep(saved).value).value).value
  }

  /** The checkpoint in memory has reached disk. */
  function Kept(w: World): World
    requires w.client.On?
  {
    w.(disk := Some(w.client.mem))
  }

  lemma KeptReaches(w: World)
    requires w.client.On? && !w.client.attached
    requires w.client.phase.Idle? || w.client.phase.Passing? || w.client.phase.Marked?
    ensures Reaches(w, Dead(w)) && Reaches(w, Dead(Kept(w)))
    ensures !w.client.phase.Marked? ==> Reaches(w, Kept(w)) && PersistStep(w) == Some(Kept(w))
    ensures w.client.phase.Marked? ==>
              var saved := WithPhase(Kept(w), Saved(w.client.phase.event));
              Reaches(w, saved) && SaveStep(w) == Some(saved)
  {
    if w.client.phase.Marked? {
      SaveReaches(w);
    } else {
      PersistReaches(w);
    }
  }

  /** What an answered upload adds to the journal. */
  function UploadEntry(snapshot: Tree, accepted: seq<Path>, refused: set<Path>): seq<Entry> {
    if refused == {} then [AcceptedAll(snapshot)]
    else if accepted != [] then [AcceptedSome(snapshot, accepted)]
    else []
  }

  /** The world after an upload: nothing to send, sent without reading the answer, or answered. */
  function AfterUpload(w: World, tree: Tree, accepted: seq<Path>, refused: set<Path>, answered: bool): World
    requires w.client.On?
  {
    var mem := w.client.mem;
    if Pending(w.local.files, mem.base) == {} then w
    else
      var sent := w.(server := w.server.(history := w.server.history + [tree]));
      if !answered then sent
      else WithMem(sent, mem.(base := BaseAfterUpload(mem.base, w.local.files, accepted, refused),
                              conflicts := mem.conflicts + refused,
                              journal := mem.journal + UploadEntry(w.local.files, accepted, refused)), Idle)
  }

  lemma UploadSteps(w: World, tree: Tree, accepted: seq<Path>, refused: set<Path>)
    requires w.client.On? && w.client.phase.Idle? && Answer(w.local.files, w.client.mem.base, tree, accepted, refused)
    requires Pending(w.local.files, w.client.mem.base) != {}
    ensures var sent := UploadStep(w, tree, accepted, refused);
            && sent.Some?
            && InterruptStep(sent.value) == Some(AfterUpload(w, tree, accepted, refused, false))
            && AbsorbVerdictStep(sent.value) == Some(AfterUpload(w, tree, accepted, refused, true))
  {
    var mem := w.client.mem;
    assert mem.journal + [] == mem.journal;
    assert refused != {} && accepted == [] ==> Overlay(mem.base, w.local.files, accepted) == mem.base;
  }

  lemma UploadReaches(w: World, tree: Tree, accepted: seq<Path>, refused: set<Path>, answered: bool)
    requires w.client.On? && w.client.phase.Idle? && Answer(w.local.files, w.client.mem.base, tree, accepted, refused)
    ensures Reaches(w, AfterUpload(w, tree, accepted, refused, answered))
  {
    ReachesSame(w);
    if Pending(w.local.files, w.client.mem.base) != {} {
      UploadSteps(w, tree, accepted, refused);
      var sent := UploadStep(w, tree, accepted, refused).value;
      SentReaches(w, tree, accepted, refused);
      if answered { VerdictReaches(sent); } else { InterruptReaches(sent); }
      ReachesOn(w, sent, AfterUpload(w, tree, accepted, refused, answered));
    }
  }

  lemma SentReaches(w: World, tree: Tree, accepted: seq<Path>, refused: set<Path>)
    requires UploadStep(w, tree, accepted, refused).Some?
    ensures Reaches(w, UploadStep(w, tree, accepted, refused).value)
  {
    StepReaches(w, Upload(tree, accepted, refused), UploadStep(w, tree, accepted, refused).value);
  }

  lemma VerdictReaches(w: World)
    requires AbsorbVerdictStep(w).Some?
    ensures Reaches(w, AbsorbVerdictStep(w).value)
  {
    StepReaches(w, AbsorbVerdict, AbsorbVerdictStep(w).value);
  }

  // ------------------------------------------------------------------ a page of events

  /** The events after `cursor` up to `lastSeq`, in order. */
  ghost predicate PageOf(s: Server, cursor: nat, lastSeq: nat, page: seq<nat>) {
    && cursor <= lastSeq <= s.last
    && (forall i, j :: 0 <= i < j < |page| ==> page[i] < page[j])
    && (forall k :: k in page <==> k in s.events && cursor < k <= lastSeq)
  }

  /** Applying any patch of the transcript to a storable base gives a storable base. */
  ghost predicate ClosedUnder(archives: iset<Tree>, s: Server) {
    forall base, k, rejected :: base in archives && IsPatch(s, k) ==>
      Absorb(base, s.events[k].ops, rejected) in archives
  }

  /** What holds between two events of a page: a run leads there, and the transcript is still the one the
      page was read from. */
  ghost predicate Between(start: World, now: World, cursor: nat) {
    && Reaches(start, now)
    && now.client.On? && now.client.phase.Idle? && !now.client.attached
    && now.server.events == start.server.events && now.server.last == start.server.last
    && now.client.mem.cursor == cursor
  }

  /** What a command holds of the workspace: the directory, the base, and the paths in conflict. */
  datatype Copy = Copy(fs: Fs, base: Tree, conflicts: set<Path>)

  function CopyOf(w: World): Copy
    requires w.client.On?
  {
    Copy(w.local, w.client.mem.base, w.client.mem.conflicts)
  }

  /** One patch merged into the directory and absorbed by the base, apart from what conflicted. */
  function Patched(c: Copy, ops: Patch, ioErrors: set<Path>): Copy {
    var rejected := Rejected(c.fs, ops, ioErrors);
    Copy(Merge(c.fs, c.fs.files, ops, {}, ioErrors).fs, Absorb(c.base, ops, rejected), c.conflicts + rejected)
  }

  /** The patches among the first `n` events of a page, one after the other. */
  function PatchedAll(c: Copy, s: Server, page: seq<nat>, ioErrors: nat -> set<Path>, n: nat): Copy
    requires n <= |page|
  {
    if n == 0 then c
    else
      var sofar := PatchedAll(c, s, page, ioErrors, n - 1);
      if IsPatch(s, page[n - 1]) then Patched(sofar, s.events[page[n - 1]].ops, ioErrors(n - 1)) else sofar
  }

  function PatchesOn(s: Server, page: seq<nat>, n: nat): set<nat>
    requires n <= |page|
  {
    set i | 0 <= i < n && IsPatch(s, page[i]) :: page[i]
  }

  /** One event handled: a patch has been merged, absorbed and acknowledged, anything else has no effect. */
  ghost predicate EventDone(now: World, next: World, k: nat, ioErrors: set<Path>) {
    && now.client.On? && next.client.On?
    && (if IsPatch(now.server, k) then
          && CopyOf(next) == Patched(CopyOf(now), now.server.events[k].ops, ioErrors)
          && next.server == now.server.(objects := now.server.objects - {k}) && next.client.mem.pendingAck == None
        else
          && CopyOf(next) == CopyOf(now) && next.server == now.server
          && next.client.mem.pendingAck == now.client.mem.pendingAck)
  }

  /** What the first `i` events of a page leave: their patches merged and absorbed in order, and none of their
      objects. */
  ghost predicate PageLeaves(start: World, now: World, page: seq<nat>, ioErrors: nat -> set<Path>, i: nat)
    requires i <= |page|
  {
    && start.client.On? && now.client.On?
    && CopyOf(now) == PatchedAll(CopyOf(start), start.server, page, ioErrors, i)
    && now.server == start.server.(objects := start.server.objects - PatchesOn(start.server, page, i))
    && now.client.mem.pendingAck
         == (if PatchesOn(start.server, page, i) == {} then start.client.mem.pendingAck else None)
  }

  /** The first `i` events of a page have been handled. */
  ghost predicate PageDone(start: World, now: World, page: seq<nat>, ioErrors: nat -> set<Path>, i: nat)
    requires i <= |page| && start.client.On?
  {
    && Between(start, now, if i == 0 then start.client.mem.cursor else page[i - 1])
    && PageLeaves(start, now, page, ioErrors, i)
  }

  lemma NothingDone(start: World, page: seq<nat>, ioErrors: nat -> set<Path>)
    requires start.client.On?
    ensures PageLeaves(start, start, page, ioErrors, 0)
  {
    assert PatchesOn(start.server, page, 0) == {} && start.server.objects - {} == start.server.objects;
  }

  lemma OneMorePatch(s: Server, page: seq<nat>, i: nat)
    requires i < |page|
    ensures var before, after := PatchesOn(s, page, i), PatchesOn(s, page, i + 1);
            && after == (if IsPatch(s, page[i]) then before + {page[i]} else before)
            && (IsPatch(s, page[i]) ==> after != {} && s.objects - before - {page[i]} == s.objects - after)
  {
  }

  lemma LeavesNext(start: World, now: World, next: World, page: seq<nat>, ioErrors: nat -> set<Path>, i: nat)
    requires i < |page| && PageLeaves(start, now, page, ioErrors, i)
    requires EventDone(now, next, page[i], ioErrors(i))
    ensures PageLeaves(start, next, page, ioErrors, i + 1)
  {
    OneMorePatch(start.server, page, i);
    assert IsPatch(now.server, page[i]) == IsPatch(start.server, page[i]);
  }

  lemma LeavesStored(start: World, now: World, next: World, page: seq<nat>, ioErrors: nat -> set<Path>)
    requires PageLeaves(start, now, page, ioErrors, |page|) && next.client.On? && next.server == now.server
    requires CopyOf(next) == CopyOf(now) && next.client.mem.pendingAck == now.client.mem.pendingAck
    ensures PageLeaves(start, next, page, ioErrors, |page|)
  {
  }

  lemma PageNext(start: World, now: World, next: World, page: seq<nat>, ioErrors: nat -> set<Path>, i: nat)
    requires i < |page| && start.client.On? && PageDone(start, now, page, ioErrors, i)
    requires Between(start, next, page[i]) && EventDone(now, next, page[i], ioErrors(i))
    ensures PageDone(start, next, page, ioErrors, i + 1)
  {
    LeavesNext(start, now, next, page, ioErrors, i);
  }

  // ------------------------------------------------------------------ a path on a page

  /** The patch has no operation at the path, above it or below it. */
  ghost predicate AwayFrom(ops: Patch, p: Path) {
    forall j :: 0 <= j < |ops| ==> ops[j].path != p && !Above(ops[j].path, p) && !Above(p, ops[j].path)
  }

  /** The two copies agree on the path and on what is around it. */
  ghost predicate AgreeAt(a: Copy, b: Copy, p: Path) {
    SameAround(a.fs, b.fs, p) && At(a.base, p) == At(b.base, p) && (p in a.conflicts <==> p in b.conflicts)
  }

  lemma AgreeOn(a: Copy, b: Copy, c: Copy, p: Path)
    requires AgreeAt(a, b, p) && AgreeAt(b, c, p)
    ensures AgreeAt(a, c, p)
  {
  }

  lemma PatchedAway(c: Copy, ops: Patch, ioErrors: set<Path>, p: Path)
    requires DistinctPaths(ops) && AwayFrom(ops, p)
    ensures AgreeAt(Patched(c, ops, ioErrors), c, p)
  {
    MergeElsewhere(c.fs, c.fs.files, ops, {}, ioErrors, p);
    MergePointwise(c.fs, ops, {}, ioErrors);
    AbsorbPointwise(c.base, ops, Rejected(c.fs, ops, ioErrors));
  }

  /** Every patch on this part of the page is well formed and away from the path. */
  ghost predicate PageAwayFrom(s: Server, page: seq<nat>, from: nat, to: nat, p: Path) {
    forall i :: from <= i < to && i < |page| && IsPatch(s, page[i]) ==>
      DistinctPaths(s.events[page[i]].ops) && AwayFrom(s.events[page[i]].ops, p)
  }

  lemma {:induction false} PageAway(c: Copy, s: Server, page: seq<nat>, ioErrors: nat -> set<Path>, from: nat, to: nat,
                                    p: Path)
    requires from <= to <= |page| && PageAwayFrom(s, page, from, to, p)
    ensures AgreeAt(PatchedAll(c, s, page, ioErrors, to), PatchedAll(c, s, page, ioErrors, from), p)
  {
    if from < to {
      PageAway(c, s, page, ioErrors, from, to - 1, p);
      var sofar := PatchedAll(c, s, page, ioErrors, to - 1);
      if IsPatch(s, page[to - 1]) {
        PatchedAway(sofar, s.events[page[to - 1]].ops, ioErrors(to - 1), p);
        AgreeOn(PatchedAll(c, s, page, ioErrors, to), sofar, PatchedAll(c, s, page, ioErrors, from), p);
      }
    }
  }

  lemma CleanAround(a: Fs, b: Fs, op: Operation, guarded: bool, ioError: bool)
    requires SameAround(a, b, op.path)
    ensures Clean(a, At(a.files, op.path), op, guarded, ioError) == Clean(b, At(b.files, op.path), op, guarded, ioError)
    ensures Reached(a, At(a.files, op.path), op) == Reached(b, At(b.files, op.path), op)
  {
  }

  /** What the page makes of one change, by the copy before the page: a clean one arrives in the directory and
      in the base; one that is there already in the base alone; any other is a conflict and moves neither. */
  ghost predicate Settled(before: Copy, after: Copy, op: Operation, ioError: bool) {
    var p, now := op.path, At(before.fs.files, op.path);
    var clean, reached := Clean(before.fs, now, op, false, ioError), Reached(before.fs, now, op);
    && At(after.fs.files, p) == (if clean then op.after else now)
    && At(after.base, p) == (if clean || reached then op.after else At(before.base, p))
    && (p in after.conflicts <==> p in before.conflicts || !(clean || reached))
  }

  lemma PatchSettles(c: Copy, ops: Patch, ioErrors: set<Path>, j: nat)
    requires DistinctPaths(ops) && j < |ops| && Apart(ops, j)
    ensures Settled(c, Patched(c, ops, ioErrors), ops[j], ops[j].path in ioErrors)
  {
    Treatment(c.fs, ops, {}, ioErrors);
    assert Treated(c.fs, ops[j], {}, ioErrors, Merge(c.fs, c.fs.files, ops, {}, ioErrors));
    AbsorbPointwise(c.base, ops, Rejected(c.fs, ops, ioErrors));
  }

  /** A change that no other change of the page is at, above or below is settled by the page as if it were
      alone. */
  lemma PageSettles(c: Copy, s: Server, page: seq<nat>, ioErrors: nat -> set<Path>, i: nat, j: nat)
    requires i < |page| && IsPatch(s, page[i])
    requires DistinctPaths(s.events[page[i]].ops) && j < |s.events[page[i]].ops| && Apart(s.events[page[i]].ops, j)
    requires PageAwayFrom(s, page, 0, i, s.events[page[i]].ops[j].path)
    requires PageAwayFrom(s, page, i + 1, |page|, s.events[page[i]].ops[j].path)
    ensures var op := s.events[page[i]].ops[j];
            Settled(c, PatchedAll(c, s, page, ioErrors, |page|), op, op.path in ioErrors(i))
  {
    var ops := s.events[page[i]].ops;
    var op := ops[j];
    var before := PatchedAll(c, s, page, ioErrors, i);
    PageAway(c, s, page, ioErrors, 0, i, op.path);
    PatchSettles(before, ops, ioErrors(i), j);
    CleanAround(before.fs, c.fs, op, false, op.path in ioErrors(i));
    PageAway(c, s, page, ioErrors, i + 1, |page|, op.path);
  }

  lemma ReachesKeeps(w: World, w': World)
    requires Inv(w) && Reaches(w, w')
    ensures Inv(w')
  {
    var actions :| Run(w, actions) == Some(w');
    StepsKeep(w, actions);
  }

  lemma {:induction false} StepsKeep(w: World, actions: seq<Action>)
    requires Inv(w) && Run(w, actions).Some?
    ensures Inv(Run(w, actions).value)
  {
    if actions != [] {
      var last := |actions| - 1;
      StepsKeep(w, actions[..last]);
      StepKeeps(Run(w, actions[..last]).value, actions[last]);
    }
  }

  /** Nothing on a page needs the missing-object branch: a safe state can download every patch above
      its cursor. */
  lemma NextPatchReady(now: World, cursor: nat, lastSeq: nat, page: seq<nat>, i: nat)
    requires Inv(now) && now.client.On? && now.client.phase.Idle?
    requires PageOf(now.server, cursor, lastSeq, page) && i < |page| && IsPatch(now.server, page[i])
    requires now.client.mem.cursor == if i == 0 then cursor else page[i - 1]
    ensures BeginStep(now, page[i]).Some? && WellFormed(now.server.events[page[i]].ops)
  {
    var k := page[i];
    assert k in page;
    forall j: nat | now.client.mem.cursor < j < k ensures !IsPatch(now.server, j) {
      NothingBetween(now.server, cursor, lastSeq, page, i, j);
    }
    assert Deliverable(now.client.mem, now.server);
  }

  lemma NothingBetween(s: Server, cursor: nat, lastSeq: nat, page: seq<nat>, i: nat, j: nat)
    requires PageOf(s, cursor, lastSeq, page) && i <= |page|
    requires (if i == 0 then cursor else page[i - 1]) < j < (if i == |page| then lastSeq + 1 else page[i])
    ensures j !in s.events
  {
    assert i > 0 ==> page[i - 1] in page;
    assert i < |page| ==> page[i] in page;
    forall m | 0 <= m < |page| ensures page[m] != j {
      assert m < i ==> m == i - 1 || page[m] < page[i - 1];
      assert m > i ==> page[i] < page[m];
    }
  }

  lemma SkipReaches(start: World, now: World, cursor: nat, lastSeq: nat, page: seq<nat>, i: nat, to: nat)
    requires PageOf(now.server, cursor, lastSeq, page) && i <= |page|
    requires Between(start, now, if i == 0 then cursor else page[i - 1])
    requires if i < |page| then to == page[i] && !IsPatch(now.server, to) else to == lastSeq
    ensures SkipStep(now, to).Some? && Between(start, SkipStep(now, to).value, to)
  {
    assert i > 0 ==> page[i - 1] in page;
    assert i < |page| ==> page[i] in page;
    forall j: nat | now.client.mem.cursor < j < to + 1 ensures !IsPatch(now.server, j) {
      if j < to || i == |page| {
        NothingBetween(now.server, cursor, lastSeq, page, i, j);
      }
    }
    var next := SkipStep(now, to).value;
    StepReaches(now, Skip(to), next);
    ReachesOn(start, now, next);
  }

  lemma DeliveryFacts(start: World, now: World, k: nat, ioErrors: set<Path>, cursor: nat, next: World)
    requires Between(start, now, cursor) && BeginStep(now, k).Some? && Reaches(now, next)
    requires next == AfterDelivery(AfterLanding(now, k, ioErrors))
    ensures Between(start, next, k) && EventDone(now, next, k, ioErrors) && next.disk == Some(next.client.mem)
  {
    ReachesOn(start, now, next);
    var ops := now.server.events[k].ops;
    assert ops[..|ops|] == ops;
  }

  // ------------------------------------------------------------------ the final handoff

  /** The changes over a prefix of the paths are a prefix of all changes. */
  lemma {:induction false} ChangesPrefix(before: Tree, after: Tree, order: seq<Path>, n: nat)
    requires n <= |order|
    ensures Changes(before, after, order[..n]) <= Changes(before, after, order)
    decreases |order|
  {
    if n == |order| {
      assert order[..n] == order;
    } else {
      var shorter := order[..|order| - 1];
      assert order[..n] == shorter[..n];
      ChangesPrefix(before, after, shorter, n);
    }
  }

  /** The final merge is done: every remote change has arrived or is among the clashes. */
  function AfterFinal(w: World, ops: Patch, ioErrors: set<Path>): World
    requires w.client.On? && w.server.history != []
  {
    WithPhase(AfterMerging(w, ops, ioErrors, |ops|),
              Merged(FinalTree(w.server), Clashes(w.local, ops, w.client.mem.conflicts, ioErrors), false))
  }

  lemma FinalOpsOf(base: Tree, final: Tree, order: seq<Path>, n: nat)
    requires Enumerates(order, base.Keys + final.Keys) && n <= |order|
    ensures var ops, some := Changes(base, final, order), Changes(base, final, order[..n]);
            && FinalOps(base, final, ops) && |some| <= |ops| && ops[..|some|] == some && (n == |order| ==> some == ops)
            && Pending(final, base) - PathsOf(ops) == {}
  {
    var ops := Changes(base, final, order);
    ChangesPrefix(base, final, order, n);
    assert order[..|order|] == order;
    ChangesExact(base, final, order);
    forall i | 0 <= i < |ops| ensures ops[i] in ops { }
    forall p | p in Pending(final, base) ensures p in PathsOf(ops) {
      assert Operation(p, At(base, p), At(final, p)) in ops;
    }
  }

  lemma FinalReaches(w: World, ops: Patch, ioErrors: set<Path>, n: nat)
    requires BeginFinalStep(w).Some? && n <= |ops| && FinalOps(w.client.mem.base, FinalTree(w.server), ops)
    requires Pending(FinalTree(w.server), w.client.mem.base) - PathsOf(ops) == {}
    ensures Reaches(w, Dead(AfterMerging(w, ops, ioErrors, n)))
    ensures Reaches(w, AfterFinal(w, ops, ioErrors)) && Reaches(w, Dead(AfterFinal(w, ops, ioErrors)))
  {
    PathsMerged(w, ops, ioErrors, n);
    ReachesDead(w, AfterMerging(w, ops, ioErrors, n));
    PathsMerged(w, ops, ioErrors, |ops|);
    assert ops[..|ops|] == ops;
    FinishReaches(AfterMerging(w, ops, ioErrors, |ops|));
    ReachesOn(w, AfterMerging(w, ops, ioErrors, |ops|), AfterFinal(w, ops, ioErrors));
    ReachesDead(w, AfterFinal(w, ops, ioErrors));
  }

  /** The world once a merge has visited `some` of the changed paths. */
  function Visited(w: World, some: Patch, ioErrors: set<Path>): World
    requires w.client.On?
  {
    w.(local := Merge(w.local, w.local.files, some, w.client.mem.conflicts, ioErrors).fs, edited := {},
       overwrites := w.overwrites + Replaced(w.local, w.local.files, some, w.client.mem.conflicts, ioErrors))
  }

  lemma MergeStops(w: World, ops: Patch, some: Patch, ioErrors: set<Path>)
    requires BeginFinalStep(w).Some? && FinalOps(w.client.mem.base, FinalTree(w.server), ops)
    requires |some| <= |ops| && some == ops[..|some|]
    requires Pending(FinalTree(w.server), w.client.mem.base) - PathsOf(ops) == {}
    ensures Reaches(w, Dead(Visited(w, some, ioErrors)))
  {
    FinalReaches(w, ops, ioErrors, |some|);
    assert Dead(Visited(w, some, ioErrors)) == Dead(AfterMerging(w, ops, ioErrors, |some|));
  }

  /** The world once a merge has visited them all and noted its clashes. */
  function DoneMerging(w: World, ops: Patch, ioErrors: set<Path>): World
    requires w.client.On? && w.server.history != []
  {
    Visited(w, ops, ioErrors)
      .(client := w.client.(phase := Merged(FinalTree(w.server),
                                            Clashes(w.local, ops, w.client.mem.conflicts, ioErrors), false)))
  }

  lemma MergeFinishes(w: World, ops: Patch, ioErrors: set<Path>)
    requires BeginFinalStep(w).Some? && FinalOps(w.client.mem.base, FinalTree(w.server), ops)
    requires Pending(FinalTree(w.server), w.client.mem.base) - PathsOf(ops) == {}
    ensures Reaches(w, DoneMerging(w, ops, ioErrors))
  {
    FinalReaches(w, ops, ioErrors, |ops|);
    assert ops[..|ops|] == ops;
    assert DoneMerging(w, ops, ioErrors) == AfterFinal(w, ops, ioErrors);
  }

  lemma NoClashes(fs: Fs, ops: Patch, guarded: set<Path>, ioErrors: set<Path>)
    ensures Clashes(fs, ops, guarded, ioErrors) == {} <==> Merge(fs, fs.files, ops, guarded, ioErrors).conflicts == []
  {
    var found := Merge(fs, fs.files, ops, guarded, ioErrors).conflicts;
    assert found != [] ==> found[0] in Clashes(fs, ops, guarded, ioErrors);
  }

  lemma FinishReaches(w: World)
    requires FinishMergeStep(w).Some?
    ensures Reaches(w, FinishMergeStep(w).value)
  {
    StepReaches(w, FinishMerge, FinishMergeStep(w).value);
  }

  lemma RecoveryReaches(w: World)
    requires KeepRecoveryStep(w).Some?
    ensures Reaches(w, KeepRecoveryStep(w).value)
  {
    StepReaches(w, KeepRecovery, KeepRecoveryStep(w).value);
  }

  lemma HandoffReaches(w: World)
    requires AckFinalStep(w).Some?
    ensures Reaches(w, AckFinalStep(w).value) && Reaches(w, Dead(AckFinalStep(w).value))
  {
    StepReaches(w, AckFinal, AckFinalStep(w).value);
    ReachesDead(w, AckFinalStep(w).value);
  }

  lemma SalvageReaches(w: World)
    requires SalvageStep(w).Some?
    ensures Reaches(w, SalvageStep(w).value)
  {
    StepReaches(w, Salvage, SalvageStep(w).value);
  }

  lemma NoArchiveReaches(w: World)
    requires NoArchiveStep(w).Some?
    ensures Reaches(w, NoArchiveStep(w).value)
  {
    StepReaches(w, NoArchive, NoArchiveStep(w).value);
  }

  lemma ForgetReaches(start: World, w: World)
    requires ForgetStep(w).Some? && Reaches(start, w)
    ensures Reaches(start, Forgotten(w)) && Reaches(start, Dead(Forgotten(w))) && Reaches(start, Dead(w))
  {
    StepReaches(w, Forget, Forgotten(w));
    ReachesOn(start, w, Forgotten(w));
    ReachesDead(start, Forgotten(w));
    ReachesDead(start, w);
  }

  function Forgotten(w: World): World {
    w.(disk := None)
  }
}
