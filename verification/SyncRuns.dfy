/** Runs composed from runs: what receiving one patch amounts to step by step, and the ways in which the
    protocol's guarantees end. */
module SyncRuns {
  import opened Options
  import opened Workspace
  import opened WorkspaceSync
  import opened SyncProtocol
  import opened SyncSafety

  /** Some interleaving leads from one world to the other. */
  ghost predicate Leads(w: World, w': World) {
    exists actions :: Run(w, actions) == Some(w')
  }

  /** What the command-line processes do themselves, or suffer: neither an edit of the user nor a change that
      the agent makes or announces. */
  predicate Own(a: Action) {
    !a.EditLocal? && !a.ChangeRemote? && !a.Announce? && !a.AnnounceOther?
  }

  ghost predicate AllOwn(actions: seq<Action>) {
    forall i :: 0 <= i < |actions| ==> Own(actions[i])
  }

  /** The processes get from one world to the other by themselves, while nobody else acts. */
  ghost predicate Reaches(w: World, w': World) {
    exists actions :: AllOwn(actions) && Run(w, actions) == Some(w')
  }

  lemma ReachesLeads(w: World, w': World)
    requires Reaches(w, w')
    ensures Leads(w, w')
  {
    var actions :| AllOwn(actions) && Run(w, actions) == Some(w');
  }

  lemma LeadsOn(w: World, mid: World, w': World)
    requires Leads(w, mid) && Leads(mid, w')
    ensures Leads(w, w')
  {
    var a :| Run(w, a) == Some(mid);
    var b :| Run(mid, b) == Some(w');
    RunConcat(w, a, b);
  }

  lemma StepLeads(w: World, a: Action, w': World)
    requires Step(w, a) == Some(w')
    ensures Leads(w, w')
  {
    assert [a][..0] == [];
    assert Run(w, [a]) == Step(w, a);
  }

  lemma {:induction false} RunConcat(w: World, a: seq<Action>, b: seq<Action>)
    requires Run(w, a).Some?
    ensures Run(w, a + b) == Run(Run(w, a).value, b)
  {
    if b == [] {
      assert a + b == a;
    } else {
      var last := |b| - 1;
      RunConcat(w, a, b[..last]);
      assert (a + b)[..|a + b| - 1] == a + b[..last];
    }
  }

  lemma ReachesSame(w: World)
    ensures Reaches(w, w)
  {
    assert Run(w, []) == Some(w);
  }

  lemma ReachesNext(w: World, w': World, a: Action)
    requires Reaches(w, w') && Own(a) && Step(w', a).Some?
    ensures Reaches(w, Step(w', a).value)
  {
    var actions :| AllOwn(actions) && Run(w, actions) == Some(w');
    assert (actions + [a])[..|actions|] == actions;
    assert Run(w, actions + [a]) == Step(w', a);
  }

  lemma ReachesOn(w: World, mid: World, w': World)
    requires Reaches(w, mid) && Reaches(mid, w')
    ensures Reaches(w, w')
  {
    var a :| AllOwn(a) && Run(w, a) == Some(mid);
    var b :| AllOwn(b) && Run(mid, b) == Some(w');
    RunConcat(w, a, b);
    assert AllOwn(a + b);
  }

  /** What a run from a freshly created session leads to satisfies every guarantee. */
  lemma ReachableSafe(w: World, w': World)
    requires Initial(w) && Leads(w, w')
    ensures Inv(w')
  {
    var actions :| Run(w, actions) == Some(w');
    RunKeeps(w, actions);
  }

  // ------------------------------------------------------------------ one patch received

  /** The local states that a merge replaces or removes. */
  function Replaced(fs: Fs, scan: Tree, ops: Patch, guarded: set<Path>, ioErrors: set<Path>): seq<Overwrite> {
    if ops == [] then []
    else
      var last := |ops| - 1;
      var now := Merge(fs, scan, ops[..last], guarded, ioErrors).fs;
      var sofar := Replaced(fs, scan, ops[..last], guarded, ioErrors);
      if Judge(now, At(scan, ops[last].path), ops[last], ops[last].path in guarded, ops[last].path in ioErrors)
         == Applied
      then sofar + [Overwrite(ops[last].path, At(now.files, ops[last].path), false)]
      else sofar
  }

  function Rejected(fs: Fs, ops: Patch, ioErrors: set<Path>): set<Path> {
    set p | p in Merge(fs, fs.files, ops, {}, ioErrors).conflicts
  }

  /** The world after the first `n` paths of patch `k`, with nobody else acting meanwhile. */
  function AfterPaths(w: World, k: nat, ioErrors: set<Path>, n: nat): World
    requires w.client.On? && IsPatch(w.server, k) && n <= |w.server.events[k].ops|
  {
    var ops := w.server.events[k].ops[..n];
    WithPhase(w, Applying(k, w.local.files, n, Rejected(w.local, ops, ioErrors)))
      .(local := Merge(w.local, w.local.files, ops, {}, ioErrors).fs,
        edited := {},
        overwrites := w.overwrites + Replaced(w.local, w.local.files, ops, {}, ioErrors))
  }

  lemma {:induction false} PathsApplied(w: World, k: nat, ioErrors: set<Path>, n: nat)
    requires BeginStep(w, k).Some? && n <= |w.server.events[k].ops|
    ensures Reaches(w, AfterPaths(w, k, ioErrors, n))
  {
    if n == 0 {
      NoPathYet(w, k, ioErrors);
      BeginReaches(w, k);
    } else {
      PathsApplied(w, k, ioErrors, n - 1);
      OnePathMore(w, k, ioErrors, n - 1);
      ApplyReaches(AfterPaths(w, k, ioErrors, n - 1), w.server.events[k].ops[n - 1].path in ioErrors);
      ReachesOn(w, AfterPaths(w, k, ioErrors, n - 1), AfterPaths(w, k, ioErrors, n));
    }
  }

  lemma NoPathYet(w: World, k: nat, ioErrors: set<Path>)
    requires BeginStep(w, k).Some?
    ensures BeginStep(w, k) == Some(AfterPaths(w, k, ioErrors, 0))
  {
    assert w.server.events[k].ops[..0] == [];
    assert w.overwrites + [] == w.overwrites;
    assert Rejected(w.local, [], ioErrors) == {};
  }

  lemma OnePathMore(w: World, k: nat, ioErrors: set<Path>, n: nat)
    requires BeginStep(w, k).Some? && n < |w.server.events[k].ops|
    ensures var ioError := w.server.events[k].ops[n].path in ioErrors;
            ApplyStep(AfterPaths(w, k, ioErrors, n), ioError) == Some(AfterPaths(w, k, ioErrors, n + 1))
  {
    var ops := w.server.events[k].ops;
    assert ops[..n + 1][..n] == ops[..n];
    var sofar := Merge(w.local, w.local.files, ops[..n], {}, ioErrors);
    var verdict := Judge(sofar.fs, At(w.local.files, ops[n].path), ops[n], false, ops[n].path in ioErrors);
    var lost := Replaced(w.local, w.local.files, ops[..n], {}, ioErrors);
    if verdict == Applied {
      var more := [Overwrite(ops[n].path, At(sofar.fs.files, ops[n].path), false)];
      assert w.overwrites + (lost + more) == w.overwrites + lost + more;
    }
    if verdict == Conflicted {
      assert (set p | p in sofar.conflicts + [ops[n].path]) == (set p | p in sofar.conflicts) + {ops[n].path};
    }
  }

  /** The checkpoint once patch `k` has been applied and noted in memory. */
  function Received(mem: Checkpoint, k: nat, ops: Patch, rejected: set<Path>, attached: bool,
                    objects: set<nat>): Checkpoint
  {
    Checkpoint(k, Absorb(mem.base, ops, rejected), mem.conflicts + rejected, if attached then None else Some(k),
               mem.journal + [Delivered(k, ops, rejected)] + Dropped(mem.pendingAck, objects))
  }

  /** The checkpoint once patch `k` has been applied, before its event counts as processed. */
  function Absorbed(mem: Checkpoint, k: nat, ops: Patch, rejected: set<Path>): Checkpoint {
    mem.(base := Absorb(mem.base, ops, rejected), conflicts := mem.conflicts + rejected,
         journal := mem.journal + [Delivered(k, ops, rejected)])
  }

  function AfterLanding(w: World, k: nat, ioErrors: set<Path>): World
    requires w.client.On? && IsPatch(w.server, k)
  {
    var ops := w.server.events[k].ops;
    WithMem(AfterPaths(w, k, ioErrors, |ops|), Absorbed(w.client.mem, k, ops, Rejected(w.local, ops, ioErrors)),
            Landed(k))
  }

  function AfterMark(w: World, k: nat, ioErrors: set<Path>): World
    requires w.client.On? && IsPatch(w.server, k)
  {
    var ops := w.server.events[k].ops;
    WithMem(AfterPaths(w, k, ioErrors, |ops|),
            Received(w.client.mem, k, ops, Rejected(w.local, ops, ioErrors), w.client.attached, w.server.objects),
            Marked(k))
  }

  /** From the last path to the advanced base. */
  lemma Landing(w: World, k: nat, rejected: set<Path>)
    requires w.client.On? && IsPatch(w.server, k)
    requires w.client.phase.Applying? && w.client.phase.event == k && w.client.phase.rejected == rejected
    requires w.client.phase.next == |w.server.events[k].ops|
    ensures Reaches(w, WithMem(w, Absorbed(w.client.mem, k, w.server.events[k].ops, rejected), Landed(k)))
  {
    ReachesSame(w);
    ReachesNext(w, w, RecordConflicts);
    var recorded := RecordStep(w).value;
    ReachesNext(w, recorded, AdvanceBase);
  }

  lemma PatchLanded(w: World, k: nat, ioErrors: set<Path>)
    requires BeginStep(w, k).Some?
    ensures Reaches(w, AfterLanding(w, k, ioErrors))
  {
    var ops := w.server.events[k].ops;
    PathsApplied(w, k, ioErrors, |ops|);
    assert ops[..|ops|] == ops;
    var applied := AfterPaths(w, k, ioErrors, |ops|);
    Landing(applied, k, Rejected(w.local, ops, ioErrors));
    ReachesOn(w, applied, AfterLanding(w, k, ioErrors));
  }

  lemma PatchMarked(w: World, k: nat, ioErrors: set<Path>)
    requires BeginStep(w, k).Some?
    ensures Reaches(w, AfterMark(w, k, ioErrors))
    ensures OwedStep(AfterLanding(w, k, ioErrors)) == Some(AfterMark(w, k, ioErrors))
  {
    PatchLanded(w, k, ioErrors);
    OwedReaches(AfterLanding(w, k, ioErrors));
    ReachesOn(w, AfterLanding(w, k, ioErrors), AfterMark(w, k, ioErrors));
  }

  function AfterSave(w: World, k: nat, ioErrors: set<Path>): World
    requires w.client.On? && IsPatch(w.server, k)
  {
    var marked := AfterMark(w, k, ioErrors);
    WithPhase(if w.client.attached then marked else marked.(disk := Some(marked.client.mem)), Saved(k))
  }

  /** The world once patch `k` has been received, checkpointed, acknowledged and cleared. */
  function AfterPatch(w: World, k: nat, ioErrors: set<Path>): World
    requires w.client.On? && IsPatch(w.server, k)
  {
    var saved := AfterSave(w, k, ioErrors);
    var cleared := WithMem(saved, saved.client.mem.(pendingAck := None), Idle);
    cleared.(server := cleared.server.(objects := cleared.server.objects - {k}))
  }

  lemma PatchSaved(w: World, k: nat, ioErrors: set<Path>)
    requires BeginStep(w, k).Some?
    ensures Reaches(w, AfterSave(w, k, ioErrors))
  {
    PatchMarked(w, k, ioErrors);
    assert SaveStep(AfterMark(w, k, ioErrors)) == Some(AfterSave(w, k, ioErrors));
    SaveOnce(AfterMark(w, k, ioErrors));
    ReachesOn(w, AfterMark(w, k, ioErrors), AfterSave(w, k, ioErrors));
  }

  lemma PatchReceived(w: World, k: nat, ioErrors: set<Path>)
    requires BeginStep(w, k).Some?
    ensures Reaches(w, AfterPatch(w, k, ioErrors))
  {
    PatchSaved(w, k, ioErrors);
    var saved := AfterSave(w, k, ioErrors);
    AckReaches(saved);
    ReachesOn(w, saved, AfterPatch(w, k, ioErrors));
  }

  function Dead(w: World): World {
    w.(client := Off)
  }

  lemma ReachesDead(w: World, mid: World)
    requires Reaches(w, mid) && mid.client.On?
    ensures Reaches(w, Dead(mid))
  {
    ReachesNext(w, mid, Crash);
  }

  lemma StepReaches(w: World, a: Action, w': World)
    requires Own(a) && Step(w, a) == Some(w')
    ensures Reaches(w, w')
  {
    ReachesSame(w);
    ReachesNext(w, w, a);
  }

  lemma StartReaches(w: World, blind: bool)
    requires StartStep(w, blind).Some?
    ensures Reaches(w, StartStep(w, blind).value)
  {
    StepReaches(w, Start(blind), StartStep(w, blind).value);
  }

  lemma RetryReaches(w: World)
    requires RetryStep(w).Some?
    ensures Reaches(w, Dead(w)) && Reaches(w, RetryStep(w).value)
  {
    ReachesSame(w);
    ReachesDead(w, w);
    StepReaches(w, RetryAck, RetryStep(w).value);
  }

  lemma PassReaches(w: World, to: nat)
    requires PassStep(w, to).Some?
    ensures Reaches(w, PassStep(w, to).value)
  {
    StepReaches(w, Pass(to), PassStep(w, to).value);
  }

  lemma PersistOnce(w: World)
    requires PersistStep(w).Some?
    ensures Reaches(w, PersistStep(w).value)
  {
    StepReaches(w, Persist, PersistStep(w).value);
  }

  lemma PersistReaches(w: World)
    requires PersistStep(w).Some?
    ensures Reaches(w, PersistStep(w).value) && Reaches(w, Dead(w)) && Reaches(w, Dead(PersistStep(w).value))
  {
    ReachesSame(w);
    ReachesDead(w, w);
    PersistOnce(w);
    ReachesDead(w, PersistStep(w).value);
  }

  /** A landed patch counts as processed and its acknowledgement as owed. */
  function OwedStep(w: World): Option<World> {
    if CountStep(w).Some? then MarkStep(CountStep(w).value) else None
  }

  lemma OwedReaches(w: World)
    requires OwedStep(w).Some?
    ensures Reaches(w, OwedStep(w).value) && Reaches(w, CountStep(w).value)
  {
    var counted := CountStep(w).value;
    StepReaches(w, Count, counted);
    StepReaches(counted, Mark, OwedStep(w).value);
    ReachesOn(w, counted, OwedStep(w).value);
  }

  lemma SaveOnce(w: World)
    requires SaveStep(w).Some?
    ensures Reaches(w, SaveStep(w).value)
  {
    StepReaches(w, Save, SaveStep(w).value);
  }

  lemma SaveReaches(w: World)
    requires SaveStep(w).Some?
    ensures Reaches(w, SaveStep(w).value) && Reaches(w, Dead(w)) && Reaches(w, Dead(SaveStep(w).value))
  {
    ReachesSame(w);
    ReachesDead(w, w);
    SaveOnce(w);
    ReachesDead(w, SaveStep(w).value);
  }

  lemma AckOnce(w: World)
    requires AckStep(w).Some?
    ensures Reaches(w, AckStep(w).value)
  {
    StepReaches(w, Ack, AckStep(w).value);
  }

  lemma ClearOnce(w: World)
    requires ClearStep(w).Some?
    ensures Reaches(w, ClearStep(w).value)
  {
    StepReaches(w, Clear, ClearStep(w).value);
  }

  lemma AckReaches(w: World)
    requires AckStep(w).Some?
    ensures Reaches(w, Dead(w)) && Reaches(w, Dead(AckStep(w).value))
    ensures ClearStep(AckStep(w).value).Some? && Reaches(w, ClearStep(AckStep(w).value).value)
  {
    ReachesSame(w);
    ReachesDead(w, w);
    AckOnce(w);
    var acked := AckStep(w).value;
    ReachesDead(w, acked);
    ClearOnce(acked);
    ReachesOn(w, acked, ClearStep(acked).value);
  }

  /** A process that dies while it applies the paths of a patch. */
  lemma PathsCut(w: World, k: nat, ioErrors: set<Path>, n: nat)
    requires BeginStep(w, k).Some? && n <= |w.server.events[k].ops|
    ensures Reaches(w, Dead(AfterPaths(w, k, ioErrors, n)))
  {
    PathsApplied(w, k, ioErrors, n);
    ReachesDead(w, AfterPaths(w, k, ioErrors, n));
  }

  // ------------------------------------------------------------------ the final merge

  /** The operations are exactly the remote changes since the base. */
  ghost predicate FinalOps(base: Tree, final: Tree, ops: Patch) {
    && DistinctPaths(ops)
    && (forall i :: 0 <= i < |ops| ==>
          ops[i].before != ops[i].after && ops[i].before == At(base, ops[i].path)
              && ops[i].after == At(final, ops[i].path))
  }

  function Clashes(fs: Fs, ops: Patch, guarded: set<Path>, ioErrors: set<Path>): set<Path> {
    set p | p in Merge(fs, fs.files, ops, guarded, ioErrors).conflicts
  }

  /** The world once the merge has visited the first `n` changed paths. */
  function AfterMerging(w: World, ops: Patch, ioErrors: set<Path>, n: nat): World
    requires w.client.On? && w.server.history != [] && n <= |ops|
  {
    var final := w.server.history[|w.server.history| - 1];
    var mem := w.client.mem;
    var sofar := Merge(w.local, w.local.files, ops[..n], mem.conflicts, ioErrors);
    WithPhase(w, Merging(final, w.local.files, Pending(final, mem.base) - PathsOf(ops[..n]),
                         Clashes(w.local, ops[..n], mem.conflicts, ioErrors)))
      .(local := sofar.fs, edited := {},
        overwrites := w.overwrites + Replaced(w.local, w.local.files, ops[..n], mem.conflicts, ioErrors))
  }

  lemma {:induction false} PathsMerged(w: World, ops: Patch, ioErrors: set<Path>, n: nat)
    requires BeginFinalStep(w).Some? && n <= |ops|
    requires FinalOps(w.client.mem.base, w.server.history[|w.server.history| - 1], ops)
    ensures Reaches(w, AfterMerging(w, ops, ioErrors, n))
  {
    if n == 0 {
      NothingMergedYet(w, ops, ioErrors);
      StepReaches(w, BeginFinal, AfterMerging(w, ops, ioErrors, 0));
    } else {
      PathsMerged(w, ops, ioErrors, n - 1);
      OneMergeMore(w, ops, ioErrors, n - 1);
      MergeReaches(AfterMerging(w, ops, ioErrors, n - 1), ops[n - 1].path, ops[n - 1].path in ioErrors);
      ReachesOn(w, AfterMerging(w, ops, ioErrors, n - 1), AfterMerging(w, ops, ioErrors, n));
    }
  }

  lemma NothingMergedYet(w: World, ops: Patch, ioErrors: set<Path>)
    requires BeginFinalStep(w).Some?
    ensures BeginFinalStep(w) == Some(AfterMerging(w, ops, ioErrors, 0))
  {
    assert ops[..0] == [];
    assert w.overwrites + [] == w.overwrites;
    assert Clashes(w.local, [], w.client.mem.conflicts, ioErrors) == {};
    var todo := BeginFinalStep(w).value.client.phase.todo;
    assert PathsOf([]) == {} && todo - {} == todo;
  }

  lemma MergeReaches(w: World, p: Path, ioError: bool)
    requires MergeStep(w, p, ioError).Some?
    ensures Reaches(w, MergeStep(w, p, ioError).value)
  {
    StepReaches(w, MergePath(p, ioError), MergeStep(w, p, ioError).value);
  }

  lemma OneMergeMore(w: World, ops: Patch, ioErrors: set<Path>, n: nat)
    requires BeginFinalStep(w).Some? && n < |ops|
    requires FinalOps(w.client.mem.base, w.server.history[|w.server.history| - 1], ops)
    ensures MergeStep(AfterMerging(w, ops, ioErrors, n), ops[n].path, ops[n].path in ioErrors)
         == Some(AfterMerging(w, ops, ioErrors, n + 1))
  {
    var final := w.server.history[|w.server.history| - 1];
    var mem, op := w.client.mem, ops[n];
    assert ops[..n + 1][..n] == ops[..n];
    assert op.path !in PathsOf(ops[..n]);
    PathsOfNext(ops, n);
    assert op == Operation(op.path, At(mem.base, op.path), At(final, op.path));
    var sofar := Merge(w.local, w.local.files, ops[..n], mem.conflicts, ioErrors);
    var verdict := Judge(sofar.fs, At(w.local.files, op.path), op, op.path in mem.conflicts, op.path in ioErrors);
    var lost := Replaced(w.local, w.local.files, ops[..n], mem.conflicts, ioErrors);
    if verdict == Applied {
      var more := [Overwrite(op.path, At(sofar.fs.files, op.path), false)];
      assert w.overwrites + (lost + more) == w.overwrites + lost + more;
    }
    if verdict == Conflicted {
      assert (set p | p in sofar.conflicts + [op.path]) == (set p | p in sofar.conflicts) + {op.path};
    }
    var todo := Pending(final, mem.base);
    assert todo - PathsOf(ops[..n + 1]) == todo - PathsOf(ops[..n]) - {op.path};
  }

  lemma PathsOfNext(ops: Patch, n: nat)
    requires n < |ops|
    ensures PathsOf(ops[..n + 1]) == PathsOf(ops[..n]) + {ops[n].path}
  {
    forall p | p in PathsOf(ops[..n]) ensures p in PathsOf(ops[..n + 1]) {
      var i :| 0 <= i < n && ops[..n][i].path == p;
      assert ops[..n + 1][i].path == p;
    }
    assert ops[..n + 1][n].path == ops[n].path;
  }

  // ------------------------------------------------------------------ where the guarantees end

  /** The stored checkpoint covers patch `j`, nobody will acknowledge it, and its object is still there. */
  ghost predicate Leaked(w: World, j: nat) {
    && w.disk.Some? && IsPatch(w.server, j) && j in w.server.objects && j <= w.disk.value.cursor
    && w.disk.value.pendingAck != Some(j) && Disowned(w.disk.value.journal, j)
  }

  /** Two announced patches, a Ctrl-C caught while the first awaits its acknowledgement: the slot goes
      to the second, and the first object is neither above the stored cursor nor pending. */
  lemma InterruptedAcknowledgementLeaks(w: World, j: nat, k: nat)
    requires BeginStep(w, j).Some? && !w.client.attached
    requires IsPatch(w.server, k) && j < k && NoPatchBetween(w.server, j, k) && k in w.server.objects
    ensures exists end :: Reaches(w, end) && Leaked(end, j)
  {
    PatchSaved(w, j, {});
    var saved := AfterSave(w, j, {});
    var resumed := InterruptStep(saved).value;
    InterruptReaches(saved);
    ReachesOn(w, saved, resumed);
    assert resumed.client.mem.pendingAck == Some(j) && j in resumed.server.objects;
    ReceivedAndStored(resumed, k);
    var end := PersistStep(AfterPatch(resumed, k, {})).value;
    ReachesOn(w, resumed, end);
    assert SlotLost(j) in Dropped(resumed.client.mem.pendingAck, resumed.server.objects);
    assert Leaked(end, j);
  }

  lemma CutAndPromoted(w: World, j: nat)
    requires w.client.On? && w.client.attached && w.client.phase == Marked(j)
    requires w.client.mem.cursor == j && IsPatch(w.server, j) && j in w.server.objects
    ensures var resumed := InterruptStep(w);
            && resumed.Some? && PromoteStep(resumed.value).Some?
            && Leaked(PromoteStep(resumed.value).value, j)
  {
    var journal := InterruptStep(w).value.client.mem.journal;
    assert journal[|w.client.mem.journal|] == SlotLost(j);
  }

  /** An attached run has no slot to keep: a Ctrl-C caught before the acknowledgement, and a promotion,
      leave an object that the stored checkpoint does not name. */
  lemma PromotedAcknowledgementLeaks(w: World, j: nat)
    requires BeginStep(w, j).Some? && w.client.attached
    ensures exists end :: Reaches(w, end) && Leaked(end, j)
  {
    PatchMarked(w, j, {});
    var marked := AfterMark(w, j, {});
    CutAndPromoted(marked, j);
    var resumed := InterruptStep(marked).value;
    InterruptReaches(marked);
    ReachesOn(w, marked, resumed);
    PromoteReaches(resumed);
    ReachesOn(w, resumed, PromoteStep(resumed).value);
  }

  /** The cursor moves before the slot is taken: a Ctrl-C caught between the two leaks the object at once,
      although the run has a slot. */
  lemma CountedAcknowledgementLeaks(w: World, j: nat)
    requires BeginStep(w, j).Some? && !w.client.attached && w.client.mem.pendingAck != Some(j)
    ensures exists end :: Reaches(w, end) && Leaked(end, j)
  {
    PatchMarked(w, j, {});
    PatchLanded(w, j, {});
    var landed := AfterLanding(w, j, {});
    OwedReaches(landed);
    var counted := CountStep(landed).value;
    ReachesOn(w, landed, counted);
    CutWhileCounted(counted, j);
    var end := PersistStep(InterruptStep(counted).value).value;
    InterruptReaches(counted);
    PersistOnce(InterruptStep(counted).value);
    ReachesOn(w, counted, InterruptStep(counted).value);
    ReachesOn(w, InterruptStep(counted).value, end);
  }

  lemma CutWhileCounted(w: World, j: nat)
    requires w.client.On? && !w.client.attached && w.client.phase == Counted(j) && IsPatch(w.server, j)
    requires w.client.mem.cursor == j && j in w.server.objects && w.client.mem.pendingAck != Some(j)
    ensures var resumed := InterruptStep(w);
            && resumed.Some? && PersistStep(resumed.value).Some? && Leaked(PersistStep(resumed.value).value, j)
  {
    var journal := InterruptStep(w).value.client.mem.journal;
    assert journal[|w.client.mem.journal|] == SlotLost(j);
  }

  /** An ending command without a workspace that is cut off after a page: the patch is passed. */
  function PassedOver(w: World, k: nat): World
    requires w.disk.Some?
  {
    var stored := w.disk.value;
    var gone := if stored.pendingAck.Some? then {stored.pendingAck.value} else {};
    w.(disk := Some(stored.(cursor := k, pendingAck := None, journal := stored.journal + [Passed(k)])),
       server := w.server.(objects := w.server.objects - gone))
  }

  /** A command without a workspace, started and through with its retry. */
  function StartedBlind(w: World): World
    requires w.disk.Some?
  {
    var gone := if w.disk.value.pendingAck.Some? then {w.disk.value.pendingAck.value} else {};
    w.(client := On(w.disk.value.(pendingAck := None), Passing, false),
       server := w.server.(objects := w.server.objects - gone))
  }

  lemma BlindStarts(w: World)
    requires w.client.Off? && w.disk.Some?
    ensures Reaches(w, StartedBlind(w))
  {
    var started := StartStep(w, true).value;
    StartReaches(w, true);
    RetryReaches(started);
    var none: set<nat> := {};
    assert w.server.objects - none == w.server.objects;
    ReachesOn(w, started, StartedBlind(w));
  }

  lemma PassedReached(w: World, k: nat)
    requires w.client.Off? && w.disk.Some? && NextPatch(w.server, w.disk.value.cursor, k) && k <= w.server.last
    ensures Reaches(w, PassedOver(w, k))
  {
    var started := StartedBlind(w);
    BlindStarts(w);
    forall j: nat | w.disk.value.cursor < j < k ensures !IsPatch(started.server, j) {
      assert !IsPatch(w.server, j);
    }
    var passed := PassStep(started, k).value;
    PassReaches(started, k);
    ReachesOn(w, started, passed);
    PersistReaches(passed);
    ReachesOn(w, passed, Dead(PersistStep(passed).value));
  }

  /** Ending a running session whose directory is gone or whose base cannot be read, and leaving it before
      the handoff, stores a cursor past patches that were never applied: their outcome is in no
      checkpoint, their objects stay, and no later command asks for them again. */
  lemma PassedPatchLeaks(w: World, k: nat)
    requires Inv(w) && w.client.Off? && w.disk.Some? && NextPatch(w.server, w.disk.value.cursor, k)
    requires !DeliveredIn(w.disk.value.journal, k)
    ensures exists end :: Reaches(w, end) && Leaked(end, k) && end.local == w.local
                       && !OutcomeIn(end.disk.value, end.server, k) && SlotLost(k) !in end.disk.value.journal
  {
    PassedReached(w, k);
    var end := PassedOver(w, k);
    var journal, more := w.disk.value.journal, end.disk.value.journal;
    assert more[|journal|] == Passed(k);
    assert !Disowned(journal, k);
    forall j | 0 <= j < |more| ensures !Delivers(more[j], k) {
      assert j < |journal| ==> more[j] == journal[j];
    }
    assert k in end.server.objects;
    assert Leaked(end, k);
  }

  lemma PromoteReaches(w: World)
    requires PromoteStep(w).Some?
    ensures Reaches(w, PromoteStep(w).value)
  {
    StepReaches(w, Promote, PromoteStep(w).value);
  }

  lemma ReceivedAndStored(w: World, k: nat)
    requires BeginStep(w, k).Some? && !w.client.attached
    ensures var end := PersistStep(AfterPatch(w, k, {}));
            && end.Some? && Reaches(w, end.value) && end.value.server == w.server.(objects := w.server.objects - {k})
            && end.value.disk.Some? && end.value.disk.value.cursor == k && end.value.disk.value.pendingAck == None
            && forall e :: e in Dropped(w.client.mem.pendingAck, w.server.objects) ==> e in end.value.disk.value.journal
  {
    PatchReceived(w, k, {});
    PersistOnce(AfterPatch(w, k, {}));
    ReachesOn(w, AfterPatch(w, k, {}), PersistStep(AfterPatch(w, k, {})).value);
  }

  lemma BeginReaches(w: World, k: nat)
    requires BeginStep(w, k).Some?
    ensures Reaches(w, BeginStep(w, k).value)
  {
    StepReaches(w, Begin(k), BeginStep(w, k).value);
  }

  lemma EditLeads(w: World, fs: Fs)
    ensures Leads(w, EditStep(w, fs))
  {
    StepLeads(w, EditLocal(fs), EditStep(w, fs));
  }

  lemma ApplyReaches(w: World, ioError: bool)
    requires ApplyStep(w, ioError).Some?
    ensures Reaches(w, ApplyStep(w, ioError).value)
  {
    StepReaches(w, ApplyPath(ioError), ApplyStep(w, ioError).value);
  }

  lemma InterruptReaches(w: World)
    requires InterruptStep(w).Some?
    ensures Reaches(w, InterruptStep(w).value)
  {
    StepReaches(w, Interrupt, InterruptStep(w).value);
  }

  /** The last state that was replaced or removed is an edit that the remote side never had. */
  ghost predicate EditLost(w: World, edit: FileState) {
    w.overwrites != [] &&
    var lost := w.overwrites[|w.overwrites| - 1];
    lost.edited && lost.state == Some(edit) && !Held(w.server.history, lost.path, lost.state)
  }

  /** An edit that lands between reading the manifest and writing the path is overwritten although
      the remote side never had it: the window exists, and only there. */
  lemma EditInsideWindowLost(w: World, k: nat, edit: FileState)
    requires BeginStep(w, k).Some? && w.server.events[k].ops != []
    requires var op := w.server.events[k].ops[0];
             && op.before.Some? && op.before != Some(edit) && At(w.local.files, op.path) == op.before
                && op.before != op.after && op.after.Some?
             && w.local.CanWrite(op.path) && !Held(w.server.history, op.path, Some(edit))
    ensures exists end :: Leads(w, end) && EditLost(end, edit)
  {
    var op := w.server.events[k].ops[0];
    var begun := BeginStep(w, k).value;
    BeginReaches(w, k);
    var fs := w.local.(files := w.local.files[op.path := edit]);
    var edited := EditStep(begun, fs);
    ReachesLeads(w, begun);
    EditLeads(begun, fs);
    LeadsOn(w, begun, edited);
    assert !fs.Blocked(op.path);
    ApplyReaches(edited, false);
    var end := ApplyStep(edited, false).value;
    ReachesLeads(edited, end);
    LeadsOn(w, edited, end);
    assert end.overwrites[|end.overwrites| - 1] == Overwrite(op.path, Some(edit), true);
  }
}
