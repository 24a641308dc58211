/** Starting an interrupted action over: exactly which patches still converge. */
module WorkspaceRestarts {
  import opened Options
  import opened Workspace
  import opened WorkspaceSync

  // ------------------------------------------------------------------ interruption

  /** What an interrupted action leaves behind: the tree after its first `cut` paths. */
  function Interrupted(fs: Fs, ops: Patch, guarded: set<Path>, cut: nat): Fs
    requires cut <= |ops|
  {
    Merge(fs, fs.files, ops[..cut], guarded, {}).fs
  }

  function Max(a: nat, b: nat): nat {
    if a < b then b else a
  }

  /** Where the first `cut` paths are already done, running the action again changes nothing on
      them, reports the same conflicts, and then continues as the first run would have. */
  lemma Resumes(fs: Fs, ops: Patch, guarded: set<Path>, cut: nat, upTo: nat)
    requires DistinctPaths(ops) && PrefixFree(ops) && cut <= |ops| && upTo <= |ops|
    ensures ResumedTo(fs, ops, guarded, cut, upTo)
  {
    ResumesNone(fs, ops, guarded, cut);
    for n := 0 to upTo
      invariant ResumedTo(fs, ops, guarded, cut, n)
    {
      if n < cut {
        ResumesSettled(fs, ops, guarded, cut, n);
      } else {
        ResumesOnward(fs, ops, guarded, cut, n);
      }
    }
  }

  lemma ResumesNone(fs: Fs, ops: Patch, guarded: set<Path>, cut: nat)
    requires cut <= |ops|
    ensures ResumedTo(fs, ops, guarded, cut, 0)
  {
    assert ops[..0] == [];
  }

  ghost predicate ResumedTo(fs: Fs, ops: Patch, guarded: set<Path>, cut: nat, upTo: nat)
    requires cut <= |ops| && upTo <= |ops|
  {
    var half := Interrupted(fs, ops, guarded, cut);
    var again := Merge(half, half.files, ops[..upTo], guarded, {});
    && again.fs == Interrupted(fs, ops, guarded, Max(cut, upTo))
    && again.conflicts == Merge(fs, fs.files, ops[..upTo], guarded, {}).conflicts
  }

  lemma MergeOneMore(fs: Fs, scan: Tree, ops: Patch, guarded: set<Path>, n: nat)
    requires n < |ops|
    ensures Merge(fs, scan, ops[..n + 1], guarded, {})
            == Advance(Merge(fs, scan, ops[..n], guarded, {}), scan, ops[n], guarded, {})
  {
    assert ops[..n + 1][..n] == ops[..n];
  }

  /** The verdict the first run gave on path `n`. */
  lemma FirstVerdict(fs: Fs, ops: Patch, guarded: set<Path>, n: nat)
    requires DistinctPaths(ops) && PrefixFree(ops) && n < |ops|
    ensures var p, sofar := ops[n].path, Interrupted(fs, ops, guarded, n);
            Judge(sofar, At(fs.files, p), ops[n], p in guarded, false)
                == Judge(fs, At(fs.files, p), ops[n], p in guarded, false)
  {
    MergeElsewhere(fs, fs.files, ops[..n], guarded, {}, ops[n].path);
    JudgeAround(Interrupted(fs, ops, guarded, n), fs, At(fs.files, ops[n].path), ops[n], ops[n].path in guarded, false);
  }

  lemma ResumesSettled(fs: Fs, ops: Patch, guarded: set<Path>, cut: nat, n: nat)
    requires DistinctPaths(ops) && PrefixFree(ops) && n < cut <= |ops| && ResumedTo(fs, ops, guarded, cut, n)
    ensures ResumedTo(fs, ops, guarded, cut, n + 1)
  {
    var half := Interrupted(fs, ops, guarded, cut);
    MergeOneMore(fs, fs.files, ops, guarded, n);
    MergeOneMore(half, half.files, ops, guarded, n);
    FirstVerdict(fs, ops, guarded, n);
    JudgedAgain(fs, ops, guarded, cut, n);
  }

  lemma ResumesOnward(fs: Fs, ops: Patch, guarded: set<Path>, cut: nat, n: nat)
    requires DistinctPaths(ops) && PrefixFree(ops) && cut <= n < |ops| && ResumedTo(fs, ops, guarded, cut, n)
    ensures ResumedTo(fs, ops, guarded, cut, n + 1)
  {
    var half := Interrupted(fs, ops, guarded, cut);
    MergeOneMore(fs, fs.files, ops, guarded, n);
    MergeOneMore(half, half.files, ops, guarded, n);
    MergeElsewhere(fs, fs.files, ops[..cut], guarded, {}, ops[n].path);
  }

  /** An operation finished before the cut is found settled, an unfinished one is judged as before. */
  lemma JudgedAgain(fs: Fs, ops: Patch, guarded: set<Path>, cut: nat, i: nat)
    requires DistinctPaths(ops) && PrefixFree(ops) && i < cut <= |ops|
    ensures var half := Interrupted(fs, ops, guarded, cut);
            var p := ops[i].path;
            var first := Judge(fs, At(fs.files, p), ops[i], p in guarded, false);
            Judge(half, At(half.files, p), ops[i], p in guarded, false)
              == (if first == Applied then Settled else first)
  {
    var op := ops[i];
    var half := Interrupted(fs, ops, guarded, cut);
    var start := Interrupted(fs, ops, guarded, i);
    MergeElsewhere(fs, fs.files, ops[..i], guarded, {}, op.path);
    var verdict := Judge(start, At(fs.files, op.path), op, op.path in guarded, false);
    JudgeAround(start, fs, At(fs.files, op.path), op, op.path in guarded, false);
    var done := Effect(start, op, verdict);
    EffectFootprint(start, op, verdict);
    assert ops[..i + 1][..i] == ops[..i];
    assert done == Interrupted(fs, ops, guarded, i + 1);
    SuffixElsewhere(fs, ops, guarded, i + 1, cut, op.path);
    if verdict == Applied {
      JudgeSettled(done, half, op, op.path in guarded);
    } else {
      JudgeAround(half, fs, At(fs.files, op.path), op, op.path in guarded, false) by {
        SameAroundTransitive(half, done, fs, op.path);
      }
    }
  }

  lemma SameAroundTransitive(a: Fs, b: Fs, c: Fs, p: Path)
    requires SameAround(a, b, p) && SameAround(b, c, p)
    ensures SameAround(a, c, p)
  {
  }

  lemma JudgeSettled(done: Fs, half: Fs, op: Operation, guarded: bool)
    requires SameAround(half, done, op.path)
    requires At(done.files, op.path) == op.after
    requires op.after.None? ==> !done.Exists(op.path)
    ensures Judge(half, At(half.files, op.path), op, guarded, false) == Settled
  {
  }

  lemma {:induction false} SuffixElsewhere(fs: Fs, ops: Patch, guarded: set<Path>, lo: nat, hi: nat, p: Path)
    requires lo <= hi <= |ops|
    requires forall i :: lo <= i < hi ==> ops[i].path != p && !Above(ops[i].path, p) && !Above(p, ops[i].path)
    ensures SameAround(Interrupted(fs, ops, guarded, hi), Interrupted(fs, ops, guarded, lo), p)
    decreases hi
  {
    if lo < hi {
      var last := hi - 1;
      SuffixElsewhere(fs, ops, guarded, lo, last, p);
      assert ops[..hi][..last] == ops[..last];
      var sofar := Interrupted(fs, ops, guarded, last);
      var verdict := Judge(sofar, At(fs.files, ops[last].path), ops[last], ops[last].path in guarded, false);
      EffectElsewhere(sofar, ops[last], verdict, p);
      SameAroundTransitive(Interrupted(fs, ops, guarded, hi), sofar, Interrupted(fs, ops, guarded, lo), p);
    }
  }

  /** The tree after a series of interrupted runs, each started over from the first path. */
  function Restarted(fs: Fs, ops: Patch, guarded: set<Path>, cuts: seq<nat>): Fs
    requires forall i :: 0 <= i < |cuts| ==> cuts[i] <= |ops|
  {
    if cuts == [] then fs
    else Interrupted(Restarted(fs, ops, guarded, cuts[..|cuts| - 1]), ops, guarded, cuts[|cuts| - 1])
  }

  function Furthest(cuts: seq<nat>): nat {
    if cuts == [] then 0 else Max(Furthest(cuts[..|cuts| - 1]), cuts[|cuts| - 1])
  }

  lemma {:induction false} RestartsReach(fs: Fs, ops: Patch, guarded: set<Path>, cuts: seq<nat>)
    requires DistinctPaths(ops) && PrefixFree(ops)
    requires forall i :: 0 <= i < |cuts| ==> cuts[i] <= |ops|
    ensures Furthest(cuts) <= |ops|
    ensures Restarted(fs, ops, guarded, cuts) == Interrupted(fs, ops, guarded, Furthest(cuts))
  {
    if cuts != [] {
      var last := |cuts| - 1;
      RestartsReach(fs, ops, guarded, cuts[..last]);
      Resumes(fs, ops, guarded, Furthest(cuts[..last]), cuts[last]);
    }
  }

  // ------------------------------------------------------------------ what is compared

  ghost predicate Cuts(ops: Patch, cuts: seq<nat>) {
    forall i :: 0 <= i < |cuts| ==> cuts[i] <= |ops|
  }

  /** The base after a patch of which these paths were rejected. */
  function Rebased(base: Tree, ops: Patch, conflicts: seq<Path>): Tree {
    Absorb(base, ops, set p | p in conflicts)
  }

  /** However it was stopped and started over, the action ends with the tree, the conflicts and the base
      of one uninterrupted run. */
  ghost predicate Converges(fs: Fs, ops: Patch, guarded: set<Path>, cuts: seq<nat>)
    requires Cuts(ops, cuts)
  {
    var half := Restarted(fs, ops, guarded, cuts);
    var again, once := Merge(half, half.files, ops, guarded, {}), Merge(fs, fs.files, ops, guarded, {});
    && again.fs == once.fs && again.conflicts == once.conflicts
    && forall base :: Rebased(base, ops, again.conflicts) == Rebased(base, ops, once.conflicts)
  }

  ghost predicate AlwaysConverges(ops: Patch, guarded: set<Path>) {
    forall fs: Fs, cuts :: WellFormedFs(fs) && Cuts(ops, cuts) ==> Converges(fs, ops, guarded, cuts)
  }

  /** The files of one archive: no file is a directory above another. */
  ghost predicate IsManifest(tree: Tree) {
    [] !in tree && forall p, q :: p in tree && q in tree ==> !Above(p, q)
  }

  /** Sorted paths name a directory before what is in it. */
  ghost predicate PrefixesFirst(order: seq<Path>) {
    forall i, j :: 0 <= i < |order| && 0 <= j < |order| && Above(order[i], order[j]) ==> i < j
  }

  // ------------------------------------------------------------------ single verdicts of a run

  /** The verdict of operation `n` in a run. */
  function VerdictAt(fs: Fs, scan: Tree, ops: Patch, n: nat): Verdict
    requires n < |ops|
  {
    Judge(Merge(fs, scan, ops[..n], {}, {}).fs, At(scan, ops[n].path), ops[n], false, false)
  }

  lemma Decided(fs: Fs, scan: Tree, ops: Patch, n: nat, upTo: nat)
    requires DistinctPaths(ops) && n < upTo <= |ops|
    ensures var r := Merge(fs, scan, ops[..upTo], {}, {});
            && (ops[n].path in r.applied <==> VerdictAt(fs, scan, ops, n) == Applied)
            && (ops[n].path in r.conflicts <==> VerdictAt(fs, scan, ops, n) == Conflicted)
  {
    NotYet(fs, scan, ops, n, n);
    DecidedHere(fs, scan, ops, n);
    for k := n + 1 to upTo
      invariant var r := Merge(fs, scan, ops[..k], {}, {});
                && (ops[n].path in r.applied <==> VerdictAt(fs, scan, ops, n) == Applied)
                && (ops[n].path in r.conflicts <==> VerdictAt(fs, scan, ops, n) == Conflicted)
    {
      DecidedStays(fs, scan, ops, n, k);
    }
  }

  lemma DecidedHere(fs: Fs, scan: Tree, ops: Patch, n: nat)
    requires n < |ops|
    requires var r := Merge(fs, scan, ops[..n], {}, {}); ops[n].path !in r.applied && ops[n].path !in r.conflicts
    ensures var r := Merge(fs, scan, ops[..n + 1], {}, {});
            && (ops[n].path in r.applied <==> VerdictAt(fs, scan, ops, n) == Applied)
            && (ops[n].path in r.conflicts <==> VerdictAt(fs, scan, ops, n) == Conflicted)
  {
    MergeOneMore(fs, scan, ops, {}, n);
  }

  lemma DecidedStays(fs: Fs, scan: Tree, ops: Patch, n: nat, k: nat)
    requires DistinctPaths(ops) && n < k < |ops|
    ensures var r, more := Merge(fs, scan, ops[..k], {}, {}), Merge(fs, scan, ops[..k + 1], {}, {});
            && (ops[n].path in r.applied <==> ops[n].path in more.applied)
            && (ops[n].path in r.conflicts <==> ops[n].path in more.conflicts)
  {
    MergeOneMore(fs, scan, ops, {}, k);
  }

  lemma {:induction false} NotYet(fs: Fs, scan: Tree, ops: Patch, n: nat, upTo: nat)
    requires DistinctPaths(ops) && upTo <= n < |ops|
    ensures var r := Merge(fs, scan, ops[..upTo], {}, {}); ops[n].path !in r.applied && ops[n].path !in r.conflicts
    decreases upTo
  {
    if upTo > 0 {
      NotYet(fs, scan, ops, n, upTo - 1);
      MergeOneMore(fs, scan, ops, {}, upTo - 1);
    } else {
      assert ops[..0] == [];
    }
  }

  /** Operations that the tree `x` does not let through leave it alone. */
  lemma {:induction false} Idle(fs: Fs, scan: Tree, ops: Patch, lo: nat, hi: nat, x: Fs)
    requires lo <= hi <= |ops| && Merge(fs, scan, ops[..lo], {}, {}).fs == x
    requires forall i :: lo <= i < hi ==> Judge(x, At(scan, ops[i].path), ops[i], false, false) != Applied
    ensures Merge(fs, scan, ops[..hi], {}, {}).fs == x
    decreases hi
  {
    if lo < hi {
      Idle(fs, scan, ops, lo, hi - 1, x);
      MergeOneMore(fs, scan, ops, {}, hi - 1);
    }
  }

  lemma NotStarted(fs: Fs, scan: Tree, ops: Patch)
    ensures Merge(fs, scan, ops[..0], {}, {}).fs == fs
  {
    assert ops[..0] == [];
  }

  /** An operation is never applied where the local path is not as it was before. */
  lemma NotAsBefore(x: Fs, scan: Tree, op: Operation)
    requires At(scan, op.path) != op.before
    ensures Judge(x, At(scan, op.path), op, false, false) != Applied
  {
  }

  // ------------------------------------------------------------------ well-formed trees stay so

  lemma {:induction false} ParentsKeepForm(fs: Fs, d: Path)
    requires WellFormedFs(fs)
    ensures WellFormedFs(fs.RemoveEmptyParents(d))
    decreases |d|
  {
    if d == [] || d !in fs.dirs || fs.Occupied(d) {
    } else {
      EmptyKeepsForm(fs, d);
      ParentsKeepForm(fs.(dirs := fs.dirs - {d}), d[..|d| - 1]);
    }
  }

  lemma ParentOccupied(fs: Fs, p: Path, i: nat)
    requires WellFormedFs(fs) && fs.Exists(p) && 0 < i < |p|
    ensures fs.Occupied(p[..i])
  {
    var child := p[..i + 1];
    assert child[..i] == p[..i];
    if i + 1 == |p| {
      assert child == p;
    } else {
      assert child in fs.dirs;
    }
  }

  lemma EmptyKeepsForm(fs: Fs, d: Path)
    requires WellFormedFs(fs) && !fs.Occupied(d)
    ensures WellFormedFs(fs.(dirs := fs.dirs - {d}))
  {
    var less := fs.(dirs := fs.dirs - {d});
    forall p, i {:trigger p[..i]} | less.Exists(p) && 0 < i < |p| ensures p[..i] in less.dirs {
      assert fs.Exists(p);
      ParentOccupied(fs, p, i);
    }
  }

  /** Nothing is below `q` but the directories on the way down to `d`. */
  ghost predicate OnlyTowards(fs: Fs, q: Path, d: Path) {
    forall e :: fs.Exists(e) && Above(q, e) ==> e in fs.dirs && (e == d || Above(e, d))
  }

  lemma NothingBelowEmpty(fs: Fs, d: Path, e: Path)
    requires WellFormedFs(fs) && !fs.Occupied(d) && fs.Exists(e) && d != []
    ensures !Above(d, e)
  {
    if Above(d, e) {
      ParentOccupied(fs, e, |d|);
    }
  }

  lemma OneStepUp(d: Path, e: Path)
    requires |d| > 1
    ensures Above(e, d) <==> e == d[..|d| - 1] || Above(e, d[..|d| - 1])
  {
    var up := d[..|d| - 1];
    if |e| < |d| {
      assert d[..|e|] == up[..|e|];
    }
  }

  lemma OnlyTowardsLess(fs: Fs, q: Path, d: Path)
    requires |d| > 1 && d in fs.dirs && Above(q, d) && fs.files.Keys !! fs.dirs && fs.dirs !! fs.specials
    ensures OnlyTowards(fs.(dirs := fs.dirs - {d}), q, d[..|d| - 1]) <==> OnlyTowards(fs, q, d)
  {
    var less, up := fs.(dirs := fs.dirs - {d}), d[..|d| - 1];
    forall e ensures Above(e, d) <==> e == up || Above(e, up) {
      OneStepUp(d, e);
    }
    if OnlyTowards(less, q, up) {
      forall e | fs.Exists(e) && Above(q, e) ensures e in fs.dirs && (e == d || Above(e, d)) {
        assert e != d ==> less.Exists(e);
      }
    }
    if OnlyTowards(fs, q, d) {
      forall e | less.Exists(e) && Above(q, e) ensures e in less.dirs && (e == up || Above(e, up)) {
        assert fs.Exists(e) && e != d;
      }
    }
  }

  /** Exactly the directories that hold nothing else any more are removed, from the parent upwards. */
  lemma {:induction false} EmptiedExactly(fs: Fs, d: Path, q: Path)
    requires WellFormedFs(fs) && d in fs.dirs && (q == d || Above(q, d)) && q != []
    ensures q in fs.RemoveEmptyParents(d).dirs <==> !OnlyTowards(fs, q, d)
    decreases |d|, 1
  {
    if fs.Occupied(d) {
      var c :| c in fs.files.Keys + fs.dirs + fs.specials && |c| == |d| + 1 && c[..|d|] == d;
      assert Above(q, c) by { assert c[..|q|] == d[..|q|]; }
      assert q in fs.dirs by { assert d[..|q|] == q; }
    } else {
      EmptyStep(fs, d, q);
    }
  }

  lemma EmptyStep(fs: Fs, d: Path, q: Path)
    requires WellFormedFs(fs) && d in fs.dirs && (q == d || Above(q, d)) && q != [] && !fs.Occupied(d)
    ensures q in fs.RemoveEmptyParents(d).dirs <==> !OnlyTowards(fs, q, d)
    decreases |d|, 0
  {
    var less, up := fs.(dirs := fs.dirs - {d}), d[..|d| - 1];
    EmptyKeepsForm(fs, d);
    if q == d {
      EmptyParentsRemoved(less, up);
      forall e | fs.Exists(e) ensures !Above(d, e) {
        NothingBelowEmpty(fs, d, e);
      }
    } else {
      OneStepUp(d, q);
      assert up in fs.dirs && up != d;
      EmptiedExactly(less, up, q);
      OnlyTowardsLess(fs, q, d);
    }
  }

  /** Deleting a file removes a directory above it exactly if nothing else is below that directory. */
  lemma DeletionEmpties(fs: Fs, p: Path, q: Path)
    requires WellFormedFs(fs) && p in fs.files && Above(q, p) && q != []
    ensures q in fs.Delete(p).dirs <==>
              exists e :: fs.Exists(e) && Above(q, e) && e != p && !(e in fs.dirs && Above(e, p))
  {
    var less, d := fs.(files := fs.files - {p}, specials := fs.specials - {p}), p[..|p| - 1];
    FileGone(fs, p);
    OneStepUp(p, q);
    assert d in fs.dirs;
    EmptiedExactly(less, d, q);
    forall e ensures Above(e, p) <==> e == d || Above(e, d) {
      OneStepUp(p, e);
    }
    assert forall e :: less.Exists(e) <==> fs.Exists(e) && e != p;
    assert forall e :: e in less.dirs <==> e in fs.dirs;
  }

  /** A file that is written is in place below directories; nothing else about directories changes. */
  lemma WritingFounds(fs: Fs, p: Path, file: FileState, q: Path)
    requires WellFormedFs(fs) && fs.CanWrite(p) && p != []
    ensures q in fs.Write(p, file).dirs <==> q in fs.dirs || (q != [] && Above(q, p))
  {
    if q != [] && Above(q, p) {
      assert q == p[..|q|];
    }
  }

  lemma EffectKeepsForm(fs: Fs, op: Operation, verdict: Verdict)
    requires WellFormedFs(fs) && op.path != []
    requires verdict == Applied ==> if op.after.None? then fs.CanDelete(op.path) else fs.CanWrite(op.path)
    ensures WellFormedFs(Effect(fs, op, verdict))
  {
    if verdict == Applied {
      match op.after {
        case None =>
          FileGone(fs, op.path);
          ParentsKeepForm(fs.(files := fs.files - {op.path}, specials := fs.specials - {op.path}),
                          op.path[..|op.path| - 1]);
        case Some(file) =>
          WriteKeepsForm(fs, op.path, file);
      }
    }
  }

  lemma FileGone(fs: Fs, p: Path)
    requires WellFormedFs(fs)
    ensures WellFormedFs(fs.(files := fs.files - {p}, specials := fs.specials - {p}))
  {
    var less := fs.(files := fs.files - {p}, specials := fs.specials - {p});
    forall q, i {:trigger q[..i]} | less.Exists(q) && 0 < i < |q| ensures q[..i] in less.dirs {
      assert fs.Exists(q);
    }
  }

  lemma WriteKeepsForm(fs: Fs, p: Path, file: FileState)
    requires WellFormedFs(fs) && fs.CanWrite(p) && p != []
    ensures WellFormedFs(fs.Write(p, file))
  {
    var more := fs.Write(p, file);
    forall i | 0 < i < |p| ensures p[..i] !in fs.files && p[..i] !in fs.specials && p[..i] != p {
    }
    forall q, i {:trigger q[..i]} | more.Exists(q) && 0 < i < |q| ensures q[..i] in more.dirs {
      if fs.Exists(q) {
        assert q[..i] in fs.dirs;
      } else if q != p {
        var j :| 0 < j < |p| && q == p[..j];
        assert q[..i] == p[..i];
      }
    }
    assert [] !in more.dirs by {
      forall i | 0 < i < |p| ensures p[..i] != [] {
      }
    }
  }

  lemma {:induction false} MergeKeepsForm(fs: Fs, scan: Tree, ops: Patch)
    requires WellFormedFs(fs) && forall i :: 0 <= i < |ops| ==> ops[i].path != []
    ensures WellFormedFs(Merge(fs, scan, ops, {}, {}).fs)
  {
    if ops != [] {
      var last := |ops| - 1;
      MergeKeepsForm(fs, scan, ops[..last]);
      var sofar := Merge(fs, scan, ops[..last], {}, {}).fs;
      EffectKeepsForm(sofar, ops[last], Judge(sofar, At(scan, ops[last].path), ops[last], false, false));
    }
  }

  // ------------------------------------------------------------------ two swaps

  lemma {:induction false} ChangeListed(before: Tree, after: Tree, order: seq<Path>, i: nat) returns (k: nat)
    requires i < |Changes(before, after, order)|
    ensures k < |order| && order[k] == Changes(before, after, order)[i].path
  {
    var last := |order| - 1;
    if i < |Changes(before, after, order[..last])| {
      k := ChangeListed(before, after, order[..last], i);
    } else {
      k := last;
    }
  }

  /** A patch lists its paths in the order they were visited. */
  lemma {:induction false} ChangesSorted(before: Tree, after: Tree, order: seq<Path>, i: nat, j: nat)
    requires PrefixesFirst(order)
    requires i < |Changes(before, after, order)| && j < |Changes(before, after, order)|
    ensures var ops := Changes(before, after, order); Above(ops[i].path, ops[j].path) ==> i < j
  {
    var last := |order| - 1;
    var sofar := Changes(before, after, order[..last]);
    if i < |sofar| && j < |sofar| {
      ChangesSorted(before, after, order[..last], i, j);
    } else if j < |sofar| {
      var k := ChangeListed(before, after, order[..last], j);
      assert !Above(order[last], order[k]);
    }
  }

  /** A patch between two manifests, each path once. */
  ghost predicate Between(before: Tree, after: Tree, ops: Patch) {
    && IsManifest(before) && IsManifest(after) && DistinctPaths(ops)
    && forall i :: 0 <= i < |ops| ==>
         && ops[i].before == At(before, ops[i].path) && ops[i].after == At(after, ops[i].path)
         && ops[i].before != ops[i].after
  }

  /** Two paths above one file are one above the other. */
  lemma Comparable(a: Path, b: Path, q: Path)
    requires (Above(a, q) || a == q) && (Above(b, q) || b == q)
    ensures a == b || Above(a, b) || Above(b, a)
  {
    if |a| <= |b| {
      assert a == b[..|a|];
    } else {
      assert b == a[..|b|];
    }
  }

  lemma AboveTransitive(a: Path, b: Path, c: Path)
    requires Above(a, b) && Above(b, c)
    ensures Above(a, c)
  {
    assert c[..|a|] == b[..|a|];
  }

  /** Another file state than the given one. */
  function Else(state: FileState): FileState {
    FileState(state.body + [0], state.mode)
  }

  /** The proper directories above these paths. */
  function DirsAbove(paths: set<Path>): set<Path> {
    set p, i | p in paths && 0 < i < |p| :: p[..i]
  }

  lemma FilesOnly(files: Tree)
    requires [] !in files && forall p, q :: p in files && q in files ==> !Above(p, q)
    ensures WellFormedFs(Fs(files, DirsAbove(files.Keys), {}))
  {
    var fs := Fs(files, DirsAbove(files.Keys), {});
    forall d | d in fs.dirs ensures d !in files && d != [] {
      var p, i :| p in files && 0 < i < |p| && d == p[..i];
      assert Above(d, p);
    }
    forall q, i {:trigger q[..i]} | fs.Exists(q) && 0 < i < |q| ensures q[..i] in fs.dirs {
      if q !in files {
        var p, j :| p in files && 0 < j < |p| && q == p[..j];
        assert q[..i] == p[..i];
      }
    }
  }

  // ------------------------------------------------------------------ a directory becomes a file

  /** The old file below the directory, and something else at every path the patch creates elsewhere. */
  function Stale(before: Tree, after: Tree, p: Path, q: Path): Tree
    requires q in before
  {
    (map r | r in after.Keys - before.Keys - {p} :: Else(after[r]))[q := before[q]]
  }

  function StaleFs(before: Tree, after: Tree, p: Path, q: Path): Fs
    requires q in before
  {
    var files := Stale(before, after, p, q);
    Fs(files, DirsAbove(files.Keys), {})
  }

  /** File `p` of the new manifest is where the old one has a directory with file `q` in it. */
  ghost predicate FileOverDirectory(before: Tree, after: Tree, p: Path, q: Path) {
    && IsManifest(before) && IsManifest(after) && Above(p, q)
    && p in after && p !in before && q in before && q !in after
  }

  /** Nothing of that tree is above or below `p` but `q`. */
  lemma StaleAround(before: Tree, after: Tree, p: Path, q: Path, r: Path)
    requires FileOverDirectory(before, after, p, q)
    ensures r in Stale(before, after, p, q) ==> r != p && !Above(r, p) && !Above(r, q) && (Above(p, r) ==> r == q)
  {
    if Above(r, p) {
      AboveTransitive(r, p, q);
    } else if Above(r, q) {
      Comparable(r, p, q);
    }
  }

  lemma StaleFormed(before: Tree, after: Tree, p: Path, q: Path)
    requires FileOverDirectory(before, after, p, q)
    ensures WellFormedFs(StaleFs(before, after, p, q))
  {
    var files := Stale(before, after, p, q);
    forall a, b | a in files && b in files ensures !Above(a, b) {
      StaleAround(before, after, p, q, a);
      StaleAround(before, after, p, q, b);
      if Above(q, b) && a == q {
        AboveTransitive(p, q, b);
      }
    }
    FilesOnly(files);
  }

  /** The chain of directories from `p` down to `d`, with nothing else below `p`. */
  ghost predicate Chain(fs: Fs, p: Path, d: Path) {
    && p != [] && fs.specials == {}
    && (p == d || Above(p, d))
    && (forall f :: f in fs.files ==> !Above(p, f))
    && (forall e :: e == p || Above(p, e) ==> (e in fs.dirs <==> e == d || Above(e, d)))
  }

  /** Removing emptied parents removes the whole chain. */
  lemma {:induction false} ChainRemoved(fs: Fs, p: Path, d: Path)
    requires Chain(fs, p, d)
    ensures p !in fs.RemoveEmptyParents(d).dirs
    decreases |d|
  {
    assert !fs.Occupied(d) by {
      forall c | c in fs.files.Keys + fs.dirs + fs.specials && |c| == |d| + 1 && c[..|d|] == d ensures false {
        assert Above(d, c);
        if Above(p, d) {
          AboveTransitive(p, d, c);
        }
      }
    }
    var less := fs.(dirs := fs.dirs - {d});
    if p == d {
      EmptyParentsRemoved(less, d[..|d| - 1]);
    } else {
      var up := d[..|d| - 1];
      assert p == up || Above(p, up) by { assert up[..|p|] == d[..|p|]; }
      forall e | e == p || Above(p, e) ensures e in less.dirs <==> e == up || Above(e, up) {
        if Above(e, d) {
          assert e == d[..|e|] == up[..|e|];
        }
      }
      ChainRemoved(less, p, up);
    }
  }

  /** In that tree, and in the tree without `q`, no other operation finds its path as it was before. */
  lemma StaleOthers(before: Tree, after: Tree, ops: Patch, p: nat, q: nat, i: nat)
    requires Between(before, after, ops) && p < q < |ops| && i < |ops| && i != p && i != q
    requires FileOverDirectory(before, after, ops[p].path, ops[q].path)
    ensures var files := Stale(before, after, ops[p].path, ops[q].path);
            && At(files, ops[i].path) != ops[i].before
            && At(files - {ops[q].path}, ops[i].path) != ops[i].before
  {
    assert ops[i].path != ops[p].path && ops[i].path != ops[q].path;
  }

  /** The directory is found where the file should go. */
  lemma DirectoryFound(before: Tree, after: Tree, ops: Patch, p: nat, q: nat)
    requires Between(before, after, ops) && p < q < |ops|
    requires FileOverDirectory(before, after, ops[p].path, ops[q].path)
    ensures var fs := StaleFs(before, after, ops[p].path, ops[q].path);
            && ops[p].path in fs.dirs && ops[p].path !in fs.files
            && Judge(fs, At(fs.files, ops[p].path), ops[p], false, false) == Conflicted
  {
    var fs := StaleFs(before, after, ops[p].path, ops[q].path);
    assert ops[q].path in fs.files;
    assert ops[q].path[..|ops[p].path|] in fs.dirs;
  }

  /** The file in it can be deleted. */
  lemma FileDeletable(before: Tree, after: Tree, ops: Patch, p: nat, q: nat)
    requires Between(before, after, ops) && p < q < |ops|
    requires FileOverDirectory(before, after, ops[p].path, ops[q].path)
    ensures var fs := StaleFs(before, after, ops[p].path, ops[q].path);
            Judge(fs, At(fs.files, ops[q].path), ops[q], false, false) == Applied
  {
    var fs, path := StaleFs(before, after, ops[p].path, ops[q].path), ops[q].path;
    StaleFormed(before, after, ops[p].path, path);
    forall k | 0 < k < |path| ensures path[..k] !in fs.files {
      StaleAround(before, after, ops[p].path, path, path[..k]);
    }
  }

  lemma AboveParent(e: Path, q: Path)
    requires q != []
    ensures Above(e, q) <==> e == q[..|q| - 1] || Above(e, q[..|q| - 1])
  {
    var up := q[..|q| - 1];
    if |e| < |q| {
      assert q[..|e|] == up[..|e|];
    }
  }

  /** With the file in it the directory goes. */
  lemma DirectoryGone(before: Tree, after: Tree, p: Path, q: Path)
    requires FileOverDirectory(before, after, p, q)
    ensures var fs := StaleFs(before, after, p, q);
            p !in fs.Delete(q).dirs && fs.Delete(q).specials == {} && fs.Delete(q).files == fs.files - {q}
  {
    var fs, up := StaleFs(before, after, p, q), q[..|q| - 1];
    var removed := fs.(files := fs.files - {q}, specials := fs.specials - {q});
    AboveParent(p, q);
    forall f | f in removed.files ensures !Above(p, f) {
      StaleAround(before, after, p, q, f);
    }
    forall e | e == p || Above(p, e) ensures e in removed.dirs <==> e == up || Above(e, up) {
      AboveParent(e, q);
      if e in fs.dirs {
        var f, k :| f in fs.files && 0 < k < |f| && e == f[..k];
        assert Above(e, f);
        if e != p {
          AboveTransitive(p, e, f);
        }
        StaleAround(before, after, p, q, f);
      }
    }
    ChainRemoved(removed, p, up);
    EmptyParentsRemoved(removed, up);
  }

  /** A patch that turns a directory into a file finds the path occupied and reports it, then empties it;
      started over, it creates the file after all. */
  lemma FileOverDirectoryDiverges(before: Tree, after: Tree, ops: Patch, p: nat, q: nat)
    requires Between(before, after, ops) && p < q < |ops|
    requires FileOverDirectory(before, after, ops[p].path, ops[q].path)
    ensures var fs := StaleFs(before, after, ops[p].path, ops[q].path);
            var half := Interrupted(fs, ops, {}, |ops|);
            && WellFormedFs(fs)
            && ops[p].path in Merge(fs, fs.files, ops, {}, {}).conflicts
            && ops[p].path !in Merge(half, half.files, ops, {}, {}).conflicts
  {
    var fs := StaleFs(before, after, ops[p].path, ops[q].path);
    var half := fs.Delete(ops[q].path);
    StaleFormed(before, after, ops[p].path, ops[q].path);
    assert ops[..|ops|] == ops;
    DirectoryStays(before, after, ops, p, q);
    Decided(fs, fs.files, ops, p, |ops|);
    DirectoryEmptied(before, after, ops, p, q);
    FileCreated(before, after, ops, p, q);
    Decided(half, half.files, ops, p, |ops|);
  }

  lemma DirectoryStays(before: Tree, after: Tree, ops: Patch, p: nat, q: nat)
    requires Between(before, after, ops) && p < q < |ops|
    requires FileOverDirectory(before, after, ops[p].path, ops[q].path)
    ensures var fs := StaleFs(before, after, ops[p].path, ops[q].path);
            VerdictAt(fs, fs.files, ops, p) == Conflicted && Merge(fs, fs.files, ops[..q], {}, {}).fs == fs
  {
    var fs := StaleFs(before, after, ops[p].path, ops[q].path);
    forall i | 0 <= i < q ensures Judge(fs, At(fs.files, ops[i].path), ops[i], false, false) != Applied {
      if i == p {
        DirectoryFound(before, after, ops, p, q);
      } else {
        StaleOthers(before, after, ops, p, q, i);
        NotAsBefore(fs, fs.files, ops[i]);
      }
    }
    NotStarted(fs, fs.files, ops);
    Idle(fs, fs.files, ops, 0, p, fs);
    Idle(fs, fs.files, ops, 0, q, fs);
    DirectoryFound(before, after, ops, p, q);
  }

  lemma DirectoryEmptiedThere(before: Tree, after: Tree, ops: Patch, p: nat, q: nat)
    requires Between(before, after, ops) && p < q < |ops|
    requires FileOverDirectory(before, after, ops[p].path, ops[q].path)
    ensures var fs := StaleFs(before, after, ops[p].path, ops[q].path);
            Merge(fs, fs.files, ops[..q + 1], {}, {}).fs == fs.Delete(ops[q].path)
  {
    var fs := StaleFs(before, after, ops[p].path, ops[q].path);
    DirectoryStays(before, after, ops, p, q);
    FileDeletable(before, after, ops, p, q);
    MergeOneMore(fs, fs.files, ops, {}, q);
  }

  lemma DirectoryEmptied(before: Tree, after: Tree, ops: Patch, p: nat, q: nat)
    requires Between(before, after, ops) && p < q < |ops|
    requires FileOverDirectory(before, after, ops[p].path, ops[q].path)
    ensures var fs := StaleFs(before, after, ops[p].path, ops[q].path);
            Interrupted(fs, ops, {}, |ops|) == fs.Delete(ops[q].path)
  {
    var fs := StaleFs(before, after, ops[p].path, ops[q].path);
    var end := fs.Delete(ops[q].path);
    DirectoryEmptiedThere(before, after, ops, p, q);
    forall i | q + 1 <= i < |ops| ensures Judge(end, At(fs.files, ops[i].path), ops[i], false, false) != Applied {
      StaleOthers(before, after, ops, p, q, i);
      NotAsBefore(end, fs.files, ops[i]);
    }
    Idle(fs, fs.files, ops, q + 1, |ops|, end);
  }

  lemma FileCreated(before: Tree, after: Tree, ops: Patch, p: nat, q: nat)
    requires Between(before, after, ops) && p < q < |ops|
    requires FileOverDirectory(before, after, ops[p].path, ops[q].path)
    ensures var half := StaleFs(before, after, ops[p].path, ops[q].path).Delete(ops[q].path);
            VerdictAt(half, half.files, ops, p) == Applied
  {
    var fs, path := StaleFs(before, after, ops[p].path, ops[q].path), ops[p].path;
    var half := fs.Delete(ops[q].path);
    DirectoryGone(before, after, path, ops[q].path);
    forall i | 0 <= i < p ensures Judge(half, At(half.files, ops[i].path), ops[i], false, false) != Applied {
      StaleOthers(before, after, ops, p, q, i);
      NotAsBefore(half, half.files, ops[i]);
    }
    NotStarted(half, half.files, ops);
    Idle(half, half.files, ops, 0, p, half);
    forall k | 0 < k < |path| ensures path[..k] !in half.files {
      StaleAround(before, after, path, ops[q].path, path[..k]);
    }
    DirectoryFound(before, after, ops, p, q);
  }

  // ------------------------------------------------------------------ a file becomes a directory

  /** The new manifest has a directory with file `q` in it where the old one has file `p`. */
  ghost predicate DirectoryOverFile(before: Tree, after: Tree, p: Path, q: Path) {
    && IsManifest(before) && IsManifest(after) && Above(p, q)
    && p in before && p !in after && q in after && q !in before
  }

  function OneFile(p: Path, file: FileState): Fs {
    Fs(map[p := file], DirsAbove({p}), {})
  }

  /** All there is belongs to the new manifest or to file `p`. */
  ghost predicate Lean(x: Fs, after: Tree, p: Path) {
    && x.specials == {} && x.files.Keys <= after.Keys + {p}
    && forall d :: d in x.dirs ==> LeadsTo(d, after.Keys + {p})
  }

  ghost predicate LeadsTo(d: Path, files: set<Path>) {
    exists f :: f in files && Above(d, f)
  }

  lemma DeleteShrinks(fs: Fs, p: Path)
    ensures fs.Delete(p).dirs <= fs.dirs
  {
    var removed := fs.(files := fs.files - {p}, specials := fs.specials - {p});
    if p != [] {
      EmptyParentsRemoved(removed, p[..|p| - 1]);
    }
  }

  lemma EffectKeepsLean(x: Fs, after: Tree, p: Path, op: Operation, verdict: Verdict)
    requires Lean(x, after, p) && op.after == At(after, op.path)
    ensures Lean(Effect(x, op, verdict), after, p)
  {
    EffectFootprint(x, op, verdict);
    if verdict == Applied {
      match op.after {
        case None =>
          DeleteShrinks(x, op.path);
        case Some(file) =>
          forall d | d in Effect(x, op, verdict).dirs ensures LeadsTo(d, after.Keys + {p}) {
            if d !in x.dirs {
              assert Above(d, op.path);
            }
          }
      }
    }
  }

  lemma {:induction false} MergeKeepsLean(fs: Fs, scan: Tree, after: Tree, p: Path, ops: Patch)
    requires Lean(fs, after, p) && forall i :: 0 <= i < |ops| ==> ops[i].after == At(after, ops[i].path)
    ensures Lean(Merge(fs, scan, ops, {}, {}).fs, after, p)
  {
    if ops != [] {
      var last := |ops| - 1;
      MergeKeepsLean(fs, scan, after, p, ops[..last]);
      var sofar := Merge(fs, scan, ops[..last], {}, {}).fs;
      EffectKeepsLean(sofar, after, p, ops[last], Judge(sofar, At(scan, ops[last].path), ops[last], false, false));
    }
  }

  lemma OneFileFormed(after: Tree, p: Path, file: FileState)
    requires p != []
    ensures WellFormedFs(OneFile(p, file)) && Lean(OneFile(p, file), after, p)
  {
    FilesOnly(map[p := file]);
    forall d | d in DirsAbove({p}) ensures LeadsTo(d, after.Keys + {p}) {
      assert Above(d, p);
    }
  }

  /** What every prefix of a run leaves. */
  lemma LeanRun(before: Tree, after: Tree, ops: Patch, fs: Fs, scan: Tree, p: nat, n: nat)
    requires Between(before, after, ops) && p < |ops| && n <= |ops|
    requires WellFormedFs(fs) && Lean(fs, after, ops[p].path)
    ensures var x := Merge(fs, scan, ops[..n], {}, {}).fs; WellFormedFs(x) && Lean(x, after, ops[p].path)
  {
    forall i | 0 <= i < n ensures ops[..n][i] == ops[i] && ops[i].path != [] {
    }
    MergeKeepsForm(fs, scan, ops[..n]);
    MergeKeepsLean(fs, scan, after, ops[p].path, ops[..n]);
  }

  /** A path that no operation so far names is as it was. */
  lemma NotNamed(fs: Fs, ops: Patch, n: nat)
    requires DistinctPaths(ops) && n < |ops|
    ensures At(Merge(fs, fs.files, ops[..n], {}, {}).fs.files, ops[n].path) == At(fs.files, ops[n].path)
  {
    MergePointwise(fs, ops[..n], {}, {});
    assert ops[n].path !in PathsOf(ops[..n]);
  }

  /** An applied operation leaves its path as it says. */
  lemma LeftAs(fs: Fs, ops: Patch, n: nat, upTo: nat)
    requires DistinctPaths(ops) && n < upTo <= |ops| && VerdictAt(fs, fs.files, ops, n) == Applied
    ensures At(Merge(fs, fs.files, ops[..upTo], {}, {}).fs.files, ops[n].path) == ops[n].after
  {
    MergePointwise(fs, ops[..upTo], {}, {});
    Decided(fs, fs.files, ops, n, upTo);
    assert ops[..upTo][n] == ops[n];
    assert Resolved(fs, ops[n], {}, Merge(fs, fs.files, ops[..upTo], {}, {}));
  }

  /** The file is deleted. */
  lemma FileDeleted(before: Tree, after: Tree, ops: Patch, p: nat, q: nat)
    requires Between(before, after, ops) && p < q < |ops|
    requires DirectoryOverFile(before, after, ops[p].path, ops[q].path)
    ensures var fs := OneFile(ops[p].path, before[ops[p].path]); VerdictAt(fs, fs.files, ops, p) == Applied
  {
    var path := ops[p].path;
    var fs := OneFile(path, before[path]);
    OneFileFormed(after, path, before[path]);
    LeanRun(before, after, ops, fs, fs.files, p, p);
    NotNamed(fs, ops, p);
    FileInPlace(Merge(fs, fs.files, ops[..p], {}, {}).fs, path);
  }

  lemma FileInPlace(x: Fs, p: Path)
    requires WellFormedFs(x) && p in x.files
    ensures x.CanDelete(p)
  {
    forall k | 0 < k < |p| ensures p[..k] !in x.files && p[..k] !in x.specials {
      assert p[..k] in x.dirs;
    }
  }

  /** The file below it is written. */
  lemma FileBelowWritten(before: Tree, after: Tree, ops: Patch, p: nat, q: nat)
    requires Between(before, after, ops) && p < q < |ops|
    requires DirectoryOverFile(before, after, ops[p].path, ops[q].path)
    ensures var fs := OneFile(ops[p].path, before[ops[p].path]); VerdictAt(fs, fs.files, ops, q) == Applied
  {
    var path, below := ops[p].path, ops[q].path;
    var fs := OneFile(path, before[path]);
    var x := Merge(fs, fs.files, ops[..q], {}, {}).fs;
    OneFileFormed(after, path, before[path]);
    LeanRun(before, after, ops, fs, fs.files, p, q);
    NotNamed(fs, ops, q);
    FileDeleted(before, after, ops, p, q);
    LeftAs(fs, ops, p, q);
    RoomFor(x, after, path, below);
  }

  lemma RoomFor(x: Fs, after: Tree, p: Path, q: Path)
    requires Lean(x, after, p) && IsManifest(after) && q in after && Above(p, q) && p !in x.files
    ensures q !in x.dirs && q !in x.specials && x.CanWrite(q)
  {
    assert q in x.dirs ==> LeadsTo(q, after.Keys + {p});
    forall k | 0 < k < |q| ensures q[..k] !in x.files {
      assert Above(q[..k], q);
    }
  }

  /** Where nothing is deleted, directories stay. */
  lemma {:induction false} DirectoriesStay(fs: Fs, scan: Tree, ops: Patch, n: nat)
    requires n <= |ops|
    requires forall i :: 0 <= i < n && ops[i].after.None? ==> At(scan, ops[i].path) != ops[i].before
    ensures fs.dirs <= Merge(fs, scan, ops[..n], {}, {}).fs.dirs
  {
    if n > 0 {
      DirectoriesStay(fs, scan, ops, n - 1);
      MergeOneMore(fs, scan, ops, {}, n - 1);
    } else {
      NotStarted(fs, scan, ops);
    }
  }

  /** Started over, the run finds the directory where the file was. */
  lemma DirectoryInTheWay(before: Tree, after: Tree, ops: Patch, p: nat, q: nat)
    requires Between(before, after, ops) && p < q < |ops|
    requires DirectoryOverFile(before, after, ops[p].path, ops[q].path)
    ensures var fs := OneFile(ops[p].path, before[ops[p].path]);
            var half := Interrupted(fs, ops, {}, |ops|);
            VerdictAt(half, half.files, ops, p) == Conflicted
  {
    var path, below := ops[p].path, ops[q].path;
    var fs := OneFile(path, before[path]);
    var half := Interrupted(fs, ops, {}, |ops|);
    OneFileFormed(after, path, before[path]);
    LeanRun(before, after, ops, fs, fs.files, p, |ops|);
    FileDeleted(before, after, ops, p, q);
    LeftAs(fs, ops, p, |ops|);
    FileBelowWritten(before, after, ops, p, q);
    LeftAs(fs, ops, q, |ops|);
    assert below in half.files && half.Exists(below) && below[..|path|] in half.dirs;
    forall i | 0 <= i < p && ops[i].after.None? ensures At(half.files, ops[i].path) != ops[i].before {
      assert ops[i].path != path;
    }
    DirectoriesStay(half, half.files, ops, p);
  }

  /** A patch that turns a file into a directory deletes the file and writes below it without a conflict;
      started over, it finds the directory where the file was and reports it. */
  lemma DirectoryOverFileDiverges(before: Tree, after: Tree, ops: Patch, p: nat, q: nat)
    requires Between(before, after, ops) && p < q < |ops|
    requires DirectoryOverFile(before, after, ops[p].path, ops[q].path)
    ensures var fs := OneFile(ops[p].path, before[ops[p].path]);
            var half := Interrupted(fs, ops, {}, |ops|);
            && WellFormedFs(fs)
            && ops[p].path !in Merge(fs, fs.files, ops, {}, {}).conflicts
            && ops[p].path in Merge(half, half.files, ops, {}, {}).conflicts
  {
    var fs := OneFile(ops[p].path, before[ops[p].path]);
    var half := Interrupted(fs, ops, {}, |ops|);
    assert ops[..|ops|] == ops;
    OneFileFormed(after, ops[p].path, before[ops[p].path]);
    FileDeleted(before, after, ops, p, q);
    Decided(fs, fs.files, ops, p, |ops|);
    DirectoryInTheWay(before, after, ops, p, q);
    Decided(half, half.files, ops, p, |ops|);
  }

  // ------------------------------------------------------------------ the exact condition

  /** Interrupted application converges: however often an action is stopped and started over, the run
      that completes leaves the tree, the conflicts and the base of one uninterrupted run. */
  lemma InterruptionConverges(fs: Fs, ops: Patch, guarded: set<Path>, cuts: seq<nat>)
    requires DistinctPaths(ops) && PrefixFree(ops) && Cuts(ops, cuts)
    ensures Converges(fs, ops, guarded, cuts)
  {
    RestartsReach(fs, ops, guarded, cuts);
    Resumes(fs, ops, guarded, Furthest(cuts), |ops|);
    assert ops[..|ops|] == ops;
  }

  lemma RestartedWhole(fs: Fs, ops: Patch)
    ensures Cuts(ops, [|ops|]) && Restarted(fs, ops, {}, [|ops|]) == Interrupted(fs, ops, {}, |ops|)
  {
    assert [|ops|][..0] == [];
  }

  lemma DivergesOtherwise(before: Tree, after: Tree, ops: Patch)
    requires Between(before, after, ops) && !PrefixFree(ops)
    requires forall i, j :: 0 <= i < |ops| && 0 <= j < |ops| && Above(ops[i].path, ops[j].path) ==> i < j
    ensures !AlwaysConverges(ops, {})
  {
    var p, q :| 0 <= p < |ops| && 0 <= q < |ops| && Above(ops[p].path, ops[q].path);
    var fs;
    if ops[p].path in after {
      FileOverDirectoryDiverges(before, after, ops, p, q);
      fs := StaleFs(before, after, ops[p].path, ops[q].path);
    } else {
      DirectoryOverFileDiverges(before, after, ops, p, q);
      fs := OneFile(ops[p].path, before[ops[p].path]);
    }
    RestartedWhole(fs, ops);
    assert !Converges(fs, ops, {}, [|ops|]);
  }

  /** A patch between two manifests, its paths sorted, converges from every tree and through every series
      of interruptions exactly when none of its paths is a directory above another. */
  lemma ConvergesExactly(before: Tree, after: Tree, order: seq<Path>)
    requires IsManifest(before) && IsManifest(after)
    requires Enumerates(order, before.Keys + after.Keys) && PrefixesFirst(order)
    ensures var ops := Changes(before, after, order);
            && (AlwaysConverges(ops, {}) <==> PrefixFree(ops))
            && ((forall guarded :: AlwaysConverges(ops, guarded)) <==> PrefixFree(ops))
  {
    var ops := Changes(before, after, order);
    ChangesExact(before, after, order);
    forall i | 0 <= i < |ops|
      ensures ops[i].before == At(before, ops[i].path) && ops[i].after == At(after, ops[i].path)
      ensures ops[i].before != ops[i].after
    {
      assert ops[i] in ops;
    }
    if PrefixFree(ops) {
      forall guarded, fs: Fs, cuts | Cuts(ops, cuts) ensures Converges(fs, ops, guarded, cuts) {
        InterruptionConverges(fs, ops, guarded, cuts);
      }
    } else {
      forall i, j | 0 <= i < |ops| && 0 <= j < |ops| && Above(ops[i].path, ops[j].path) ensures i < j {
        ChangesSorted(before, after, order, i, j);
      }
      DivergesOtherwise(before, after, ops);
    }
  }
}
