/** Three-way application of remote changes to the synchronized root, and the arithmetic of the
    base snapshot that both sides are compared against. */
module WorkspaceSync {
  import opened Options
  import opened Workspace

  // ------------------------------------------------------------------ one path

  datatype Verdict = Applied | Settled | Conflicted

  /** A path the manifest does not list is nevertheless occupied. */
  predicate Collides(fs: Fs, p: Path, now: Option<FileState>) {
    now.None? && fs.Exists(p)
  }

  /** The verdict on one path: `now` is its state when the manifest was read, `guarded` marks an
      earlier disagreement, `ioError` a failing file-system call. */
  function Judge(fs: Fs, now: Option<FileState>, op: Operation, guarded: bool, ioError: bool): Verdict {
    if Collides(fs, op.path, now) then Conflicted
    else if now == op.after then Settled
    else if guarded || now != op.before || ioError then Conflicted
    else if op.after.None? then (if fs.CanDelete(op.path) then Applied else Conflicted)
    else if fs.CanWrite(op.path) then Applied else Conflicted
  }

  function Effect(fs: Fs, op: Operation, verdict: Verdict): Fs {
    if verdict != Applied then fs
    else match op.after
      case None => fs.Delete(op.path)
      case Some(file) => fs.Write(op.path, file)
  }

  // ------------------------------------------------------------------ a whole action

  datatype Outcome = Outcome(fs: Fs, applied: seq<Path>, conflicts: seq<Path>)

  function Advance(sofar: Outcome, scan: Tree, op: Operation, guarded: set<Path>, ioErrors: set<Path>): Outcome {
    var verdict := Judge(sofar.fs, At(scan, op.path), op, op.path in guarded, op.path in ioErrors);
    Outcome(Effect(sofar.fs, op, verdict),
            if verdict == Applied then sofar.applied + [op.path] else sofar.applied,
            if verdict == Conflicted then sofar.conflicts + [op.path] else sofar.conflicts)
  }

  /** The operations applied one after another, against a manifest read before the first. */
  function Merge(fs: Fs, scan: Tree, ops: Patch, guarded: set<Path>, ioErrors: set<Path>): Outcome {
    if ops == [] then Outcome(fs, [], [])
    else
      var last := |ops| - 1;
      Advance(Merge(fs, scan, ops[..last], guarded, ioErrors), scan, ops[last], guarded, ioErrors)
  }

  /** The changes between two manifests over the given paths, in that order. */
  function Changes(before: Tree, after: Tree, order: seq<Path>): Patch {
    if order == [] then []
    else
      var last := |order| - 1;
      var sofar := Changes(before, after, order[..last]);
      if At(before, order[last]) == At(after, order[last]) then sofar
      else sofar + [Operation(order[last], At(before, order[last]), At(after, order[last]))]
  }

  /** One more path of the enumeration. */
  lemma MergeNext(fs: Fs, initial: Tree, remote: Tree, order: seq<Path>, i: nat, guarded: set<Path>,
                  ioErrors: set<Path>)
    requires i < |order|
    ensures var p := order[i];
            var sofar := Merge(fs, fs.files, Changes(initial, remote, order[..i]), guarded, ioErrors);
            Merge(fs, fs.files, Changes(initial, remote, order[..i + 1]), guarded, ioErrors)
              == if At(initial, p) == At(remote, p) then sofar
                 else Advance(sofar, fs.files, Operation(p, At(initial, p), At(remote, p)), guarded, ioErrors)
  {
    var ops := Changes(initial, remote, order[..i]);
    var op := Operation(order[i], At(initial, order[i]), At(remote, order[i]));
    assert order[..i + 1][..i] == order[..i];
    assert (ops + [op])[..|ops|] == ops;
  }

  ghost predicate Enumerates(order: seq<Path>, paths: set<Path>) {
    && (forall i, j :: 0 <= i < j < |order| ==> order[i] != order[j])
    && (forall p :: p in order <==> p in paths)
  }

  function Least(a: nat, b: nat): nat {
    if a < b then a else b
  }

  /** The synchronized local directory. */
  class LocalRoot {
    var fs: Fs

    constructor (fs: Fs)
      ensures this.fs == fs
    {
      this.fs := fs;
    }

    /** Apply an incremental remote patch where each local path still matches its base, in a process
        that lives for `life` more paths. */
    method ApplyWorkspacePatch(patch: Patch, ioErrors: set<Path>, life: nat)
      returns (applied: seq<Path>, conflicts: seq<Path>)
      requires WellFormed(patch)
      modifies this
      ensures Outcome(fs, applied, conflicts)
           == Merge(old(fs), old(fs).files, patch[..Least(life, |patch|)], {}, ioErrors)
      ensures TreatedAll(old(fs), patch[..Least(life, |patch|)], {}, ioErrors, Outcome(fs, applied, conflicts))
      ensures InPatchOrder(patch[..Least(life, |patch|)], applied)
      ensures InPatchOrder(patch[..Least(life, |patch|)], conflicts)
    {
      Treatment(fs, patch[..Least(life, |patch|)], {}, ioErrors);
      applied, conflicts := ApplyEach(patch, ioErrors, life);
    }

    method ApplyEach(patch: Patch, ioErrors: set<Path>, life: nat)
      returns (applied: seq<Path>, conflicts: seq<Path>)
      modifies this
      ensures Outcome(fs, applied, conflicts)
           == Merge(old(fs), old(fs).files, patch[..Least(life, |patch|)], {}, ioErrors)
    {
      assert patch[..|patch|] == patch;
      var current := fs.files;
      applied, conflicts := [], [];
      for i := 0 to |patch|
        invariant i <= life
        invariant Outcome(fs, applied, conflicts) == Merge(old(fs), current, patch[..i], {}, ioErrors)
      {
        if i == life {
          return;
        }
        assert patch[..i + 1][..i] == patch[..i];
        var op := patch[i];
        var now := At(current, op.path);
        if Collides(fs, op.path, now) || (now != op.before && now != op.after) {
          conflicts := conflicts + [op.path];
          continue;
        }
        if now == op.after {
          continue;
        }
        if op.path in ioErrors {
          conflicts := conflicts + [op.path];
          continue;
        }
        match op.after {
          case None =>
            if !fs.CanDelete(op.path) {
              conflicts := conflicts + [op.path];
              continue;
            }
            fs := fs.Delete(op.path);
          case Some(file) =>
            if !fs.CanWrite(op.path) {
              conflicts := conflicts + [op.path];
              continue;
            }
            fs := fs.Write(op.path, file);
        }
        applied := applied + [op.path];
      }
    }

    /** Reconcile the final remote manifest against the base; `order` lists the paths of both
        manifests in the order they are visited. */
    method SyncWorkspace(initial: Tree, remote: Tree, guarded: set<Path>, order: seq<Path>, ioErrors: set<Path>,
                         life: nat)
      returns (applied: seq<Path>, conflicts: seq<Path>)
      requires Enumerates(order, initial.Keys + remote.Keys)
      modifies this
      ensures var ops := Changes(initial, remote, order[..Least(life, |order|)]);
              && Outcome(fs, applied, conflicts) == Merge(old(fs), old(fs).files, ops, guarded, ioErrors)
              && TreatedAll(old(fs), ops, guarded, ioErrors, Outcome(fs, applied, conflicts))
              && InPatchOrder(ops, applied) && InPatchOrder(ops, conflicts)
    {
      ChangesSound(initial, remote, order[..Least(life, |order|)]);
      Treatment(fs, Changes(initial, remote, order[..Least(life, |order|)]), guarded, ioErrors);
      applied, conflicts := SyncEach(initial, remote, guarded, order, ioErrors, life);
    }

    method SyncEach(initial: Tree, remote: Tree, guarded: set<Path>, order: seq<Path>, ioErrors: set<Path>, life: nat)
      returns (applied: seq<Path>, conflicts: seq<Path>)
      modifies this
      ensures Outcome(fs, applied, conflicts)
           == Merge(old(fs), old(fs).files, Changes(initial, remote, order[..Least(life, |order|)]), guarded, ioErrors)
    {
      assert order[..|order|] == order;
      var current := fs.files;
      applied, conflicts := [], [];
      for i := 0 to |order|
        invariant i <= life
        invariant Outcome(fs, applied, conflicts)
               == Merge(old(fs), current, Changes(initial, remote, order[..i]), guarded, ioErrors)
      {
        if i == life {
          return;
        }
        MergeNext(old(fs), initial, remote, order, i, guarded, ioErrors);
        var path := order[i];
        var before, after := At(initial, path), At(remote, path);
        if before == after {
          continue;
        }
        var now := At(current, path);
        if Collides(fs, path, now) {
          conflicts := conflicts + [path];
          continue;
        }
        if now == after {
          continue;
        }
        if path in guarded || now != before {
          conflicts := conflicts + [path];
          continue;
        }
        if path in ioErrors || (after.None? && !fs.CanDelete(path)) || (after.Some? && !fs.CanWrite(path)) {
          conflicts := conflicts + [path];
          continue;
        }
        fs := if after.None? then fs.Delete(path) else fs.Write(path, after.value);
        applied := applied + [path];
      }
    }
  }

  // ------------------------------------------------------------------ what one step can touch

  lemma {:induction false} EmptyParentsRemoved(fs: Fs, d: Path)
    ensures var r := fs.RemoveEmptyParents(d);
            && r.files == fs.files && r.specials == fs.specials && r.dirs <= fs.dirs
            && forall q :: q in fs.dirs && q !in r.dirs ==> q == d || Above(q, d)
    decreases |d|
  {
    if d == [] || d !in fs.dirs || fs.Occupied(d) {
    } else {
      var up := d[..|d| - 1];
      EmptyParentsRemoved(fs.(dirs := fs.dirs - {d}), up);
      forall q | Above(q, up) ensures Above(q, d) {
        assert up[..|q|] == d[..|q|];
      }
    }
  }

  /** An operation changes the file at its own path only, and directories strictly above it only. */
  lemma EffectFootprint(fs: Fs, op: Operation, verdict: Verdict)
    ensures var r := Effect(fs, op, verdict);
            && r.files == (if verdict == Applied then Put(fs.files, op.path, op.after) else fs.files)
            && r.specials <= fs.specials <= r.specials + {op.path}
            && (forall q :: (q in r.dirs) != (q in fs.dirs) ==> Above(q, op.path))
            && (verdict == Applied && op.after.None? ==> op.path !in r.specials)
  {
    var p := op.path;
    if verdict == Applied && op.after.None? && p != [] {
      var up := p[..|p| - 1];
      EmptyParentsRemoved(fs.(files := fs.files - {p}, specials := fs.specials - {p}), up);
      forall q | q == up || Above(q, up) ensures Above(q, p) {
        assert up[..|q|] == p[..|q|];
      }
    }
  }

  /** The part of the tree that the verdict on `p` reads. */
  ghost predicate SameAround(a: Fs, b: Fs, p: Path) {
    && At(a.files, p) == At(b.files, p)
    && (p in a.dirs <==> p in b.dirs)
    && (p in a.specials <==> p in b.specials)
    && (forall i {:trigger p[..i]} :: 0 < i < |p| ==>
          (p[..i] in a.files <==> p[..i] in b.files) && (p[..i] in a.specials <==> p[..i] in b.specials))
  }

  lemma BlockedAround(a: Fs, b: Fs, p: Path)
    requires SameAround(a, b, p)
    ensures a.Blocked(p) == b.Blocked(p)
  {
  }

  lemma JudgeAround(a: Fs, b: Fs, now: Option<FileState>, op: Operation, guarded: bool, ioError: bool)
    requires SameAround(a, b, op.path)
    ensures Judge(a, now, op, guarded, ioError) == Judge(b, now, op, guarded, ioError)
  {
    BlockedAround(a, b, op.path);
  }

  lemma EffectElsewhere(fs: Fs, op: Operation, verdict: Verdict, p: Path)
    requires p != op.path && !Above(p, op.path) && !Above(op.path, p)
    ensures SameAround(Effect(fs, op, verdict), fs, p)
  {
    EffectFootprint(fs, op, verdict);
  }

  /** With no path above another, the operations so far leave the next path's surroundings alone. */
  lemma {:induction false} MergeElsewhere(fs: Fs, scan: Tree, ops: Patch, guarded: set<Path>, ioErrors: set<Path>,
                                          p: Path)
    requires forall i :: 0 <= i < |ops| ==> ops[i].path != p && !Above(ops[i].path, p) && !Above(p, ops[i].path)
    ensures SameAround(Merge(fs, scan, ops, guarded, ioErrors).fs, fs, p)
  {
    if ops != [] {
      var last := |ops| - 1;
      MergeElsewhere(fs, scan, ops[..last], guarded, ioErrors, p);
      var sofar := Merge(fs, scan, ops[..last], guarded, ioErrors);
      var verdict := Judge(sofar.fs, At(scan, ops[last].path), ops[last], ops[last].path in guarded,
                           ops[last].path in ioErrors);
      EffectElsewhere(sofar.fs, ops[last], verdict, p);
    }
  }

  // ------------------------------------------------------------------ the merge, path by path

  /** What a merge did with one operation. */
  ghost predicate Resolved(fs: Fs, op: Operation, guarded: set<Path>, r: Outcome) {
    var p, now, end := op.path, At(fs.files, op.path), At(r.fs.files, op.path);
    || (p in r.applied && p !in r.conflicts && now == op.before && p !in guarded && end == op.after)
    || (p in r.conflicts && p !in r.applied && end == now)
    || (p !in r.applied && p !in r.conflicts && now == op.after && end == now)
  }

  /** Three-way merge refines its pointwise specification, whatever collides or fails on the way. */
  lemma {:induction false} MergePointwise(fs: Fs, ops: Patch, guarded: set<Path>, ioErrors: set<Path>)
    requires DistinctPaths(ops)
    ensures var r := Merge(fs, fs.files, ops, guarded, ioErrors);
            && (forall i :: 0 <= i < |ops| ==> Resolved(fs, ops[i], guarded, r))
            && (forall p :: p !in PathsOf(ops) ==>
                  p !in r.applied && p !in r.conflicts && At(r.fs.files, p) == At(fs.files, p))
  {
    if ops != [] {
      var last := |ops| - 1;
      var op := ops[last];
      MergePointwise(fs, ops[..last], guarded, ioErrors);
      var sofar := Merge(fs, fs.files, ops[..last], guarded, ioErrors);
      var r := Merge(fs, fs.files, ops, guarded, ioErrors);
      EffectFootprint(sofar.fs, op, Judge(sofar.fs, At(fs.files, op.path), op, op.path in guarded,
                                          op.path in ioErrors));
      assert op.path !in PathsOf(ops[..last]);
      forall i | 0 <= i < |ops| ensures Resolved(fs, ops[i], guarded, r) {
        if i < last {
          assert ops[..last][i] == ops[i];
          assert Resolved(fs, ops[i], guarded, sofar);
        }
      }
      forall p | p !in PathsOf(ops)
        ensures p !in r.applied && p !in r.conflicts && At(r.fs.files, p) == At(fs.files, p)
      {
        assert p != op.path by { assert op.path in PathsOf(ops); }
        assert p !in PathsOf(ops[..last]) by {
          forall i | 0 <= i < last ensures ops[..last][i].path != p {
            assert ops[i].path in PathsOf(ops);
          }
        }
      }
    }
  }

  /** A disagreement is never overwritten: a guarded path, or one changed on both sides, keeps its
      local state byte for byte unless the two sides already agree. */
  lemma DisagreementKept(fs: Fs, ops: Patch, guarded: set<Path>, ioErrors: set<Path>, i: nat)
    requires DistinctPaths(ops) && i < |ops|
    requires At(fs.files, ops[i].path) != ops[i].after
    requires ops[i].path in guarded || At(fs.files, ops[i].path) != ops[i].before
    ensures var r := Merge(fs, fs.files, ops, guarded, ioErrors);
            ops[i].path in r.conflicts && At(r.fs.files, ops[i].path) == At(fs.files, ops[i].path)
  {
    MergePointwise(fs, ops, guarded, ioErrors);
    assert Resolved(fs, ops[i], guarded, Merge(fs, fs.files, ops, guarded, ioErrors));
  }

  /** With no path above another, every verdict is the one the initial tree gives, so the merge
      does not depend on the order of the paths. */
  lemma {:induction false} MergeVerdicts(fs: Fs, ops: Patch, guarded: set<Path>, ioErrors: set<Path>)
    requires DistinctPaths(ops) && PrefixFree(ops)
    ensures var r := Merge(fs, fs.files, ops, guarded, ioErrors);
            forall i :: 0 <= i < |ops| ==>
              var p := ops[i].path;
              var verdict := Judge(fs, At(fs.files, p), ops[i], p in guarded, p in ioErrors);
              (p in r.applied <==> verdict == Applied) && (p in r.conflicts <==> verdict == Conflicted)
  {
    if ops != [] {
      var last := |ops| - 1;
      var op := ops[last];
      var prefix := ops[..last];
      MergeVerdicts(fs, prefix, guarded, ioErrors);
      MergePointwise(fs, prefix, guarded, ioErrors);
      MergeElsewhere(fs, fs.files, prefix, guarded, ioErrors, op.path);
      JudgeAround(Merge(fs, fs.files, prefix, guarded, ioErrors).fs, fs, At(fs.files, op.path), op,
                  op.path in guarded, op.path in ioErrors);
      assert op.path !in PathsOf(prefix);
      forall i | 0 <= i < last ensures ops[i] == prefix[i] && ops[i].path != op.path { }
    }
  }

  // ------------------------------------------------------------------ which changes land

  /** Nothing is at the path: no file, no directory, no link or special file. */
  predicate Vacant(fs: Fs, p: Path) {
    p !in fs.files && p !in fs.dirs && p !in fs.specials
  }

  /** A file or a link stands where a directory above the path should be. */
  predicate Obstructed(fs: Fs, p: Path) {
    exists i :: 0 < i < |p| && (p[..i] in fs.files || p[..i] in fs.specials)
  }

  /** Nothing speaks against a change: the path is as it was before, nobody guards it, no call fails, no file
      or link is above it, and nothing but a regular file is at it. */
  predicate Clean(fs: Fs, now: Option<FileState>, op: Operation, guarded: bool, ioError: bool) {
    && now == op.before && now != op.after && !guarded && !ioError && !Obstructed(fs, op.path)
    && (now.None? ==> Vacant(fs, op.path))
    && op.path !in fs.dirs && (op.after.Some? ==> op.path !in fs.specials)
  }

  /** A path needs nothing: the file there, or its absence, is what the change asks for. */
  predicate Reached(fs: Fs, now: Option<FileState>, op: Operation) {
    now == op.after && (now.None? ==> Vacant(fs, op.path))
  }

  /** Exactly the clean changes are applied; of the others, exactly those that are not reached conflict. */
  lemma JudgedExactly(fs: Fs, now: Option<FileState>, op: Operation, guarded: bool, ioError: bool)
    ensures Judge(fs, now, op, guarded, ioError) == Applied <==> Clean(fs, now, op, guarded, ioError)
    ensures Judge(fs, now, op, guarded, ioError) == Conflicted
       <==> !Clean(fs, now, op, guarded, ioError) && !Reached(fs, now, op)
  {
  }

  /** No other path of the patch is above or below this one. */
  ghost predicate Apart(ops: Patch, i: nat)
    requires i < |ops|
  {
    forall j :: 0 <= j < |ops| && j != i ==> !Above(ops[j].path, ops[i].path) && !Above(ops[i].path, ops[j].path)
  }

  /** What a merge did with one path, by the tree it began with: a clean change is applied and leaves the
      path as the remote side has it; any other leaves it alone, and is a conflict unless it is reached. */
  ghost predicate Treated(fs: Fs, op: Operation, guarded: set<Path>, ioErrors: set<Path>, r: Outcome) {
    var p, now := op.path, At(fs.files, op.path);
    var clean := Clean(fs, now, op, p in guarded, p in ioErrors);
    && (p in r.applied <==> clean)
    && (p in r.conflicts <==> !clean && !Reached(fs, now, op))
    && At(r.fs.files, p) == if clean then op.after else now
  }

  ghost predicate TreatedAll(fs: Fs, ops: Patch, guarded: set<Path>, ioErrors: set<Path>, r: Outcome) {
    && (forall i :: 0 <= i < |ops| && Apart(ops, i) ==> Treated(fs, ops[i], guarded, ioErrors, r))
    && (forall p :: p !in PathsOf(ops) ==>
          p !in r.applied && p !in r.conflicts && At(r.fs.files, p) == At(fs.files, p))
  }

  /** The paths are some of the patch, each once and in its order. */
  ghost predicate InPatchOrder(ops: Patch, paths: seq<Path>) {
    exists at: seq<nat> :: |at| == |paths| && Ascends(at, |ops|)
      && forall k :: 0 <= k < |paths| ==> ops[at[k]].path == paths[k]
  }

  ghost predicate Ascends(at: seq<nat>, n: nat) {
    && (forall k :: 0 <= k < |at| ==> at[k] < n)
    && (forall j, k :: 0 <= j < k < |at| ==> at[j] < at[k])
  }

  lemma InOrderMore(ops: Patch, paths: seq<Path>, op: Operation)
    requires InPatchOrder(ops, paths)
    ensures InPatchOrder(ops + [op], paths) && InPatchOrder(ops + [op], paths + [op.path])
  {
    var at: seq<nat> :| |at| == |paths| && Ascends(at, |ops|)
      && forall k :: 0 <= k < |paths| ==> ops[at[k]].path == paths[k];
    assert Ascends(at, |ops + [op]|) && forall k :: 0 <= k < |paths| ==> (ops + [op])[at[k]].path == paths[k];
    var more := at + [|ops|];
    assert Ascends(more, |ops + [op]|);
    assert forall k :: 0 <= k < |paths + [op.path]| ==> (ops + [op])[more[k]].path == (paths + [op.path])[k];
  }

  lemma Snoc(ops: Patch)
    requires ops != []
    ensures ops[..|ops| - 1] + [ops[|ops| - 1]] == ops
  {
  }

  lemma AdvanceInOrder(sofar: Outcome, scan: Tree, ops: Patch, op: Operation, guarded: set<Path>,
                       ioErrors: set<Path>)
    requires InPatchOrder(ops, sofar.applied) && InPatchOrder(ops, sofar.conflicts)
    ensures var r := Advance(sofar, scan, op, guarded, ioErrors);
            InPatchOrder(ops + [op], r.applied) && InPatchOrder(ops + [op], r.conflicts)
  {
    InOrderMore(ops, sofar.applied, op);
    InOrderMore(ops, sofar.conflicts, op);
  }

  lemma {:induction false} MergeInOrder(fs: Fs, scan: Tree, ops: Patch, guarded: set<Path>, ioErrors: set<Path>)
    ensures var r := Merge(fs, scan, ops, guarded, ioErrors);
            InPatchOrder(ops, r.applied) && InPatchOrder(ops, r.conflicts)
  {
    if ops == [] {
      var none: seq<nat> := [];
      assert Ascends(none, 0);
    } else {
      var last := |ops| - 1;
      MergeInOrder(fs, scan, ops[..last], guarded, ioErrors);
      AdvanceInOrder(Merge(fs, scan, ops[..last], guarded, ioErrors), scan, ops[..last], ops[last], guarded,
                     ioErrors);
      Snoc(ops);
    }
  }

  /** The verdict on an operation, by the tree that the merge began with. */
  lemma {:induction false} VerdictApart(fs: Fs, ops: Patch, guarded: set<Path>, ioErrors: set<Path>, i: nat)
    requires DistinctPaths(ops) && i < |ops| && Apart(ops, i)
    ensures var r, p := Merge(fs, fs.files, ops, guarded, ioErrors), ops[i].path;
            var verdict := Judge(fs, At(fs.files, p), ops[i], p in guarded, p in ioErrors);
            (p in r.applied <==> verdict == Applied) && (p in r.conflicts <==> verdict == Conflicted)
    decreases |ops|
  {
    var last := |ops| - 1;
    var prefix := ops[..last];
    MergePointwise(fs, prefix, guarded, ioErrors);
    if i == last {
      forall j | 0 <= j < last
        ensures prefix[j].path != ops[i].path
             && !Above(prefix[j].path, ops[i].path) && !Above(ops[i].path, prefix[j].path)
      {
        assert ops[j] == prefix[j];
      }
      MergeElsewhere(fs, fs.files, prefix, guarded, ioErrors, ops[i].path);
      JudgeAround(Merge(fs, fs.files, prefix, guarded, ioErrors).fs, fs, At(fs.files, ops[i].path), ops[i],
                  ops[i].path in guarded, ops[i].path in ioErrors);
      assert ops[i].path !in PathsOf(prefix);
    } else {
      assert prefix[i] == ops[i] && Apart(prefix, i) by {
        assert forall j :: 0 <= j < last ==> prefix[j] == ops[j];
      }
      VerdictApart(fs, prefix, guarded, ioErrors, i);
    }
  }

  /** Clean changes land: of a patch with distinct paths, every path that has none above or below it in the
      patch is applied exactly if its change is clean. */
  lemma Treatment(fs: Fs, ops: Patch, guarded: set<Path>, ioErrors: set<Path>)
    requires DistinctPaths(ops)
    ensures var r := Merge(fs, fs.files, ops, guarded, ioErrors);
            && TreatedAll(fs, ops, guarded, ioErrors, r)
            && InPatchOrder(ops, r.applied) && InPatchOrder(ops, r.conflicts)
  {
    var r := Merge(fs, fs.files, ops, guarded, ioErrors);
    MergePointwise(fs, ops, guarded, ioErrors);
    MergeInOrder(fs, fs.files, ops, guarded, ioErrors);
    forall i | 0 <= i < |ops| && Apart(ops, i) ensures Treated(fs, ops[i], guarded, ioErrors, r) {
      var p := ops[i].path;
      VerdictApart(fs, ops, guarded, ioErrors, i);
      JudgedExactly(fs, At(fs.files, p), ops[i], p in guarded, p in ioErrors);
      assert Resolved(fs, ops[i], guarded, r);
    }
  }

  // ------------------------------------------------------------------ the base snapshot

  /** The base after a patch: the operations that landed, the others left as they were. */
  function Absorb(base: Tree, ops: Patch, rejected: set<Path>): Tree {
    if ops == [] then base
    else
      var last := |ops| - 1;
      var sofar := Absorb(base, ops[..last], rejected);
      if ops[last].path in rejected then sofar else Put(sofar, ops[last].path, ops[last].after)
  }

  /** The base after a partly accepted upload: only `paths` move to their uploaded state. */
  function Overlay(base: Tree, current: Tree, paths: seq<Path>): Tree {
    if paths == [] then base
    else
      var last := |paths| - 1;
      Put(Overlay(base, current, paths[..last]), paths[last], At(current, paths[last]))
  }

  method ApplyPatchToSnapshot(snapshot: Tree, patch: Patch, conflicts: seq<Path>) returns (files: Tree)
    ensures files == Absorb(snapshot, patch, set p | p in conflicts)
  {
    var rejected := set p | p in conflicts;
    files := snapshot;
    for i := 0 to |patch|
      invariant files == Absorb(snapshot, patch[..i], rejected)
    {
      assert patch[..i + 1][..i] == patch[..i];
      if patch[i].path in rejected {
        continue;
      }
      match patch[i].after {
        case None => files := files - {patch[i].path};
        case Some(file) => files := files[patch[i].path := file];
      }
    }
    assert patch[..|patch|] == patch;
  }

  method AdvanceSnapshotPaths(base: Tree, current: Tree, paths: seq<Path>) returns (files: Tree)
    ensures files == Overlay(base, current, paths)
  {
    files := base;
    for i := 0 to |paths|
      invariant files == Overlay(base, current, paths[..i])
    {
      assert paths[..i + 1][..i] == paths[..i];
      if paths[i] in current {
        files := files[paths[i] := current[paths[i]]];
      } else {
        files := files - {paths[i]};
      }
    }
    assert paths[..|paths|] == paths;
  }

  method BuildWorkspacePatch(before: Tree, after: Tree, order: seq<Path>) returns (patch: Option<Patch>)
    requires Enumerates(order, before.Keys + after.Keys)
    ensures patch == (if before == after then None else Some(Changes(before, after, order)))
    ensures patch.Some? ==> WellFormed(patch.value)
  {
    var operations: Patch := [];
    for i := 0 to |order|
      invariant operations == Changes(before, after, order[..i])
    {
      assert order[..i + 1][..i] == order[..i];
      var beforeState, afterState := At(before, order[i]), At(after, order[i]);
      if beforeState != afterState {
        operations := operations + [Operation(order[i], beforeState, afterState)];
      }
    }
    assert order[..|order|] == order;
    ChangesExact(before, after, order);
    if operations == [] {
      SameEverywhere(before, after);
      return None;
    }
    patch := Some(operations);
  }

  lemma SameEverywhere(a: Tree, b: Tree)
    ensures a == b <==> forall p :: At(a, p) == At(b, p)
  {
    if forall p :: At(a, p) == At(b, p) {
      assert forall p :: p in a <==> p in b by {
        forall p ensures p in a <==> p in b { assert At(a, p) == At(b, p); }
      }
      forall p | p in a ensures a[p] == b[p] { assert At(a, p) == At(b, p); }
    }
  }

  /** The changes are exactly the differing paths, each once, from the old state to the new. */
  lemma {:induction false} ChangesSound(before: Tree, after: Tree, order: seq<Path>)
    requires forall i, j :: 0 <= i < j < |order| ==> order[i] != order[j]
    ensures var ops := Changes(before, after, order);
            && DistinctPaths(ops) && Effective(ops)
            && (forall op :: op in ops ==>
                  op.path in order && op.before == At(before, op.path) && op.after == At(after, op.path))
            && (forall p :: p in order && At(before, p) != At(after, p) ==>
                  Operation(p, At(before, p), At(after, p)) in ops)
  {
    if order != [] {
      var last := |order| - 1;
      ChangesSound(before, after, order[..last]);
      var sofar := Changes(before, after, order[..last]);
      var ops := Changes(before, after, order);
      if ops != sofar {
        forall i | 0 <= i < |sofar| ensures sofar[i].path != order[last] {
          assert sofar[i] in sofar;
        }
      }
      forall p | p in order && At(before, p) != At(after, p)
        ensures Operation(p, At(before, p), At(after, p)) in ops
      {
        if p != order[last] {
          assert p in order[..last];
        }
      }
    }
  }

  lemma ChangesExact(before: Tree, after: Tree, order: seq<Path>)
    requires Enumerates(order, before.Keys + after.Keys)
    ensures var ops := Changes(before, after, order);
            && DistinctPaths(ops) && Effective(ops)
            && (forall op: Operation ::
                  op in ops <==>
                  op.before != op.after && op.before == At(before, op.path) && op.after == At(after, op.path))
            && (ops == [] <==> before == after)
  {
    var ops := Changes(before, after, order);
    ChangesSound(before, after, order);
    forall op: Operation | op.before != op.after && op.before == At(before, op.path) && op.after == At(after, op.path)
      ensures op in ops
    {
      assert op.path in order;
      assert op == Operation(op.path, At(before, op.path), At(after, op.path));
    }
    forall op | op in ops
      ensures op.before != op.after && op.before == At(before, op.path) && op.after == At(after, op.path)
    {
      var i :| 0 <= i < |ops| && ops[i] == op;
    }
    if ops == [] {
      SameEverywhere(before, after);
    } else {
      assert ops[0] in ops;
    }
  }

  lemma {:induction false} AbsorbPointwise(base: Tree, ops: Patch, rejected: set<Path>)
    requires DistinctPaths(ops)
    ensures var r := Absorb(base, ops, rejected);
            && (forall i :: 0 <= i < |ops| ==>
                  At(r, ops[i].path) == if ops[i].path in rejected then At(base, ops[i].path) else ops[i].after)
            && (forall p :: p !in PathsOf(ops) ==> At(r, p) == At(base, p))
  {
    if ops != [] {
      var last := |ops| - 1;
      AbsorbPointwise(base, ops[..last], rejected);
      assert ops[last].path !in PathsOf(ops[..last]);
      forall i | 0 <= i < last ensures ops[..last][i] == ops[i] { }
      forall p | p !in PathsOf(ops) ensures p != ops[last].path && p !in PathsOf(ops[..last]) {
        assert ops[last].path in PathsOf(ops);
        forall i | 0 <= i < last ensures ops[..last][i].path != p { assert ops[i].path in PathsOf(ops); }
      }
    }
  }

  lemma {:induction false} OverlayPointwise(base: Tree, current: Tree, paths: seq<Path>, p: Path)
    ensures At(Overlay(base, current, paths), p) == if p in paths then At(current, p) else At(base, p)
  {
    if paths != [] {
      OverlayPointwise(base, current, paths[..|paths| - 1], p);
    }
  }

  /** A patch built between two snapshots carries the first to the second. */
  lemma AbsorbInvertsBuild(before: Tree, after: Tree, order: seq<Path>)
    requires Enumerates(order, before.Keys + after.Keys)
    ensures Absorb(before, Changes(before, after, order), {}) == after
  {
    var ops := Changes(before, after, order);
    var r := Absorb(before, ops, {});
    ChangesExact(before, after, order);
    AbsorbPointwise(before, ops, {});
    forall p ensures At(r, p) == At(after, p) {
      if At(before, p) != At(after, p) {
        assert Operation(p, At(before, p), At(after, p)) in ops;
      } else if p in PathsOf(ops) {
        var i :| 0 <= i < |ops| && ops[i].path == p;
        assert ops[i] in ops;
      }
    }
    SameEverywhere(r, after);
  }

  // ------------------------------------------------------------------ edits not yet uploaded

  /** The paths where the local tree differs from the synchronized base. */
  function Pending(local: Tree, base: Tree): (paths: set<Path>)
    ensures forall p :: p in paths <==> At(local, p) != At(base, p)
  {
    set p | p in local.Keys + base.Keys && At(local, p) != At(base, p)
  }

  /** A remote patch never absorbs an edit that has not been uploaded: a path it does not accept
      stays pending exactly if it was, and an accepted path is left with nothing to upload. */
  lemma PatchKeepsPendingEdits(fs: Fs, base: Tree, ops: Patch, ioErrors: set<Path>)
    requires DistinctPaths(ops)
    ensures var r := Merge(fs, fs.files, ops, {}, ioErrors);
            var rejected := set p | p in r.conflicts;
            Pending(r.fs.files, Absorb(base, ops, rejected)) == Pending(fs.files, base) - (PathsOf(ops) - rejected)
  {
    var r := Merge(fs, fs.files, ops, {}, ioErrors);
    var rejected := set p | p in r.conflicts;
    MergePointwise(fs, ops, {}, ioErrors);
    AbsorbPointwise(base, ops, rejected);
    forall p
      ensures At(r.fs.files, p) != At(Absorb(base, ops, rejected), p)
         <==> At(fs.files, p) != At(base, p) && (p !in PathsOf(ops) || p in rejected)
    {
      if p in PathsOf(ops) {
        var i :| 0 <= i < |ops| && ops[i].path == p;
        assert Resolved(fs, ops[i], {}, r);
      }
    }
  }

  /** A partly accepted upload settles exactly the accepted paths; a full one settles them all. */
  lemma {:induction false} UploadSettlesAccepted(local: Tree, base: Tree, applied: seq<Path>)
    ensures Pending(local, Overlay(base, local, applied)) == Pending(local, base) - (set p | p in applied)
    ensures Pending(local, local) == {}
  {
    forall p ensures At(Overlay(base, local, applied), p) == if p in applied then At(local, p) else At(base, p) {
      OverlayPointwise(base, local, applied, p);
    }
  }
}
