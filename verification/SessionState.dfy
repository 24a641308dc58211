/** The file-level store behind a detached session: state files, base archives named by digest, and
    the marker of the current session, with every operation split into atomic file steps. */
module SessionState {
  import opened Options
  import opened Workspace

  datatype Result<+T> = Ok(value: T) | Err(error: Error)
  datatype Error = InvalidId | NeedsWorkspace | NoCheckpoint | ArchiveMissing | IntegrityFailure

  datatype WorkspaceCheckpoint = WorkspaceCheckpoint(root: string, baseDigest: string, conflicts: set<Path>,
                                                     pendingAck: Option<nat>)

  datatype State = State(sessionId: string, cursor: nat, workspace: Option<WorkspaceCheckpoint>)

  /** What a file in the state directory holds; an archive is the tree it unpacks to. */
  datatype Blob = StateBlob(state: State) | ArchiveBlob(files: Tree) | CurrentBlob(id: string)

  type Disk = map<string, Blob>

  // ------------------------------------------------------------------ names

  predicate IsAlnum(c: char) { 'a' <= c <= 'z' || 'A' <= c <= 'Z' || '0' <= c <= '9' }

  predicate IsHexDigit(c: char) { '0' <= c <= '9' || 'a' <= c <= 'f' }

  predicate ValidId(id: string) {
    && id != "" && IsAlnum(id[0])
    && forall i :: 0 <= i < |id| ==> IsAlnum(id[i]) || id[i] == '.' || id[i] == '_' || id[i] == '-'
  }

  /** A digest in lower-case hexadecimal. */
  predicate IsDigest(d: string) {
    |d| == 64 && forall i :: 0 <= i < |d| ==> IsHexDigit(d[i])
  }

  const INFIX := ".workspace-"
  const SUFFIX := ".tar.gz"
  const CURRENT := "current"

  function Short(digest: string): string {
    if |digest| <= 16 then digest else digest[..16]
  }

  function StateName(id: string): string { id + ".json" }

  function ArchiveName(id: string, digest: string): string { id + INFIX + Short(digest) + SUFFIX }

  /** The names matched by the pattern `<id>.workspace-*.tar.gz`. */
  predicate InGlob(id: string, name: string) {
    |id + INFIX| + |SUFFIX| <= |name| && id + INFIX <= name && name[|name| - |SUFFIX|..] == SUFFIX
  }

  /** `other` continues `id` with `.workspace-`, so that its archives match the pattern of `id`. */
  predicate Shadows(id: string, other: string) {
    id + INFIX <= other
  }

  lemma NamesApart(id: string, other: string, digest: string)
    ensures StateName(id) != ArchiveName(other, digest) && StateName(id) != CURRENT
            && ArchiveName(id, digest) != CURRENT
    ensures !InGlob(id, StateName(other)) && !InGlob(id, CURRENT)
    ensures StateName(id) == StateName(other) ==> id == other
  {
    var s, a := StateName(id), ArchiveName(other, digest);
    assert s[|s| - 1] == 'n' && a[|a| - 1] == 'z' && CURRENT[|CURRENT| - 1] == 't';
    var b := ArchiveName(id, digest);
    assert b[|b| - 1] == 'z';
    var o := StateName(other);
    assert o[|o| - 1] == 'n';
    assert |SUFFIX| <= |o| ==> o[|o| - |SUFFIX|..][6] == 'n';
    assert CURRENT[|CURRENT| - |SUFFIX|..][6] == 't';
    if s == StateName(other) {
      assert |id| == |other|;
      assert id == s[..|id|] && other == StateName(other)[..|other|];
    }
  }

  lemma ArchiveNamesApart(id: string, d: string, other: string, e: string)
    requires IsDigest(d) && IsDigest(e) && ArchiveName(id, d) == ArchiveName(other, e)
    ensures id == other && Short(d) == Short(e)
  {
    var a, b := ArchiveName(id, d), ArchiveName(other, e);
    assert |id| == |other|;
    assert id == a[..|id|] && other == b[..|other|];
    assert Short(d) == a[|id + INFIX|..|id + INFIX| + 16];
    assert Short(e) == b[|other + INFIX|..|other + INFIX| + 16];
  }

  /** The exact reach of the pruning pattern: it matches an archive of another session if and only if
      that session's id continues this one with `.workspace-`. */
  lemma GlobReach(id: string, other: string, digest: string)
    requires IsDigest(digest)
    ensures InGlob(id, ArchiveName(other, digest)) <==> other == id || Shadows(id, other)
  {
    var name := ArchiveName(other, digest);
    var pattern := id + INFIX;
    assert name[|name| - |SUFFIX|..] == SUFFIX;
    if other == id {
      assert name == pattern + (Short(digest) + SUFFIX);
    } else if Shadows(id, other) {
      assert name == other + (INFIX + Short(digest) + SUFFIX);
      assert pattern <= name;
    } else if |pattern| + |SUFFIX| <= |name| {
      GlobMisaligned(id, other, digest);
    }
  }

  /** The infix of `id` can only line up with the infix of `other`, or lie inside `other`: its dot
      meets no other dot before the suffix. */
  lemma GlobMisaligned(id: string, other: string, digest: string)
    requires IsDigest(digest) && other != id && !Shadows(id, other)
    requires |id + INFIX| + |SUFFIX| <= |ArchiveName(other, digest)|
    ensures !(id + INFIX <= ArchiveName(other, digest))
  {
    var name := ArchiveName(other, digest);
    var pattern := id + INFIX;
    var n, m := |id|, |other|;
    assert pattern[n] == '.';
    if n == m {
      assert pattern[..n] == id && name[..m] == other;
    } else if n + |INFIX| <= m {
      assert name[..n + |INFIX|] == other[..n + |INFIX|];
    } else if n < m {
      DotOnlyFirst(m - n);
      assert name[m] == INFIX[0] && pattern[m] == INFIX[m - n];
    } else if n < m + |INFIX| {
      DotOnlyFirst(n - m);
      assert name[n] == INFIX[n - m];
    } else {
      var at := n - m - |INFIX|;
      assert at < 16;
      assert name[n] == Short(digest)[at] == digest[at];
    }
  }

  lemma DotOnlyFirst(i: nat)
    requires 0 < i < |INFIX|
    ensures INFIX[i] != '.'
  {
    assert INFIX == ['.', 'w', 'o', 'r', 'k', 's', 'p', 'a', 'c', 'e', '-'];
  }

  // ------------------------------------------------------------------ what a command finds

  /** The digest function, abstract except for its shape. */
  ghost predicate HexHash(hash: Tree -> string) {
    forall t :: IsDigest(hash(t))
  }

  function Load(disk: Disk, id: string): Option<State> {
    if StateName(id) in disk && disk[StateName(id)].StateBlob? then Some(disk[StateName(id)].state) else None
  }

  /** Read and integrity-check the base archive a state refers to. */
  function LoadBase(disk: Disk, hash: Tree -> string, id: string, state: State): Result<Tree> {
    if state.workspace.None? || state.workspace.value.baseDigest == "" then Err(NoCheckpoint)
    else
      var digest := state.workspace.value.baseDigest;
      var name := ArchiveName(id, digest);
      if !(name in disk && disk[name].ArchiveBlob?) then Err(ArchiveMissing)
      else if hash(disk[name].files) != digest then Err(IntegrityFailure)
      else Ok(disk[name].files)
  }

  /** A base is loaded exactly if the state names a digest, an archive is stored under the name of that digest,
      and its content has that digest. */
  lemma LoadedExactly(disk: Disk, hash: Tree -> string, id: string, state: State, base: Tree)
    ensures LoadBase(disk, hash, id, state) == Ok(base)
       <==> && state.workspace.Some? && state.workspace.value.baseDigest != ""
            && var digest := state.workspace.value.baseDigest;
               var name := id + ".workspace-" + (if |digest| <= 16 then digest else digest[..16]) + ".tar.gz";
               name in disk && disk[name] == ArchiveBlob(base) && hash(base) == digest
  {
  }

  datatype Session = Session(state: State, base: Result<Tree>)

  /** All that a later command can learn about one session. */
  function View(disk: Disk, hash: Tree -> string, id: string): Option<Session> {
    match Load(disk, id)
    case None => None
    case Some(state) => Some(Session(state, LoadBase(disk, hash, id, state)))
  }

  /** A session is absent, keeps no workspace, or has a base archive that passes its check. */
  ghost predicate Intact(disk: Disk, hash: Tree -> string, id: string) {
    match View(disk, hash, id)
    case None => true
    case Some(session) => session.base.Ok? || session.base == Err(NoCheckpoint)
  }

  // ------------------------------------------------------------------ atomic file steps

  datatype FileStep = PutFile(name: string, blob: Blob) | Unlink(name: string)

  function Perform(disk: Disk, step: FileStep): Disk {
    match step
    case PutFile(name, blob) => disk[name := blob]
    case Unlink(name) => disk - {name}
  }

  function PerformAll(disk: Disk, steps: seq<FileStep>): Disk {
    if steps == [] then disk
    else Perform(PerformAll(disk, steps[..|steps| - 1]), steps[|steps| - 1])
  }

  /** The disk when the process is stopped after `n` steps. */
  function Cut(disk: Disk, steps: seq<FileStep>, n: nat): Disk {
    PerformAll(disk, if n <= |steps| then steps[..n] else steps)
  }

  function WithDigest(state: State, digest: string): State
    requires state.workspace.Some?
  {
    state.(workspace := Some(state.workspace.value.(baseDigest := digest)))
  }

  /** The state as it will be stored. */
  function Stored(hash: Tree -> string, state: State, archive: Option<Tree>): State
    requires archive.Some? ==> state.workspace.Some?
  {
    if archive.Some? then WithDigest(state, hash(archive.value)) else state
  }

  /** The archive first, the state that refers to it last. */
  function Writes(hash: Tree -> string, state: State, archive: Option<Tree>): seq<FileStep>
    requires archive.Some? ==> state.workspace.Some?
  {
    var id := state.sessionId;
    var put := PutFile(StateName(id), StateBlob(Stored(hash, state, archive)));
    if archive.Some? then [PutFile(ArchiveName(id, hash(archive.value)), ArchiveBlob(archive.value)), put] else [put]
  }

  predicate Referenced(state: State, name: string) {
    state.workspace.Some? && state.workspace.value.baseDigest != ""
    && name == ArchiveName(state.sessionId, state.workspace.value.baseDigest)
  }

  /** Removal, in any order, of exactly the given files, each once. */
  ghost predicate Removes(steps: seq<FileStep>, names: set<string>) {
    && |steps| == |names|
    && (forall i :: 0 <= i < |steps| ==> steps[i].Unlink? && steps[i].name in names)
    && (forall name :: name in names ==> Unlink(name) in steps)
  }

  function Stale(disk: Disk, state: State): set<string> {
    set name | name in disk && InGlob(state.sessionId, name) && !Referenced(state, name)
  }

  /** The file steps of one save: the writes, then the pruning of what is no longer referenced. */
  ghost predicate SaveScript(disk: Disk, hash: Tree -> string, state: State, archive: Option<Tree>,
                             steps: seq<FileStep>)
    requires archive.Some? ==> state.workspace.Some?
  {
    var writes := Writes(hash, state, archive);
    && writes <= steps
    && Removes(steps[|writes|..], Stale(PerformAll(disk, writes), Stored(hash, state, archive)))
  }

  // ------------------------------------------------------------------ the store

  /** The first `n` removals done leave everything else as it was. */
  lemma {:induction false} RemovalsOnly(disk: Disk, steps: seq<FileStep>, names: set<string>)
    requires forall i :: 0 <= i < |steps| ==> steps[i].Unlink? && steps[i].name in names
    ensures var after := PerformAll(disk, steps);
            && (forall name :: name in disk && name !in names ==> name in after && after[name] == disk[name])
            && (forall name :: name in after ==> name in disk && after[name] == disk[name])
            && (forall name :: Unlink(name) in steps ==> name !in after)
  {
    if steps != [] {
      RemovalsOnly(disk, steps[..|steps| - 1], names);
    }
  }

  lemma {:induction false} PerformConcat(disk: Disk, a: seq<FileStep>, b: seq<FileStep>)
    ensures PerformAll(disk, a + b) == PerformAll(PerformAll(disk, a), b)
  {
    if b == [] {
      assert a + b == a;
    } else {
      var last := |b| - 1;
      PerformConcat(disk, a, b[..last]);
      assert (a + b)[..|a + b| - 1] == a + b[..last];
    }
  }

  ghost function UnlinkAll(names: set<string>): (steps: seq<FileStep>)
    ensures Removes(steps, names)
  {
    if names == {} then []
    else
      var name :| name in names;
      [Unlink(name)] + UnlinkAll(names - {name})
  }

  /** The steps have unlinked all the names but those of `todo`. */
  ghost predicate Unlinked(steps: seq<FileStep>, names: set<string>, todo: set<string>) {
    && todo <= names && |steps| + |todo| == |names|
    && (forall i :: 0 <= i < |steps| ==> steps[i].Unlink? && steps[i].name in names)
    && (forall name :: name in names && name !in todo ==> Unlink(name) in steps)
  }

  lemma UnlinkMore(disk: Disk, steps: seq<FileStep>, names: set<string>, todo: set<string>, name: string)
    requires Unlinked(steps, names, todo) && name in todo
    ensures Unlinked(steps + [Unlink(name)], names, todo - {name})
    ensures PerformAll(disk, steps + [Unlink(name)]) == PerformAll(disk, steps) - {name}
  {
    assert (steps + [Unlink(name)])[..|steps|] == steps;
  }

  lemma UnlinksDone(disk: Disk, steps: seq<FileStep>, names: set<string>, left: nat)
    requires Unlinked(steps, names, {})
    ensures RemovedUpTo(disk, names, |steps| + left, PerformAll(disk, steps), true, left)
  {
    assert Removes(steps, names);
    assert steps[..|steps|] == steps;
  }

  lemma UnlinksCut(disk: Disk, steps: seq<FileStep>, names: set<string>, todo: set<string>, left: nat)
    requires Unlinked(steps, names, todo) && todo != {}
    ensures RemovedUpTo(disk, names, |steps|, PerformAll(disk, steps), false, left)
  {
    var rest := UnlinkAll(todo);
    var whole := steps + rest;
    assert whole[..|steps|] == steps;
    assert Removes(whole, names) by {
      forall name | name in names ensures Unlink(name) in whole {
        assert name in todo ==> Unlink(name) in rest;
      }
      forall i | 0 <= i < |whole| ensures whole[i].Unlink? && whole[i].name in names {
        assert i >= |steps| ==> whole[i] == rest[i - |steps|];
      }
    }
  }

  /** A save that lived for `life` file steps turned one disk into the other. */
  ghost predicate SavedUpTo(disk: Disk, hash: Tree -> string, state: State, archive: Option<Tree>, life: nat,
                            after: Disk, finished: bool)
    requires archive.Some? ==> state.workspace.Some?
  {
    exists steps :: SaveScript(disk, hash, state, archive, steps)
      && after == Cut(disk, steps, life) && (finished <==> |steps| <= life)
  }

  /** Removal of the given files, in any order, by a process that lives for `life` steps and has
      `left` of them to spare. */
  ghost predicate RemovedUpTo(disk: Disk, names: set<string>, life: nat, after: Disk, finished: bool, left: nat) {
    exists steps :: Removes(steps, names) && after == Cut(disk, steps, life)
      && (finished <==> |steps| <= life) && (finished ==> left + |steps| == life)
  }

  ghost predicate PrunedUpTo(disk: Disk, state: State, life: nat, after: Disk, finished: bool) {
    exists steps :: Removes(steps, Stale(disk, state)) && after == Cut(disk, steps, life)
        && (finished <==> |steps| <= life)
  }

  /** Likewise for a deletion. */
  ghost predicate DeletedUpTo(disk: Disk, id: string, life: nat, after: Disk, finished: bool) {
    exists steps :: DeleteScript(disk, id, steps) && after == Cut(disk, steps, life) && (finished <==> |steps| <= life)
  }

  lemma WritesInOrder(disk: Disk, hash: Tree -> string, state: State, archive: Option<Tree>)
    requires archive.Some? ==> state.workspace.Some?
    ensures var id, writes := state.sessionId, Writes(hash, state, archive);
            var put := StateBlob(Stored(hash, state, archive));
            && PerformAll(disk, writes[..0]) == disk
            && (archive.Some? ==>
                  var name, blob := ArchiveName(id, hash(archive.value)), ArchiveBlob(archive.value);
                  && |writes| == 2 && PerformAll(disk, writes[..1]) == disk[name := blob]
                  && PerformAll(disk, writes) == disk[name := blob][StateName(id) := put])
            && (archive.None? ==> |writes| == 1 && PerformAll(disk, writes) == disk[StateName(id) := put])
  {
    var writes := Writes(hash, state, archive);
    assert writes[..0] == [];
    assert |writes| == 2 ==> writes[..1][..0] == [] && writes[..|writes| - 1] == writes[..1];
    assert |writes| == 1 ==> writes[..|writes| - 1] == [];
  }

  lemma ArchiveFirst(disk: Disk, hash: Tree -> string, state: State, archive: Option<Tree>)
    requires archive.Some? ==> state.workspace.Some?
    ensures PerformAll(disk, Writes(hash, state, archive)[..|Writes(hash, state, archive)| - 1])
         == if archive.Some? then disk[ArchiveName(state.sessionId, hash(archive.value)) := ArchiveBlob(archive.value)]
            else disk
  {
    WritesInOrder(disk, hash, state, archive);
  }

  lemma StateLast(disk: Disk, hash: Tree -> string, state: State, archive: Option<Tree>)
    requires archive.Some? ==> state.workspace.Some?
    ensures var writes := Writes(hash, state, archive);
            PerformAll(disk, writes)
              == PerformAll(disk, writes[..|writes| - 1])[StateName(state.sessionId) :=
                                                            StateBlob(Stored(hash, state, archive))]
  {
  }

  lemma CutWhileWriting(disk: Disk, hash: Tree -> string, state: State, archive: Option<Tree>, n: nat)
    requires archive.Some? ==> state.workspace.Some?
    requires n < |Writes(hash, state, archive)|
    ensures SavedUpTo(disk, hash, state, archive, n, PerformAll(disk, Writes(hash, state, archive)[..n]), false)
  {
    var writes := Writes(hash, state, archive);
    var removals := UnlinkAll(Stale(PerformAll(disk, writes), Stored(hash, state, archive)));
    ScriptOf(disk, hash, state, archive, removals);
    assert (writes + removals)[..n] == writes[..n];
    SavedBy(disk, hash, state, archive, writes + removals, n);
  }

  lemma NotBegun(disk: Disk, hash: Tree -> string, state: State, archive: Option<Tree>)
    requires archive.Some? ==> state.workspace.Some?
    ensures SavedUpTo(disk, hash, state, archive, 0, disk, false)
  {
    WritesInOrder(disk, hash, state, archive);
    CutWhileWriting(disk, hash, state, archive, 0);
  }

  lemma WritesCount(hash: Tree -> string, state: State, archive: Option<Tree>)
    requires archive.Some? ==> state.workspace.Some?
    ensures |Writes(hash, state, archive)| == if archive.Some? then 2 else 1
  {
  }

  lemma PrunedAfter(disk: Disk, hash: Tree -> string, state: State, archive: Option<Tree>, life: nat, after: Disk,
                    finished: bool)
    requires archive.Some? ==> state.workspace.Some?
    requires PrunedUpTo(PerformAll(disk, Writes(hash, state, archive)), Stored(hash, state, archive), life, after,
                        finished)
    ensures SavedUpTo(disk, hash, state, archive, |Writes(hash, state, archive)| + life, after, finished)
  {
    var written := PerformAll(disk, Writes(hash, state, archive));
    var removals :| Removes(removals, Stale(written, Stored(hash, state, archive)))
      && after == Cut(written, removals, life) && (finished <==> |removals| <= life);
    CutWhilePruning(disk, hash, state, archive, removals, life);
  }

  lemma CutWhilePruning(disk: Disk, hash: Tree -> string, state: State, archive: Option<Tree>, removals: seq<FileStep>,
                        k: nat)
    requires archive.Some? ==> state.workspace.Some?
    requires Removes(removals, Stale(PerformAll(disk, Writes(hash, state, archive)), Stored(hash, state, archive)))
    ensures var writes := Writes(hash, state, archive);
            SavedUpTo(disk, hash, state, archive, |writes| + k, Cut(PerformAll(disk, writes), removals, k),
                      |removals| <= k)
  {
    var writes := Writes(hash, state, archive);
    CutPast(disk, writes, removals, k);
    ScriptOf(disk, hash, state, archive, removals);
    SavedBy(disk, hash, state, archive, writes + removals, |writes| + k);
  }

  /** Stopping `k` steps after a first part. */
  lemma CutPast(disk: Disk, a: seq<FileStep>, b: seq<FileStep>, k: nat)
    ensures Cut(disk, a + b, |a| + k) == Cut(PerformAll(disk, a), b, k)
    ensures |a + b| <= |a| + k <==> |b| <= k
  {
    CutConcat(disk, a, b, |a| + k);
  }

  lemma ScriptOf(disk: Disk, hash: Tree -> string, state: State, archive: Option<Tree>, removals: seq<FileStep>)
    requires archive.Some? ==> state.workspace.Some?
    requires Removes(removals, Stale(PerformAll(disk, Writes(hash, state, archive)), Stored(hash, state, archive)))
    ensures SaveScript(disk, hash, state, archive, Writes(hash, state, archive) + removals)
  {
    var writes := Writes(hash, state, archive);
    assert (writes + removals)[|writes|..] == removals;
  }

  lemma SavedBy(disk: Disk, hash: Tree -> string, state: State, archive: Option<Tree>, steps: seq<FileStep>, n: nat)
    requires archive.Some? ==> state.workspace.Some?
    requires SaveScript(disk, hash, state, archive, steps)
    ensures SavedUpTo(disk, hash, state, archive, n, Cut(disk, steps, n), |steps| <= n)
  {
  }

  /** Stopping inside the first part, or that many steps into the second. */
  lemma CutConcat(disk: Disk, a: seq<FileStep>, b: seq<FileStep>, n: nat)
    ensures Cut(disk, a + b, n) == if n <= |a| then PerformAll(disk, a[..n]) else Cut(PerformAll(disk, a), b, n - |a|)
    ensures n == |a| ==> Cut(disk, a + b, n) == Cut(PerformAll(disk, a), b, 0)
  {
    if n <= |a| {
      assert (a + b)[..n] == a[..n];
      assert a[..|a|] == a && b[..0] == [];
    } else if n <= |a| + |b| {
      assert (a + b)[..n] == a + b[..n - |a|];
      PerformConcat(disk, a, b[..n - |a|]);
    } else {
      PerformConcat(disk, a, b);
    }
  }

  // ------------------------------------------------------------------ what a save and a deletion amount to

  /** What is stored, field by field: the state as given, but for the digest of a new archive. */
  ghost predicate KeepsFields(hash: Tree -> string, given: State, archive: Option<Tree>, stored: State) {
    && stored.sessionId == given.sessionId && stored.cursor == given.cursor
    && (stored.workspace.Some? <==> given.workspace.Some?)
    && (given.workspace.Some? ==>
          var was, now := given.workspace.value, stored.workspace.value;
          && now.root == was.root && now.conflicts == was.conflicts && now.pendingAck == was.pendingAck
          && (archive.Some? ==> now.baseDigest == hash(archive.value))
          && (archive.None? ==> now.baseDigest == was.baseDigest))
  }

  lemma FieldsKept(hash: Tree -> string, given: State, archive: Option<Tree>)
    requires archive.Some? ==> given.workspace.Some?
    ensures KeepsFields(hash, given, archive, Stored(hash, given, archive))
  {
  }

  /** The two disks hold the same under every name but the session's own and these. */
  ghost predicate SameBut(a: Disk, b: Disk, id: string, others: set<string>) {
    forall name {:trigger InGlob(id, name)} :: name != StateName(id) && !InGlob(id, name) && name !in others ==>
      (name in a <==> name in b) && (name in a ==> a[name] == b[name])
  }

  /** A file that no step names keeps its content. */
  lemma {:induction false} UnnamedKept(disk: Disk, steps: seq<FileStep>, name: string)
    requires forall i :: 0 <= i < |steps| ==> steps[i].name != name
    ensures name in PerformAll(disk, steps) <==> name in disk
    ensures name in disk ==> PerformAll(disk, steps)[name] == disk[name]
  {
    if steps != [] {
      UnnamedKept(disk, steps[..|steps| - 1], name);
    }
  }

  lemma OwnNamesOnly(disk: Disk, steps: seq<FileStep>, id: string, others: set<string>)
    requires forall i :: 0 <= i < |steps| ==>
               steps[i].name == StateName(id) || InGlob(id, steps[i].name) || steps[i].name in others
    ensures SameBut(disk, PerformAll(disk, steps), id, others)
  {
    forall name | name != StateName(id) && !InGlob(id, name) && name !in others
      ensures (name in disk <==> name in PerformAll(disk, steps))
           && (name in disk ==> disk[name] == PerformAll(disk, steps)[name])
    {
      UnnamedKept(disk, steps, name);
    }
  }

  lemma {:induction false} NamesWithin(disk: Disk, steps: seq<FileStep>, more: set<string>)
    requires forall i :: 0 <= i < |steps| && steps[i].PutFile? ==> steps[i].name in more
    ensures PerformAll(disk, steps).Keys <= disk.Keys + more
  {
    if steps != [] {
      NamesWithin(disk, steps[..|steps| - 1], more);
    }
  }

  lemma {:induction false} SubsetSize<T>(a: set<T>, b: set<T>)
    requires a <= b
    ensures |a| <= |b|
  {
    if a != {} {
      var x :| x in a;
      SubsetSize(a - {x}, b - {x});
    }
  }

  lemma FewMoreNames(disk: Disk, steps: seq<FileStep>, a: string, b: string)
    requires forall i :: 0 <= i < |steps| && steps[i].PutFile? ==> steps[i].name == a || steps[i].name == b
    ensures |PerformAll(disk, steps)| <= |disk| + 2
  {
    var after := PerformAll(disk, steps);
    NamesWithin(disk, steps, {a, b});
    SubsetSize(after.Keys, disk.Keys + {a, b});
    assert |disk.Keys + {a, b}| <= |disk.Keys| + |{a, b}|;
    assert |after.Keys| == |after| && |disk.Keys| == |disk|;
  }

  /** What the steps of a save name, and how many there are. */
  lemma SaveSteps(disk: Disk, hash: Tree -> string, state: State, archive: Option<Tree>, steps: seq<FileStep>)
    requires archive.Some? ==> state.workspace.Some?
    requires SaveScript(disk, hash, state, archive, steps)
    ensures var id, digest := state.sessionId, if archive.Some? then hash(archive.value) else "";
            && (forall i :: 0 <= i < |steps| ==> steps[i].name == StateName(id) || InGlob(id, steps[i].name))
            && (forall i :: 0 <= i < |steps| && steps[i].PutFile? ==>
                  steps[i].name == StateName(id) || steps[i].name == ArchiveName(id, digest))
    ensures |steps| <= |disk| + 4
  {
    var id, digest := state.sessionId, if archive.Some? then hash(archive.value) else "";
    var writes := Writes(hash, state, archive);
    var written := PerformAll(disk, writes);
    var removals, stale := steps[|writes|..], Stale(written, Stored(hash, state, archive));
    ArchiveInGlob(id, digest);
    forall i | 0 <= i < |steps|
      ensures steps[i].name == StateName(id) || InGlob(id, steps[i].name)
      ensures steps[i].PutFile? ==> steps[i].name == StateName(id) || steps[i].name == ArchiveName(id, digest)
    {
      if i < |writes| {
        assert steps[i] == writes[i];
      } else {
        assert steps[i] == removals[i - |writes|] && removals[i - |writes|].name in stale;
      }
    }
    FewMoreNames(disk, writes, StateName(id), ArchiveName(id, digest));
    SubsetSize(stale, written.Keys);
  }

  lemma ArchiveInGlob(id: string, digest: string)
    ensures InGlob(id, ArchiveName(id, digest))
  {
    var name, pattern := ArchiveName(id, digest), id + INFIX;
    assert name == pattern + (Short(digest) + SUFFIX);
    assert name[|name| - |SUFFIX|..] == SUFFIX;
  }

  /** What all steps of a save leave under the names it wrote. */
  lemma SaveLeaves(disk: Disk, hash: Tree -> string, state: State, archive: Option<Tree>, steps: seq<FileStep>)
    requires archive.Some? ==> state.workspace.Some?
    requires SaveScript(disk, hash, state, archive, steps)
    ensures Load(PerformAll(disk, steps), state.sessionId) == Some(Stored(hash, state, archive))
    ensures archive.Some? && hash(archive.value) != "" ==>
              var name, after := ArchiveName(state.sessionId, hash(archive.value)), PerformAll(disk, steps);
              name in after && after[name] == ArchiveBlob(archive.value)
  {
    var id, writes, stored := state.sessionId, Writes(hash, state, archive), Stored(hash, state, archive);
    var written, removals := PerformAll(disk, writes), steps[|writes|..];
    assert steps == writes + removals;
    PerformConcat(disk, writes, removals);
    WritesInOrder(disk, hash, state, archive);
    NamesApart(id, id, if archive.Some? then hash(archive.value) else "");
    RemovalsOnly(written, removals, Stale(written, stored));
    assert StateName(id) !in Stale(written, stored);
  }

  /** A save touches nothing outside the session's own names; it finishes if the process lives on, and a
      finished one leaves the state that it returns, over the archive it was given. */
  lemma SaveDone(disk: Disk, hash: Tree -> string, state: State, archive: Option<Tree>, life: nat, after: Disk,
                 finished: bool)
    requires archive.Some? ==> state.workspace.Some?
    requires SavedUpTo(disk, hash, state, archive, life, after, finished)
    ensures SameBut(disk, after, state.sessionId, {})
    ensures |disk| + 4 <= life ==> finished
    ensures |after| <= |disk| + 2
    ensures finished ==> Load(after, state.sessionId) == Some(Stored(hash, state, archive))
    ensures finished && archive.Some? && hash(archive.value) != "" ==>
              var name := ArchiveName(state.sessionId, hash(archive.value));
              name in after && after[name] == ArchiveBlob(archive.value)
  {
    var steps :| SaveScript(disk, hash, state, archive, steps)
      && after == Cut(disk, steps, life) && (finished <==> |steps| <= life);
    SaveSteps(disk, hash, state, archive, steps);
    SaveLeaves(disk, hash, state, archive, steps);
    SaveTouches(disk, state.sessionId, if archive.Some? then hash(archive.value) else "", steps, life);
  }

  lemma SaveTouches(disk: Disk, id: string, digest: string, steps: seq<FileStep>, n: nat)
    requires forall i :: 0 <= i < |steps| ==> steps[i].name == StateName(id) || InGlob(id, steps[i].name)
    requires forall i :: 0 <= i < |steps| && steps[i].PutFile? ==>
               steps[i].name == StateName(id) || steps[i].name == ArchiveName(id, digest)
    ensures SameBut(disk, Cut(disk, steps, n), id, {}) && |Cut(disk, steps, n)| <= |disk| + 2
    ensures |steps| <= n ==> Cut(disk, steps, n) == PerformAll(disk, steps)
  {
    var cut := if n <= |steps| then steps[..n] else steps;
    assert forall i :: 0 <= i < |cut| ==> cut[i] == steps[i];
    OwnNamesOnly(disk, cut, id, {});
    FewMoreNames(disk, cut, StateName(id), ArchiveName(id, digest));
    assert n == |steps| ==> steps[..n] == steps;
  }

  /** A deletion likewise; a finished one leaves no state, no archive, and no marker of the session. */
  lemma DeleteDone(disk: Disk, id: string, life: nat, after: Disk, finished: bool)
    requires DeletedUpTo(disk, id, life, after, finished)
    ensures Touched(disk, id, after)
    ensures |disk| + 2 <= life ==> finished
    ensures finished ==> Load(after, id) == None && Archives(after, id) == {} && !CurrentIs(after, id)
  {
    var steps :| DeleteScript(disk, id, steps) && after == Cut(disk, steps, life) && (finished <==> |steps| <= life);
    DeletionSteps(disk, id, steps);
    DeletionLeaves(disk, id, steps);
    CutTouches(disk, id, steps, life);
  }

  lemma CutTouches(disk: Disk, id: string, steps: seq<FileStep>, n: nat)
    requires forall i :: 0 <= i < |steps| ==>
               && steps[i].Unlink? && (steps[i].name == CURRENT ==> CurrentIs(disk, id))
               && (steps[i].name == StateName(id) || InGlob(id, steps[i].name) || steps[i].name == CURRENT)
    ensures Touched(disk, id, Cut(disk, steps, n))
    ensures |steps| <= n ==> Cut(disk, steps, n) == PerformAll(disk, steps)
  {
    var cut := if n <= |steps| then steps[..n] else steps;
    assert forall i :: 0 <= i < |cut| ==> cut[i] == steps[i];
    DeletionTouches(disk, id, cut);
    assert n == |steps| ==> steps[..n] == steps;
  }

  /** What a deletion touches: the session's own files, and the marker if it names the session. */
  ghost predicate Touched(disk: Disk, id: string, after: Disk) {
    && SameBut(disk, after, id, {CURRENT}) && |after| <= |disk|
    && (CURRENT in after ==> CURRENT in disk && after[CURRENT] == disk[CURRENT])
    && (CURRENT in disk && CURRENT !in after ==> CurrentIs(disk, id))
  }

  lemma DeletionTouches(disk: Disk, id: string, steps: seq<FileStep>)
    requires forall i :: 0 <= i < |steps| ==>
               && steps[i].Unlink? && (steps[i].name == CURRENT ==> CurrentIs(disk, id))
               && (steps[i].name == StateName(id) || InGlob(id, steps[i].name) || steps[i].name == CURRENT)
    ensures Touched(disk, id, PerformAll(disk, steps))
  {
    var after := PerformAll(disk, steps);
    OwnNamesOnly(disk, steps, id, {CURRENT});
    NamesWithin(disk, steps, {});
    SubsetSize(after.Keys, disk.Keys);
    CurrentUnder(disk, id, steps);
    assert |after.Keys| == |after| && |disk.Keys| == |disk|;
  }

  /** A deletion removes the marker only if it names the session. */
  lemma {:induction false} CurrentUnder(disk: Disk, id: string, steps: seq<FileStep>)
    requires forall i :: 0 <= i < |steps| ==> steps[i].Unlink? && (steps[i].name == CURRENT ==> CurrentIs(disk, id))
    ensures var after := PerformAll(disk, steps);
            && (CURRENT in after ==> CURRENT in disk && after[CURRENT] == disk[CURRENT])
            && (CURRENT in disk && CURRENT !in after ==> CurrentIs(disk, id))
  {
    if steps != [] {
      CurrentUnder(disk, id, steps[..|steps| - 1]);
    }
  }

  lemma DeletionLeaves(disk: Disk, id: string, steps: seq<FileStep>)
    requires DeleteScript(disk, id, steps)
    ensures var after := PerformAll(disk, steps);
            Load(after, id) == None && Archives(after, id) == {} && !CurrentIs(after, id)
  {
    var last := CurrentSteps(disk, id);
    var removals := steps[1..|steps| - |last|];
    assert steps == DeleteSteps(disk, id, removals);
    DeleteFinishes(disk, id, removals);
    DeleteCuts(disk, id, removals, |steps|);
    DeleteRemovesSession(disk, t => "", id, removals, |steps|);
    assert Cut(disk, steps, |steps|) == PerformAll(disk, steps) by {
      assert steps[..|steps|] == steps;
    }
  }

  lemma DeletionSteps(disk: Disk, id: string, steps: seq<FileStep>)
    requires DeleteScript(disk, id, steps)
    ensures forall i :: 0 <= i < |steps| ==>
              && steps[i].Unlink? && (steps[i].name == CURRENT ==> CurrentIs(disk, id))
              && (steps[i].name == StateName(id) || InGlob(id, steps[i].name) || steps[i].name == CURRENT)
    ensures |steps| <= |disk| + 2
  {
    NamesApart(id, id, "");
    var last, mid := CurrentSteps(disk, id), disk - {StateName(id)};
    var removals := steps[1..|steps| - |last|];
    forall i | 0 <= i < |steps|
      ensures steps[i].Unlink? && (steps[i].name == CURRENT ==> CurrentIs(disk, id))
      ensures steps[i].name == StateName(id) || InGlob(id, steps[i].name) || steps[i].name == CURRENT
    {
      if 0 < i < |steps| - |last| {
        assert steps[i] == removals[i - 1] && removals[i - 1].name in Archives(mid, id);
      } else if i > 0 {
        assert steps[i] == steps[|steps| - |last|..][i - (|steps| - |last|)];
      }
    }
    SubsetSize(Archives(mid, id), disk.Keys);
  }

  class SessionStateStore {
    const hash: Tree -> string
    var disk: Disk

    constructor (hash: Tree -> string, disk: Disk)
      ensures this.hash == hash && this.disk == disk
    {
      this.hash := hash;
      this.disk := disk;
    }

    /** Persist one session, in a process that lives for `life` more file steps. */
    method Save(state: State, archive: Option<Tree>, life: nat) returns (saved: Result<State>, finished: bool)
      modifies this`disk
      ensures !ValidId(state.sessionId) ==> saved == Err(InvalidId) && disk == old(disk) && finished
      ensures ValidId(state.sessionId) && archive.Some? && state.workspace.None? ==>
                saved == Err(NeedsWorkspace) && disk == old(disk) && finished
      ensures ValidId(state.sessionId) && (archive.Some? ==> state.workspace.Some?) ==>
                saved == Ok(Stored(hash, state, archive))
                    && SavedUpTo(old(disk), hash, state, archive, life, disk, finished)
      ensures saved.Ok? ==> KeepsFields(hash, state, archive, saved.value)
      ensures saved.Ok? && finished ==> Load(disk, state.sessionId) == Some(saved.value)
      ensures saved.Ok? && finished && archive.Some? && hash(archive.value) != "" ==>
                var name := ArchiveName(state.sessionId, hash(archive.value));
                name in disk && disk[name] == ArchiveBlob(archive.value)
      ensures SameBut(old(disk), disk, state.sessionId, {})
      ensures |old(disk)| + 4 <= life ==> finished
      ensures |disk| <= |old(disk)| + 2
    {
      if !ValidId(state.sessionId) {
        return Err(InvalidId), true;
      }
      if archive.Some? && state.workspace.None? {
        return Err(NeedsWorkspace), true;
      }
      saved, finished := SaveFiles(state, archive, life);
      FieldsKept(hash, state, archive);
      SaveDone(old(disk), hash, state, archive, life, disk, finished);
    }

    /** The file steps of a save. */
    method SaveFiles(state: State, archive: Option<Tree>, life: nat) returns (saved: Result<State>, finished: bool)
      requires archive.Some? ==> state.workspace.Some?
      modifies this`disk
      ensures saved == Ok(Stored(hash, state, archive))
      ensures SavedUpTo(old(disk), hash, state, archive, life, disk, finished)
    {
      WritesCount(hash, state, archive);
      ArchiveFirst(disk, hash, state, archive);
      if archive.None? {
        finished := SaveState(state, life, disk, state, archive, life);
        return Ok(state), finished;
      }
      var stored := WithDigest(state, hash(archive.value));
      saved := Ok(stored);
      if life == 0 {
        NotBegun(disk, hash, state, archive);
        return saved, false;
      }
      disk := disk[ArchiveName(state.sessionId, hash(archive.value)) := ArchiveBlob(archive.value)];
      finished := SaveState(stored, life - 1, old(disk), state, archive, life);
    }

    /** Write the state that refers to the archive, then drop what it no longer references. */
    method SaveState(stored: State, life: nat, ghost before: Disk, ghost state: State, ghost archive: Option<Tree>,
                     ghost whole: nat)
      returns (finished: bool)
      requires archive.Some? ==> state.workspace.Some?
      requires stored == Stored(hash, state, archive) && whole == |Writes(hash, state, archive)| - 1 + life
      requires disk == PerformAll(before, Writes(hash, state, archive)[..|Writes(hash, state, archive)| - 1])
      modifies this`disk
      ensures SavedUpTo(before, hash, state, archive, whole, disk, finished)
    {
      if life == 0 {
        CutWhileWriting(before, hash, state, archive, whole);
        return false;
      }
      StateLast(before, hash, state, archive);
      disk := disk[StateName(stored.sessionId) := StateBlob(stored)];
      finished := PruneFrom(stored, life - 1, before, state, archive, whole);
    }

    method PruneFrom(stored: State, life: nat, ghost before: Disk, ghost state: State, ghost archive: Option<Tree>,
                     ghost whole: nat)
      returns (finished: bool)
      requires archive.Some? ==> state.workspace.Some?
      requires stored == Stored(hash, state, archive) && disk == PerformAll(before, Writes(hash, state, archive))
      requires whole == |Writes(hash, state, archive)| + life
      modifies this`disk
      ensures SavedUpTo(before, hash, state, archive, whole, disk, finished)
    {
      finished := Prune(stored, life);
      PrunedAfter(before, hash, state, archive, life, disk, finished);
    }

    /** Drop the archives the just-written state no longer references, in any order. */
    method Prune(state: State, life: nat) returns (finished: bool)
      modifies this`disk
      ensures PrunedUpTo(old(disk), state, life, disk, finished)
    {
      var todo := Stale(disk, state);
      var left;
      finished, left := RemoveFiles(todo, life);
    }

    method RemoveFiles(names: set<string>, life: nat) returns (finished: bool, left: nat)
      modifies this`disk
      ensures RemovedUpTo(old(disk), names, life, disk, finished, left)
    {
      var todo := names;
      left := life;
      ghost var steps: seq<FileStep> := [];
      while todo != {}
        invariant left + |steps| == life && Unlinked(steps, names, todo)
        invariant disk == PerformAll(old(disk), steps)
        decreases todo
      {
        if left == 0 {
          UnlinksCut(old(disk), steps, names, todo, left);
          finished := false;
          return;
        }
        var name :| name in todo;
        UnlinkMore(old(disk), steps, names, todo, name);
        disk, todo, left := disk - {name}, todo - {name}, left - 1;
        steps := steps + [Unlink(name)];
      }
      UnlinksDone(old(disk), steps, names, left);
      finished := true;
    }

    /** Remove the state, its archives, and a matching current marker. */
    method Delete(id: string, life: nat) returns (result: Result<bool>)
      modifies this`disk
      ensures !ValidId(id) ==> result == Err(InvalidId) && disk == old(disk)
      ensures ValidId(id) ==> result.Ok? && DeletedUpTo(old(disk), id, life, disk, result.value)
      ensures Touched(old(disk), id, disk)
      ensures result.Ok? && |old(disk)| + 2 <= life ==> result.value
      ensures result.Ok? && result.value ==>
                Load(disk, id) == None && Archives(disk, id) == {} && !CurrentIs(disk, id)
    {
      if !ValidId(id) {
        return Err(InvalidId);
      }
      result := DeleteFiles(id, life);
      DeleteDone(old(disk), id, life, disk, result.value);
    }

    /** The file steps of a deletion. */
    method DeleteFiles(id: string, life: nat) returns (result: Result<bool>)
      modifies this`disk
      ensures result.Ok? && DeletedUpTo(old(disk), id, life, disk, result.value)
    {
      ghost var before := disk;
      if life == 0 {
        DeleteNotBegun(before, id);
        return Ok(false);
      }
      disk := disk - {StateName(id)};
      var swept, left := RemoveFiles(Archives(disk, id), life - 1);
      DeleteSwept(before, id, life, disk, swept, left);
      if !swept {
        return Ok(false);
      }
      if CurrentIs(disk, id) {
        if left == 0 {
          return Ok(false);
        }
        disk := disk - {CURRENT};
      }
      return Ok(true);
    }

    /** Publish the session that later commands use by default. */
    method SetCurrent(id: string) returns (result: Result<bool>)
      modifies this`disk
      ensures !ValidId(id) ==> result == Err(InvalidId) && disk == old(disk)
      ensures ValidId(id) ==> result == Ok(true) && CurrentIs(disk, id)
      ensures forall other :: View(disk, hash, other) == View(old(disk), hash, other)
    {
      if !ValidId(id) {
        return Err(InvalidId);
      }
      disk := disk[CURRENT := CurrentBlob(id)];
      forall other ensures View(disk, hash, other) == View(old(disk), hash, other) {
        match Load(disk, other)
        case None => NamesApart(other, other, "");
        case Some(state) =>
          NamesApart(other, other, if state.workspace.Some? then state.workspace.value.baseDigest else "");
      }
      return Ok(true);
    }
  }

  predicate CurrentIs(disk: Disk, id: string) {
    CURRENT in disk && disk[CURRENT] == CurrentBlob(id)
  }

  function Archives(disk: Disk, id: string): set<string> {
    set name | name in disk && InGlob(id, name)
  }

  function CurrentSteps(disk: Disk, id: string): seq<FileStep> {
    if CurrentIs(disk, id) then [Unlink(CURRENT)] else []
  }

  ghost predicate DeleteScript(disk: Disk, id: string, steps: seq<FileStep>) {
    var last := CurrentSteps(disk, id);
    && 1 + |last| <= |steps| && steps[0] == Unlink(StateName(id)) && steps[|steps| - |last|..] == last
    && Removes(steps[1..|steps| - |last|], Archives(disk - {StateName(id)}, id))
  }

  ghost function DeleteSteps(disk: Disk, id: string, removals: seq<FileStep>): seq<FileStep> {
    [Unlink(StateName(id))] + removals + CurrentSteps(disk, id)
  }

  lemma DeleteShape(disk: Disk, id: string, removals: seq<FileStep>)
    requires Removes(removals, Archives(disk - {StateName(id)}, id))
    ensures var steps := DeleteSteps(disk, id, removals);
            DeleteScript(disk, id, steps) && |steps| == 1 + |removals| + |CurrentSteps(disk, id)|
  {
    var last, steps := CurrentSteps(disk, id), DeleteSteps(disk, id, removals);
    assert steps[1..|steps| - |last|] == removals;
    assert steps[|steps| - |last|..] == last;
  }

  lemma DeleteCut(disk: Disk, id: string, removals: seq<FileStep>, n: nat)
    requires n > 0
    ensures Cut(disk, DeleteSteps(disk, id, removals), n)
         == Cut(disk - {StateName(id)}, removals + CurrentSteps(disk, id), n - 1)
  {
    var first, last := [Unlink(StateName(id))], CurrentSteps(disk, id);
    assert first[..0] == [];
    assert PerformAll(disk, first) == disk - {StateName(id)};
    assert DeleteSteps(disk, id, removals) == first + (removals + last);
    CutConcat(disk, first, removals + last, n);
  }

  lemma CutWhole(disk: Disk, steps: seq<FileStep>, n: nat)
    requires |steps| <= n
    ensures Cut(disk, steps, n) == PerformAll(disk, steps)
  {
    assert steps[..|steps|] == steps;
  }

  /** What each cut of a deletion leaves. */
  lemma DeleteCuts(disk: Disk, id: string, removals: seq<FileStep>, n: nat)
    requires Removes(removals, Archives(disk - {StateName(id)}, id))
    ensures var steps := DeleteSteps(disk, id, removals);
            var mid := disk - {StateName(id)};
            && DeleteScript(disk, id, steps)
            && (n == 0 ==> Cut(disk, steps, n) == disk)
            && (0 < n <= 1 + |removals| ==> Cut(disk, steps, n) == PerformAll(mid, removals[..n - 1]))
            && (1 + |removals| < n ==>
                  Cut(disk, steps, n) == PerformAll(PerformAll(mid, removals), CurrentSteps(disk, id)))
            && |steps| == 1 + |removals| + |CurrentSteps(disk, id)|
  {
    var last, mid := CurrentSteps(disk, id), disk - {StateName(id)};
    DeleteShape(disk, id, removals);
    if n > 0 {
      DeleteCut(disk, id, removals, n);
      CutConcat(mid, removals, last, n - 1);
      if n > 1 + |removals| {
        CutWhole(PerformAll(mid, removals), last, n - 1 - |removals|);
      }
    }
  }

  lemma DeleteStopped(disk: Disk, id: string, removals: seq<FileStep>, n: nat, after: Disk, finished: bool)
    requires Removes(removals, Archives(disk - {StateName(id)}, id))
    requires after == Cut(disk, DeleteSteps(disk, id, removals), n)
    requires finished <==> 1 + |removals| + |CurrentSteps(disk, id)| <= n
    ensures DeletedUpTo(disk, id, n, after, finished)
  {
    DeleteCuts(disk, id, removals, n);
  }

  lemma DeleteNotBegun(disk: Disk, id: string)
    ensures DeletedUpTo(disk, id, 0, disk, false)
  {
    var removals := UnlinkAll(Archives(disk - {StateName(id)}, id));
    DeleteCuts(disk, id, removals, 0);
    DeleteStopped(disk, id, removals, 0, disk, false);
  }

  /** The archives are not all gone. */
  lemma SweptInPart(disk: Disk, id: string, removals: seq<FileStep>, life: nat)
    requires Removes(removals, Archives(disk - {StateName(id)}, id)) && 0 < life <= |removals|
    ensures DeletedUpTo(disk, id, life, PerformAll(disk - {StateName(id)}, removals[..life - 1]), false)
  {
    DeleteCuts(disk, id, removals, life);
    DeleteStopped(disk, id, removals, life, PerformAll(disk - {StateName(id)}, removals[..life - 1]), false);
  }

  /** They are, and the process has `left` steps to spare. */
  lemma SweptWhole(disk: Disk, id: string, removals: seq<FileStep>, life: nat, left: nat, swept: Disk)
    requires Removes(removals, Archives(disk - {StateName(id)}, id)) && life == 1 + |removals| + left
    requires swept == PerformAll(disk - {StateName(id)}, removals)
    ensures !CurrentIs(swept, id) ==> DeletedUpTo(disk, id, life, swept, true)
    ensures CurrentIs(swept, id) && left == 0 ==> DeletedUpTo(disk, id, life, swept, false)
    ensures CurrentIs(swept, id) && left > 0 ==> DeletedUpTo(disk, id, life, swept - {CURRENT}, true)
  {
    SweptCut(disk, id, removals, life);
    CurrentStays(disk, id, removals);
    NothingRemoved(swept);
    if !CurrentIs(swept, id) {
      DeleteStopped(disk, id, removals, life, swept, true);
    } else if left == 0 {
      DeleteStopped(disk, id, removals, life, swept, false);
    } else {
      DeleteStopped(disk, id, removals, life, swept - {CURRENT}, true);
    }
  }

  lemma NothingRemoved(disk: Disk)
    ensures disk - {} == disk
  {
  }

  lemma CutAtEnd(disk: Disk, a: seq<FileStep>, b: seq<FileStep>)
    ensures Cut(disk, a + b, |a|) == PerformAll(disk, a)
  {
    assert (a + b)[..|a|] == a;
  }

  lemma CutAtBothEnds(disk: Disk, a: seq<FileStep>, b: seq<FileStep>, n: nat)
    requires |a + b| <= n
    ensures Cut(disk, a + b, n) == PerformAll(PerformAll(disk, a), b)
  {
    CutWhole(disk, a + b, n);
    PerformConcat(disk, a, b);
  }

  lemma SweptCut(disk: Disk, id: string, removals: seq<FileStep>, n: nat)
    requires n == 1 + |removals| || 1 + |removals + CurrentSteps(disk, id)| <= n
    ensures var swept := PerformAll(disk - {StateName(id)}, removals);
            Cut(disk, DeleteSteps(disk, id, removals), n)
              == if n == 1 + |removals| then swept else PerformAll(swept, CurrentSteps(disk, id))
  {
    DeleteCut(disk, id, removals, n);
    if n == 1 + |removals| {
      CutAtEnd(disk - {StateName(id)}, removals, CurrentSteps(disk, id));
    } else {
      CutAtBothEnds(disk - {StateName(id)}, removals, CurrentSteps(disk, id), n - 1);
    }
  }

  /** What is left to do once the archives are gone, or how far the process came before. */
  lemma DeleteSwept(disk: Disk, id: string, life: nat, after: Disk, swept: bool, left: nat)
    requires life > 0
    requires RemovedUpTo(disk - {StateName(id)}, Archives(disk - {StateName(id)}, id), life - 1, after, swept, left)
    ensures !swept ==> DeletedUpTo(disk, id, life, after, false)
    ensures swept && !CurrentIs(after, id) ==> DeletedUpTo(disk, id, life, after, true)
    ensures swept && CurrentIs(after, id) && left == 0 ==> DeletedUpTo(disk, id, life, after, false)
    ensures swept && CurrentIs(after, id) && left > 0 ==> DeletedUpTo(disk, id, life, after - {CURRENT}, true)
  {
    var mid := disk - {StateName(id)};
    var removals :| Removes(removals, Archives(mid, id)) && after == Cut(mid, removals, life - 1)
      && (swept <==> |removals| <= life - 1) && (swept ==> left + |removals| == life - 1);
    if swept {
      CutWhole(mid, removals, life - 1);
      SweptWhole(disk, id, removals, life, left, after);
    } else {
      SweptInPart(disk, id, removals, life);
    }
  }

  lemma CurrentStays(disk: Disk, id: string, removals: seq<FileStep>)
    requires Removes(removals, Archives(disk - {StateName(id)}, id))
    ensures var swept := PerformAll(disk - {StateName(id)}, removals);
            && CurrentIs(swept, id) == CurrentIs(disk, id)
            && PerformAll(swept, CurrentSteps(disk, id)) == swept - (if CurrentIs(disk, id) then {CURRENT} else {})
  {
    NamesApart(id, id, "");
    var mid := disk - {StateName(id)};
    forall i | 0 <= i < |removals| ensures removals[i].name != CURRENT {
      assert removals[i].name in Archives(mid, id);
    }
    UnnamedKept(mid, removals, CURRENT);
    assert CurrentIs(disk, id) ==> CurrentSteps(disk, id)[..0] == [];
  }

  // ------------------------------------------------------------------ crash consistency of save

  /** The caller's state refers to a base it already has, unless it brings a new one. */
  ghost predicate Carries(disk: Disk, hash: Tree -> string, state: State, archive: Option<Tree>) {
    if archive.Some? then state.workspace.Some?
    else
      || state.workspace.None? || state.workspace.value.baseDigest == ""
      || LoadBase(disk, hash, state.sessionId, state).Ok?
  }

  /** The new archive does not land on the name of a different one: names keep sixteen digits only. */
  ghost predicate NoClash(disk: Disk, hash: Tree -> string, id: string, archive: Tree) {
    forall session | View(disk, hash, id) == Some(session) && session.base.Ok? ::
      Short(hash(archive)) == Short(session.state.workspace.value.baseDigest) ==> archive == session.base.value
  }

  /** Writing the archive ahead of the state keeps the old checkpoint readable exactly when its name
      is free or holds the same content. */
  lemma ArchiveWriteKeepsOld(disk: Disk, hash: Tree -> string, id: string, archive: Tree)
    requires HexHash(hash)
    requires View(disk, hash, id).Some? && View(disk, hash, id).value.base.Ok?
    ensures var after := disk[ArchiveName(id, hash(archive)) := ArchiveBlob(archive)];
            View(after, hash, id) == View(disk, hash, id) <==> NoClash(disk, hash, id, archive)
  {
    var session := View(disk, hash, id).value;
    var digest := session.state.workspace.value.baseDigest;
    NamesApart(id, id, hash(archive));
    assert IsDigest(hash(session.base.value)) && IsDigest(hash(archive));
    if ArchiveName(id, digest) == ArchiveName(id, hash(archive)) {
      ArchiveNamesApart(id, digest, id, hash(archive));
    } else {
      assert Short(digest) != Short(hash(archive));
    }
  }

  /** What the finished writes leave for the session. */
  lemma WritesView(disk: Disk, hash: Tree -> string, state: State, archive: Option<Tree>)
    requires HexHash(hash) && (archive.Some? ==> state.workspace.Some?)
    ensures var written := PerformAll(disk, Writes(hash, state, archive));
            var base := if archive.Some? then Ok(archive.value) else LoadBase(disk, hash, state.sessionId, state);
            View(written, hash, state.sessionId) == Some(Session(Stored(hash, state, archive), base))
  {
    var id := state.sessionId;
    WritesInOrder(disk, hash, state, archive);
    if archive.Some? {
      NamesApart(id, id, hash(archive.value));
      assert IsDigest(hash(archive.value));
    } else if state.workspace.Some? {
      NamesApart(id, id, state.workspace.value.baseDigest);
    }
  }

  /** Pruning, cut anywhere, is invisible to the session itself. */
  lemma PruneInvisible(disk: Disk, hash: Tree -> string, state: State, steps: seq<FileStep>)
    requires Load(disk, state.sessionId) == Some(state)
    requires forall i :: 0 <= i < |steps| ==> steps[i].Unlink? && steps[i].name in Stale(disk, state)
    ensures View(PerformAll(disk, steps), hash, state.sessionId) == View(disk, hash, state.sessionId)
  {
    var id := state.sessionId;
    RemovalsOnly(disk, steps, Stale(disk, state));
    NamesApart(id, id, "");
    assert StateName(id) !in Stale(disk, state);
  }

  /** Crash consistency: however a save is cut short, a later command finds the old session or the
      new one, with a base archive that exists and passes its check. */
  lemma SaveCrashConsistent(disk: Disk, hash: Tree -> string, state: State, archive: Option<Tree>, steps: seq<FileStep>,
                            n: nat)
    requires HexHash(hash) && Carries(disk, hash, state, archive) && SaveScript(disk, hash, state, archive, steps)
    requires Intact(disk, hash, state.sessionId)
    requires archive.Some? ==> NoClash(disk, hash, state.sessionId, archive.value)
    ensures var base := if archive.Some? then Ok(archive.value) else LoadBase(disk, hash, state.sessionId, state);
            var saved := Some(Session(Stored(hash, state, archive), base));
            var found := View(Cut(disk, steps, n), hash, state.sessionId);
            && (found == View(disk, hash, state.sessionId) || found == saved)
            && (|steps| <= n ==> found == saved)
            && Intact(Cut(disk, steps, n), hash, state.sessionId)
  {
    if n < |Writes(hash, state, archive)| {
      CutBeforeState(disk, hash, state, archive, steps, n);
    } else {
      CutAfterState(disk, hash, state, archive, steps, n);
      WritesView(disk, hash, state, archive);
    }
  }

  /** A save that brings no archive leaves what can be read of the base as it was, also an unreadable one. */
  lemma StateSaveKeepsBase(disk: Disk, hash: Tree -> string, state: State, steps: seq<FileStep>, n: nat)
    requires HexHash(hash) && SaveScript(disk, hash, state, None, steps)
    ensures var saved := Some(Session(state, LoadBase(disk, hash, state.sessionId, state)));
            var found := View(Cut(disk, steps, n), hash, state.sessionId);
            && (found == View(disk, hash, state.sessionId) || found == saved)
            && (|steps| <= n ==> found == saved)
  {
    if n == 0 {
      assert steps[..0] == [];
    } else {
      CutAfterState(disk, hash, state, None, steps, n);
      WritesView(disk, hash, state, None);
    }
  }

  lemma CutBeforeState(disk: Disk, hash: Tree -> string, state: State, archive: Option<Tree>, steps: seq<FileStep>,
                       n: nat)
    requires HexHash(hash) && (archive.Some? ==> state.workspace.Some?) && SaveScript(disk, hash, state, archive, steps)
    requires Intact(disk, hash, state.sessionId)
    requires archive.Some? ==> NoClash(disk, hash, state.sessionId, archive.value)
    requires n < |Writes(hash, state, archive)|
    ensures View(Cut(disk, steps, n), hash, state.sessionId) == View(disk, hash, state.sessionId)
  {
    var writes := Writes(hash, state, archive);
    WritesInOrder(disk, hash, state, archive);
    assert steps[..n] == writes[..n];
    if n == 1 {
      ArchiveWriteHarmless(disk, hash, state.sessionId, archive.value);
    }
  }

  lemma CutAfterState(disk: Disk, hash: Tree -> string, state: State, archive: Option<Tree>, steps: seq<FileStep>,
                      n: nat)
    requires HexHash(hash) && (archive.Some? ==> state.workspace.Some?) && SaveScript(disk, hash, state, archive, steps)
    requires |Writes(hash, state, archive)| <= n
    ensures View(Cut(disk, steps, n), hash, state.sessionId)
         == View(PerformAll(disk, Writes(hash, state, archive)), hash, state.sessionId)
  {
    var writes := Writes(hash, state, archive);
    var written, removals := PerformAll(disk, writes), steps[|writes|..];
    assert steps == writes + removals;
    CutConcat(disk, writes, removals, n);
    CutBegins(written, removals, n - |writes|);
    WritesView(disk, hash, state, archive);
    PruneCutInvisible(written, hash, Stored(hash, state, archive), removals, n - |writes|);
  }

  lemma CutBegins(disk: Disk, steps: seq<FileStep>, n: nat)
    ensures n == 0 ==> Cut(disk, steps, n) == disk
  {
    assert steps[..0] == [];
  }

  lemma PruneCutInvisible(disk: Disk, hash: Tree -> string, state: State, removals: seq<FileStep>, n: nat)
    requires Load(disk, state.sessionId) == Some(state) && Removes(removals, Stale(disk, state))
    ensures View(Cut(disk, removals, n), hash, state.sessionId) == View(disk, hash, state.sessionId)
  {
    var some := if n <= |removals| then removals[..n] else removals;
    assert forall i :: 0 <= i < |some| ==> some[i] == removals[i];
    PruneInvisible(disk, hash, state, some);
  }

  lemma ArchiveWriteHarmless(disk: Disk, hash: Tree -> string, id: string, archive: Tree)
    requires HexHash(hash) && Intact(disk, hash, id) && NoClash(disk, hash, id, archive)
    ensures View(disk[ArchiveName(id, hash(archive)) := ArchiveBlob(archive)], hash, id) == View(disk, hash, id)
  {
    NamesApart(id, id, hash(archive));
    if View(disk, hash, id).Some? && View(disk, hash, id).value.base.Ok? {
      ArchiveWriteKeepsOld(disk, hash, id, archive);
    }
  }

  /** A completed save leaves exactly the referenced archive. */
  lemma SaveLeavesReferenced(disk: Disk, hash: Tree -> string, state: State, archive: Option<Tree>,
                             steps: seq<FileStep>)
    requires HexHash(hash) && Carries(disk, hash, state, archive) && SaveScript(disk, hash, state, archive, steps)
    ensures forall name :: name in Archives(PerformAll(disk, steps), state.sessionId) ==>
              Referenced(Stored(hash, state, archive), name)
  {
    var writes := Writes(hash, state, archive);
    var written := PerformAll(disk, writes);
    var removals := steps[|writes|..];
    assert steps == writes + removals;
    PerformConcat(disk, writes, removals);
    RemovalsOnly(written, removals, Stale(written, Stored(hash, state, archive)));
  }

  ghost predicate KnownDigest(disk: Disk, id: string) {
    match Load(disk, id)
    case None => true
    case Some(state) =>
      state.workspace.None? || state.workspace.value.baseDigest == "" || IsDigest(state.workspace.value.baseDigest)
  }

  /** Another session survives any cut of a save, unless its id continues this one's. */
  lemma SaveSparesOthers(disk: Disk, hash: Tree -> string, state: State, archive: Option<Tree>, steps: seq<FileStep>,
                         n: nat, other: string)
    requires HexHash(hash) && Carries(disk, hash, state, archive) && SaveScript(disk, hash, state, archive, steps)
    requires other != state.sessionId && KnownDigest(disk, other) && !Shadows(state.sessionId, other)
    ensures View(Cut(disk, steps, n), hash, other) == View(disk, hash, other)
  {
    var id := state.sessionId;
    var cut := if n <= |steps| then steps[..n] else steps;
    var writes := Writes(hash, state, archive);
    var stale := Stale(PerformAll(disk, writes), Stored(hash, state, archive));
    forall i | 0 <= i < |cut| ensures Foreign(cut[i], id) {
      if i < |writes| {
        assert cut[i] == writes[i];
        assert archive.Some? ==> IsDigest(hash(archive.value));
      } else {
        assert cut[i] == steps[|writes|..][i - |writes|];
        assert cut[i].name in stale;
      }
    }
    ForeignSteps(disk, hash, cut, id, other);
  }

  /** A step on the state file, an archive, or a name in the pattern of session `id`. */
  ghost predicate Foreign(step: FileStep, id: string) {
    || step.name == StateName(id)
    || InGlob(id, step.name)
    || exists digest :: IsDigest(digest) && step.name == ArchiveName(id, digest)
  }

  lemma ForeignSteps(disk: Disk, hash: Tree -> string, steps: seq<FileStep>, id: string, other: string)
    requires forall i :: 0 <= i < |steps| ==> Foreign(steps[i], id)
    requires other != id && KnownDigest(disk, other) && !Shadows(id, other)
    ensures View(PerformAll(disk, steps), hash, other) == View(disk, hash, other)
  {
    forall i | 0 <= i < |steps| ensures steps[i].name != StateName(other) {
      ForeignState(steps[i], id, other);
    }
    UnnamedKept(disk, steps, StateName(other));
    match Load(disk, other)
    case None =>
    case Some(state) =>
      if state.workspace.Some? && state.workspace.value.baseDigest != "" {
        var digest := state.workspace.value.baseDigest;
        forall i | 0 <= i < |steps| ensures steps[i].name != ArchiveName(other, digest) {
          ForeignArchive(steps[i].name, id, other, digest);
        }
        UnnamedKept(disk, steps, ArchiveName(other, digest));
      }
  }

  lemma ForeignState(step: FileStep, id: string, other: string)
    requires Foreign(step, id) && other != id
    ensures step.name != StateName(other)
  {
    NamesApart(id, other, "");
    if step.name != StateName(id) && !InGlob(id, step.name) {
      var digest :| IsDigest(digest) && step.name == ArchiveName(id, digest);
      NamesApart(other, id, digest);
    }
  }

  lemma ForeignArchive(name: string, id: string, other: string, digest: string)
    requires other != id && !Shadows(id, other) && IsDigest(digest)
    requires name == StateName(id) || InGlob(id, name) || exists d :: IsDigest(d) && name == ArchiveName(id, d)
    ensures name != ArchiveName(other, digest)
  {
    GlobReach(id, other, digest);
    NamesApart(id, other, digest);
    if exists d :: IsDigest(d) && name == ArchiveName(id, d) && name == ArchiveName(other, digest) {
      var d :| IsDigest(d) && name == ArchiveName(id, d) && name == ArchiveName(other, digest);
      ArchiveNamesApart(id, d, other, digest);
    }
  }

  /** The exclusion is exact: a completed save takes the base away from a session whose id continues
      this one's, and from no other. */
  lemma SaveReach(disk: Disk, hash: Tree -> string, state: State, archive: Option<Tree>, steps: seq<FileStep>,
                  other: string)
    requires HexHash(hash) && Carries(disk, hash, state, archive) && SaveScript(disk, hash, state, archive, steps)
    requires other != state.sessionId && View(disk, hash, other).Some? && View(disk, hash, other).value.base.Ok?
    ensures View(PerformAll(disk, steps), hash, other) == View(disk, hash, other) <==> !Shadows(state.sessionId, other)
  {
    var id := state.sessionId;
    var digest := View(disk, hash, other).value.state.workspace.value.baseDigest;
    assert IsDigest(hash(View(disk, hash, other).value.base.value));
    if !Shadows(id, other) {
      SaveSparesOthers(disk, hash, state, archive, steps, |steps|, other);
      assert steps[..|steps|] == steps;
    } else {
      SaveLeavesReferenced(disk, hash, state, archive, steps);
      GlobReach(id, other, digest);
      var stored := Stored(hash, state, archive);
      if Referenced(stored, ArchiveName(other, digest)) {
        assert archive.Some? ==> IsDigest(hash(archive.value));
        ArchiveNamesApart(id, stored.workspace.value.baseDigest, other, digest);
      }
      assert ArchiveName(other, digest) !in Archives(PerformAll(disk, steps), id);
    }
  }

  /** Deleting a session, cut anywhere, leaves it untouched or gone, and no other session changed. */
  lemma DeleteCrashConsistent(disk: Disk, hash: Tree -> string, id: string, steps: seq<FileStep>, n: nat)
    requires DeleteScript(disk, id, steps)
    ensures var found := View(Cut(disk, steps, n), hash, id);
            && found == (if n == 0 then View(disk, hash, id) else None)
            && (|steps| <= n ==> Archives(PerformAll(disk, steps), id) == {} && !CurrentIs(PerformAll(disk, steps), id))
            && forall other :: other != id && KnownDigest(disk, other) && !Shadows(id, other)
                 ==> View(Cut(disk, steps, n), hash, other) == View(disk, hash, other)
  {
    var last := CurrentSteps(disk, id);
    var removals := steps[1..|steps| - |last|];
    assert steps == DeleteSteps(disk, id, removals);
    DeleteRemovesSession(disk, hash, id, removals, n);
    DeleteFinishes(disk, id, removals);
    forall other | other != id && KnownDigest(disk, other) && !Shadows(id, other)
      ensures View(Cut(disk, steps, n), hash, other) == View(disk, hash, other)
    {
      DeleteSparesOther(disk, hash, id, removals, n, other);
    }
  }

  /** The exclusion is exact here too: a completed deletion takes the base away from a session whose id
      continues this one's, and changes no other. */
  lemma DeleteReach(disk: Disk, hash: Tree -> string, id: string, steps: seq<FileStep>, other: string)
    requires HexHash(hash) && DeleteScript(disk, id, steps)
    requires other != id && View(disk, hash, other).Some? && View(disk, hash, other).value.base.Ok?
    ensures View(PerformAll(disk, steps), hash, other) == View(disk, hash, other) <==> !Shadows(id, other)
  {
    var digest := View(disk, hash, other).value.state.workspace.value.baseDigest;
    assert IsDigest(hash(View(disk, hash, other).value.base.value));
    DeleteCrashConsistent(disk, hash, id, steps, |steps|);
    if !Shadows(id, other) {
      assert steps[..|steps|] == steps;
    } else {
      GlobReach(id, other, digest);
      assert ArchiveName(other, digest) !in Archives(PerformAll(disk, steps), id);
    }
  }

  lemma DeleteRemovesSession(disk: Disk, hash: Tree -> string, id: string, removals: seq<FileStep>, n: nat)
    requires Removes(removals, Archives(disk - {StateName(id)}, id))
    ensures View(Cut(disk, DeleteSteps(disk, id, removals), n), hash, id)
            == (if n == 0 then View(disk, hash, id) else None)
  {
    DeleteCuts(disk, id, removals, n);
    var mid := disk - {StateName(id)};
    if 0 < n <= 1 + |removals| {
      RemovalsOnly(mid, removals[..n - 1], Archives(mid, id));
    } else if n > 0 {
      RemovalsOnly(mid, removals, Archives(mid, id));
      CurrentStays(disk, id, removals);
    }
  }

  lemma DeleteFinishes(disk: Disk, id: string, removals: seq<FileStep>)
    requires Removes(removals, Archives(disk - {StateName(id)}, id))
    ensures var after := PerformAll(disk, DeleteSteps(disk, id, removals));
            Archives(after, id) == {} && !CurrentIs(after, id)
  {
    var steps := DeleteSteps(disk, id, removals);
    var mid := disk - {StateName(id)};
    DeleteCuts(disk, id, removals, |steps| + 1);
    CurrentStays(disk, id, removals);
    RemovalsOnly(mid, removals, Archives(mid, id));
  }

  lemma DeleteSparesOther(disk: Disk, hash: Tree -> string, id: string, removals: seq<FileStep>, n: nat, other: string)
    requires Removes(removals, Archives(disk - {StateName(id)}, id))
    requires other != id && KnownDigest(disk, other) && !Shadows(id, other)
    ensures View(Cut(disk, DeleteSteps(disk, id, removals), n), hash, other) == View(disk, hash, other)
  {
    if n <= 1 + |removals| {
      RemovalSparesOther(disk, hash, id, removals, n, other);
    } else {
      RemovalSparesOther(disk, hash, id, removals, 1 + |removals|, other);
      DeleteCuts(disk, id, removals, n);
      DeleteCuts(disk, id, removals, 1 + |removals|);
      assert removals[..|removals|] == removals;
      CurrentStays(disk, id, removals);
      CurrentInvisible(PerformAll(disk - {StateName(id)}, removals), hash, other);
    }
  }

  lemma RemovalSparesOther(disk: Disk, hash: Tree -> string, id: string, removals: seq<FileStep>, n: nat, other: string)
    requires Removes(removals, Archives(disk - {StateName(id)}, id)) && n <= 1 + |removals|
    requires other != id && KnownDigest(disk, other) && !Shadows(id, other)
    ensures View(Cut(disk, DeleteSteps(disk, id, removals), n), hash, other) == View(disk, hash, other)
  {
    var mid := disk - {StateName(id)};
    var body := ([Unlink(StateName(id))] + removals)[..n];
    forall i | 0 <= i < |body| ensures Foreign(body[i], id) {
      if i > 0 {
        assert body[i] == removals[i - 1];
        assert body[i].name in Archives(mid, id);
      }
    }
    ForeignSteps(disk, hash, body, id, other);
    assert DeleteSteps(disk, id, removals)[..n] == body;
  }

  lemma CurrentInvisible(disk: Disk, hash: Tree -> string, other: string)
    ensures View(disk - {CURRENT}, hash, other) == View(disk, hash, other)
  {
    NamesApart(other, other, "");
    match Load(disk, other)
    case None =>
    case Some(state) =>
      if state.workspace.Some? { NamesApart(other, other, state.workspace.value.baseDigest); }
  }
}
