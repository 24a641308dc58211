/** The workspace-sync protocol as a machine of atomic steps: a local root, a remote workspace, a
    durable checkpoint, and one command-line process that can be interrupted or die anywhere. The
    user, the remote agent, the platform's verdicts and all faults are free choices. */
module SyncProtocol {
  import opened Options
  import opened Workspace
  import opened WorkspaceSync

  // ------------------------------------------------------------------ state

  datatype Event = PatchEvent(ops: Patch) | OtherEvent

  /** The platform: every remote workspace state so far, the transcript by sequence number, the
      highest number handed out, and the patch objects not yet acknowledged. */
  datatype Server = Server(history: seq<Tree>, events: map<nat, Event>, last: nat, objects: set<nat>)

  /** What moved the base, which patches lost their acknowledgement slot while their object was still there,
      and which were passed over by a command without a workspace; a history variable that no step reads. */
  datatype Entry =
    | Delivered(event: nat, ops: Patch, rejected: set<Path>)
    | AcceptedSome(snapshot: Tree, paths: seq<Path>)
    | AcceptedAll(snapshot: Tree)
    | SlotLost(event: nat)
    | Passed(event: nat)

  /** The checkpoint, in memory and on disk. */
  datatype Checkpoint = Checkpoint(cursor: nat, base: Tree, conflicts: set<Path>, pendingAck: Option<nat>,
                                   journal: seq<Entry>)

  /** `blind` marks an ending command that found no usable workspace; between two events it is `Passing`,
      any other command is `Idle`. */
  datatype Phase =
    | Retrying(blind: bool)
    | Idle
    | Passing
    | Applying(event: nat, scan: Tree, next: nat, rejected: set<Path>)
    | Recorded(event: nat, rejected: set<Path>)
    | Landed(event: nat)
    | Counted(event: nat)
    | Marked(event: nat)
    | Saved(event: nat)
    | Acked(event: nat)
    | Uploading(snapshot: Tree, applied: seq<Path>, refused: set<Path>)
    | Merging(final: Tree, scan: Tree, todo: set<Path>, clashes: set<Path>)
    | Merged(final: Tree, clashes: set<Path>, recovered: bool)
    | Closed

  /** The process; `attached` marks a run that keeps no durable checkpoint until it is promoted. */
  datatype Client = Off | On(mem: Checkpoint, phase: Phase, attached: bool)

  /** A local state that a sync action replaced or removed. */
  datatype Overwrite = Overwrite(path: Path, state: Option<FileState>, edited: bool)

  /** `edited` collects the paths the user changed since the running action read its manifest;
      `overwrites` is a history variable. */
  datatype World = World(local: Fs, server: Server, disk: Option<Checkpoint>, client: Client,
                         edited: set<Path>, overwrites: seq<Overwrite>)

  predicate IsPatch(s: Server, k: nat) {
    k in s.events && s.events[k].PatchEvent?
  }

  ghost predicate NoPatchBetween(s: Server, lo: nat, hi: nat) {
    forall k: nat :: lo < k < hi ==> !IsPatch(s, k)
  }

  /** The remote workspace has had exactly this state at this path. */
  ghost predicate Held(history: seq<Tree>, p: Path, state: Option<FileState>) {
    exists i :: 0 <= i < |history| && At(history[i], p) == state
  }

  ghost predicate OpsHeld(history: seq<Tree>, ops: Patch) {
    forall i :: 0 <= i < |ops| ==> Held(history, ops[i].path, ops[i].before) && Held(history, ops[i].path, ops[i].after)
  }

  // ------------------------------------------------------------------ steps

  datatype Action =
    | EditLocal(fs: Fs)
    | ChangeRemote(tree: Tree)
    | Announce(seqno: nat, ops: Patch)
    | AnnounceOther(seqno: nat)
    | Start(blind: bool)
    | RetryAck
    | Skip(to: nat)
    | Pass(to: nat)
    | Begin(seqno: nat)
    | ApplyPath(ioError: bool)
    | RecordConflicts
    | AdvanceBase
    | Count
    | Mark
    | Save
    | Ack
    | Clear
    | Persist
    | Upload(tree: Tree, accepted: seq<Path>, refused: set<Path>)
    | NoteRefused
    | AbsorbVerdict
    | BeginFinal
    | MergePath(path: Path, ioError: bool)
    | FinishMerge
    | KeepRecovery
    | Salvage
    | AckFinal
    | NoArchive
    | Forget
    | Promote
    | Interrupt
    | Crash

  function WithPhase(w: World, phase: Phase): World
    requires w.client.On?
  {
    w.(client := w.client.(phase := phase))
  }

  function WithMem(w: World, mem: Checkpoint, phase: Phase): World
    requires w.client.On?
  {
    w.(client := w.client.(mem := mem, phase := phase))
  }

  /** The user saves, renames or removes anything at any time. */
  function EditStep(w: World, fs: Fs): World {
    w.(local := fs, edited := w.edited + Pending(fs.files, w.local.files))
  }

  /** The sandbox publishes a patch between states its workspace has had. */
  ghost function AnnounceStep(w: World, k: nat, ops: Patch): Option<World> {
    if k > w.server.last && WellFormed(ops) && OpsHeld(w.server.history, ops) then
      Some(w.(server := w.server.(events := w.server.events[k := PatchEvent(ops)], last := k,
                                  objects := w.server.objects + {k})))
    else None
  }

  /** A command resolves the stored session; a pending acknowledgement is retried first. An ending command
      also starts without its directory or with an unreadable base. */
  function StartStep(w: World, blind: bool): Option<World> {
    if w.client.Off? && w.disk.Some? then Some(w.(client := On(w.disk.value, Retrying(blind), false))) else None
  }

  /** Where a command is between two events. */
  function Waiting(blind: bool): Phase {
    if blind then Passing else Idle
  }

  /** A missing object counts as delivered. */
  function RetryStep(w: World): Option<World> {
    if !(w.client.On? && w.client.phase.Retrying?) then None
    else match w.client.mem.pendingAck
      case None => Some(WithPhase(w, Waiting(w.client.phase.blind)))
      case Some(k) =>
        Some(WithMem(w.(server := w.server.(objects := w.server.objects - {k})),
                     w.client.mem.(pendingAck := None), Waiting(w.client.phase.blind)))
  }

  /** Events that carry no patch only move the cursor. */
  ghost function SkipStep(w: World, to: nat): Option<World> {
    if w.client.On? && w.client.phase.Idle? && w.client.mem.cursor <= to <= w.server.last
       && NoPatchBetween(w.server, w.client.mem.cursor, to + 1)
    then Some(WithMem(w, w.client.mem.(cursor := to), Idle))
    else None
  }

  /** Without a workspace every event only moves the cursor, also one that announces a patch. */
  ghost function PassStep(w: World, to: nat): Option<World> {
    if w.client.On? && w.client.phase.Passing? && w.client.mem.cursor <= to <= w.server.last
       && NoPatchBetween(w.server, w.client.mem.cursor, to)
    then
      var mem := w.client.mem;
      Some(WithMem(w, mem.(cursor := to, journal := mem.journal + Skipped(w.server, mem.cursor, to)), Passing))
    else None
  }

  /** The patch that a cursor moves over when it moves to this event. */
  function Skipped(s: Server, cursor: nat, to: nat): seq<Entry> {
    if cursor < to && IsPatch(s, to) then [Passed(to)] else []
  }

  /** Download the next announced patch and read the local manifest. */
  ghost function BeginStep(w: World, k: nat): Option<World> {
    if w.client.On? && w.client.phase.Idle? && IsPatch(w.server, k) && w.client.mem.cursor < k
       && NoPatchBetween(w.server, w.client.mem.cursor, k) && k in w.server.objects
    then Some(WithPhase(w, Applying(k, w.local.files, 0, {})).(edited := {}))
    else None
  }

  function Write(w: World, op: Operation, verdict: Verdict): World {
    w.(local := Effect(w.local, op, verdict),
       overwrites := if verdict == Applied
                     then w.overwrites + [Overwrite(op.path, At(w.local.files, op.path), op.path in w.edited)]
                     else w.overwrites)
  }

  function ApplyStep(w: World, ioError: bool): Option<World> {
    if w.client.On? && w.client.phase.Applying? && IsPatch(w.server, w.client.phase.event)
       && w.client.phase.next < |w.server.events[w.client.phase.event].ops|
    then
      var phase := w.client.phase;
      var op := w.server.events[phase.event].ops[phase.next];
      var verdict := Judge(w.local, At(phase.scan, op.path), op, false, ioError);
      var rejected := if verdict == Conflicted then phase.rejected + {op.path} else phase.rejected;
      Some(WithPhase(Write(w, op, verdict), phase.(next := phase.next + 1, rejected := rejected)))
    else None
  }

  function RecordStep(w: World): Option<World> {
    if w.client.On? && w.client.phase.Applying? && IsPatch(w.server, w.client.phase.event)
       && w.client.phase.next == |w.server.events[w.client.phase.event].ops|
    then
      var mem, phase := w.client.mem, w.client.phase;
      Some(WithMem(w, mem.(conflicts := mem.conflicts + phase.rejected), Recorded(phase.event, phase.rejected)))
    else None
  }

  /** The base moves by the patch, never by re-reading the directory. */
  function AdvanceBaseStep(w: World): Option<World> {
    if w.client.On? && w.client.phase.Recorded? && IsPatch(w.server, w.client.phase.event) then
      var mem, phase := w.client.mem, w.client.phase;
      var ops := w.server.events[phase.event].ops;
      Some(WithMem(w, mem.(base := Absorb(mem.base, ops, phase.rejected),
                           journal := mem.journal + [Delivered(phase.event, ops, phase.rejected)]),
                   Landed(phase.event)))
    else None
  }

  /** What giving a slot up leaves in the journal: nothing, unless the object it named is still there. */
  function Dropped(slot: Option<nat>, objects: set<nat>): seq<Entry> {
    if slot.Some? && slot.value in objects then [SlotLost(slot.value)] else []
  }

  /** The event of the patch that has just landed counts as processed. */
  function CountStep(w: World): Option<World> {
    if w.client.On? && w.client.phase.Landed? then
      Some(WithMem(w, w.client.mem.(cursor := w.client.phase.event), Counted(w.client.phase.event)))
    else None
  }

  /** There is one acknowledgement slot: it goes to the patch that has just been counted. An attached run
      has none. */
  function MarkStep(w: World): Option<World> {
    if w.client.On? && w.client.phase.Counted? then
      var mem, k := w.client.mem, w.client.phase.event;
      Some(WithMem(w, mem.(pendingAck := if w.client.attached then None else Some(k),
                           journal := mem.journal + Dropped(mem.pendingAck, w.server.objects)),
                   Marked(k)))
    else None
  }

  /** The checkpoint reaches disk before the acknowledgement; an attached run has none to write. */
  function SaveStep(w: World): Option<World> {
    if w.client.On? && w.client.phase.Marked? then
      var saved := if w.client.attached then w else w.(disk := Some(w.client.mem));
      Some(WithPhase(saved, Saved(w.client.phase.event)))
    else None
  }

  /** The platform deletes the acknowledged object. */
  function AckStep(w: World): Option<World> {
    if w.client.On? && w.client.phase.Saved? then
      var k := w.client.phase.event;
      Some(WithPhase(w.(server := w.server.(objects := w.server.objects - {k})), Acked(k)))
    else None
  }

  function ClearStep(w: World): Option<World> {
    if w.client.On? && w.client.phase.Acked? then Some(WithMem(w, w.client.mem.(pendingAck := None), Idle)) else None
  }

  function PersistStep(w: World): Option<World> {
    if w.client.On? && (w.client.phase.Idle? || w.client.phase.Passing?) && !w.client.attached
    then Some(w.(disk := Some(w.client.mem)))
    else None
  }

  /** The platform answers an upload of the local tree: `accepted` moved the sandbox, `refused` did
      not, and every other changed path already had the uploaded state there. */
  ghost function UploadStep(w: World, tree: Tree, accepted: seq<Path>, refused: set<Path>): Option<World> {
    if w.client.On? && w.client.phase.Idle?
       && (var changed := Pending(w.local.files, w.client.mem.base);
           && changed != {} && refused <= changed
           && (forall p :: p in accepted ==> p in changed && p !in refused)
           && (forall p :: p in changed && p !in refused ==> At(tree, p) == At(w.local.files, p)))
    then
      Some(WithPhase(w.(server := w.server.(history := w.server.history + [tree])),
                     Uploading(w.local.files, accepted, refused)))
    else None
  }

  /** The refused paths are noted before the base moves. */
  function NoteRefusedStep(w: World): Option<World> {
    if w.client.On? && w.client.phase.Uploading? then
      var mem := w.client.mem;
      Some(WithMem(w, mem.(conflicts := mem.conflicts + w.client.phase.refused), w.client.phase))
    else None
  }

  function AbsorbVerdictStep(w: World): Option<World> {
    if w.client.On? && w.client.phase.Uploading? then
      var mem, phase := w.client.mem, w.client.phase;
      var noted := mem.(conflicts := mem.conflicts + phase.refused);
      var moved :=
        if phase.refused == {} then
          noted.(base := phase.snapshot, journal := mem.journal + [AcceptedAll(phase.snapshot)])
        else if phase.applied != [] then
          noted.(base := Overlay(mem.base, phase.snapshot, phase.applied),
                 journal := mem.journal + [AcceptedSome(phase.snapshot, phase.applied)])
        else noted;
      Some(WithMem(w, moved, Idle))
    else None
  }

  /** Download the final workspace and read the local manifest. */
  function BeginFinalStep(w: World): Option<World> {
    if w.client.On? && w.client.phase.Idle? && w.server.history != [] then
      var final := w.server.history[|w.server.history| - 1];
      Some(WithPhase(w, Merging(final, w.local.files, Pending(final, w.client.mem.base), {})).(edited := {}))
    else None
  }

  function MergeStep(w: World, p: Path, ioError: bool): Option<World> {
    if w.client.On? && w.client.phase.Merging? && p in w.client.phase.todo then
      var mem, phase := w.client.mem, w.client.phase;
      var op := Operation(p, At(mem.base, p), At(phase.final, p));
      var verdict := Judge(w.local, At(phase.scan, p), op, p in mem.conflicts, ioError);
      var clashes := if verdict == Conflicted then phase.clashes + {p} else phase.clashes;
      Some(WithPhase(Write(w, op, verdict), phase.(todo := phase.todo - {p}, clashes := clashes)))
    else None
  }

  function FinishMergeStep(w: World): Option<World> {
    if w.client.On? && w.client.phase.Merging? && w.client.phase.todo == {} then
      Some(WithPhase(w, Merged(w.client.phase.final, w.client.phase.clashes, false)))
    else None
  }

  function KeepRecoveryStep(w: World): Option<World> {
    if w.client.On? && w.client.phase.Merged? then Some(WithPhase(w, w.client.phase.(recovered := true))) else None
  }

  /** Without a workspace the final result is kept as a whole, beside the directory or in the store. */
  function SalvageStep(w: World): Option<World> {
    if w.client.On? && w.client.phase.Passing? && w.server.history != [] then
      Some(WithPhase(w, Merged(w.server.history[|w.server.history| - 1], {}, true)))
    else None
  }

  /** The handoff is acknowledged only after a conflicting result has been kept. */
  function AckFinalStep(w: World): Option<World> {
    if w.client.On? && w.client.phase.Merged? && (w.client.phase.clashes == {} || w.client.phase.recovered) then
      Some(WithPhase(w, Closed))
    else None
  }

  /** The platform has no final workspace, or none any more: the command goes on to its end. */
  function NoArchiveStep(w: World): Option<World> {
    if w.client.On? && !w.client.attached
       && (|| w.client.phase.Idle? || w.client.phase.Passing?
           || (w.client.phase.Merged? && (w.client.phase.clashes == {} || w.client.phase.recovered)))
    then Some(WithPhase(w, Closed))
    else None
  }

  /** After the handoff the stored session is deleted. */
  function ForgetStep(w: World): Option<World> {
    if w.client.On? && w.client.phase.Closed? then Some(w.(disk := None)) else None
  }

  /** An attached run becomes the current detached session and exits. */
  function PromoteStep(w: World): Option<World> {
    if w.client.On? && w.client.phase.Idle? && w.client.attached then
      Some(w.(disk := Some(w.client.mem.(pendingAck := None)), client := Off))
    else None
  }

  /** The patch that only the running action still knows to acknowledge: one that has not got its slot yet,
      or that of an attached run. */
  function InFlight(c: Client): Option<nat> {
    if c.On? && (c.phase.Counted? || (c.attached && (c.phase.Marked? || c.phase.Saved?)))
    then Some(c.phase.event)
    else None
  }

  /** A Ctrl-C caught by the polling loop: the process resumes with the memory it has. */
  function InterruptStep(w: World): Option<World> {
    if w.client.On? && !w.client.phase.Retrying? && !w.client.phase.Merging? && !w.client.phase.Merged?
       && !w.client.phase.Closed?
    then
      var mem := w.client.mem;
      Some(WithMem(w, mem.(journal := mem.journal + Dropped(InFlight(w.client), w.server.objects)),
                   Waiting(w.client.phase.Passing?)))
    else None
  }

  ghost function Step(w: World, a: Action): Option<World> {
    match a
    case EditLocal(fs) => Some(EditStep(w, fs))
    case ChangeRemote(tree) => Some(w.(server := w.server.(history := w.server.history + [tree])))
    case Announce(k, ops) => AnnounceStep(w, k, ops)
    case AnnounceOther(k) =>
      if k > w.server.last then Some(w.(server := w.server.(events := w.server.events[k := OtherEvent], last := k)))
      else None
    case Start(blind) => StartStep(w, blind)
    case RetryAck => RetryStep(w)
    case Skip(to) => SkipStep(w, to)
    case Pass(to) => PassStep(w, to)
    case Begin(k) => BeginStep(w, k)
    case ApplyPath(ioError) => ApplyStep(w, ioError)
    case RecordConflicts => RecordStep(w)
    case AdvanceBase => AdvanceBaseStep(w)
    case Count => CountStep(w)
    case Mark => MarkStep(w)
    case Save => SaveStep(w)
    case Ack => AckStep(w)
    case Clear => ClearStep(w)
    case Persist => PersistStep(w)
    case Upload(tree, accepted, refused) => UploadStep(w, tree, accepted, refused)
    case NoteRefused => NoteRefusedStep(w)
    case AbsorbVerdict => AbsorbVerdictStep(w)
    case BeginFinal => BeginFinalStep(w)
    case MergePath(p, ioError) => MergeStep(w, p, ioError)
    case FinishMerge => FinishMergeStep(w)
    case KeepRecovery => KeepRecoveryStep(w)
    case Salvage => SalvageStep(w)
    case AckFinal => AckFinalStep(w)
    case NoArchive => NoArchiveStep(w)
    case Forget => ForgetStep(w)
    case Promote => PromoteStep(w)
    case Interrupt => InterruptStep(w)
    case Crash => if w.client.On? then Some(w.(client := Off)) else None
  }

  /** The world after a whole run, or nothing when some step was not possible. */
  ghost function Run(w: World, actions: seq<Action>): Option<World> {
    if actions == [] then Some(w)
    else
      var last := |actions| - 1;
      match Run(w, actions[..last])
      case None => None
      case Some(mid) => Step(mid, actions[last])
  }

  /** A session has just been created from `upload`; a detached start has stored its checkpoint,
      an attached one is still running. */
  ghost predicate Initial(w: World) {
    && |w.server.history| == 1 && w.server.events == map[] && w.server.last == 0 && w.server.objects == {}
    && w.edited == {} && w.overwrites == []
    && var blank := Checkpoint(0, w.server.history[0], {}, None, []);
       || (w.disk == Some(blank) && w.client == Off)
       || (w.disk == None && w.client == On(blank, Idle, true))
  }
}
