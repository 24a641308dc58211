/** Whole runs, from a session that has just been created, in which the guarantees end. */
module SyncWitnesses {
  import opened Options
  import opened Workspace
  import opened WorkspaceSync
  import opened SyncProtocol
  import opened SyncSafety
  import opened SyncRuns

  const FILE: Path := ["notes"]

  /** The versions of the one file: as uploaded, and after one or two changes of the agent. */
  function Version(n: nat): FileState {
    FileState([], n)
  }

  function Holding(n: nat): Tree {
    map[FILE := Version(n)]
  }

  function Uploaded(): Checkpoint {
    Checkpoint(0, Holding(0), {}, None, [])
  }

  /** A session created from a directory of one file. */
  function Created(attached: bool): World {
    World(Fs(Holding(0), {}, {}), Server([Holding(0)], map[], 0, {}),
          if attached then None else Some(Uploaded()),
          if attached then On(Uploaded(), Idle, true) else Off, {}, [])
  }

  function ChangeTo(n: nat): Patch
    requires n > 0
  {
    [Operation(FILE, Some(Version(n - 1)), Some(Version(n)))]
  }

  /** The platform once the agent has changed the file twice. */
  function Changed(): Server {
    Server([Holding(0), Holding(1), Holding(2)],
           map[1 := PatchEvent(ChangeTo(1))][2 := PatchEvent(ChangeTo(2))], 2, {1, 2})
  }

  lemma CreatedIsInitial(attached: bool)
    ensures Initial(Created(attached))
  {
  }

  /** The agent changes the file for the `n`-th time, and the change is announced. */
  lemma OneChange(w: World, n: nat)
    requires n > 0 && w.server.last < n && |w.server.history| == n
    requires w.server.history[n - 1] == Holding(n - 1)
    ensures Leads(w, w.(server := Server(w.server.history + [Holding(n)],
                                           w.server.events[n := PatchEvent(ChangeTo(n))], n, w.server.objects + {n})))
  {
    var changed := w.(server := w.server.(history := w.server.history + [Holding(n)]));
    StepLeads(w, ChangeRemote(Holding(n)), changed);
    var history := changed.server.history;
    assert At(history[n - 1], FILE) == Some(Version(n - 1)) && At(history[n], FILE) == Some(Version(n));
    assert OpsHeld(history, ChangeTo(n)) && WellFormed(ChangeTo(n));
    StepLeads(changed, Announce(n, ChangeTo(n)), AnnounceStep(changed, n, ChangeTo(n)).value);
    LeadsOn(w, changed, AnnounceStep(changed, n, ChangeTo(n)).value);
  }

  lemma ChangedReached(attached: bool)
    ensures Leads(Created(attached), Created(attached).(server := Changed()))
  {
    var w := Created(attached);
    var once := w.(server := Server([Holding(0), Holding(1)], map[1 := PatchEvent(ChangeTo(1))], 1, {1}));
    assert w.server.history + [Holding(1)] == [Holding(0), Holding(1)];
    assert w.server.objects + {1} == {1};
    OneChange(w, 1);
    assert once.server.history + [Holding(2)] == [Holding(0), Holding(1), Holding(2)];
    assert once.server.objects + {2} == {1, 2};
    OneChange(once, 2);
    LeadsOn(w, once, w.(server := Changed()));
  }

  /** A running command that can begin the first of the two patches. */
  function Ready(attached: bool): World {
    Created(attached).(server := Changed(), client := On(Uploaded(), Idle, attached))
  }

  lemma ReadyReached(attached: bool)
    ensures Leads(Created(attached), Ready(attached))
  {
    ChangedReached(attached);
    if !attached {
      var changed := Created(false).(server := Changed());
      StartReaches(changed, false);
      var started := StartStep(changed, false).value;
      ReachesLeads(changed, started);
      RetryReaches(started);
      ReachesLeads(started, Ready(false));
      LeadsOn(Created(false), changed, started);
      LeadsOn(Created(false), started, Ready(false));
    }
  }

  lemma FirstIsNext()
    ensures NextPatch(Changed(), 0, 1) && IsPatch(Changed(), 2) && NoPatchBetween(Changed(), 1, 2)
    ensures forall attached :: BeginStep(Ready(attached), 1).Some?
  {
  }

  /** A session that has just been created leaks by a Ctrl-C caught before an acknowledgement. */
  lemma CutRunLeaks()
    ensures Initial(Created(false))
    ensures exists end :: Leads(Created(false), end) && Leaked(end, 1)
  {
    ReadyReached(false);
    FirstIsNext();
    InterruptedAcknowledgementLeaks(Ready(false), 1, 2);
    var end :| Reaches(Ready(false), end) && Leaked(end, 1);
    ReachesLeads(Ready(false), end);
    LeadsOn(Created(false), Ready(false), end);
  }

  /** Likewise an attached one that is cut off and promoted. */
  lemma PromotedRunLeaks()
    ensures Initial(Created(true))
    ensures exists end :: Leads(Created(true), end) && Leaked(end, 1)
  {
    ReadyReached(true);
    FirstIsNext();
    PromotedAcknowledgementLeaks(Ready(true), 1);
    var end :| Reaches(Ready(true), end) && Leaked(end, 1);
    ReachesLeads(Ready(true), end);
    LeadsOn(Created(true), Ready(true), end);
  }

  /** Likewise by a Ctrl-C caught between the cursor and the slot. */
  lemma CountedRunLeaks()
    ensures Initial(Created(false))
    ensures exists end :: Leads(Created(false), end) && Leaked(end, 1)
  {
    ReadyReached(false);
    FirstIsNext();
    CountedAcknowledgementLeaks(Ready(false), 1);
    var end :| Reaches(Ready(false), end) && Leaked(end, 1);
    ReachesLeads(Ready(false), end);
    LeadsOn(Created(false), Ready(false), end);
  }

  /** Likewise by an end without a workspace that is left before the handoff; the outcome is missing too. */
  lemma PassedRunLeaks()
    ensures Initial(Created(false))
    ensures exists end :: Leads(Created(false), end) && Leaked(end, 1) && !OutcomeIn(end.disk.value, end.server, 1)
  {
    var changed := Created(false).(server := Changed());
    ChangedReached(false);
    CreatedIsInitial(false);
    FirstIsNext();
    ReachableSafe(Created(false), changed);
    PassedPatchLeaks(changed, 1);
    var end :| Reaches(changed, end) && Leaked(end, 1) && !OutcomeIn(end.disk.value, end.server, 1);
    ReachesLeads(changed, end);
    LeadsOn(Created(false), changed, end);
  }

  /** In a session that has just been created an edit inside the window is lost. */
  lemma EditLostInRun()
    ensures Initial(Created(false))
    ensures exists end :: Leads(Created(false), end) && EditLost(end, Version(3))
  {
    ReadyReached(false);
    FirstIsNext();
    NeverHeld();
    EditFits();
    EditInsideWindowLost(Ready(false), 1, Version(3));
    var end :| Leads(Ready(false), end) && EditLost(end, Version(3));
    LeadsOn(Created(false), Ready(false), end);
  }

  lemma EditFits()
    ensures var w := Ready(false);
            && w.server.events[1].ops == ChangeTo(1) && At(w.local.files, FILE) == Some(Version(0))
            && w.local.CanWrite(FILE) && w.server.history == Changed().history
  {
  }

  lemma NeverHeld()
    ensures !Held(Changed().history, FILE, Some(Version(3)))
  {
    forall i | 0 <= i < |Changed().history| ensures At(Changed().history[i], FILE) != Some(Version(3)) {
      assert Changed().history[i] == Holding(i);
    }
  }
}
