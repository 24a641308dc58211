# World-model harness: verified core

This project models the parts of the world-model harness in which state, failure and time meet, and
proves what they promise. Each Dafny module follows one part of the program.

- **Workspace sync** (`Workspace`, `WorkspaceSync`, `WorkspaceRestarts`, `SyncProtocol`, `SyncSafety`,
  `SyncRuns`, `SyncWitnesses`, `SessionRuns`, `SessionState`, `HostedSession`, `EndingSession`). A local
  directory, a remote workspace and a stored base snapshot are kept in step by remote patches, partly
  accepted uploads and a closing three-way merge, while a durable checkpoint survives a crash at any
  point. The directory is modelled with real directories, so that collisions, file/directory swaps and
  emptied parents are visible. The protocol is a state machine of atomic steps (`SyncProtocol`) whose
  environment chooses user edits, patches, upload verdicts, Ctrl-C and crashes freely; the classes of
  `HostedSession`, which act on a directory, a platform and the files of the session store, and of
  `EndingSession`, which end a session without a usable workspace, are proved to do exactly what their
  calls promise while they live, only what some run of that machine does without its environment wherever
  their process is stopped, and not to stop unless something stops them.
- **Observation contract** (`CodePoints`, `Json`, `JsonRoundTrip`, `ObjectScanner`, `Parsing`,
  `ObservationContract`, `PrintedFields`, `PrintedSearches`, `TruncatedReply`, `PlainReplies`). Text is a sequence of Python
  code points, in which surrogates may occur. The JSON printer and decoder are those of Python's json
  module (RFC 8259); the scanner, the lenient parser and the salvage of truncated replies are the harness's
  own. What is salvaged is given for every field and every cut behind the opening quote of the output, and
  exactly which replies are taken as plain text.
- **Agent project** (`ProjectLedger`, `AgentProject`). Sandbox leases, the file mirror, retries and usage
  accounting, with a remote side that may fail at every call and may have acted before failing; what comes
  of each call is a parameter, so that every contract says what happens in either case.
- **World-model sessions and grounding cache** (`WorldModel`, `TextFiles`, `MarkedText`, `Knowledge`), **durable text**
  (`DurableText`), **configuration search** (`AutoConfig`).

`Options`, `Sequences` and `TextSearch` hold an option type and facts about concatenation and searching.

Some guarantees do not hold of the code without a condition. They are proved with it, in both
directions wherever "exactly" is said, and runs or inputs show that it is needed:

- A local state is overwritten only if the remote side has held it, *unless the user changed that path
  after the running action read its manifest* (`NoLocalWorkLost`, `EditInsideWindowLost`).
- The stored checkpoint holds the outcome of a patch at or below its cursor *exactly unless a command
  without a workspace passed the patch before any delivery of it was stored* (`DeliverySafety`). Ending a
  running session whose directory is gone or whose base cannot be read, and leaving it before the handoff,
  stores a cursor past patches that no later command asks for again (`PassedPatchLeaks`).
- A patch at or below the stored cursor whose object still exists is the one the next command will
  acknowledge *exactly when it was not passed and its slot was not lost*: given to a later patch while it
  was unacknowledged, or never taken because the command was cut off first (`LeakedExactly`). None of it
  happens while no Ctrl-C is caught between counting a patch and acknowledging it and no patch is passed
  (`NoLeakedAcknowledgement`); otherwise each does (`InterruptedAcknowledgementLeaks`,
  `CountedAcknowledgementLeaks`, `PromotedAcknowledgementLeaks`, `PassedPatchLeaks`), in runs of a session
  that has just been created (`SyncWitnesses`).
- Starting an interrupted application over gives the tree, the base and the conflicts of one uninterrupted
  run, from every directory and for every series of interruptions, *exactly when no path of the patch is a
  directory above another* (`ConvergesExactly`). A directory that becomes a file and a file that becomes a
  directory each give a different result when started over (`FileOverDirectoryDiverges`,
  `DirectoryOverFileDiverges`).
- Of a confidence that the validator accepts, the salvage path reads the same value *exactly when it is
  written as a number without a sign, and its exponent or its digits are zero*, although the comment beside
  it asks for the same acceptance rule (`ConfidencePathsAgree`). On `1e-05` the salvage path reads
  certainty (`SmallConfidenceBecomesCertainty`); a number in a string is lost.
- A state note or a justification whose closing quote is still there survives a cut *exactly when its
  characters survive the salvage and no earlier string is its name or ends in a quote and its name*
  (`NoteSurvives`, `WhySurvives`).
- A reply without a usable contract is shown as it stands *exactly unless it begins with a brace and the
  first `"output"` in it is followed by a string* (`PlainExactly`); a complete object that is no contract
  can look so too, if it nests one (`NestedOutputIsSalvaged`).
- A session survives another one's save or deletion *exactly when its id does not continue the other's with
  the archive infix* (`SaveReach`, `DeleteReach`).
- A file written by the grounding cache, whose line ends are translated when it is read back, answers every
  one-line query as a map *exactly when every entry was safe in the file it was appended to* (`FileIsMap`);
  alone, an entry is safe *exactly when its query is one line, no part holds a carriage return, and the
  marker is in neither part* (`OneEntryIsMap`). A query that ever found something is answered by the cache
  *exactly when it holds no carriage return* (`Ground`, `ReturnNeverHit`).
- Stepping a session leaves another one right *exactly when the stepped state object is neither the other's
  state nor one its history holds, or the observation says nothing new* (`StepOneOf`).
- The winner of a configuration search never falls below the incumbent in the reported scores *exactly when
  no other name than the incumbent's is repeated among the candidates* (`NeverFallsBelow`); on every menu
  that is so (`MenuNamesDistinct`).

Hypotheses shared by several results: the platform announces patches between states its workspace has
had, in one transcript whose pages list every event up to their last number; a digest determines the
content it was computed from, and the archives one session stores differ in the sixteen digits their
names keep; one client uses a session; and an upload that the platform answers leaves every changed path
that it does not refuse as it was uploaded.

## Model

| member | source | states |
|---|---|---|
| WorkspaceSync.LocalRoot.ApplyWorkspacePatch | wmh/cli/workspace_sync.py:303-330 | In a process stopped after any number of paths: a path with none above or below it in the patch is applied, and ends as the remote side has it, exactly if its change is clean; it is a conflict exactly if its change is neither clean nor there already; every other path keeps its state; both lists follow the patch. The whole outcome is the path-by-path merge |
| WorkspaceSync.LocalRoot.SyncWorkspace | wmh/cli/workspace_sync.py:250-300 | The same for the final three-way merge over all paths of base and remote, with protected paths |
| WorkspaceSync.Treatment | wmh/cli/workspace_sync.py:250-330 | Of distinct paths, each with none above or below it: applied exactly if clean, conflicting exactly if neither clean nor there already, unchanged otherwise; a change is clean if the path is as it was before, nobody guards it, no call fails, no file or link is above it, and nothing but a regular file is at it |
| WorkspaceSync.JudgedExactly | wmh/cli/workspace_sync.py:267-330 | On any tree and whatever was read before, one path is applied exactly if its change is clean, and conflicts exactly if it is neither clean nor there already |
| WorkspaceSync.MergePointwise | wmh/cli/workspace_sync.py:250-330 | Every changed path is applied, conflicting, or already settled, exclusively; an applied path had its base state, was not protected and now has the remote state; all other paths keep their local state |
| WorkspaceSync.DisagreementKept | wmh/cli/workspace_sync.py:276-297 | A protected path, or one changed on both sides, stays byte for byte as it is locally and is reported |
| WorkspaceSync.MergeVerdicts | wmh/cli/workspace_sync.py:267-330 | With no path above another, each verdict depends on the initial directory alone, so the order of the paths does not matter |
| WorkspaceSync.EffectFootprint | wmh/cli/workspace_sync.py:454-505 | Writing or deleting one path changes that file, and directories strictly above it, and nothing else |
| WorkspaceRestarts.DeletionEmpties | wmh/cli/workspace_sync.py:496-505 | Deleting a file removes a directory above it exactly if nothing is below that directory but the file and directories on the way to it |
| WorkspaceRestarts.WritingFounds | wmh/cli/workspace_sync.py:459-487 | Writing a file makes exactly the directories above it |
| WorkspaceRestarts.InterruptionConverges | wmh/cli/workspace_sync.py:267-330 | With no path above another, however often a run is stopped and started over, the one that completes leaves the tree, the conflicts and the base of one uninterrupted run |
| WorkspaceRestarts.FileOverDirectoryDiverges | wmh/cli/workspace_sync.py:454-505 | Whenever a patch turns a directory into a file, a directory exists that the first run reports occupied and empties, and that the run started over does not report |
| WorkspaceRestarts.DirectoryOverFileDiverges | wmh/cli/workspace_sync.py:303-330 | Whenever a patch turns a file into a directory, the first run reports no conflict on it and the run started over does |
| WorkspaceRestarts.ConvergesExactly | wmh/cli/workspace_sync.py:267-330 | For a path-sorted patch between two manifests: starting over converges from every directory, through every series of interruptions and under any protected paths, exactly when no path is above another |
| WorkspaceSync.ApplyPatchToSnapshot | wmh/cli/workspace_sync.py:133-160 | The advanced snapshot is base plus the operations that landed |
| WorkspaceSync.AbsorbPointwise | wmh/cli/workspace_sync.py:133-160 | A landed path moves to the patch's state, a rejected or unmentioned one stays |
| WorkspaceSync.AdvanceSnapshotPaths | wmh/cli/workspace_sync.py:163-180 | The advanced snapshot is base overlaid with the accepted paths |
| WorkspaceSync.OverlayPointwise | wmh/cli/workspace_sync.py:163-180 | Exactly the accepted paths take their uploaded state |
| WorkspaceSync.BuildWorkspacePatch | wmh/harness/workspace_patch.py:52-90 | Nothing when the snapshots agree, otherwise a well-formed patch of their changes |
| WorkspaceSync.ChangesExact | wmh/harness/workspace_patch.py:52-90 | A built patch lists exactly the differing paths, each once, from the base state to the current one |
| WorkspaceSync.AbsorbInvertsBuild | wmh/harness/workspace_patch.py:52-90 | A patch built between two snapshots carries the first to the second |
| WorkspaceSync.PatchKeepsPendingEdits | wmh/cli/hosted_session.py:105-133 | A remote patch leaves the set of paths still to be uploaded unchanged, minus the paths it accepted |
| WorkspaceSync.UploadSettlesAccepted | wmh/cli/hosted_session.py:135-165 | A partly accepted upload settles exactly the accepted paths, a full one all of them |
| SyncSafety.StepKeeps | wmh/cli/hosted_session.py:797-880 | Every atomic step of user, platform, process and fault keeps the protocol invariant |
| SyncSafety.RunKeeps | wmh/cli/hosted_session.py:380-440 | Every state any interleaving reaches from a fresh session satisfies the invariant |
| SyncSafety.NoLocalWorkLost | wmh/cli/hosted_session.py:105-165 | In any run, a replaced or removed local state was held by the remote side for that path, or the user changed the path during the action |
| SyncSafety.DeliverySafety | wmh/cli/hosted_session.py:797-833 | In any run, a patch above the stored cursor can still be downloaded, and the outcome of one at or below it is in the stored checkpoint exactly unless a command without a workspace passed it and no delivery of it was stored |
| SyncSafety.LeakedExactly | wmh/cli/hosted_session.py:721-737 | In any run, a patch at or below the stored cursor whose object exists is the stored pending acknowledgement exactly when it was not passed and did not lose its slot |
| SyncSafety.NoLeakedAcknowledgement | wmh/cli/hosted_session.py:721-737 | In any run without a Ctrl-C caught between counting a patch and acknowledging it, and without a passed patch, every patch at or below the stored cursor has its outcome in the checkpoint and, if its object exists, is the pending acknowledgement |
| SyncSafety.NextCommandClears | wmh/cli/hosted_session.py:721-739 | After any run, the retry and checkpoint of the next command, with a workspace or without, leave an object at or below the stored cursor exactly for the patches that were passed or lost their slot, and after a calm run for none |
| SyncSafety.HandoffLosesNothing | wmh/cli/hosted_session.py:188-215 | When the final handoff is acknowledged, every remote change has arrived, or was edited meanwhile, or a recovery copy is kept |
| SyncSafety.PromoteKeeps | wmh/cli/agent_session.py:579-620 | Promoting an attached run stores a checkpoint with the same guarantees as a detached start |
| SyncRuns.ReachableSafe | wmh/cli/hosted_session.py:380-440 | Whatever any interleaving reaches from a fresh session satisfies every guarantee above; the classes below reach no more than the process can by itself, without an edit of the user or a change of the agent |
| SyncRuns.EditInsideWindowLost | wmh/cli/workspace_sync.py:303-330 | An edit between reading the manifest and writing its path can be lost |
| SyncRuns.InterruptedAcknowledgementLeaks | wmh/cli/hosted_session.py:754-795 | A Ctrl-C caught before an acknowledgement, and one more patch, leave an object nobody will acknowledge |
| SyncRuns.CountedAcknowledgementLeaks | wmh/cli/hosted_session.py:825-833 | A Ctrl-C caught after the cursor moved and before the slot was taken leaves an object nobody will acknowledge |
| SyncRuns.PromotedAcknowledgementLeaks | wmh/cli/agent_session.py:579-620 | An attached run cut off before an acknowledgement, and promoted, leaves one too |
| SyncRuns.PassedPatchLeaks | wmh/cli/hosted_session.py:812-822 | From any safe state, an end without a workspace that is left before the handoff stores a cursor past the next patch: its outcome is missing, its object stays, and no slot was lost |
| SyncWitnesses.CutRunLeaks | wmh/cli/hosted_session.py:754-795 | A session that has just been created leaks an acknowledgement by a Ctrl-C and one more patch |
| SyncWitnesses.CountedRunLeaks | wmh/cli/hosted_session.py:825-833 | Likewise by a Ctrl-C between the cursor and the slot |
| SyncWitnesses.PromotedRunLeaks | wmh/cli/agent_session.py:579-620 | Likewise an attached one by a promotion |
| SyncWitnesses.PassedRunLeaks | wmh/cli/hosted_session.py:812-822 | Likewise by an end without a workspace, which also loses the outcome |
| SyncWitnesses.EditLostInRun | wmh/cli/workspace_sync.py:303-330 | In a session that has just been created an edit inside the window is lost |
| SyncRuns.PatchReceived | wmh/cli/hosted_session.py:105-133 | Receiving a patch whole is a run of atomic steps that ends acknowledged and cleared |
| SyncRuns.PathsMerged | wmh/cli/workspace_sync.py:250-300 | Any prefix of the final merge is a run of atomic steps |
| SessionRuns.NextPatchReady | wmh/cli/hosted_session.py:797-811 | A safe state can download every patch of a page, so a page never meets a missing object |
| SessionRuns.PageSettles | wmh/cli/hosted_session.py:797-833 | A change on a page that no other change of the page is at, above or below: if clean before the page it ends in the directory and in the base, if there already in the base, otherwise it is recorded as a conflict and moves neither |
| HostedSession.LiveWorkspace.ReceivePatch | wmh/cli/hosted_session.py:105-133 | Directory, base, conflicts and the set of pending edits after one announced patch |
| HostedSession.LiveWorkspace.PushLocal | wmh/cli/hosted_session.py:135-165 | Nothing is sent without pending edits, and exactly the changes since the base with them; base, conflicts and pending edits after any verdict, read or lost |
| HostedSession.LiveWorkspace.Finalize | wmh/cli/hosted_session.py:188-201 | The final merge is against the last synchronized snapshot and protects the recorded conflicts |
| HostedSession.SaveOutcome | wmh/cli/session_state.py:78-105 | However a save is cut, the session loads as before or as saved, with an intact base |
| HostedSession.DetachedCommandDriver.constructor | wmh/cli/hosted_session.py:540-575 | A command starts from exactly the stored checkpoint |
| HostedSession.DetachedCommandDriver.Persist | wmh/cli/hosted_session.py:861-880 | Afterwards the stored checkpoint equals the one in memory, also when nothing had to be written; a process that dies leaves the old one or the new one |
| HostedSession.DetachedCommandDriver.HandlePatch | wmh/cli/hosted_session.py:812-833 | One patch from download to stored acknowledgement, with its exact result, and a run of the process alone wherever it dies; it dies only if something stops it |
| HostedSession.DetachedCommandDriver.Acknowledge | wmh/cli/hosted_session.py:825-833 | The acknowledgement is sent for a stored checkpoint only, then forgotten |
| HostedSession.DetachedCommandDriver.RetryPendingAck | wmh/cli/hosted_session.py:721-739 | The pending acknowledgement is delivered, also when the object is gone, and durably forgotten; nothing else changes |
| HostedSession.DetachedCommandDriver.PushWorkspace | wmh/cli/hosted_session.py:854-859 | Upload and checkpoint together are a run of the process alone, with the exact resulting state and the patch that is sent |
| HostedSession.DetachedCommandDriver.Poll | wmh/cli/hosted_session.py:797-811 | While the process lives, directory, base and conflicts are the patches of the page merged and absorbed in page order, the platform has lost exactly their objects, the cursor is at the end of the page, and the checkpoint is stored; it dies only if something stops it, and then a run of the process alone leads there; from a safe state it never needs a missing object |
| HostedSession.DetachedCommandDriver.Reconcile | wmh/cli/hosted_session.py:188-201 | The final merge, cut anywhere, is a run of the process alone with the exact clashes |
| HostedSession.DetachedCommandDriver.CloseSession | wmh/cli/hosted_session.py:637-686 | The handoff is acknowledged only after a conflicting result has been kept as a whole, and the session is deleted only after it |
| HostedSession.DetachedCommandDriver.CloseWithoutArchive | wmh/cli/hosted_session.py:644-651 | Without a final workspace on the platform only the stored session is deleted |
| EndingSession.EndingDriver.constructor | wmh/cli/hosted_session.py:540-575 | An ending command without a usable workspace starts from the stored checkpoint, whether or not its base can be read |
| EndingSession.EndingDriver.RetryPendingAck | wmh/cli/hosted_session.py:721-739 | It delivers the pending acknowledgement and durably forgets it |
| EndingSession.EndingDriver.Persist | wmh/cli/hosted_session.py:861-880 | It stores cursor and slot, keeps conflicts and base, and wherever it is stopped a run of the protocol leads there |
| EndingSession.EndingDriver.Poll | wmh/cli/hosted_session.py:797-822 | A page leaves the cursor at its end and stored, and every patch on it passed; wherever it is stopped a run of the process alone leads there |
| EndingSession.EndingDriver.Finish | wmh/cli/hosted_session.py:637-719 | The handoff is acknowledged only after the whole final workspace has been kept, and the session is deleted only after it; without a final workspace it is only deleted |
| EndingSession.HeldIsCheckpoint | wmh/cli/hosted_session.py:540-575 | Once its base can be read, what such a command has stored is the checkpoint any other command starts from |
| SessionState.GlobReach | wmh/cli/session_state.py:212-219 | The prune pattern of a session matches another session's archive exactly when the other id continues this one's archive infix |
| SessionState.ArchiveWriteKeepsOld | wmh/cli/session_state.py:94-105 | Writing the archive first keeps the old checkpoint readable exactly when its short name is free or has the same content |
| SessionState.SaveCrashConsistent | wmh/cli/session_state.py:78-105 | A save cut after any file step loads as the old or the new session, with a base that exists and passes its check |
| SessionState.StateSaveKeepsBase | wmh/cli/session_state.py:78-105 | A save without an archive, cut anywhere, loads as the old or the new state over what could be read of the base before, readable or not |
| SessionState.SaveLeavesReferenced | wmh/cli/session_state.py:212-219 | A completed save leaves only the referenced archive |
| SessionState.SaveSparesOthers | wmh/cli/session_state.py:212-219 | Another session survives any cut of a save unless its id continues this one's |
| SessionState.SaveReach | wmh/cli/session_state.py:212-219 | A completed save takes the base away from exactly the sessions whose id continues this one's |
| SessionState.DeleteCrashConsistent | wmh/cli/session_state.py:158-167 | A deletion cut anywhere leaves the session untouched or gone and no other session changed unless its id continues this one's |
| SessionState.DeleteReach | wmh/cli/session_state.py:158-167 | Of the other sessions with a readable base, a completed deletion changes exactly those whose id continues this one's |
| SessionState.SessionStateStore.Save | wmh/cli/session_state.py:78-105 | Session id, cursor, root, conflicts and pending slot are stored as given, the digest is that of the archive given or the old one; after a finished save the state loads as returned, over that archive; no file of another name changes; archive first, state next, pruning last, in a process that may stop between any two file steps, and finishing if it does not |
| SessionState.SessionStateStore.Delete | wmh/cli/session_state.py:158-167 | State first, archives next, current marker last; a finished deletion leaves none of them, and no other file changes |
| SessionState.SessionStateStore.SetCurrent | wmh/cli/session_state.py:169-173 | The marker names the session and no session changes |
| SessionState.LoadedExactly | wmh/cli/session_state.py:121-145 | A base is loaded exactly if the state names a digest, an archive is stored under its first sixteen digits, and the content has that digest |
| JsonRoundTrip.ValueRead | wmh/core/parsing.py:263-281 | Decoding a printed value gives it back whatever text follows, with surrogate pairs in its strings folded |
| JsonRoundTrip.LoadsInvertsPrint | wmh/core/parsing.py:263-281 | Printing and decoding is the identity exactly on values without surrogate pairs in their strings |
| ObjectScanner.ExtractJsonObject | wmh/core/parsing.py:46-77 | The scanning loop computes the specified text |
| ObjectScanner.ExtractExact | wmh/core/parsing.py:46-77 | An object is returned exactly when the text is a part without an opening brace, that balanced object, and anything after it |
| ObjectScanner.PrintedIsFound | wmh/core/parsing.py:46-77 | Any printed object, of any nesting and string contents, is found behind any brace-free text |
| ObjectScanner.TruncatedPrintIsNotFound | wmh/core/parsing.py:46-77 | No proper prefix of a printed object contains a complete object |
| Parsing.StringFieldValue | wmh/core/parsing.py:217-253 | The field loop computes the specified unescaped value |
| ObservationContract.RoundTrip | wmh/core/parsing.py:119-170 | Parsing a printed observation, with prose around it, keeps content, error flag, non-empty notes and a confidence in the unit interval, drops the rest, and is exact exactly on strings without surrogate pairs |
| PlainReplies.PlainExactly | wmh/core/parsing.py:165-182 | A reply without a usable contract is its own text less the white space around it, no error and no metadata, exactly unless it begins with a brace and the first output name in it is followed by a string |
| PlainReplies.BracelessIsPlain | wmh/core/parsing.py:119-170 | Every reply without an opening brace is plain |
| PlainReplies.ObjectReply | wmh/core/parsing.py:119-170 | A reply with any printed object in it is read as a contract exactly if the object has a core name and all its fields fit, and is plain otherwise exactly unless it looks cut off |
| PlainReplies.ValidatedExactly | wmh/core/parsing.py:80-164 | A contract is accepted exactly if every text field is a text and the flag can be read; then output, flag, the six notes that are not empty and a confidence in the unit interval are kept, and nothing else |
| PlainReplies.LookupIsLast | wmh/core/parsing.py:130-141 | The last member of a name counts |
| PlainReplies.FlatObjectIsPlain | wmh/core/parsing.py:106-170 | An object without nested parts and without the core names is plain, wherever it stands |
| PlainReplies.NestedOutputIsSalvaged | wmh/core/parsing.py:165-182 | The object {"a": {"output": "x"}} has no core name and is not plain: its nested output is taken for that of a contract cut off |
| PlainReplies.CutBeforeOutputIsPlain | wmh/core/parsing.py:165-182 | A printed contract cut before the opening quote of its output is plain |
| PlainReplies.FieldExactly | wmh/core/parsing.py:217-253 | A field is read exactly if its first name is followed, behind colons, blanks, tabs and line feeds, by a quote, and then from behind that quote |
| PlainReplies.SalvagedExactly | wmh/core/parsing.py:173-214 | A reply that looks cut off is read field by field: output, whether a true flag stands in it, the six notes that are not empty, a confidence in the unit interval, and nothing else |
| ObservationContract.FloatKeepsValue | wmh/core/parsing.py:25-43 | Turning a confidence into a float keeps its value |
| ObservationContract.UnescapeUnits | wmh/core/parsing.py:232-256 | The salvage unescaper inverts the printer on every code unit but backspace and form feed |
| ObservationContract.SalvagesUnits | wmh/core/parsing.py:173-214 | A contract cut between two code units of its output gives back those units, less trailing spaces |
| ObservationContract.SalvagesWhole | wmh/core/parsing.py:173-214 | A contract cut anywhere after the closing quote gives back all units of its output |
| ObservationContract.TruncationGivesPrefix | wmh/core/parsing.py:165-253 | The recovered output is a prefix of the original exactly when no backspace, form feed or character outside the basic plane precedes the cut |
| ObservationContract.ClosedContentSurvives | wmh/core/parsing.py:165-253 | Once the closing quote is there the whole output comes back, under the same exact condition |
| PrintedFields.FieldShown | wmh/core/parsing.py:217-253 | The field read from the members of an object, cut anywhere, is what the cut leaves of the string under that name, or nothing if it has not begun or an earlier string ends as the name |
| PrintedSearches.FlagShown | wmh/core/parsing.py:204-214 | In members cut anywhere the search for a true error flag succeeds exactly when the flag is true and its value is still whole, whatever the strings contain |
| PrintedSearches.ConfidenceShown | wmh/core/parsing.py:258-260 | In members cut anywhere the search for a confidence finds the digits that are left of a number without a sign, its fraction from the first digit behind the point on, and nothing else |
| TruncatedReply.TruncatedReply | wmh/core/parsing.py:173-214 | A reply cut anywhere behind the opening quote of its output: content, error flag, and all metadata that is kept |
| TruncatedReply.NotesByPlace | wmh/core/parsing.py:183-203 | Each text note of a cut reply is nothing if it is hidden or has not begun, else what the characters that are left show of it |
| TruncatedReply.NoteSurvives | wmh/core/parsing.py:183-203 | A closed state note survives exactly when all its characters do and no earlier string ends as its name |
| TruncatedReply.WhySurvives | wmh/core/parsing.py:183-203 | A closed justification survives exactly when all its characters do and the content does not end as its name |
| TruncatedReply.ConfidenceByPlace | wmh/core/parsing.py:204-213 | From a reply cut anywhere, also inside its confidence, the accepted confidence is what is left of the stated number |
| TruncatedReply.SalvageDropsExponent | wmh/core/parsing.py:204-213 | From a reply cut behind its confidence, that confidence is accepted without its exponent, and not at all if it is signed or no number |
| TruncatedReply.NoneIsSalvaged | wmh/core/parsing.py:204-213 | A cut reply that states no confidence is never read as stating one |
| TruncatedReply.ConfidencePathsAgree | wmh/core/parsing.py:25-43 | Of any confidence the validator accepts in the whole reply, parsing the reply cut behind it gives the same value exactly when it is a number without a sign whose exponent or digits are zero |
| TruncatedReply.SmallConfidenceBecomesCertainty | wmh/core/parsing.py:204-213 | A stated 1e-05 is parsed as 0.00001 from the whole reply and as 1.0 from the cut one |
| CodePoints.FoldUnitsExact | wmh/core/text.py:17-25 | Encoding to UTF-16 and folding pairs back is the identity exactly on text without surrogate pairs |
| DurableText.NormalizeDurableText | wmh/core/text.py:8-32 | The normalizing loop computes the canonical form |
| DurableText.NormalizesOnce | wmh/core/text.py:8-32 | Normalization is idempotent and its output validates |
| DurableText.NormalizedIsClean | wmh/core/text.py:8-32 | The output holds no NUL and no surrogate |
| DurableText.NormalizedPointwise | wmh/core/text.py:8-32 | Without surrogate pairs every NUL and surrogate becomes one U+FFFD and every other character is itself |
| DurableText.PairNormalized | wmh/core/text.py:20-25 | A surrogate pair becomes the one character it stands for |
| DurableText.NormalizedInvertsUtf16 | wmh/core/text.py:8-32 | Normalization undoes UTF-16 encoding exactly on text without NUL and surrogates |
| DurableText.ValidatesFixedPoints | wmh/core/text.py:35-40 | Validation accepts exactly the fixed points of normalization |
| DurableText.NormalizesInPieces | wmh/core/text.py:8-32 | Text may be normalized piece by piece exactly when no cut splits a surrogate pair |
| ProjectLedger.MeterNeverDecreases | wmh/agents/project.py:644-653 | Along any evolution of the leases the metered seconds never decrease |
| ProjectLedger.MeterIs | wmh/agents/project.py:644-653 | Retired and running seconds together are every lifetime once |
| ProjectLedger.RightEnded | wmh/agents/project.py:762-770 | Ending one lease keeps the books right and writes the confirmed end down |
| AgentProject.Project.SandboxUsage | wmh/agents/project.py:644-653 | Usage counts every sandbox handed out and sums every lifetime once |
| AgentProject.Project.RetireSandbox | wmh/agents/project.py:762-770 | A lease leaves the live map exactly when its kill is confirmed |
| AgentProject.Project.ReplaceSandbox | wmh/agents/project.py:733-760 | The sandbox is replaced exactly if one is handed out and the mirror can be replayed on it, and the replacement succeeds exactly if the previous one is confirmed gone too; a replaced sandbox holds exactly the mirror and no session; leases and usage stay right on every failure |
| AgentProject.Project.InitializeSandbox | wmh/agents/project.py:711-717 | The replay makes exactly the calls that so many writes take up to the first that fails, and without a fault the sandbox holds every mirrored file over what it held |
| AgentProject.RetriedOnce | wmh/agents/project.py:718-731 | A write succeeds exactly if its two calls do, or one of them is lost in transport and the next two succeed |
| AgentProject.CalmWrites | wmh/agents/project.py:711-731 | While no call fails, every write succeeds with two calls |
| AgentProject.Project.WriteSandboxFile | wmh/agents/project.py:718-731 | One overwrite, tried a second time exactly after a transport fault; a failed one may have reached the sandbox |
| AgentProject.Project.WriteText | wmh/agents/project.py:250-270 | It succeeds exactly if the write does, or is lost in transport, the sandbox is replaced and the write there succeeds; then mirror and active sandbox hold the content, after a replacement nothing but the mirror; otherwise the mirror is unchanged |
| AgentProject.Project.ReadText | wmh/agents/project.py:272-285 | Exactly what is returned: the sandbox's content, else the mirror's, else nothing; the mirror holds it afterwards |
| AgentProject.Project.CloseAgentSession | wmh/agents/project.py:620-642 | Total worker usage is unchanged by closing a session |
| AgentProject.Project.Run | wmh/agents/project.py:376-462 | One attempt, and a second one exactly after a transport fault that may be retried, unless the sandbox could be replaced and the replacement fails; done exactly if the last attempt has no fault; a session lost in transport is not kept; it reports all usage its attempts incurred; a bash-capable agent is never retried |
| AgentProject.Project.Close | wmh/agents/project.py:664-693 | Exactly the leases whose kills are not confirmed are left; the project finishes exactly when there is none, and an owned one only when every sandbox it ever opened is confirmed gone |
| WorldModel.Session.Advance | wmh/engine/world_model.py:367-387 | One step adds a deep copy of the state, logs its note as a line of a dash, a blank and the note, replaces the profile, touches no earlier copy, and reaches the shared buffer and the knowledge base exactly when both the model and the session enrich |
| WorldModel.Session.SeedSession | wmh/engine/world_model.py:357-365 | Seeding records the given steps after those already there, and enriches the shared memory by exactly them or not at all |
| WorldModel.Session.RunDemo | wmh/engine/demo.py:55-74 | Whatever is predicted and searched, and wherever a replay resumes or an error ends it, the session and the shared memory end as the recorded steps up to there leave them; it ends early only if something asked during a prediction raises, and each prediction is the last completion |
| WorldModel.FoldedLiterally | wmh/engine/world_model.py:541-557 | The new scratchpad is the old one, a line end if it was not empty, a dash, a blank and the note, if there is a note; a belief state replaces the profile |
| WorldModel.Grounder.Predict | wmh/engine/world_model.py:389-421 | A prediction is the check, else the second completion if the first asks for a search that is answered, else the first; it raises exactly if one of those raises or what was found cannot be written; at most two searches |
| WorldModel.HistoryIsFold | wmh/engine/world_model.py:541-557 | Each step remembers the seed folded over the observations before it, and the state is the fold over all |
| WorldModel.ReplaysAgree | wmh/engine/demo.py:55-74 | Two replays of one trajectory agree step by step, however they were split |
| WorldModel.FoldResumes | wmh/engine/world_model.py:357-365 | Folding a prefix and then the rest is folding everything |
| WorldModel.StepOneOf | wmh/engine/world_model.py:367-387 | Stepping one session leaves another right exactly when they share no state object, its history does not hold the stepped one, or the observation says nothing new |
| WorldModel.FoldedSame | wmh/engine/world_model.py:541-557 | An observation leaves a state as it is exactly when it brings no state note and no other profile than the present one |
| WorldModel.Grounder.Ground | wmh/engine/world_model.py:504-527 | The exact result, error and searches of one query: cache first, then one live search within the budget that did not fail; a query that ever found something is answered by the cache exactly when it holds no carriage return |
| TextFiles.ReadUnchanged | wmh/engine/knowledge.py:151-158 | Exactly the text without carriage returns is read back as it was written |
| TextFiles.ReadInPieces | wmh/engine/knowledge.py:151-158 | What is appended is read behind what was there, exactly as if it stood alone, if no line end lies across |
| Knowledge.FileIsMap | wmh/engine/knowledge.py:131-149 | A file the cache wrote answers every one-line query with the first result stored for it exactly when every entry was safe in the file it was appended to |
| Knowledge.ReturnNeverHit | wmh/engine/knowledge.py:140-149 | A query with a carriage return is answered by no file |
| Knowledge.PartAnswers | wmh/engine/knowledge.py:131-149 | Its part before the first carriage return answers in its place |
| Knowledge.AppendKeepsMap | wmh/engine/knowledge.py:131-138 | A file that is a map stays one with one more entry exactly when the entry is safe: a one-line query brings no carriage return, no marker cuts its result off, and every other line a marker of it opens, as it is read, is answered before it |
| Knowledge.OneEntryIsMap | wmh/engine/knowledge.py:131-149 | One entry is a map of one query exactly when the query is one line, no part holds a carriage return, and the marker is in neither part |
| Knowledge.ReadBack | wmh/engine/knowledge.py:140-149 | An entry is read back under its own query exactly when no part holds a carriage return and its result holds no marker |
| Knowledge.SeveralLinesHit | wmh/engine/knowledge.py:140-149 | A query that goes on into the result of an entry, as they are read, is answered although nobody stored it |
| Knowledge.CacheIsFirstWrite | wmh/engine/knowledge.py:140-149 | Entries of one-line queries without markers and carriage returns make a map, also when a query occurs twice |
| Knowledge.KnowledgeBase.LookupGrounded | wmh/engine/knowledge.py:140-149 | The lookup reads what stands behind the first header of the query up to the next marker, and nothing for a query with a carriage return; while the file is a map, that is the first result stored |
| Knowledge.KnowledgeBase.AppendGrounded | wmh/engine/knowledge.py:131-138 | For any query and result: what has a header or cannot be encoded adds nothing, anything else exactly its header line, its result and an empty line; no answer that is there changes, the query is found afterwards exactly unless it holds a carriage return or was not written, and the file stays a map exactly when nothing is added or what is added is safe |
| AutoConfig.SelectCandidates | wmh/engine/autoconfig.py:136-190 | Which configuration is offered for which signature and flags, both ways, cheapest first, dropped only by a gate or by the truncated tier |
| AutoConfig.OneMenu | wmh/engine/autoconfig.py:136-190 | The gates and the price order determine the menu |
| AutoConfig.MenuNamesDistinct | wmh/engine/autoconfig.py:136-190 | No menu repeats a name |
| AutoConfig.EstimateIsOnTheMenu | wmh/engine/autoconfig.py:112-190 | The low tier's estimate is on every full menu, and on the truncated one exactly unless it is the knowledge-base configuration |
| AutoConfig.SearchMaxFidelity | wmh/engine/autoconfig.py:297-367 | On any field, with or without an incumbent: the reported scores, the first maximum, improve-or-hold; on every menu the winner's reported score is at least the incumbent's |
| AutoConfig.NeverFallsBelow | wmh/engine/autoconfig.py:352-358 | Whatever the scores, the reported winner is never below the reported incumbent exactly on fields that repeat no other name than the incumbent's |

## Left out

- User edits during a method of `HostedSession`: the classes run without them between two calls; `SyncProtocol` allows them at every atomic step.
- A crash inside one path's change (between unlinking a file and removing its emptied parents), and a failing call that created some parents: one path is one step.
- Symlinks, permissions, archive size limits, excluded directories, temporary files: only a free choice of failing paths; tar, gzip and SHA-256 are a map and an injective name.
- Path order: methods take any enumeration of the paths, the code sorts them.
- The attached driver's event loop (`RemoteAgentDriver`): its handover is a step of `SyncProtocol`, not a class.
- Ctrl-C inside a store save: in `HostedSession` a save cut short ends the process; in `SyncProtocol` a save is one step.
- HostedSession.DetachedCommandDriver.Poll: one page at a time; the surrounding loop, its timing, rendering and turn tracking are not modelled; the branch without a workspace is `EndingSession.EndingDriver.Poll`.
- Rejection of malformed patches: decoding is taken to deliver distinct paths whose two states differ, as `parse_workspace_patch` checks.
- Python's limits inside the parser: recursion depth, integers too large for a float, a validator that refuses lone surrogates; truth values, numbers in strings and odd hexadecimal groups are parameters.
- Replies with reasoning-mode fields, or whose members are in another order than the printer's: complete ones are covered by `PlainReplies`, cut ones by `PrintedFields` and `PrintedSearches` for any flat object and by `PlainReplies.SalvagedExactly` for any text; the theorems of `TruncatedReply` are about the printed contract.
- ObservationContract.FloatKeepsValue: numbers are exact decimals, so the rounding, overflow and underflow of `float()` are not modelled.
- AgentProject.Project.Run: what an agent does to the files during a turn is a parameter; tool grants, cancellation, network locking, snapshots and deadlines are not modelled.
- A failed project constructor, usage a session without a close hook incurs in its last pump, and the provider's own retries.
- WorldModel.Grounder.Ground: ended sessions, the prompt, retrieval and metering around a search are not modelled; completions and hits are parameters.
- WorldModel.Grounder.Predict: after a fetch of the action's own address, which of the two completions is returned is stated only as far as the first asks for a search.
- WorldModel.Session.Advance: what `append_learned` does with a fact (duplicates, the size cap, the file) and how the retriever embeds a step are not modelled, only which facts and steps reach them; a step's `task` text is left out.
- The write of a recovery archive is one step, and where it is put is not modelled.
- Edits of the knowledge files by hand, and other writers than `append_grounded`: the grounded file holds what was appended to it.
- The rendered knowledge base, learned facts and corpus chunks of `wmh/engine/knowledge.py`: text shaping around the cache.
- Extracting the corpus signature from traces, and persisting the winner.
- Everything behind the network: providers, judges, retrievers, sandboxes and the platform answer freely.
