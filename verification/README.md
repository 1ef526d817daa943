# Verified models of atomic-fi

Dafny models of five stateful parts of the repository, and proofs of what they keep over whole
runs. Every module follows one component:

| file | component |
|---|---|
| `key_prefix.dfy`, `immutable_loader.dfy`, `project_cache.dfy`, `s3_provider.dfy` | the ZenRule agent's cache of decision projects and its reconciliation with a bucket |
| `poll_schedule.dfy` | when agents poll |
| `event_stream.dfy`, `keepalive.dfy` | the keepalive that is woven into the copilot's event stream, and a client of that stream |
| `decision_graph.dfy`, `cycle_check.dfy`, `rule_editor.dfy`, `graph_actions.dfy` | editing, checking and saving decision graphs |
| `card_protocol.dfy` | the approval cards and Apply-all |
| `extraction.dfy`, `document_results.dfy` | merging document extractions into an application, and what each kind of document gives it |

`dafny verify dfyconfig.toml` checks the whole project.

Where the source updates state, the model does: classes hold the source's variables, and each
method is proved equal to a step function on their values; lemmas then speak about every sequence
of steps. What a component cannot decide is a parameter: the order in which a concurrent map is
iterated, the answers of a bucket that may change between listing and download, clock readings,
status changes, random identifiers, case folding, and the host's conversions of JSON values.

## What the proofs found

Each of these is a place where the code does less than its comments or its users might expect; the
model follows the code, and a theorem gives the exact condition.

- A keepalive is written whenever the upstream is silent, also inside a line. A comment frame is
  the no-op the comment at server.ts:20-26 calls it exactly at event boundaries
  (`FrameInvisibleExactly`); inside an open line it always shows in some continuation
  (`FrameInsideLineShows`). Before the first byte it is harmless unless the upstream starts with a
  byte order mark. So an upstream without that mark whose chunks all end at boundaries is safe under
  every schedule (`SafeUnderEverySchedule`); after any other chunk a frame can show (`OtherPausesShow`).
- Rounding to the poll boundary works on whole milliseconds. In the first millisecond after a
  multiple an agent picks that multiple and does not wait (`FirstMillisecondMissesNext`), so two
  clocks in one window can pick different boundaries (`SplitWindow`).
- Taken by itself, a save by the agent marks whatever the page holds when the request returns, not what was sent
  (`AgentSaveHidesExactly`); a manual save marks what was sent, and hides work only when the canvas
  went back to the previously persisted graph (`ManualSaveHidesExactly`). `AgentSaveHidesAnEdit` and
  `ManualSaveHidesAnUndo` are instances.
- When saves overlap, one that returns clears the mark although an older graph may have landed after
  its own (`SaveHidesExactly`, `OverlappingSavesHide`).
- A rename marks what the page then holds as saved, so edits made before that are discarded by the load
  that follows (`RenameEndsExactly`, `RenameDropsAnEdit`). An edit between the mark and the navigation
  can leave the page at a file that is gone (`RenameStaysBehind`), and so does a failing list refresh.
  It does not look whether the new name is taken, and then overwrites another rule
  (`RenameSparesOthersExactly`, `RenameOverwrites`).
- A delete_rule card for the open file leaves the page without unsaved changes and without a file
  (`CleanMeansPersisted`, `DeletedButClean`).
- The Apply-all snapshot loop does not look at the pending set again and can fire a card that is no
  longer executing (`KickFiresDemotedCard`, `KickIsLiveIffPending`).
- A card leaves the pending set as soon as it is fired, so each poll of the waiting phase finds it
  empty, and the phase ends once it has lasted 1.5 s; the 30 s cap is never what ends it
  (`PollEndsExactly`, `ApplyAllEnds`, `DrainInRun`). A card that becomes executing later is left to
  the user (`QueuedExactlyWhileRunning`, `LeftToTheUser`, `LeftBehind`).
- An archive member that cannot be opened fails the build even under `.config`
  (`ConfigMemberFailsExactly`, `LockedConfigFails`). Only an archive that arrives and does not load
  registers its hash (`RegistryExactly`); what is no archive at all is requested again at every poll
  (`NoArchiveAskedAgain`).
- A served project whose new content fails to download is no longer served, and the list of changes
  does not mention it (`StaleReportedUpdated`, `StaleLostUnreported`).
- The duplicate-name check of add_node is made when its card is rendered; two cards rendered together
  can both be applied and share a name (`DuplicateOnlyByRace`, `RaceDuplicates`). update_node does not
  check names at all (`UpdateDuplicates`); `NamesStayDistinctIff` says when names stay distinct.
- A middle node added after the output lands on the output (`PlacesDistinctIffTidy`).

## Reading notes

- The client in `event_stream.dfy` stands for any that follows the standard; it is no code of the
  repository. `EventStream.RoundTrip` and `EventStream.LineEndsAgree` validate it.
- `SoundChange` in `graph_actions.dfy` is what the editor's canvas is taken to guarantee of a change:
  distinct identifiers, and no edge that newly lacks an endpoint.
- In `card_protocol.dfy` the waiting phase goes on only when no microtask is queued, because microtasks
  end before the next timer callback, and no timer fires early.
- Section numbers in `event_stream.dfy` are those of the WHATWG HTML Standard (9.2.5 parsing, 9.2.6
  interpreting an event stream). Lines are read as bytes; line ends and field names are ASCII.
- The last persisted hash in the editor is the JSON text of a graph and is only compared for equality,
  so the model keeps the graph itself.
- A handler reads the clock once per synchronous block.
- In `keepalive.dfy` a chunk of no bytes counts as a write, as it does in the code.
- `Waits` and `Ideal` say that timers do not fire early and, for the keepalive, not late.

## Model

| member | source | states |
|---|---|---|
| KeyPrefix.FormatPrefix | external-deps/zenrule/src/util/prefix.rs:59-65 | a configured prefix ends in exactly one appended separator, and is kept when it already ends in one |
| KeyPrefix.StripPrepend | external-deps/zenrule/src/util/prefix.rs:20-42 | every key comes back from its object name, which lies under the prefix |
| KeyPrefix.PrependStrip | external-deps/zenrule/src/util/prefix.rs:20-42 | an object name comes back from its key if and only if it lies under the prefix |
| KeyPrefix.StripInjective | external-deps/zenrule/src/util/prefix.rs:20-33 | names under one prefix share a key only when they are equal |
| KeyPrefix.StripCollision | external-deps/zenrule/src/util/prefix.rs:24-27 | a name outside the prefix can collide with one inside it |
| ImmutableLoader.PasswordOnlyHelps | external-deps/zenrule/src/immutable_loader.rs:99-112 | with a password a member fails only where both ways of opening fail, without one none is decrypted, and neither changes its name or path |
| ImmutableLoader.ClassifyMeans | external-deps/zenrule/src/immutable_loader.rs:138-173 | which archive members fail the build, are skipped, or are kept, stated on the file and not on the code's branches |
| ImmutableLoader.BuildFailsExactly | external-deps/zenrule/src/immutable_loader.rs:138-176 | the build fails if and only if some member cannot be opened or is a rejected rule file |
| ImmutableLoader.ConfigMemberFailsExactly | external-deps/zenrule/src/immutable_loader.rs:140-158 | a member under .config fails an otherwise readable archive if and only if it cannot be opened |
| ImmutableLoader.LockedConfigFails | external-deps/zenrule/src/immutable_loader.rs:140-142 | an archive that fails to load only because of release data that cannot be opened |
| ImmutableLoader.LoadFindsLast | external-deps/zenrule/src/immutable_loader.rs:60-74 | a lookup returns the last kept graph whose folded name is the folded key, and not-found exactly when there is none |
| ImmutableLoader.ArchiveMemberReachable | external-deps/zenrule/src/immutable_loader.rs:160-172 | a kept member is reached under every spelling of its name |
| ImmutableLoader.DiskKeysAreSpelledPaths | external-deps/zenrule/src/provider/filesystem.rs:134-163 | a directory-built table has a path if and only if a file outside .config holds a graph under it, and then the last one's graph |
| ImmutableLoader.DiskFailsExactly | external-deps/zenrule/src/provider/filesystem.rs:134-158 | a directory fails to load if and only if some file outside .config is rejected |
| ImmutableLoader.DiskFileReachable | external-deps/zenrule/src/provider/filesystem.rs:134-163 | a file of a directory-built loader can be reached under some spelling if and only if its path is already folded |
| ProjectCache.DiffMember | external-deps/zenrule/src/provider/mod.rs:248-275 | exactly which created, updated and removed entries a difference holds |
| ProjectCache.DiffDistinct | external-deps/zenrule/src/provider/mod.rs:248-275 | over a listing with distinct keys no key occurs twice in the difference |
| ProjectCache.RefreshListMember | external-deps/zenrule/src/provider/mod.rs:118-125 | the refresh list is the created and updated keys, never a removed one |
| ProjectCache.AppliedAt | external-deps/zenrule/src/provider/mod.rs:127-154 | what the table holds for each key after a whole difference, from the set of entries alone |
| ProjectCache.OrderIndependent | external-deps/zenrule/src/provider/mod.rs:127-154 | applying the entries in any order gives the same table |
| ProjectCache.ReadsAreOldOrNew | external-deps/zenrule/src/provider/mod.rs:127-154 | at every intermediate point each key is served as before or as at the end, and keys outside the difference as before |
| ProjectCache.ReportedMember | external-deps/zenrule/src/provider/mod.rs:132-151 | the reported changes are those that took effect; a failed refresh is dropped |
| ProjectCache.ServedExactly | external-deps/zenrule/src/provider/mod.rs:127-154 | after one poll the served keys are the listing less the refreshed keys that are missing |
| ProjectCache.EmptyDiffIffInSync | external-deps/zenrule/src/provider/mod.rs:248-275 | the difference is empty if and only if keys and content hashes agree with the listing |
| ProjectCache.PollReachesSync | external-deps/zenrule/src/provider/mod.rs:127-154 | when every download arrives as listed, one poll reaches agreement and leaves unchanged projects untouched |
| ProjectCache.ListedOutcome | external-deps/zenrule/src/provider/mod.rs:259-269 | what one poll does to a listed key, and when it is downloaded at all |
| ProjectCache.AgentData.GetDiffResult | external-deps/zenrule/src/provider/mod.rs:127-154 | the loop that updates the shared table computes the applied table and the reported changes |
| S3Provider.ShownExactly | external-deps/zenrule/src/provider/s3.rs:152-167 | a listing shows exactly the named objects with a non-empty stripped key and an unregistered hash |
| S3Provider.DataDistinct | external-deps/zenrule/src/provider/s3.rs:152-167 | the projects read off a listing have distinct keys, because stripping is injective under the prefix |
| S3Provider.RequestedExactly | external-deps/zenrule/src/provider/s3.rs:152-171 | a poll asks for a key if and only if the listing shows it under an unregistered hash other than the served one |
| S3Provider.GetDecides | external-deps/zenrule/src/provider/s3.rs:57-122 | a key that is asked for is served afterwards if and only if its get brings an archive whose every member can be read, and then with the graphs of that archive and the hash of that response |
| S3Provider.DownloadedMember | external-deps/zenrule/src/provider/s3.rs:56-129 | a key is downloaded if and only if a get of it brings a readable archive, and is then the content of one such response |
| S3Provider.RegistryExactly | external-deps/zenrule/src/provider/s3.rs:102-112 | the failed registry grows by exactly the hashes of archives that arrived and do not load |
| S3Provider.PollThenQuiet | external-deps/zenrule/src/provider/s3.rs:133-178 | from any table, one poll without failures reaches the listing, and polling it again finds nothing to do |
| S3Provider.RunServesExactly | external-deps/zenrule/src/provider/s3.rs:133-178 | in every run each poll serves a key if and only if it is shown and is up to date or comes with a readable archive; what does not come stays the same project |
| S3Provider.FailedListingKeeps | external-deps/zenrule/src/provider/s3.rs:150-150 | a poll whose listing request fails leaves the table as it is |
| S3Provider.TransientFailureRetried | external-deps/zenrule/src/provider/s3.rs:169-177 | a requested key that no get brought in readable form is created again by the next poll if and only if that poll shows it |
| S3Provider.RegistryGrows | external-deps/zenrule/src/provider/mod.rs:298-314 | a registered hash stays registered for the rest of the run |
| S3Provider.FailedHashNeverFetched | external-deps/zenrule/src/provider/s3.rs:161-164 | an object listed under a registered hash is never downloaded or served by any later poll |
| S3Provider.ServedFromOneResponse | external-deps/zenrule/src/provider/s3.rs:57-122 | in every run with a changing bucket, engine and hash of each served project come from one response to its own key |
| S3Provider.StaleReportedUpdated | external-deps/zenrule/src/provider/mod.rs:127-154 | a served project enters the difference as updated if and only if it is listed under another, unregistered hash; it is reported if and only if its download succeeded, and else goes unserved and unreported |
| S3Provider.StaleLostUnreported | external-deps/zenrule/src/provider/mod.rs:132-151 | an instance: one stale project whose get fails is lost, and the poll reports no change |
| S3Provider.NoArchiveAskedAgain | external-deps/zenrule/src/provider/s3.rs:86-100 | an object that keeps answering with no archive, under an unregistered hash, is never served and requested by every poll of a run |
| S3Provider.Settles | external-deps/zenrule/src/provider/s3.rs:133-178 | over a bucket that stands still the second poll changes nothing and reports nothing |
| S3Provider.SettledEntry | external-deps/zenrule/src/provider/s3.rs:133-178 | all such a second poll finds to do is retrying objects that failed before |
| S3Provider.Agent.GenerateProjects | external-deps/zenrule/src/provider/s3.rs:56-129 | the download loop computes the refreshed projects and the registered hashes |
| S3Provider.Agent.LoadData | external-deps/zenrule/src/provider/s3.rs:133-179 | one poll in place is one step of the run, and a failed listing request is an error |
| PollSchedule.BoundaryExact | external-deps/zenrule/src/provider/mod.rs:316-327 | the k-th multiple of the interval is chosen if and only if the clock is in the k-th window, which starts one millisecond late |
| PollSchedule.WakesAtBoundary | external-deps/zenrule/src/provider/mod.rs:326-333 | the boundary is a multiple, the wait is shorter than the interval, and waking is less than a millisecond late |
| PollSchedule.SameBoundaryIffSameWindow | external-deps/zenrule/src/provider/mod.rs:316-333 | two agents choose one boundary if and only if one window holds both clocks |
| PollSchedule.FirstMillisecondMissesNext | external-deps/zenrule/src/provider/mod.rs:323-331 | after a multiple, the next one is chosen except during the first millisecond, when the wait is zero |
| PollSchedule.SplitWindow | external-deps/zenrule/src/provider/mod.rs:323-331 | two clocks between the same multiples that choose different boundaries |
| PollSchedule.StepsFit | external-deps/zenrule/src/provider/mod.rs:326-327 | the 64-bit conversion loses nothing for clocks below 2^63 milliseconds |
| Keepalive.FrameInvisibleExactly | external-deps/copilot-runtime/src/server.ts:20-26 | a comment frame is invisible whatever follows if and only if it comes at an event boundary |
| Keepalive.FrameInsideLineShows | external-deps/copilot-runtime/src/server.ts:42-47 | a frame inside any open line changes the events of some continuation |
| Keepalive.SameEvents | external-deps/copilot-runtime/src/server.ts:35-76 | with every frame at a boundary the client dispatches exactly the upstream's events |
| Keepalive.ErasureIsUpstream | external-deps/copilot-runtime/src/server.ts:35-76 | for every chunking and schedule, erasing the frames gives the upstream bytes in order up to the end |
| Keepalive.EndsAsUpstreamEnds | external-deps/copilot-runtime/src/server.ts:61-72 | the client sees an error exactly when an upstream failure is what first ends the stream |
| Keepalive.SilentAfterEnd | external-deps/copilot-runtime/src/server.ts:42-73 | nothing is written after the end of the stream |
| Keepalive.ClientSeesUpstream | external-deps/copilot-runtime/src/server.ts:35-76 | the client of the wrapped response sees the upstream's events when frames fall at boundaries |
| Keepalive.SafeUnderEverySchedule | external-deps/copilot-runtime/src/server.ts:35-76 | an upstream whose chunks all end at boundaries, or that sends nothing and then no byte order mark, is seen alike under every timer schedule |
| Keepalive.OtherPausesShow | external-deps/copilot-runtime/src/server.ts:35-76 | after chunks that do not end at a boundary some schedule and some next chunk change what the client sees |
| Keepalive.Period | external-deps/copilot-runtime/src/server.ts:51-51 | the timer period is never under one second |
| Keepalive.SilenceBounded | external-deps/copilot-runtime/src/server.ts:39-59 | silence stays below one interval plus one period, and no frame follows a byte within the interval |
| Keepalive.DeployedSilence | external-deps/copilot-runtime/src/server.ts:10-11 | at 15 s silence stays under 22.5 s and so under the 30 s idle timeout |
| Keepalive.KeepaliveStream.OnTick | external-deps/copilot-runtime/src/server.ts:42-51 | the timer callback in place is the tick step |
| Keepalive.KeepaliveStream.OnChunk | external-deps/copilot-runtime/src/server.ts:55-73 | a chunk, and the end of the pump when the controller refuses it |
| Keepalive.KeepaliveStream.OnError | external-deps/copilot-runtime/src/server.ts:61-72 | an upstream error, then the end of the pump |
| CycleCheck.MergeEdges | example-apps/atomic-fi-jdm-editor/src/copilot/actions/use-persist-actions.tsx:22-25 | the loop collects the merged arcs of the attached edges |
| CycleCheck.CyclicMeans | example-apps/atomic-fi-jdm-editor/src/copilot/actions/use-persist-actions.tsx:22-26 | a cycle is a ring of edges with two non-empty ids each; nothing else of an edge counts |
| CycleCheck.ThereAndBack | example-apps/atomic-fi-jdm-editor/src/copilot/actions/use-persist-actions.tsx:22-26 | an edge and one back are a cycle, whatever handles they have |
| CycleCheck.CyclicIffMergedCycle | example-apps/atomic-fi-jdm-editor/src/pages/decision-simple.tsx:36-44 | merging parallel edges neither loses nor makes a cycle |
| CycleCheck.HasCycle | example-apps/atomic-fi-jdm-editor/src/copilot/actions/use-persist-actions.tsx:26-26 | the worklist reports a cycle if and only if there is one, and none if and only if a topological order exists |
| CycleCheck.IsCyclic | example-apps/atomic-fi-jdm-editor/src/copilot/actions/use-persist-actions.tsx:21-27 | the gate refuses exactly the graphs whose edges close a cycle on their own ids, and lets through exactly those whose edges can be put in order |
| CycleCheck.StuckHasCycle | example-apps/atomic-fi-jdm-editor/src/copilot/actions/use-persist-actions.tsx:21-27 | a set in which every vertex has a predecessor holds a cycle |
| RuleEditor.ManualSaveSends | example-apps/atomic-fi-jdm-editor/src/pages/decision-simple.tsx:161-176 | in every run a click on Save sends the canvas under the page's name if and only if there is a name and no ring of edges |
| RuleEditor.AgentSaveSends | example-apps/atomic-fi-jdm-editor/src/copilot/actions/use-persist-actions.tsx:91-112 | an applied save_rule card sends it if and only if there is no ring of edges |
| RuleEditor.RenameSends | example-apps/atomic-fi-jdm-editor/src/copilot/actions/use-persist-actions.tsx:172-191 | an applied rename_rule card sends it under the new name if and only if the page has another name and there is no ring |
| RuleEditor.SentIsStored | example-apps/atomic-fi-jdm-editor/src/copilot/actions/use-persist-actions.tsx:108-112 | whatever happens meanwhile, what was sent is what the store holds once it gets there |
| RuleEditor.DeleteCardErases | example-apps/atomic-fi-jdm-editor/src/copilot/actions/use-persist-actions.tsx:315-317 | whatever happens meanwhile, an applied delete_rule card removes its file once it completes |
| RuleEditor.WritesAreCheckedSnapshots | example-apps/atomic-fi-jdm-editor/src/copilot/actions/use-persist-actions.tsx:91-118 | every graph written in any run is, unchanged, a canvas without a ring of edges of the moment its save began |
| RuleEditor.StoreOnlyGrowsByWrites | example-apps/atomic-fi-jdm-editor/src/copilot/actions/use-persist-actions.tsx:108-112 | whatever the store holds was there at the start or was written |
| RuleEditor.StoreStaysAcyclic | example-apps/atomic-fi-jdm-editor/src/pages/decision-simple.tsx:161-186 | an acyclic store stays acyclic over every run |
| RuleEditor.LastTouchDecides | example-apps/atomic-fi-jdm-editor/src/copilot/actions/use-persist-actions.tsx:108-112 | in every run the last write or removal of a file decides what the store holds of it |
| RuleEditor.FilesVanishExactly | example-apps/atomic-fi-jdm-editor/src/copilot/actions/use-persist-actions.tsx:315-318 | in every run a file goes exactly when a rename away from it or an applied delete_rule card naming it completes; the rename has by then written the canvas it sent under another name, which may have gone since |
| RuleEditor.OverwrittenExactly | example-apps/atomic-fi-jdm-editor/src/copilot/actions/use-persist-actions.tsx:191-191 | in every run a stored graph is replaced exactly when another is written under its name, from a page of that name or by renaming another rule onto it |
| RuleEditor.RenameSparesOthersExactly | example-apps/atomic-fi-jdm-editor/src/copilot/actions/use-persist-actions.tsx:172-193 | a rename leaves every other rule as it was if and only if the new name is unused or holds the same graph |
| RuleEditor.RenameOverwrites | example-apps/atomic-fi-jdm-editor/src/copilot/actions/use-persist-actions.tsx:191-193 | an instance: a rename onto an existing rule after which no copy of that rule is left |
| RuleEditor.RenameEndsExactly | example-apps/atomic-fi-jdm-editor/src/copilot/actions/use-persist-actions.tsx:203-208 | a rename with edits before and after it marks the page: the mark ends set if and only if there was a real edit after; the page names an existing file if and only if the list was refreshed and no such edit, or the user's answer, kept it; what loading shows; and exactly when unsaved work is hidden |
| RuleEditor.RenameDropsAnEdit | example-apps/atomic-fi-jdm-editor/src/pages/decision-simple.tsx:236-241 | an instance: an agent edit before the mark is shown as saved and gone after the load |
| RuleEditor.RenameStaysBehind | example-apps/atomic-fi-jdm-editor/src/pages/decision-simple.tsx:188-196 | an instance: an edit during the list refresh blocks the navigation, and the page keeps the name of the removed file |
| RuleEditor.CleanMeansPersisted | example-apps/atomic-fi-jdm-editor/src/pages/decision-simple.tsx:118-186 | over every quiet run, delete_rule cards included: with no unsaved-changes mark the canvas is what the store holds if and only if the file was not removed after its last write |
| RuleEditor.CleanUnlessDeleted | example-apps/atomic-fi-jdm-editor/src/pages/decision-simple.tsx:118-186 | so it is in every such run in which no applied delete_rule names the open file |
| RuleEditor.DeletedButClean | example-apps/atomic-fi-jdm-editor/src/copilot/actions/use-persist-actions.tsx:315-318 | an instance: delete_rule of the open file leaves a page without the mark and without a file |
| RuleEditor.OnlyRealEditsMark | example-apps/atomic-fi-jdm-editor/src/pages/decision-simple.tsx:150-159 | after a load the mark is set if and only if some report differs from the loaded graph |
| RuleEditor.ManualSaveHidesExactly | example-apps/atomic-fi-jdm-editor/src/pages/decision-simple.tsx:161-186 | for one save and edits made while it is in flight: when a manual save hides unsaved work, exactly |
| RuleEditor.AgentSaveHidesExactly | example-apps/atomic-fi-jdm-editor/src/pages/decision-simple.tsx:236-241 | for one save and edits made while it is in flight: an agent save clears the mark, and hides work exactly when the last edit changed the sent graph |
| RuleEditor.PersistedExactly | example-apps/atomic-fi-jdm-editor/src/copilot/actions/use-persist-actions.tsx:108-113 | in every run without renames, however saves overlap: the store holds what the canvas shows if and only if the save that landed last sent just that, or the untouched file did so from the start |
| RuleEditor.SaveHidesExactly | example-apps/atomic-fi-jdm-editor/src/pages/decision-simple.tsx:161-186 | in every run without renames: which returning saves leave the mark on, and that one hides work if and only if it does not and the save that landed last sent another graph than is shown, or the file is gone |
| RuleEditor.OverlappingSavesHide | example-apps/atomic-fi-jdm-editor/src/pages/decision-simple.tsx:161-186 | an instance: a manual and an agent save overlap, the older one lands last, and the page shows no unsaved changes |
| RuleEditor.AgentSaveHidesAnEdit | example-apps/atomic-fi-jdm-editor/src/pages/decision-simple.tsx:236-241 | an instance: an agent edit during an agent save is shown as saved |
| RuleEditor.ManualSaveHidesAnUndo | example-apps/atomic-fi-jdm-editor/src/pages/decision-simple.tsx:161-181 | an instance: a canvas that goes back to the loaded graph during a manual save is shown as saved |
| RuleEditor.Editor.HandleChange | example-apps/atomic-fi-jdm-editor/src/pages/decision-simple.tsx:150-159 | the canvas handler in place |
| RuleEditor.Editor.BeginSave | example-apps/atomic-fi-jdm-editor/src/pages/decision-simple.tsx:161-174 | the manual save sends the canvas exactly when it has a name and no cycle |
| RuleEditor.Editor.BeginAgentSave | example-apps/atomic-fi-jdm-editor/src/copilot/actions/use-persist-actions.tsx:91-112 | the agent save sends the canvas exactly when it has no cycle |
| RuleEditor.Editor.BeginRename | example-apps/atomic-fi-jdm-editor/src/copilot/actions/use-persist-actions.tsx:172-191 | the rename sends the canvas under the new name exactly when its three checks pass |
| RuleEditor.Editor.OnSaved | example-apps/atomic-fi-jdm-editor/src/pages/decision-simple.tsx:236-241 | the agent's save marks the page's current revision and graph |
| GraphActions.ResolvedExists | example-apps/atomic-fi-jdm-editor/src/copilot/actions/use-graph-actions.tsx:75-78 | a resolved reference is the id of an existing node |
| GraphActions.ResolveMeans | example-apps/atomic-fi-jdm-editor/src/copilot/actions/use-graph-actions.tsx:75-78 | an id stands for itself, and only what is no id is taken as a name |
| GraphActions.ResolveExactly | example-apps/atomic-fi-jdm-editor/src/copilot/actions/use-graph-actions.tsx:75-78 | resolving gives exactly what an argument means: an id, or else the first node of that name |
| GraphActions.RefusedExactly | example-apps/atomic-fi-jdm-editor/src/copilot/actions/use-graph-actions.tsx:121-124 | a card refuses, and then changes nothing, if and only if its name was taken or an argument meant no node at its rendering |
| GraphActions.AddedNodeIsAsked | example-apps/atomic-fi-jdm-editor/src/copilot/actions/use-graph-actions.tsx:167-182 | an applied add_node whose name was free at rendering leaves, last, a node of the drawn id with the kind, name and content asked for, at the place asked for or a well-chosen one |
| GraphActions.AddedEdgeConnects | example-apps/atomic-fi-jdm-editor/src/copilot/actions/use-graph-actions.tsx:440-455 | an applied add_edge leaves, last, an edge from what its source meant to what its target meant at rendering |
| GraphActions.RemovedNodeIsAsked | example-apps/atomic-fi-jdm-editor/src/copilot/actions/use-graph-actions.tsx:317-357 | an applied remove_node leaves, in order, exactly the nodes other than the one meant at rendering and exactly the edges that do not touch it |
| GraphActions.RemovedEdgeIsAsked | example-apps/atomic-fi-jdm-editor/src/copilot/actions/use-graph-actions.tsx:507-510 | an applied remove_edge leaves, in order, exactly the edges of other ids, and all nodes |
| GraphActions.UpdatedNodeIsAsked | example-apps/atomic-fi-jdm-editor/src/copilot/actions/use-graph-actions.tsx:225-274 | an applied update_node sets the named fields of the node meant at rendering, if it is still there, and changes nothing else |
| GraphActions.DuplicateOnlyByRace | example-apps/atomic-fi-jdm-editor/src/copilot/actions/use-graph-actions.tsx:121-124 | an applied add_node makes names collide exactly when its name is taken by then, and only by a step after its rendering |
| GraphActions.NamesStayDistinctIff | example-apps/atomic-fi-jdm-editor/src/copilot/actions/use-graph-actions.tsx:121-124 | in every run node names stay distinct if and only if no applied add_node or update_node gives a name that another node then has, and no canvas change reports a duplicate |
| GraphActions.RaceDuplicates | example-apps/atomic-fi-jdm-editor/src/copilot/actions/use-graph-actions.tsx:121-182 | an instance: two add_node cards rendered together and both applied |
| GraphActions.UpdateDuplicates | example-apps/atomic-fi-jdm-editor/src/copilot/actions/use-graph-actions.tsx:262-274 | an instance with no race: an update_node that takes the name of another node |
| GraphActions.NodeIdsAfter | example-apps/atomic-fi-jdm-editor/src/copilot/actions/use-graph-actions.tsx:261-357 | how each applied card changes the set of nodes |
| GraphActions.EdgesAfter | example-apps/atomic-fi-jdm-editor/src/copilot/actions/use-graph-actions.tsx:347-510 | how each applied card changes the set of edges |
| GraphActions.RunKeepsIdsDistinct | example-apps/atomic-fi-jdm-editor/src/copilot/actions/use-graph-actions.tsx:167-182 | in every run of cards with fresh ids and canvas changes, node ids and edge ids stay distinct |
| GraphActions.DanglesExactlyByGap | example-apps/atomic-fi-jdm-editor/src/copilot/actions/use-graph-actions.tsx:397-457 | in every run of cards and canvas changes an edge lacks an endpoint if and only if a card or the canvas removed that between rendering and applying the edge's card, and the canvas has not shown it since |
| GraphActions.NoGapNoDangling | example-apps/atomic-fi-jdm-editor/src/copilot/actions/use-graph-actions.tsx:397-457 | without such a gap the graph stays well-formed |
| GraphActions.PlacesDistinctIffTidy | example-apps/atomic-fi-jdm-editor/src/copilot/actions/use-graph-actions.tsx:47-62 | added nodes have distinct places if and only if there is one input, one output, and no middle node after the output |
| GraphActions.OnTheGrid | example-apps/atomic-fi-jdm-editor/src/copilot/actions/use-graph-actions.tsx:38-62 | all added nodes share a row, a multiple of the gap apart |
| GraphActions.OutputEndsTheRow | example-apps/atomic-fi-jdm-editor/src/copilot/actions/use-graph-actions.tsx:51-56 | an output added last stands exactly one gap right of the rightmost other node |
| CardProtocol.DecidedAtMostOnce | example-apps/atomic-fi-jdm-editor/src/copilot/cards/preview-card.tsx:107-126 | under every interleaving each card runs at most one handler, at most once |
| CardProtocol.FirstDecisionWins | example-apps/atomic-fi-jdm-editor/src/copilot/cards/preview-card.tsx:107-126 | in every run the handler a card has run is the one of the first click, microtask or snapshot turn that accepted or rejected it, and there is none before such a step |
| CardProtocol.PendingAfterEffect | example-apps/atomic-fi-jdm-editor/src/copilot/cards/preview-card.tsx:128-141 | in every run a mounted card is pending after its effect if and only if it is executing and undecided |
| CardProtocol.PendingExactly | example-apps/atomic-fi-jdm-editor/src/copilot/cards/preview-card.tsx:128-141 | once effects have run the pending set is exactly the mounted, executing, undecided cards |
| CardProtocol.NewCardsAreFired | example-apps/atomic-fi-jdm-editor/src/copilot/cards/apply-all-footer.tsx:33-44 | while Apply-all is on, registered cards are fired by their microtasks unless they left the set |
| CardProtocol.MicrotaskFiresExactly | example-apps/atomic-fi-jdm-editor/src/copilot/cards/apply-all-footer.tsx:39-43 | a microtask applies its card exactly when the flag is on and the card pending |
| CardProtocol.PollEndsExactly | example-apps/atomic-fi-jdm-editor/src/copilot/cards/apply-all-footer.tsx:97-112 | in every run each poll of the waiting phase finds the set empty and ends Apply-all if and only if more than 1500 ms have passed since the phase began; the cap never does |
| CardProtocol.KickIsLiveIffPending | example-apps/atomic-fi-jdm-editor/src/copilot/cards/apply-all-footer.tsx:88-92 | the card the snapshot loop fires is mounted and executing if and only if it is still pending |
| CardProtocol.KickFiresDemotedCard | example-apps/atomic-fi-jdm-editor/src/copilot/cards/apply-all-footer.tsx:88-92 | a run in which the loop fires a card that is no longer executing |
| CardProtocol.FlagIsRunning | example-apps/atomic-fi-jdm-editor/src/copilot/cards/apply-all-footer.tsx:83-114 | in every run the flag is on exactly from the start of an Apply-all to the poll that outlasts the stable window |
| CardProtocol.QueuedExactlyWhileRunning | example-apps/atomic-fi-jdm-editor/src/copilot/cards/apply-all-footer.tsx:33-44 | in every run a card that registers gets the microtask that applies it if and only if Apply-all was started and its ending poll has not yet come |
| CardProtocol.LeftToTheUser | example-apps/atomic-fi-jdm-editor/src/copilot/cards/apply-all-footer.tsx:39-43 | once Apply-all is not running no card is decided without a click on it or another Apply-all |
| CardProtocol.LeftBehind | example-apps/atomic-fi-jdm-editor/src/copilot/cards/apply-all-footer.tsx:97-112 | an instance: a card that becomes executing after the ending poll is left pending, with nothing to fire it |
| CardProtocol.ApplyAllEnds | example-apps/atomic-fi-jdm-editor/src/copilot/cards/apply-all-footer.tsx:83-114 | under every interleaving an Apply-all over n cards ends within n + 9 turns, at most eight of them polls, with the flag off and every card of its snapshot decided |
| CardProtocol.EndIsReachable | example-apps/atomic-fi-jdm-editor/src/copilot/cards/apply-all-footer.tsx:83-114 | from every state that satisfies the invariant, microtasks and the handler's own turns lead to its end |
| CardProtocol.Drain | example-apps/atomic-fi-jdm-editor/src/copilot/cards/apply-all-footer.tsx:97-109 | whatever the polls find: at most 150 of them, an early end exactly at the first stable window, and the turns of the protocol's waiting phase |
| CardProtocol.DrainInRun | example-apps/atomic-fi-jdm-editor/src/copilot/cards/apply-all-footer.tsx:97-114 | over the states of a run the waiting loop stops by its eighth poll, exactly where the run's waiting phase ends with the flag off |
| CardProtocol.CardBoard.PendingApply | example-apps/atomic-fi-jdm-editor/src/copilot/cards/preview-card.tsx:107-119 | the apply handler in place |
| CardProtocol.CardBoard.OnEffect | example-apps/atomic-fi-jdm-editor/src/copilot/cards/preview-card.tsx:128-141 | the registration effect with its cleanup, in place |
| CardProtocol.CardBoard.RegisterPending | example-apps/atomic-fi-jdm-editor/src/copilot/cards/apply-all-footer.tsx:33-44 | registration in place |
| CardProtocol.CardBoard.OnMicrotask | example-apps/atomic-fi-jdm-editor/src/copilot/cards/apply-all-footer.tsx:39-43 | the deferred check and fire, in place |
| Extraction.AccumulationRefinesSequence | example-apps/onboarding-flow/src/features/documents/extraction.ts:372-410 | for any mappers whose objects extend their inputs, the accumulated form equals plain sequential update |
| Extraction.MapperExtends | example-apps/onboarding-flow/src/features/documents/extraction.ts:154-370 | every object in every mapper's update extends the one it was computed from |
| Extraction.ExtractionIsSequential | example-apps/onboarding-flow/src/features/documents/extraction.ts:372-410 | for every list of results and application, the fold is the sequential update, exceptions included |
| Extraction.ExtractionKeeps | example-apps/onboarding-flow/src/features/documents/extraction.ts:154-356 | filled address and owner lists are unchanged, directors keep ids, names, order and number, no profile value is lost |
| Extraction.ProfileComesFrom | example-apps/onboarding-flow/src/features/documents/extraction.ts:154-390 | for every list of results the fold leaves in each profile field what the last document to state it says, else the application's value, else, for the name, the first bank statement's account holder |
| DocumentResults.RaisesExactly | example-apps/onboarding-flow/src/features/documents/extraction.ts:154-370 | exactly when mapping a result raises, by type, from what the document says and what is filled already |
| DocumentResults.SkippedResults | example-apps/onboarding-flow/src/features/documents/extraction.ts:379-385 | a failed or empty result changes nothing, and one without a type raises |
| DocumentResults.OthersUntouched | example-apps/onboarding-flow/src/features/documents/extraction.ts:154-370 | which sections each kind of document can change; it leaves all others as they are |
| DocumentResults.MemorandumFillsDirectors | example-apps/onboarding-flow/src/features/documents/extraction.ts:180-191 | with none yet, one director per listed one, in order, with name, nationality, and a signatory if and only if the folded role contains chairman |
| DocumentResults.MemorandumFillsOwners | example-apps/onboarding-flow/src/features/documents/extraction.ts:193-205 | with none yet, one owner per shareholder of at least ten per cent, in order |
| DocumentResults.MemorandumFillsAddress | example-apps/onboarding-flow/src/features/documents/extraction.ts:168-178 | with none yet, the registered address |
| DocumentResults.MemorandumFillsActivity | example-apps/onboarding-flow/src/features/documents/extraction.ts:207-213 | the first activity as the primary one, up to three more as secondary ones, all else kept |
| DocumentResults.PassportAddsDirector | example-apps/onboarding-flow/src/features/documents/extraction.ts:244-258 | with no directors yet, the holder as a signatory |
| DocumentResults.PassportRefinesKnown | example-apps/onboarding-flow/src/features/documents/extraction.ts:227-242 | three fields of everyone with the id of the first director of that name, and no one else |
| DocumentResults.NationalIdRefinesKnown | example-apps/onboarding-flow/src/features/documents/extraction.ts:272-281 | likewise the nationality only, given an address |
| DocumentResults.FullNameMeans | example-apps/onboarding-flow/src/features/documents/extraction.ts:223-225 | the stated full name, or else first and last name as far as there are any |
| DocumentResults.ProofFillsAddress | example-apps/onboarding-flow/src/features/documents/extraction.ts:340-356 | with none yet, the stated address with its defaults |
| DocumentResults.StatementFillsTransfer | example-apps/onboarding-flow/src/features/documents/extraction.ts:294-304 | credits before debits as the volume, the number of transactions, and a purpose where there is none |
| Extraction.PassportRefines | example-apps/onboarding-flow/src/features/documents/extraction.ts:229-242 | a passport refines three fields of the directors with the found id and leaves the others |
| Extraction.OwnersAreQualified | example-apps/onboarding-flow/src/features/documents/extraction.ts:193-205 | the owners are the shareholders of at least ten per cent, in order |
| Extraction.FindDirectorFinds | example-apps/onboarding-flow/src/features/documents/extraction.ts:227-227 | the search finds the first director of that name, or raises on a name that is no text |
| Extraction.UpdatedDirectorsSame | example-apps/onboarding-flow/src/features/documents/extraction.ts:231-240 | a director update keeps ids, names and order |
| Extraction.MergeDeeply | example-apps/onboarding-flow/src/features/documents/extraction.ts:392-410 | the merging loop, in whatever order the parts are listed |
| Extraction.MapExtraction | example-apps/onboarding-flow/src/features/documents/extraction.ts:372-390 | the whole fold: its update, spread over the application, is the sequence of contributions and keeps filled data |

## Left out

- The cycle search inside `graphology-dag`: the source calls `hasCycle`; the worklist here stands for it and is proved against the definition of a cycle.
- Evaluation of rules, the zip and JSON readers, React, CopilotKit and React Flow internals: their results are parameters or steps from outside.
- GCS, Azure and zip providers; the insert-only refresh of the filesystem provider, whose served keys only grow.
- Listings of more than 1000 objects: the source reads one page, and a poll here is over what that page lists.
- `Agent::project`'s second lookup by release id, access tokens, and the periodic job beyond its first boundary.
- The content-type test before the keepalive is installed, and the copying of response headers.
- Last-Event-ID on reconnection: a frame may put a received event id in force earlier than the upstream would; dispatched events do not depend on it.
- Requests that reach the rule store after the client has seen them fail, and other writers to the store.
- RuleEditor.CleanMeansPersisted: assumes no edit or load while a save is in flight, and no rename. `SaveHidesExactly` and `PersistedExactly` say what happens otherwise in runs without renames, and `RenameEndsExactly` what one rename does; renames that overlap with other saves are covered only by the results on the store.
- Navigating to another rule inside one mounted page, by create_rule or open_rule.
- Remounted cards: the applied guard belongs to one mounted component. Destructive cards never register with Apply-all; the one of delete_rule is a step of the rule editor.
- Coercions by the JavaScript host when a document's value has an unexpected type (numeric text compared with ten, an object with a length posing as a list): the comparison is a parameter and lengths count only when they are numbers.
- Document classification, upload, file encoding, provenance and all user interface rendering.
- The Postgres ledger, the balance trigger and the screening gate.
