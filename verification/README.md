# Verified models of the oVirt test harness

Dafny models of the self-contained algorithms of the oVirt automation harness, with proofs of what they achieve. Paths
below are relative to the repository.

- **The job pool** (art/rhevm_api/utils/jobs.py). `JobPool.dfy` is a state machine over the steps that threads can observe
  of each other: taking a job, marking it, calling each handler, `task_done`, the zero test, the flag, `stop`, `join`.
  `JobPoolSafety.dfy` proves an invariant for any number of workers and any schedule, `JobPoolProgress.dfy` bounds the work
  and characterises the states in which only polling is left, `JobPoolRuns.dfy` counts what whole runs do, and
  `JobPoolReturns.dfy` and `JobPoolHangs.dfy` say for which configurations `join` is sure to return. `JobsSet.dfy` is the code
  that fills the queue before `start`.
- **The lease catcher** (art/rhevm_api/utils/mac2ip.py). `LeaseStream.dfy` cuts chunks into lines, `LeaseCatcher.dfy` runs
  the automaton and proves the two layers together.
- **The schema compiler** (art/generateDS). `IncludePaths.dfy`, `IncludeResolver.dfy`, `IncludeRuns.dfy`,
  `IncludeOrder.dfy`, `IncludeResults.dfy`, `IncludeCycles.dfy`, `IncludeBounds.dfy` and `IncludeExamples.dfy` resolve includes over a possibly
  cyclic graph of files; `TypeNames.dfy` makes fresh names; `GroupExpansion.dfy` and
  `GroupResults.dfy` flatten group references; `ClassOrder.dfy` orders the classes; `MixedBases.dfy` equalises flags along
  base chains; `DateTimeText.dfy`, `Decimal.dfy` and `XmlQuoting.dfy` are the text functions of the generated code.
- **Data algorithms.** `SettingsMerge.dfy`, `SettingsDicts.dfy` and `SettingsRuntime.dfy`: the nested dictionary merge, by
  value, in place, and for a whole configuration. `StableSort.dfy` and `ElementAlignment.dfy`: lining up expected and actual
  elements. `NameLookup.dfy`: the expiring address cache. `InventoryDiff.dfy`: the inventory diff.

Code that changes state is modelled by classes and methods whose contracts tie the new state to a function of the old one;
the lemmas are about those functions.

Where the code does less than its documentation suggests, the model follows the code, an exact condition says when it does
what is expected, and a lemma shows a case where it does not:

- `join` can wait for ever: when `stop` comes before a thread has entered `run`, when targets end their threads, when a handler
  raises, or when a job is taken before its handlers are attached. `ReturnsExactly` names the configurations for which it
  cannot happen, `StuckExactly` the states in which it has; `StopBeforeBeginHangs` and `ExitStrandsTheQueue` are examples.
- Include resolution below an absolute base cannot complete when relative references lead round a cycle through "." or "..",
  because only relative locations are normalised; nor, for schemas whose directory is named by slashes only, when they lead round
  any cycle, because `os.path.split` keeps those slashes and joining adds one more. In Python it ends with an error of the stack or
  of the path length. `CompletesExactly` is the exact condition wherever no file is met both by a relative and by an absolute
  location (so for every root below an absolute base, `AbsoluteCompletesExactly`, and with relative references only,
  `RelativeCompletesExactly`); where one is, the order of the references decides (`OrderDecides`). `AbsoluteCycleNeverCompletes`
  and `RootDirectoryNeverCompletes` are examples.
- A nested group that is used twice is reported as circular and dropped (`ExpandExactly`, `SharedNestedGroupIsDropped`).
- The loop over postponed classes does not end when a base name needs cleaning (`LoopEndsExactly`, `UncleanSchemaHangs`).
- A chain made uniform can be split again by a sibling visited later (`UniformExactly`, `LaterSiblingSplitsChain`).
- Offsets beyond 14 hours are written but not read back (`RoundTrip`).
- The inventory diff fails when more old resources have an id than there are copies of the first current one with it
  (`DiffSucceedsGenerally`); with distinct current ids that is any repeated matched id (`DiffSucceedsExactly`).

## Model

| member | source | states |
|---|---|---|
| `JobPool.OwingUpdate` | art/rhevm_api/utils/jobs.py:287-295 | how one worker's step moves the number of jobs taken whose `task_done` has not been called |
| `JobPoolSafety.InitInv` | art/rhevm_api/utils/jobs.py:251-263 | the pool as `start` leaves it satisfies the invariant, for any jobs, handlers and number of threads |
| `JobPoolSafety.StepAccounted` | art/rhevm_api/utils/jobs.py:287-300 | every step keeps: unfinished = queued + taken and still owing + given up |
| `JobPoolSafety.StepOrder` | art/rhevm_api/utils/jobs.py:337-346 | every step keeps: taken followed by queued is the list as added |
| `JobPoolSafety.StepUnfinished` | art/rhevm_api/utils/jobs.py:287-293 | the count never rises or goes below zero, and `task_done` is never called at zero |
| `JobPoolSafety.StepStates` | art/rhevm_api/utils/jobs.py:160-173 | every step keeps: a taken job is FINISHED or some worker is still on the way to marking it |
| `JobPoolSafety.StepAllDone` | art/rhevm_api/utils/jobs.py:287-295 | although `task_done`, the zero test and `set` are separate steps, the flag is only set at zero, and at zero someone has set it or is about to |
| `JobPoolSafety.StepFlags` | art/rhevm_api/utils/jobs.py:330-370 | the stop request of a worker is lost exactly when it came before `run` was entered |
| `JobPoolSafety.StepEndsThread` | art/rhevm_api/utils/jobs.py:338-370 | a thread is killed by an exiting target after its handlers and by nothing else, exceptions of handlers included; `run` returns when a worker finds that it was told to stop and only then |
| `JobPoolSafety.StepMain` | art/rhevm_api/utils/jobs.py:265-285 | the joining thread passes the queue only at zero and a thread only when it is over |
| `JobPoolSafety.StepInv` | art/rhevm_api/utils/jobs.py:337-370 | every step of every thread keeps the whole invariant |
| `JobPoolSafety.RunInv` | art/rhevm_api/utils/jobs.py:337-370 | so does every run, in any interleaving |
| `JobPoolSafety.AccountingHolds` | art/rhevm_api/utils/jobs.py:241-249 | in every reachable state the count is exact and the entries have been handed out once each, in order |
| `JobPoolRuns.StepRan` | art/rhevm_api/utils/jobs.py:160-173 | every step keeps: an entry that was taken waits in a worker's hands or its target has run |
| `JobPoolRuns.EachRunsOnce` | art/rhevm_api/utils/jobs.py:160-173 | in every run each entry's target runs at most once, and exactly once by the time the count is zero |
| `JobPoolRuns.StateIsLastGiven` | art/rhevm_api/utils/jobs.py:158-173 | in every run a job is INITED until a worker starts it, and then in the state that the last start or end of it gave |
| `JobPoolRuns.AnyDoneExactly` | art/rhevm_api/utils/jobs.py:227-249 | the flag of `waitUntilAnyDone` is up if and only if its setter has been called as a handler |
| `JobPoolRuns.AnyDoneIsSafe` | art/rhevm_api/utils/jobs.py:160-173 | and never before some target has run |
| `JobPoolRuns.RunsToStuck` | art/rhevm_api/utils/jobs.py:337-370 | from every reachable state some continuation by real work comes to a state in which only polling is left |
| `JobPoolSafety.ZeroMeansFinished` | art/rhevm_api/utils/jobs.py:287-293 | a count of zero means: queue empty, nobody owes anything, every added job FINISHED |
| `JobPoolSafety.AllDoneIsSafe` | art/rhevm_api/utils/jobs.py:211-217 | `allDone` is true only when every added job is FINISHED, whatever bodies and handlers do |
| `JobPoolSafety.NothingStartsAfterJoin` | art/rhevm_api/utils/jobs.py:275-285 | once `join` is past the queue no job is taken or entered, however the run goes on |
| `JobPoolSafety.JoinReturnsDone` | art/rhevm_api/utils/jobs.py:275-285 | when `join` returns, all threads are over, all jobs FINISHED, and the flag is up unless there were no jobs |
| `JobPoolSafety.NobodyAnnounces` | art/rhevm_api/utils/jobs.py:287-295 | without jobs the flag is never set |
| `JobPoolSafety.MuteJobBlocksForever` | art/rhevm_api/utils/jobs.py:246-249 | a job taken before its handlers are attached, or whose start handler raises, keeps the count above zero for ever |
| `JobPoolProgress.StepMeasure` | art/rhevm_api/utils/jobs.py:337-370 | each step lowers a measure over queue, job phases, handlers and the joining thread; idle polling keeps it |
| `JobPoolProgress.WorkIsBounded` | art/rhevm_api/utils/jobs.py:337-370 | no run does more than a fixed number of steps besides polling |
| `JobPoolProgress.StuckExactly` | art/rhevm_api/utils/jobs.py:275-285 | the states where only polling is left, if and only if: join over, entries lost, all threads dead with a queue, or a stop request lost |
| `JobPoolProgress.StepSound` | art/rhevm_api/utils/jobs.py:160-173 | jobs that are well behaved are never given up and never kill a thread |
| `JobPoolProgress.HealthyPoolCompletes` | art/rhevm_api/utils/jobs.py:265-285 | with such jobs a state where only polling is left has everything finished, and `join` has returned there if and only if no stop request came before its thread began |
| `JobPoolReturns.StepKept` | art/rhevm_api/utils/jobs.py:337-370 | every step keeps: the ended threads are those that took an exiting entry, and one more has begun |
| `JobPoolReturns.NeededWorkers` | art/rhevm_api/utils/jobs.py:251-263 | at a count of zero at least as many threads have begun as the exiting entries before the last one, and one |
| `JobPoolReturns.SureReturns` | art/rhevm_api/utils/jobs.py:275-285 | for a sure configuration every run that is carried on as far as it goes ends with `join` returned |
| `JobPoolHangs.RaisingHangs` | art/rhevm_api/utils/jobs.py:56-60 | one handler that raises is enough for a run in which `join` never returns |
| `JobPoolHangs.TooManyThreadsHang` | art/rhevm_api/utils/jobs.py:330-359 | one thread more than the entries need is enough for a run in which its stop request comes too early |
| `JobPoolHangs.TooFewThreadsHang` | art/rhevm_api/utils/jobs.py:348-370 | as many exiting entries as threads before the last entry make every run end with entries queued |
| `JobPoolHangs.ReturnsExactly` | art/rhevm_api/utils/jobs.py:251-285 | for every configuration: `join` returns in every run if and only if there are no threads, or no timeout, every job reports, no handler raises, and the entries before the last end all threads but one |
| `JobPoolHangs.HealthyReturnsExactly` | art/rhevm_api/utils/jobs.py:251-285 | without exiting targets: if and only if there is exactly one thread and something to do, or no thread |
| `JobPoolProgress.StopBeforeBeginHangs` | art/rhevm_api/utils/jobs.py:330-359 | a reachable state in which `join` waits for ever because line 359 overwrote line 335 |
| `JobPoolProgress.ExitStrandsTheQueue` | art/rhevm_api/utils/jobs.py:348-370 | a reachable state in which a target that exits the thread leaves an entry queued for ever |
| `JobsSet.Event.Handle` | art/rhevm_api/utils/jobs.py:43-46 | attaching adds to a set |
| `JobsSet.Event.Invoke` | art/rhevm_api/utils/jobs.py:56-60 | each subscriber is called at most once, all of them unless one raises, and nothing after one that raises |
| `JobsSet.CalledOnce` | art/rhevm_api/utils/jobs.py:56-60 | among the calls of one event a subscriber occurs once or not at all |
| `JobsSet.JobsSet.FillThenFinish` | art/rhevm_api/utils/jobs.py:230-249 | fills the queue and ends every new job: the calls are those of the job's own subscribers, all of them or up to the first that raises, and although the jobs share one event each end calls `task_done` exactly once unless another subscriber raises |
| `JobsSet.JobObject.Copy` | art/rhevm_api/utils/jobs.py:234 | a shallow copy is a new job that shares the event |
| `JobsSet.JobsSet.AddJobs` | art/rhevm_api/utils/jobs.py:241-249 | queues the jobs in order up to the first that finds the queue full, and attaches both handlers to exactly those |
| `JobsSet.JobsSet.FillQueue` | art/rhevm_api/utils/jobs.py:230-239 | ends after exactly the free slots; the new jobs are distinct copies, share one event, and that event holds each pool handler once |
| `JobsSet.JobsSet.Start` | art/rhevm_api/utils/jobs.py:251-263 | as many threads as asked for, or as there are unfinished jobs if no positive number was asked for; what they find is a start state of the pool model in which every job carries the pool's handler |
| `JobsSet.JobsSet.PoolConfig` | art/rhevm_api/utils/jobs.py:241-263 | the queue as the pool model has it: each entry with its handlers and its target, entries alike exactly when they are one object |
| `LeaseStream.FirstIsLine` | art/rhevm_api/utils/mac2ip.py:191-198 | what is cut off first ends in "\n", "\r" or "\r\n" and holds none before; if nothing is cut off there is no finished line |
| `LeaseStream.CutFromSplit` | art/rhevm_api/utils/mac2ip.py:191-198 | keeping back the last line unless it ends in a newline is the recursive cutting |
| `LeaseStream.FirstLineStable` | art/rhevm_api/utils/mac2ip.py:191-198 | a line that is complete is not changed by later text |
| `LeaseStream.CutAppend` | art/rhevm_api/utils/mac2ip.py:191-200 | cutting chunk by chunk equals cutting the whole, lines and kept tail, for a split anywhere, inside "\r\n" too |
| `LeaseStream.CutKeepsText` | art/rhevm_api/utils/mac2ip.py:191-200 | no character is lost or invented, and the tail has no finished line |
| `LeaseStream.CutExactly` | art/rhevm_api/utils/mac2ip.py:191-200 | for every text: the delivered lines and the kept tail are the one way to cut it into finished lines and a rest without one |
| `LeaseCatcher.UnifyExactly` | art/rhevm_api/utils/mac2ip.py:25-28 | two spellings are unified alike if and only if they differ at most in case and in `-` against `:`; the unified one has capitals and `:`; unifying twice changes nothing |
| `LeaseCatcher.FirstExchange` | art/rhevm_api/utils/mac2ip.py:82-123 | an exchange has at least its Reply line and ends within the input |
| `LeaseCatcher.LeaseExactly` | art/rhevm_api/utils/mac2ip.py:82-123 | an exchange yields a lease if and only if its lines are Reply, Your-IP, Server-IP, optional Gateway-IP, Client-Ethernet-Address and the first message is ACK; both addresses come from it |
| `LeaseCatcher.AckExactly` | art/rhevm_api/utils/mac2ip.py:113-116 | the message that counts is "ack" in small or capital letters |
| `LeaseCatcher.ExchangeEnds` | art/rhevm_api/utils/mac2ip.py:72-123 | an exchange ends with its message or with the first line that is not what is expected there, which is taken along |
| `LeaseCatcher.RunExchange` | art/rhevm_api/utils/mac2ip.py:72-123 | from a Reply line the automaton is back at the start exactly after that exchange, with its lease stored |
| `LeaseCatcher.RunStoresLeases` | art/rhevm_api/utils/mac2ip.py:72-137 | over every line sequence the cache is written with exactly the leases, in order |
| `LeaseCatcher.MacAddrNeverReached` | art/rhevm_api/utils/mac2ip.py:40-123 | the state `S_MAC_ADDR` is never entered |
| `LeaseCatcher.StoredIsLast` | art/rhevm_api/utils/mac2ip.py:133-137 | looking up gives the last lease for the address, otherwise what was there |
| `LeaseCatcher.LeasesNormalised` | art/rhevm_api/utils/mac2ip.py:125-135 | all stored keys are in unified form |
| `LeaseCatcher.TCPDumpParser.ParseLine` | art/rhevm_api/utils/mac2ip.py:72-123 | one call moves state, fields and shared cache as the automaton step says |
| `LeaseCatcher.TCPDumpParser.ReadMacLine` | art/rhevm_api/utils/mac2ip.py:125-131 | the address is stored unified and the state moves on, exactly when the pattern matches |
| `LeaseCatcher.SSHProducer.Parse` | art/rhevm_api/utils/mac2ip.py:191-200 | feeds the finished lines to the parser in order and keeps the tail |
| `LeaseCatcher.SSHProducer.Collect` | art/rhevm_api/utils/mac2ip.py:220-231 | after any chunks, parser and buffer are as after one parse of the whole stream |
| `LeaseCatcher.CatchAndLookUp` | art/rhevm_api/utils/mac2ip.py:246-273 | end to end: whatever the chunks, the cache holds the leases of the stream's finished lines, and `get_ip` in any spelling gives the last one |
| `IncludePaths.KeysCompose` | art/generateDS/process_includes.py:143-168 | which location a reference means, and the base below it, depend only on the base as a key and on whether that was absolute |
| `IncludePaths.KeyMeansFile` | art/generateDS/process_includes.py:143-195 | that location stands for the file the reference means from the including file's directory |
| `IncludePaths.NormOfFile` | art/generateDS/process_includes.py:167-195 | the directory of a normalised location is the normalised directory |
| `IncludePaths.NormRules` | art/generateDS/process_includes.py:164-168 | the rules of normalising, which determine it: empty segments and "." go, ".." takes back a name and says nothing at the root |
| `IncludePaths.HeadIsDir` | art/generateDS/process_includes.py:195 | what `os.path.split` leaves, slashes dropped or kept, is the directory of the location as the file system sees it |
| `IncludePaths.HeadGrows` | art/generateDS/process_includes.py:150-195 | one relative reference on, the base below an absolute location has grown, unless the reference is a single name and the base is not all slashes |
| `IncludeResolver.Resolver.ResolveRef` | art/generateDS/process_includes.py:159-204 | the content is read exactly for a key not processed before; the base moves to its directory; a missing file is an error |
| `IncludeResolver.Resolver.CollectInserts` | art/generateDS/process_includes.py:207-216 | for any files and references: the loop over the references is the recursive function, and it restores the base |
| `IncludeResolver.Resolver.CollectInsertsAux` | art/generateDS/process_includes.py:219-238 | the same for one reference, with the base saved and restored, failures and a full stack included |
| `IncludeResolver.Resolver.TakeOver` | art/generateDS/process_includes.py:226-234 | appends, in order, every child that is neither comment nor `include`, each behind a note of the reference |
| `IncludeOrder.ReferenceKinds` | art/generateDS/process_includes.py:210-212 | `include` and `import` children are followed, those with a location |
| `IncludeOrder.ReferencesInOrder` | art/generateDS/process_includes.py:210-213 | the references: all `include` children as the document has them, then all `import` children |
| `IncludeOrder.InsertsInOrder` | art/generateDS/process_includes.py:226-234 | the k-th child taken over is the k-th that is neither comment nor `include`, directly behind a note of its reference |
| `IncludeOrder.RunTraverses` | art/generateDS/process_includes.py:207-238 | the recursion visits documents in the order of a list of open references in which those of a new document go in front |
| `IncludeOrder.TraversalIsUnique` | art/generateDS/process_includes.py:207-238 | that list determines the visits |
| `IncludeRuns.RunAllGood` | art/generateDS/process_includes.py:159-238 | every call: what it processed is what it visited, each location once, nothing unreachable, no reference left behind, all children taken over; or it names a reachable missing file |
| `IncludeRuns.RunAllDeepEnough` | art/generateDS/process_includes.py:207-238 | a stack as deep as there are locations within reach is enough, cycles included |
| `IncludeResults.FilesExactly` | art/generateDS/process_includes.py:207-238 | for any root: a completed resolution visited exactly the files that the references lead to; a failed one names such a file that does not exist |
| `IncludeResults.ProcessedIsReachable` | art/generateDS/process_includes.py:159-238 | where no file is met both relatively and absolutely: the visited locations are the least set holding the root's references and closed under references, and are visited once each |
| `IncludeResults.LocationsExactly` | art/generateDS/process_includes.py:159-238 | there it completes if and only if a finite closed set of locations of existing files holds the root's references |
| `IncludeResults.ClosedCompletes` | art/generateDS/process_includes.py:159-238 | for any mixture such a set is enough |
| `IncludeResults.TakenOverOnce` | art/generateDS/process_includes.py:226-234 | each such child is inserted exactly as often as the visited documents hold it |
| `IncludeResults.ResolutionInOrder` | art/generateDS/process_includes.py:207-238 | for any completed resolution: that order of visits, and every child that is taken over at its place in it, document by document |
| `IncludeResults.RelativeCompletesExactly` | art/generateDS/process_includes.py:164-171 | with relative references it completes if and only if every file they lead to exists, whatever cycles there are |
| `IncludeResults.RelativeDone` | art/generateDS/process_includes.py:167-171 | then different locations are different files and every child is taken over once |
| `IncludeResults.ResolveRelative` | art/generateDS/process_includes.py:207-238 | end to end with relative references: exactly the reachable files, each once and in that order, each child taken over once and at its place; it fails if and only if a file is missing, and names it |
| `IncludeCycles.GrowingCycleIsDotted` | art/generateDS/process_includes.py:143-171 | a cycle of relative references adds segments to locations that are not normalised if and only if one of them is dotted |
| `IncludeCycles.EverLonger` | art/generateDS/process_includes.py:150-195 | a harmful cycle (dotted below an absolute base, any below a base of slashes only) gives one file locations of any length |
| `IncludeCycles.HarmfulNeverCompletes` | art/generateDS/process_includes.py:159-195 | where no file is met both relatively and absolutely, a harmful cycle in reach rules out completion |
| `IncludeBounds.LocationBounded` | art/generateDS/process_includes.py:143-195 | without one the length of locations is bounded |
| `IncludeBounds.HarmlessCompletes` | art/generateDS/process_includes.py:159-238 | for any root and any mixture of references: files present and no harmful cycle mean completion |
| `IncludeBounds.CompletesExactly` | art/generateDS/process_includes.py:159-238 | where no file is met both by a relative and by an absolute location: it completes if and only if every file the references lead to exists and they lead to no harmful cycle |
| `IncludeBounds.AbsoluteCompletesExactly` | art/generateDS/process_includes.py:159-238 | so for every root below an absolute base, "/" included |
| `IncludeBounds.AlwaysTooDeep` | art/generateDS/process_includes.py:159-238 | with a harmful cycle in reach and all files there, every stack is too small |
| `IncludeExamples.AbsoluteCycleNeverCompletes` | art/generateDS/process_includes.py:164-171 | an example: two files that include each other through ".." fail for every depth of the stack |
| `IncludeExamples.RootDirectoryNeverCompletes` | art/generateDS/process_includes.py:195 | another: so do two files in "/" that include each other by their plain names |
| `IncludeExamples.OrderDecides` | art/generateDS/process_includes.py:164-171 | when a file is met both by a relative and by an absolute location the order of two references decides whether it completes |
| `TypeNames.CandidatesDiffer` | art/generateDS/process_includes.py:492-498 | numbered candidates differ from the name and from each other |
| `TypeNames.UniqueName` | art/generateDS/process_includes.py:492-498 | ends for every finite name set and gives the name itself if it is free, otherwise the first free numbered one |
| `TypeNames.RaiseOne` | art/generateDS/process_includes.py:457-466 | one definition: the name that `unique_name` picks, set on node and parent |
| `TypeNames.RaiseAnonComplexTypes` | art/generateDS/process_includes.py:428-466 | over the whole loop the names are pairwise distinct, outside the initial ones, each picked for its parent's name with the numbers going on, and each node's name is its parent's `type` |
| `TypeNames.RaisedInOrder` | art/generateDS/process_includes.py:453-466 | raised are the definitions below a named element, in order |
| `GroupExpansion.Expand` | art/generateDS/generateDS.py:6021-6048 | defined, so terminating, on every reference graph, cyclic ones included; it only grows the visited set |
| `GroupExpansion.ElementGroups.ExpandGR` | art/generateDS/generateDS.py:6021-6048 | replaces child lists and grows `visited` in place as the function says; what that means is said by the following rows |
| `GroupExpansion.ElementGroups.ExpandGroupReferences` | art/generateDS/generateDS.py:6051-6053 | the same from an empty visited set |
| `GroupExpansion.ElementGroups.ExpandAll` | art/generateDS/generateDS.py:859-862 | the loop over all groups, in any order |
| `GroupResults.StripQualified` | art/generateDS/generateDS.py:5795-5796 | of a qualified name the part behind the last ":" is left |
| `GroupResults.ResolveExactly` | art/generateDS/generateDS.py:6030-6034 | a reference means the group of that name, or else the one named without its prefix |
| `GroupResults.QualifiedExpands` | art/generateDS/generateDS.py:6024-6044 | so qualified references expand as plain ones do |
| `GroupResults.UnknownDropped` | art/generateDS/generateDS.py:6035-6037 | a reference to an unknown group is left out |
| `GroupResults.NothingFollowed` | art/generateDS/generateDS.py:6038-6048 | a group whose references all are unknown or visited keeps its list |
| `GroupResults.ExpandGroupResult` | art/generateDS/generateDS.py:6021-6048 | one recursive call: the flattening, and exactly the groups of the unfolding visited, when none was visited before |
| `GroupResults.ExpandListResult` | art/generateDS/generateDS.py:6025-6045 | the same for the loop over a child list |
| `GroupResults.DroppedFirst` | art/generateDS/generateDS.py:6038-6042 | a reference to a visited group drops everything it stands for |
| `GroupResults.ExpandExactly` | art/generateDS/generateDS.py:6051-6053 | with known acyclic references the result is the in-order flattening if and only if the unfolding meets no group with references twice |
| `GroupResults.SharedNestedGroupIsDropped` | art/generateDS/generateDS.py:6038-6042 | a concrete acyclic table that is reported as circular and loses an element |
| `GroupResults.ExpandAgain` | art/generateDS/generateDS.py:6046-6048 | expanding what is flat changes nothing |
| `GroupResults.AnyOrder` | art/generateDS/generateDS.py:859-862 | without repeated groups the loop flattens every group in whatever order the dictionary yields them |
| `GroupResults.BottomUp` | art/generateDS/generateDS.py:859-862 | in an order that expands references first, shared groups are flattened correctly too |
| `ClassOrder.GenerateKeepsInv` | art/generateDS/generateDS.py:4221-4242 | each call keeps: no class written twice, none before its base, none that is refused |
| `ClassOrder.RoundKeepsInv` | art/generateDS/generateDS.py:5729-5739 | so does each round of the loop over postponed elements |
| `ClassOrder.RoundKeepsNames` | art/generateDS/generateDS.py:5729-5739 | no class is forgotten by a round |
| `ClassOrder.WalkKeepsInv` | art/generateDS/generateDS.py:5646-5655 | the walk over the tree keeps both |
| `ClassOrder.CleanExactly` | art/generateDS/generateDS.py:5778-5782 | `cleanupName` replaces ":", "-" and "." and nothing else |
| `ClassOrder.GenerateExactly` | art/generateDS/generateDS.py:4221-4242 | one element, by the names in the schema: it waits if and only if its base is defined, not simple and not generated; otherwise it is recorded and written unless it is there or refused |
| `ClassOrder.InvMeansBasesFirst` | art/generateDS/generateDS.py:4223-4242 | by the names in the schema: the class of a defined base stands before the class that extends it |
| `ClassOrder.NobodyReadyTurns` | art/generateDS/generateDS.py:5732-5739 | while nobody can be generated the list turns |
| `ClassOrder.AllReadyReversed` | art/generateDS/generateDS.py:5732-5739 | elements that can all be generated are written from the last to the first |
| `ClassOrder.BlockedForever` | art/generateDS/generateDS.py:5729-5739 | elements that wait for each other or for a name nobody generates wait for ever |
| `ClassOrder.RoundProgress` | art/generateDS/generateDS.py:5729-5739 | a round shortens the list or brings a ready element nearer its end |
| `ClassOrder.UnblockedEnds` | art/generateDS/generateDS.py:5729-5739 | without a blocked set the loop ends |
| `ClassOrder.LoopEndsExactly` | art/generateDS/generateDS.py:5729-5739 | the loop ends if and only if no set of postponed elements is blocked |
| `ClassOrder.AcyclicIsUnblocked` | art/generateDS/generateDS.py:4221-4227 | acyclic bases, each generated or postponed under its own name, are never blocked |
| `ClassOrder.UncleanBaseHangs` | art/generateDS/generateDS.py:2520-2532 | a generated base whose name needs cleaning is never found: the loop does not end |
| `ClassOrder.UncleanSchemaHangs` | art/generateDS/generateDS.py:5727-5739 | such a schema: "c" extends "a-b" |
| `ClassOrder.Generator.GenerateClasses` | art/generateDS/generateDS.py:4221-4242 | postpones, skips, refuses or writes one class |
| `ClassOrder.Generator.GenerateFromTree` | art/generateDS/generateDS.py:5646-5655 | the same for every element in the order met, bases first by the names in the schema |
| `ClassOrder.Generator.DrainOne` | art/generateDS/generateDS.py:5732-5739 | the last postponed element is generated, dropped or moved to the front |
| `ClassOrder.Generator.Drain` | art/generateDS/generateDS.py:5729-5739 | from an unblocked state: ends with nothing postponed, every name generated, each class once and after its base |
| `ClassOrder.Generator.Generate` | art/generateDS/generateDS.py:5727-5739 | walk and loop together, when the loop ends: every explicit element's name is written once or refused, nothing else is, and bases come first by the names in the schema |
| `MixedBases.RationalizedIsUniform` | art/generateDS/generateDS.py:938-959 | flags only go from false to true, only on the chain, and the chain becomes uniform |
| `MixedBases.UpClosedStays` | art/generateDS/generateDS.py:953-959 | equalising another chain keeps the base of a mixed element mixed |
| `MixedBases.WalkedIsUpClosed` | art/generateDS/generateDS.py:916-921 | after the walk the base of a mixed element is mixed, along every visited chain |
| `MixedBases.InWalked` | art/generateDS/generateDS.py:916-921 | an element is mixed at the end if and only if it was, or lies on a chain that the flags before and the order of visits make mixed |
| `MixedBases.UniformExactly` | art/generateDS/generateDS.py:916-921 | a visited chain is uniform at the end if and only if no visited chain with its root holds an element that was mixed before, or its first element lies on a chain that is made mixed |
| `MixedBases.LaterSiblingSplitsChain` | art/generateDS/generateDS.py:916-921 | a sibling visited later can make a visited chain non-uniform; in the other order it does not |
| `MixedBases.Schema.HasMixedInChain` | art/generateDS/generateDS.py:943-951 | true if and only if some element of the chain is mixed |
| `MixedBases.Schema.ChainLinks` | art/generateDS/generateDS.py:946-951 | a chain follows the base names through the dictionary, to an element without a defined base |
| `MixedBases.Schema.EqualizeMixedBases` | art/generateDS/generateDS.py:953-959 | exactly the chain becomes mixed |
| `MixedBases.Schema.RationalizeMixedBases` | art/generateDS/generateDS.py:938-941 | the set of mixed elements afterwards |
| `MixedBases.Schema.CheckMixedBasesChain` | art/generateDS/generateDS.py:961-968 | the error is set exactly at the first element whose base differs |
| `MixedBases.Schema.FirstDifferenceExactly` | art/generateDS/generateDS.py:961-968 | that element is the one before the first, above the start, whose flag differs |
| `MixedBases.Schema.CheckMixedBases` | art/generateDS/generateDS.py:916-921 | over the whole walk no error is ever set, bases of mixed elements end up mixed, and which chains are uniform follows from the flags before the walk |
| `Decimal.Digits` | art/generateDS/process_includes.py:498 | the digits "0" to "9" and their values |
| `Decimal.ValueOfStr` | art/generateDS/process_includes.py:498 | `%d` is read back |
| `Decimal.StrStarts` | art/generateDS/process_includes.py:498 | without leading zeros |
| `Decimal.StrInjective` | art/generateDS/process_includes.py:498 | different numbers have different texts |
| `Decimal.ValueOfPad` | art/generateDS/generateDS.py:4459-4475 | zero-padded numbers are read back |
| `DateTimeText.FormatPlaces` | art/generateDS/generateDS.py:4457-4475 | which places of the text hold which field: the lexical form of XML Schema Part 2, section 3.2.7 |
| `DateTimeText.TailPlaces` | art/generateDS/generateDS.py:4468-4475 | the microseconds stand behind a dot when they are not zero, and the zone follows |
| `DateTimeText.ZonePlaces` | art/generateDS/generateDS.py:4477-4491 | the zone text: nothing, `Z`, or sign, hours and minutes of the offset |
| `DateTimeText.OffsetPattern` | art/generateDS/generateDS.py:4376 | the pattern admits exactly the offsets up to 14:00 |
| `DateTimeText.TextOfOffset` | art/generateDS/generateDS.py:4477-4491 | the offset text has the sign and the minutes of the zone, negative ones included |
| `DateTimeText.MicroOfText` | art/generateDS/generateDS.py:4509-4514 | the fraction is read exactly when a dot follows the seconds |
| `DateTimeText.LocalRoundTrip` | art/generateDS/generateDS.py:4509-4514 | date, time and microseconds are read back |
| `DateTimeText.LocalTextHasNoZone` | art/generateDS/generateDS.py:4494-4500 | no text without a zone is taken to end in `Z` or an offset |
| `DateTimeText.StrayOffsetFails` | art/generateDS/generateDS.py:4500-4514 | an offset that the pattern rejects makes the parse fail |
| `DateTimeText.RoundTrip` | art/generateDS/generateDS.py:4457-4516 | for every valid date-time: parsing the formatted text gives the value back if it has no zone or one within 14 hours, and fails otherwise |
| `DateTimeText.LeapYears` | art/generateDS/generateDS.py:4509-4514 | which years have 29 February |
| `DateTimeText.MonthLengths` | art/generateDS/generateDS.py:4509-4514 | the lengths of the months |
| `DateTimeText.FractionExactly` | art/generateDS/generateDS.py:4509-4514 | one to six digits are read as a fraction: zeros at the end do not matter |
| `DateTimeText.ParseExactly` | art/generateDS/generateDS.py:4494-4516 | which texts are read, and as what: if and only if a valid date and time stand at their places with nothing but a fraction and a zone up to 14 hours behind |
| `XmlQuoting.ReplacesAreOneSubstitution` | art/generateDS/generateDS.py:4692-4694 | the sequential replaces equal one substitution character by character, with and without the quote |
| `XmlQuoting.QuoteXmlReadBack` | art/generateDS/generateDS.py:4687-4695 | a reader of XML 1.0 character data gets the original back and stops at the next tag |
| `XmlQuoting.QuoteXmlExactly` | art/generateDS/generateDS.py:4687-4695 | no `<` or `>` is left, and text without markup stays as it is |
| `XmlQuoting.QuoteAttribReadBack` | art/generateDS/generateDS.py:4698-4711 | a reader of XML 1.0 attribute values gets the original back and stops at the closing delimiter |
| `XmlQuoting.AttribBodyIsClean` | art/generateDS/generateDS.py:4704-4711 | the body holds neither its delimiter nor `<` |
| `XmlQuoting.QuoteAttribExactly` | art/generateDS/generateDS.py:4698-4711 | which delimiter is used, and that a value without markup that does not hold both quotes stays as it is |
| `XmlQuoting.EscapeStringReadBack` | art/generateDS/generateDS.py:5806-5810 | between single quotes the result is one Python literal whose value is the original |
| `XmlQuoting.EscapeStringPlain` | art/generateDS/generateDS.py:5806-5810 | text without quotes and backslashes stays as it is |
| `SettingsMerge.MergeByPath` | art/test_handler/settings.py:62-70 | the merge path by path: update over master, nothing below an update's leaf, empty mappings leave leaves alone |
| `SettingsMerge.SamePaths` | art/test_handler/settings.py:62-70 | so the paths determine the merged tree |
| `SettingsMerge.FitsExactly` | art/test_handler/settings.py:62-70 | the merge raises if and only if some path of the update goes on below a leaf of the master |
| `SettingsMerge.CutExactly` | art/test_handler/settings.py:62-70 | what lies below a leaf of the update: the paths with a proper prefix that ends in one |
| `SettingsMerge.MergeIntoEmpty` | art/test_handler/settings.py:120-121 | merging into an empty dictionary copies |
| `SettingsMerge.MergeIdempotent` | art/test_handler/settings.py:62-70 | merging the same update again changes nothing |
| `SettingsMerge.MergeAssociative` | art/test_handler/settings.py:62-70 | once neighbours fit, both groupings raise together or agree |
| `SettingsMerge.MergeOnStep` | art/test_handler/settings.py:63-68 | one turn of the loop over the update's keys |
| `SettingsDicts.Dict.Update` | art/test_handler/settings.py:62-70 | in place: the new contents are the merge, it raises exactly when the merge does, the update is unmodified and shares no dictionary with the result |
| `SettingsDicts.Dict.UpdateKey` | art/test_handler/settings.py:63-68 | one key of the update, in place |
| `SettingsDicts.Dict.UpdateSub` | art/test_handler/settings.py:65-66 | the recursive call on `master.get(k, {})` and the assignment of its result |
| `SettingsRuntime.SplitInverts` | art/test_handler/settings.py:54-56 | splitting loses nothing and leaves no separator |
| `SettingsRuntime.ParseParamReads` | art/test_handler/settings.py:50-56 | every `section.var=value` is read, with lists split for the two list variables |
| `SettingsRuntime.ParseParamOnlyReads` | art/test_handler/settings.py:50-56 | and nothing else is |
| `SettingsRuntime.MeansExactly` | art/test_handler/settings.py:47-56 | the value: for "engines" and "storages" the one list of items without commas that joins to the text, otherwise the text |
| `SettingsRuntime.CmdLine` | art/test_handler/settings.py:43-59 | fails if and only if some definition cannot be read; the result has two levels |
| `SettingsRuntime.NamedSections` | art/test_handler/settings.py:49-57 | the sections are those that some definition names |
| `SettingsRuntime.LastDefinitionWins` | art/test_handler/settings.py:49-57 | a variable has the value of its last definition, and is absent without one |
| `SettingsRuntime.ContextExactly` | art/test_handler/settings.py:120-126 | the context fails if and only if a definition cannot be read or names a section that is a plain value in the defaults |
| `SettingsRuntime.ContextByPath` | art/test_handler/settings.py:120-126 | the last definition wins over the defaults, otherwise the default stands |
| `SettingsRuntime.SetCmdLine` | art/test_handler/settings.py:43-59 | the loop builds that tree in new dictionaries |
| `SettingsRuntime.Copy` | art/test_handler/settings.py:120-121 | a copy of the defaults that shares nothing with them |
| `SettingsRuntime.CreateContext` | art/test_handler/settings.py:117-126 | both merges in place; the defaults are not written and not shared |
| `StableSort.SortedPermutes` | art/core_api/validator.py:186-187 | sorting permutes |
| `StableSort.SortedOrders` | art/core_api/validator.py:186-187 | sorting orders by the key |
| `StableSort.OrderedExactly` | art/core_api/validator.py:186-187 | order means: None first, then rising numbers |
| `StableSort.SortedIsStable` | art/core_api/validator.py:211-213 | elements with equal keys keep their order |
| `StableSort.SortedUnique` | art/core_api/validator.py:186-187 | order and stability determine the result |
| `StableSort.SortedByTwo` | art/core_api/validator.py:211-213 | a stable sort by -1 and 1 is a stable partition |
| `ElementAlignment.Chosen` | art/core_api/validator.py:227-230 | the first sort attribute that both first elements have |
| `ElementAlignment.ChosenExactly` | art/core_api/validator.py:46-46 | names before ids before indices |
| `ElementAlignment.ArrangedPermutes` | art/core_api/validator.py:216-237 | each list keeps its elements |
| `ElementAlignment.LongerStarts` | art/core_api/validator.py:190-213 | the longer list begins with the elements whose values the shorter one has, in the order of the shorter one |
| `ElementAlignment.AlignedExactly` | art/core_api/validator.py:216-237 | with distinct values, position i holds equal values in both lists for every i below the shorter length if and only if the shorter list has no value that the longer one lacks |
| `ElementAlignment.StabilityIsNeeded` | art/core_api/validator.py:211-213 | order by existence without stability does not line the lists up |
| `ElementAlignment.ComparedByValue` | art/core_api/validator.py:383-392 | then comparing by place is comparing the elements with equal values |
| `ElementAlignment.SortElementsByAttr` | art/core_api/validator.py:177-187 | both lists sorted in place |
| `ElementAlignment.SortElementsByExistence` | art/core_api/validator.py:190-213 | only the longer list is sorted, by existence in the shorter one; equal lengths are left alone |
| `ElementAlignment.SortElements` | art/core_api/validator.py:216-242 | both stages by the chosen attribute, or nothing |
| `ElementAlignment.CompareLists` | art/core_api/validator.py:373-392 | `equal` stays true if and only if every pair below both lengths is the same |
| `NameLookup.IpCache.LookUpName` | art/rhevm_api/utils/name2ip.py:93-107 | result and new cache of one look-up; a failure leaves the cache as it was and the lock free |
| `NameLookup.IpCache.ResetCache` | art/rhevm_api/utils/name2ip.py:42-48 | exactly the matching keys go, the others keep their records |
| `NameLookup.RecordIsStored` | art/rhevm_api/utils/name2ip.py:95-107 | every record comes from the latest call for its key that asked |
| `NameLookup.ReturnedIsFresh` | art/rhevm_api/utils/name2ip.py:93-107 | in every run each returned address is one `get_ip` gave for the same key no longer ago than the storing instance's expiry, not deleted since; None is never returned |
| `NameLookup.StoredUntilExpiry` | art/rhevm_api/utils/name2ip.py:95-107 | a stored address is returned without asking until it expires or is deleted |
| `NameLookup.StandInExactly` | art/rhevm_api/utils/name2ip.py:96-98 | the stand-in's None comes back if and only if there is no record and the clock is not positive |
| `NameLookup.AskedOutcome` | art/rhevm_api/utils/name2ip.py:97-107 | a call that asks gives what it is told: the address, `IpLookUpError` for None, or the exception |
| `NameLookup.SharedKeyExactly` | art/rhevm_api/utils/name2ip.py:94 | two entities can share a key if and only if they are equal or one starts with the other and a dash |
| `NameLookup.KeyIsInjective` | art/rhevm_api/utils/name2ip.py:94 | for the entities the module has, a key means one entity and one name |
| `NameLookup.ReturnedIsOwn` | art/rhevm_api/utils/name2ip.py:93-107 | so in every run of their look-ups a returned address was given for that very entity and name |
| `NameLookup.FurtherResolverCollides` | art/rhevm_api/utils/name2ip.py:94 | a new resolver for an entity that continues another with a dash would get that one's addresses |
| `InventoryDiff.FindParamsChanged` | art/rhevm_api/utils/inventory.py:121-142 | the loop yields the differing attributes, or a KeyError for one the current resource lacks |
| `InventoryDiff.FindResourcesDiff` | art/rhevm_api/utils/inventory.py:81-119 | the nested loops compute the diff function, errors included |
| `InventoryDiff.RemoveTakesOut` | art/rhevm_api/utils/inventory.py:103 | `list.remove` of a matched resource takes out exactly its id |
| `InventoryDiff.DiffExactly` | art/rhevm_api/utils/inventory.py:97-119 | when no matched id is repeated: a KeyError if and only if a partner lacks an attribute, otherwise removed, added and changed are exactly the resources they should be, in order |
| `InventoryDiff.DiffSucceedsExactly` | art/rhevm_api/utils/inventory.py:97-119 | with distinct current ids it succeeds if and only if no matched id is repeated and partners can be compared; a repeated matched id alone is a ValueError |
| `InventoryDiff.DiffSucceedsGenerally` | art/rhevm_api/utils/inventory.py:97-119 | for any ids it succeeds if and only if the old resources with an id are no more than the copies of the first current one with that id, which has all their attributes; too few copies alone are a ValueError |
| `InventoryDiff.ChangedExactly` | art/rhevm_api/utils/inventory.py:104-109 | an entry is in `changed` if and only if it is a matched pair with a difference, with exactly the differing attributes |
| `InventoryDiff.NamesAreKept` | art/rhevm_api/utils/inventory.py:113-117 | added names are all but the ignored ones |
| `InventoryDiff.KeptExactly` | art/rhevm_api/utils/inventory.py:23-23 | the ignored name is "OVF_STORE" |
| `InventoryDiff.KeptAppend` | art/rhevm_api/utils/inventory.py:113-117 | the names that stay keep their order |
| `InventoryDiff.UnusableOldFails` | art/rhevm_api/utils/inventory.py:97-102 | a missing id or name of an old resource, or a missing id met in the search, is a KeyError |
| `InventoryDiff.LeftOverNeedName` | art/rhevm_api/utils/inventory.py:113-117 | each current resource that is left over needs a name |
| `InventoryDiff.Accounting` | art/rhevm_api/utils/inventory.py:97-119 | every old resource is removed or matched, every current one left over or matched |
| `InventoryDiff.SelfDiffIsEmpty` | art/rhevm_api/utils/inventory.py:81-119 | a state compared with itself gives nothing |
| `InventoryDiff.CompareStates` | art/rhevm_api/utils/inventory.py:144-175 | a type is reported if and only if one of its lists is not empty; the first failing type fails the whole |
| `InventoryDiff.TypesAreDistinct` | art/rhevm_api/utils/inventory.py:10-21 | the resource types that are compared, each once |

## Left out

Job pool

- Jobs added while workers run: only their effect is covered, a job taken without its handlers (`MuteJobBlocksForever`).
- JobsSet.JobsSet.AddJobs: a blocking call needs room for all its jobs, because with no worker running it would otherwise never return.
- JobsSet.JobsSet.FillQueue: a bounded queue is required; on an unbounded one the source adds copies for ever.
- `SUICIDE_JOB`, which the pool never queues; `unhandle`, whose `except` clause names the wrong exception; `ReturnableEvent`.
- The length of the polling interval and of timeouts: a timeout is a step that may happen whenever the count is not zero.

Lease catcher

- The regular expressions: a line is scanned by an arbitrary function that says which patterns match and what they capture.
- Upper and lower case of letters outside ASCII; the lines of a byte string, as received, end with "\n", "\r" or "\r\n".
- `StreamProducer`, the SSH session, threads and readiness of readers, and the type check in `unify_mac_format`.

Schema compiler

- Locations are file paths; catalogs, `http:` and `ftp:` locations, parsing and network errors are not part of this model.
- References name files: locations whose last segment is empty, "." or ".." are excluded, since they can only be directories. Nested `import` children are taken over, as the code does.
- IncludeBounds.CompletesExactly: directories passed by ".." are taken to exist: `os.path.exists` (art/generateDS/process_includes.py:190-191) looks at the location as it is, so "nodir/../b.xsd" fails in the source when `nodir` is missing, and here it stands for "b.xsd".
- IncludeResults.RelativeCompletesExactly: the same holds for directories passed by "..".
- IncludeBounds.HarmlessCompletes: when some file is met both by a relative and by an absolute location only sufficiency is stated, because then the order of the references decides (`OrderDecides`); locations visited in such runs are covered by `RunAllGood` and `FilesExactly`.
- IncludeResults.ProcessedIsReachable: that the locations are the least closed set is not said for those runs, for the same reason.
- The depth of Python's stack is a parameter, one level for each nested document.
- `clear_includes_and_imports`, processing instructions, group raising and `get_root_file_paths`.
- TypeNames.RaiseAnonComplexTypes: the definitions and the names in use are given, as the XPath queries deliver them; an element holds at most one type definition.
- `expandGroupReferences_tree`, which stops at the first element with a repeated name; theorems about flattening are for known groups (`UnknownDropped` covers the others).
- Restriction bases, the naming of types that are not defined explicitly, delayed elements, and all text emission: only the order of classes is modelled.
- ClassOrder.Generator.Drain: the loop is a method only for states from which it ends; `LoopEndsExactly` covers the others.
- `collectSimpleBases`; the element tree is given as the sequence in which its elements are visited.
- DateTimeText.ParseExactly: exact for the texts named there; `strptime` also admits numbers with fewer digits, a final newline and leap seconds.
- DateTimeText.RoundTrip: offsets are whole minutes, microseconds are six digits by integers instead of by a float, and what else `strptime` tolerates (fewer digits, a final newline, leap seconds) is not modelled.
- XmlQuoting.QuoteAttribReadBack: the reader does not normalise white space in attribute values (XML 1.0, section 3.3.3), so texts with tabs or line ends are read back only at the level of entities.
- XmlQuoting.EscapeStringReadBack: a literal may hold a raw line end, which Python would refuse; `quote_python` is left out, it does not escape backslashes.

Data algorithms

- SettingsDicts.Dict.Update: master and update own disjoint dictionaries, as in every call of the source; after a failure the master is only said to be well formed (keys met before the failure are merged already).
- Leaves of a configuration are texts or lists of texts; an integer key over a list, which Python would accept as an index, does not occur.
- The reading of YAML and templates, the environment description, and the values derived from it after the merges.
- ElementAlignment.SortElements: values of a sort attribute are compared by one total order in which None comes first, and all elements have the class of the first; two names for one list object are excluded.
- The part of `compareElements` outside lists; the comparison of two elements is an arbitrary predicate.
- `name2ip`, which tries the resolvers in turn, the decorator around look-ups, and the remote calls behind `get_ip`: its answer is a parameter.
- Clock values are integers; a reset's pattern is an arbitrary predicate on keys.
- InventoryDiff.CompareStates: attribute values are texts; a section that the dictionary lacks is an empty list.
- Dumping resources from the server, with its attribute white list.

Remote calls, fixtures, reports and logging throughout the repository are not part of this model.
