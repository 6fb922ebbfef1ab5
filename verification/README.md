# Verification models

This project models the parts of llm-env that decide when it is safe to replace or stop something, and how much fits
on a host, and proves what those parts promise. Run `dafny verify dfyconfig.toml` (Dafny 4.11) to check all of it.

| files | what they model | main results |
|---|---|---|
| `Activity`, `Routes`, `JournalReader`, `CallLogs`, `Collector` | the activity sampler of the OmniRoute updater | exactly when a sample is idle, busy or unknown, in terms of the answers, the routes and the clocks; an idle sample means a quiet call log; the journal is handed out without loss or repeat, except by a poll that raises; the paged call-log scan answers as the whole log does |
| `IdleGate`, `IdleRuns`, `Observer` | the idle gate and the observer loop | the gate's fields stand for the whole sample history; a published `ready` closes a real quiet window, exactly when the samples after the last one answered `defer-unknown` span the minimum wait; stably idle samples reach `ready`, and from then on every round publishes it |
| `AgentWorld`, `AgentRunner` | the bounded agent runner, over an environment that may do anything | where no call failed a clean stop is reported exactly when the last looks prove it; KILL only after a populated read at the end of the TERM grace; the outcome is a boundary failure exactly when something in the world went wrong, and otherwise the one that the first decisive look at the event queue gives; outputs are exact copies up to the limit; the whole run is bounded in time |
| `Inventory` | the container inventory of the updater | irrelevant containers change neither the restricted snapshot nor the fingerprint nor the verdict; unchanged means equal |
| `Dollars`, `Projection` | the replacement planner: dollar spelling, the file it writes and the check of how it is read | unescaping undoes escaping; for every service, when the literal is the service the provider meant, and when both spellings agree; the readback check accepts what the builder writes, with the exact condition |
| `KeyIssuance` | issuing one API key to many callers, in threads and processes | one key beyond the mishaps, and the bound is met for each kind of them; a call ends with a key exactly when all its steps go well, and without mishaps all get the same one; mutual exclusion; no deadlock |
| `ConfigFlight` | the single flight behind `/config` | the lock is held exactly in flight, given back once and after at most four steps; no incomplete box is read; each request is answered with what its own worker fetched |
| `GgufFormat`, `GgufReader`, `GgufRoundTrip`, `GgufTensors`, `GgufWriter` | the GGUF reader and the mixture-of-experts split | skipping is reading; a file written with the widths and codes of the format is read back, header and tensor table; the tensor intervals partition the data section; the RAM share is monotone and exact to a MiB |
| `Budget`, `Resources`, `BudgetCheck` | the VRAM and RAM budget | the bytes of a cache and the limits of llm-server; a feasible verdict covers every set of resident models, the printed remedy works, and when it names the least percentage |
| `Spans`, `RunSummary`, `Readback` | reading a synthetic run back from Phoenix | what every number of a summary is; accepted, incomplete or rejected for good, regardless of order and of other runs; exactly when waiting can help |
| `ZaiReset` | redeeming weekly reset cards | one accepted redemption per window beyond four kinds of mishap, over every run, and each mishap does cost one; a server that honours the idempotency key spends exactly one card per request text |

Everything outside the code (clocks, processes, control groups, HTTP servers, the journal, the container engine) is
unconstrained: it is a parameter, or it does anything its interface allows. Two kinds of form are used. Code that
changes things step by step is a class or a method with a loop, proved against a function or a predicate on its state.
The two lock protocols are state machines whose steps interleave freely, because their subject is the interleaving.

## Where the code and its documentation differ

The models follow the code.

- A comment in the idle gate says that an unknown sample drops the quiet window. The branch that answers
  `defer-unknown` returns before it does, so a later `ready` can span such a sample (`IdleRuns.ReadyAcrossDeferral`).
  A real quiet window then ends at the ready sample exactly when the samples since the last `defer-unknown` span the
  minimum wait (`Observer.ReadyIsQuiet`). The shell side is not part of this model: it stops when it reads a
  `defer-unknown` verdict, but it reads the file once a second and may miss one that the next verdict overwrites.
- A key can be minted twice without any revocation, failed cache write or crash: when the server creates it and the
  reply is lost. With lost replies counted the bound holds (`KeyIssuance.MintBound`), and each of the four kinds of
  mishap does cost a key every time (`KeyIssuance.EveryMishapMints`).
- `restrict()` keeps the ids it leaves out, so irrelevant containers do show in that one field
  (`Inventory.OthersDiffer`), and nowhere else (`Inventory.OthersDecide`); the source compares snapshots without it, and
  it is in no fingerprint.
- The reader treats a journal line that is valid JSON but no object as an error of the whole poll, and the records the
  poll had already read are lost (`JournalReader.ARaisingPollLoses`); what is delivered is what was read exactly when no
  such poll had read a record (`JournalReader.Reader.Poll`).
- The planner tells the dollar spelling of a provider by the values that run. A drifted value can read like the other
  spelling of what runs. If it is the only evidence, another service than the one meant is written, without a refusal;
  if another value shows the true spelling, the service is refused (`Dollars.LiteralOfSpelled`,
  `Dollars.DriftMisleads`). When the file of a misread service is read back, its own values decide: it may be accepted,
  or be refused because a second drifted value confuses the reading (`Projection.SameProvider`,
  `Projection.PlannerMisreads`).
- The two spellings of one service need not come to the same literal. `Dollars.SpellingsAgree` says exactly when they
  do. A value that drifted can be the cause, or a listed environment item with a dollar in its name: doubling the
  strings doubles the name as well, so that the running value is not found under it (`Dollars.EnvEscaped`,
  `Dollars.DollarNameDiffers`).
- An array of an unknown element type is an error, except that an empty one is read as an empty list
  (`GgufFormat.UnknownElements`).
- The 99 percent threshold of the reset cards fires at 98.95 percent, because the percentage is rounded first
  (`ZaiReset.ThresholdIsLower`).
- A card is to be spent at most once per weekly window. The notes alone do not ensure it: a lost reply, a death before
  the note is written, lost notes, and a redemption without a window, which is noted over the one before, each cost one
  more (`ZaiReset.EveryExcuseCosts`). The idempotency key does, if the server honours it, except for connections whose
  ids have colons: their texts can run into each other (`ZaiReset.SameText`), and the later one is told of a redemption
  that renews nothing (`ZaiReset.ClashLosesCard`).
- A readback that has some of the expected spans is waited on, even if a count in it came back as a floating-point
  number. It equals the expected one, but the summary refuses it, so no later record can help (`Readback.WaitsInVain`,
  `Readback.VainExample`); otherwise some can (`Readback.CompletedIff`).
- The RAM remedy says "raise it to at least N%", but N need not be the least percentage: N - 1 can be rounded up to
  enough (`Resources.LessCanBeEnough`); N - 2 never is (`Resources.RamCheck`).

## Model

| member | source | states |
|---|---|---|
| Activity.FirstOf | pylib/omniroute_activity.py:89-95 | the first condition that holds, in the order given, names the reason; none exactly when no condition holds |
| Routes.CleanCuts | pylib/omniroute_activity.py:130-130 | a path is cut where its query or the suffix of the access log begins, and nowhere else |
| Routes.ClassOf | pylib/omniroute_activity.py:129-134 | a record counts as inference exactly when the first route with its verb and its path is one, and is unprofiled exactly when there is no such route or the first one has no class |
| Routes.PathClassOf | pylib/omniroute_activity.py:136-140 | a call-log row has a class exactly when some route has its path and all that have it are of that class |
| JournalReader.RecordsConcat | pylib/omniroute_activity.py:466-470 | the records of consecutive stretches of the follower's output are the records of the whole |
| JournalReader.Reader.Retain | pylib/omniroute_activity.py:462-465 | after one more cursor exactly the newest 10000 are kept, in order; the list is reported as cut exactly when there were more |
| JournalReader.Reader.ReadLine | pylib/omniroute_activity.py:444-465 | one line is taken from the pipe; it is recognized exactly when it carries the barrier or a cursor that is still kept |
| JournalReader.AccountsGrow | pylib/omniroute_activity.py:443-470 | what a drain has found out stays right over one more line |
| JournalReader.Reader.Drain | pylib/omniroute_activity.py:431-473 | the lines up to the first one that is recognized or raises, otherwise up to the budget or the end of the pipe; the records are theirs, overflow means a line too long or a cut, continuous means one boot, both ways |
| JournalReader.Reader.Follow | pylib/omniroute_activity.py:425-477 | a poll with a barrier of its own boot delivers exactly the records it read; unless it repeats cursors, the barrier is seen exactly when it is the seed or is still kept |
| JournalReader.Reader.Poll | pylib/omniroute_activity.py:417-477 | over any sequence of polls the batches are the records of the consumed stream, in order and without repeat, and without loss exactly when no raising poll had read a record; how far a poll reads, and each of its flags both ways |
| JournalReader.ARaisingPollLoses | pylib/omniroute_activity.py:452-470 | a poll that reads a record and then a line that is JSON but no object raises, and the record is dropped |
| CallLogs.ScanCallLogs | pylib/omniroute_activity.py:599-632 | the loop over at most five pages is the scan function, with its refusals, gaps and failures |
| CallLogs.ScanSays | pylib/omniroute_activity.py:611-632 | an answered scan says what the rows it read say: an inference row in memory, an unprofiled row, the newest inference trace, and as its failure the first trace time that proves nothing |
| CallLogs.ScanConcludes | pylib/omniroute_activity.py:608-632 | for every log that keeps the page contract, the scan ends without a failure exactly when one of the five pages settles it: all times so far can be trusted, and there is activity, a short page, or a last row past the horizon |
| CallLogs.ScanRowsCovers | pylib/omniroute_activity.py:611-630 | a scan state says of the rows gone through whether one is active, unless a trace time failed |
| CallLogs.StopLeavesNothing | pylib/omniroute_activity.py:627-630 | a scan that stops without activity has left nothing active on later pages |
| CallLogs.ScanAnswersWholeLog | pylib/omniroute_activity.py:599-632 | from any page on, the scan answers the activity question as the whole log does |
| CallLogs.ScanIsExact | pylib/omniroute_activity.py:599-632 | for every log that keeps the page contract, a scan without failure answers as the entire log, and activity it reports is always there |
| Collector.IdleIffComplete | pylib/omniroute_activity.py:634-715 | a sample is idle exactly when every source answered in time, none shows activity, the feed is complete and unbroken, all rows and records are profiled, both clocks agree, and the row times and the health age are conclusive |
| Collector.BusyIff | pylib/omniroute_activity.py:646-715 | a sample is busy exactly when a counter that could be read is above zero, or the feed is sound and there is other activity, with the exact part that inference calls play when a source fails or the times are not conclusive; what is neither idle nor busy is unknown |
| Collector.UnknownReason | pylib/omniroute_activity.py:689-715 | a sample with all its answers is unknown for the first structural cause in order, or else because times are not conclusive |
| Collector.SampleReports | pylib/omniroute_activity.py:634-688 | what a sample with all its answers reports: the counters, the health time and its age, the flags of the feed and the arrivals counted; and what is kept for the next one: the newest trace, its generation, and the clocks |
| Collector.IdleLogIsQuiet | pylib/omniroute_activity.py:599-715 | if the pages are those of a log that keeps the page contract, an idle sample means that no client row of the whole log is in memory or younger than the minimum wait |
| Collector.Sampler.CountArrivals | pylib/omniroute_activity.py:651-659 | the arrival generation grows by the number of records whose first route is an inference call; a gap is reported exactly when some record is unprofiled |
| Collector.Sampler.ReadSources | pylib/omniroute_activity.py:661-679 | the sources are read in order, the first failure ends the sample, and the counters read before it count |
| Collector.Sampler.Conclude | pylib/omniroute_activity.py:680-706 | structural failures come before row failures, clock failures and the health age |
| Collector.Sampler.Investigate | pylib/omniroute_activity.py:646-714 | one sample's findings and the kept fields are those of the declarative reading of its environment |
| Collector.Sampler.Sample | pylib/omniroute_activity.py:634-715 | the sample and the private fields after it are a function of the fields before it and of what the outside did |
| IdleGate.BaseGrows | pylib/omniroute_activity.py:755-760 | the base timestamp and the advance flag stand for the health timestamps of the whole history |
| IdleGate.SinceGrows | pylib/omniroute_activity.py:745-753 | the unknown run defers at once for a structural reason and only past 60 seconds for a transient one |
| IdleGate.WindowUnique | pylib/omniroute_activity.py:761-769 | at most one quiet window is open |
| IdleGate.StepOpen | pylib/omniroute_activity.py:742-775 | what one more sample does to an open window, and what it is answered |
| IdleGate.StepClosed | pylib/omniroute_activity.py:742-775 | when no window is open only an idle sample after a health advance opens one, and it is answered wait |
| IdleGate.NextRemembers | pylib/omniroute_activity.py:742-775 | the incremental step keeps its memory right and gives the answer the whole history calls for |
| IdleGate.Gate.Step | pylib/omniroute_activity.py:742-775 | the gate refines the declarative verdict over its history |
| IdleGate.Gate.Advance | pylib/omniroute_activity.py:742-775 | the branches of the step on the fields alone |
| IdleRuns.ReadyMeansQuiet | pylib/omniroute_activity.py:761-775 | ready is answered only at the end of a quiet span of at least the minimum wait, after a health advance |
| IdleRuns.ReadyAcrossDeferral | pylib/omniroute_activity.py:745-753 | a concrete run in which ready spans a sample answered defer-unknown |
| IdleRuns.ResampleOnlyOnce | pylib/omniroute_activity.py:772-775 | the sample after a resample answer is never answered resample |
| IdleRuns.ReadyFollowsResample | pylib/omniroute_activity.py:772-775 | the first ready of a window that was not deferred comes right after its resample |
| IdleRuns.StableIdleReachesReady | pylib/omniroute_activity.py:742-775 | idle samples with unchanged generations and an advancing health clock reach ready once the window fits before the deadline, and stay there |
| Observer.TakeLinks | pylib/omniroute_activity.py:634-715 | each sample ties its generations and its idleness to its own polls and pages |
| Observer.NothingArrived | pylib/omniroute_activity.py:651-682 | equal generations mean that no record on the lines read in between is an inference call, and that the newest trace did not change |
| Observer.ReadySpan | pylib/omniroute_observer.py:66-86 | a ready answer has a window of samples behind it that are idle or were deferred |
| Observer.IdleRunIsQuiet | pylib/omniroute_observer.py:66-86 | idle samples with unchanged generations, far enough apart, form a quiet window |
| Observer.ReadyIsQuiet | pylib/omniroute_observer.py:66-86 | end to end: ready means an earlier sample at least the minimum wait before, from which on every sample is idle or was deferred; a real quiet window ends there exactly when the samples after the last deferred one span the minimum wait |
| Observer.Loop.Judge | pylib/omniroute_observer.py:66-69 | one sample is taken and judged by the gate's history |
| Observer.Loop.Turn | pylib/omniroute_observer.py:72-86 | one turn samples, samples again on resample, and publishes a verdict that is never resample |
| Observer.Loop.Run | pylib/omniroute_observer.py:71-86 | every published verdict of a whole run is the gate's answer to its sample, and the file holds the last one; every turn publishes, up to the first one whose verdict cannot be written; once the samples are steadily idle and have been for the minimum wait, every verdict is ready |
| Observer.SteadyIsReady | pylib/omniroute_observer.py:71-86 | what is published for a sample at least the minimum wait into a steadily idle stretch is ready, whatever came before |
| Observer.PublishedReadyIsQuiet | pylib/omniroute_observer.py:71-86 | the same for every published ready of a run |
| AgentWorld.Drain.Iterate | pylib/agent_runner.py:323-354 | one pass of the drain: the file grows by what was read, up to the limit or a failed write; which events are reported, in which order and each once, whether the stream was exceeded or failed, and whether the drain has ended |
| AgentWorld.Drain.DrainStream | pylib/agent_runner.py:313-354 | an undisturbed drain stores the stream up to the limit byte for byte, and reports the limit exactly when there is more |
| AgentRunner.ExecutionFinished | pylib/agent_runner.py:366-374 | finished exactly when the poll succeeds, the launcher has exited and every started drain has ended; only then is it reaped |
| AgentRunner.NextEvent | pylib/agent_runner.py:377-387 | a boundary failure that is waiting wins, otherwise the first event does, and there is none exactly when the queue is empty; every event is justified by a drain |
| AgentRunner.CleanupNow | pylib/agent_runner.py:390-408 | without a fault a known group is read exactly when the run has ended, and the stop is proved exactly when that read finds it empty; an ended run whose group is not known is a failure |
| AgentRunner.StopLauncher | pylib/agent_runner.py:430-438 | the launcher is terminated and then killed; without a fault it fails only if the launcher outlived both by a grace period |
| AgentRunner.ReapLate | pylib/agent_runner.py:427-442 | after the deadline: terminate, then kill, then join, in bounded time; without a fault it fails only on a launcher that outlived both signals or a drain that outlived a join |
| AgentRunner.Reap | pylib/agent_runner.py:411-444 | success means reaped and drained, failure without a fault that something outlived the deadline, both signals and the joins; the launcher is signalled only after the deadline; it ends within its deadline and a fixed slack |
| AgentRunner.WaitForCleanup | pylib/agent_runner.py:447-492 | proved, failed or populated, each backed by the last read; without a fault it gives up only on a group being removed at the deadline or on what outlived the empty scope |
| AgentRunner.StopUnproved | pylib/agent_runner.py:510-533 | without a known group the client is terminated and waited for, and its launcher is signalled only two graces later; nothing is claimed |
| AgentRunner.KillAndProve | pylib/agent_runner.py:547-559 | KILL goes out only after the last read found the scope populated at the end of the TERM grace; without a fault, no proof means that the last look after it was not clean |
| AgentRunner.Escalate | pylib/agent_runner.py:535-559 | TERM, grace, and KILL if still populated; every boundary error is reported, and without one a missing proof has its reason in the last look |
| AgentRunner.StopAndProve | pylib/agent_runner.py:495-559 | the signals are a prefix of TERM, KILL; none is sent to a client found ended with its group empty; proved means proof; without a fault an unproved stop sent TERM, and KILL if the scope stayed populated, and its last look was not clean; it takes at most six graces plus slack |
| AgentRunner.MakeResult | pylib/agent_runner.py:562-603 | the outcome is the named one exactly when closing and polling succeed, otherwise a boundary failure; without a fault the exit status and a proof that was found are reported; the report is sound |
| AgentRunner.FindPath | pylib/agent_runner.py:659-680 | the group is known exactly when some answer said where it is; otherwise a call failed, the launcher was gone first, or it was asked for until the time was up |
| AgentRunner.Ending | pylib/agent_runner.py:791-818 | a run whose launcher and drains have ended is a boundary failure exactly on a fault or a failed drain, otherwise named by the exceeded stream, otherwise completed exactly when its group is read empty |
| AgentRunner.Inspect | pylib/agent_runner.py:786-818 | with no event waiting the run is named by how it ended, or was found unfinished |
| AgentRunner.Watch | pylib/agent_runner.py:778-818 | one look: the waiting event, else the deadline once it has passed, else the end the run has come to; and it goes on only if nothing was waiting, the deadline is ahead and the run was found unfinished |
| AgentRunner.Supervise | pylib/agent_runner.py:777-821 | the first look comes at once and each one soon after the one before; the outcome is what the first decisive look gave, and every look before it found nothing, in time, on a run that was unfinished |
| AgentRunner.Conclude | pylib/agent_runner.py:777-851 | supervision, stop and report together: sound, escalated, bounded; a boundary failure exactly when a call or a drain failed or the last look was not clean, and otherwise the outcome the first decisive look gave; without a fault cleanup is reported proved exactly when the last looks were not unclean, whatever the outcome |
| AgentRunner.Abandon | pylib/agent_runner.py:682-775 | a client that cannot be supervised is stopped and reported as a boundary failure; if its group is known and no call failed, cleanup is reported proved exactly when the last looks were not unclean |
| AgentRunner.RunBoundedAgent | pylib/agent_runner.py:606-851 | for every environment the report is sound (cleanup only on proof, exact outputs, limit outcomes), signals escalate and the run is bounded in time; a run that is not refused is a boundary failure exactly when a call failed, a pipe was missing, a drain failed, the group was never known, or the last look after the last grace was not clean; any other outcome is the one that the first decisive look gave, with the looks beginning when the group is known; where no call failed, the report has the exit status, and cleanup proved exactly when the group was known and the last looks at it were not unclean |
| Inventory.TakeSnapshot | pylib/omniroute_update.py:297-332 | a snapshot holds the last row of every id, and all dependency pairs |
| Inventory.SameRelevant | pylib/omniroute_update.py:280-287 | snapshots that differ outside the relevant containers have the same relevant ones |
| Inventory.IrrelevantContainersDoNotShow | pylib/omniroute_update.py:280-294 | they have the same restricted snapshot, up to the ids left out |
| Inventory.RestrictionIsStable | pylib/omniroute_update.py:280-294 | a restricted snapshot judges relevance as the full one does |
| Inventory.KeptExactly | pylib/omniroute_update.py:280-294 | kept are exactly the target, its dependents, its network neighbours and its project, unchanged; all others are only counted |
| Inventory.IncomingIsRelevant | pylib/omniroute_update.py:335-336 | restricting never loses a container that depends on the target |
| Inventory.ListChanges | pylib/omniroute_update.py:344-353 | exactly the removed, appeared, restarted and changed containers, in order of id, each by its newest name |
| Inventory.AssertUnchanged | pylib/omniroute_update.py:339-355 | accepts exactly when backend, containers and dependencies are equal, and otherwise lists every change |
| Inventory.OneVerdict | pylib/omniroute_update.py:339-355 | the verdict is determined, down to its list of changes |
| Inventory.VerdictIgnoresOthers | pylib/omniroute_update.py:339-355 | irrelevant containers do not change the verdict |
| Inventory.FingerprintIgnoresOthers | pylib/omniroute_update.py:388-404 | nor the inventory parts of the fingerprint |
| Inventory.OthersDiffer | pylib/omniroute_update.py:290-294 | the ids left out do depend on irrelevant containers |
| Inventory.OthersDecide | pylib/omniroute_update.py:255-294 | the restricted snapshots are identical in every field exactly when the same ids were left out |
| Inventory.RunRecheck | pylib/omniroute_update.py:694-715 | the target gone, a changed inventory, a dependent and a drifted fingerprint are told apart in this order, each exactly when it is the case; otherwise it counts unrelated additions and removals |
| Dollars.UnescapeUndoesText | pylib/omniroute_update.py:730-735 | undoubling undoes doubling on every text |
| Dollars.RunsOfDollars | pylib/omniroute_update.py:730-735 | of n dollars in a row doubling makes 2n, and undoubling half of them, rounded up |
| Dollars.OtherTextStays | pylib/omniroute_update.py:730-735 | both work on each run of dollars by itself and leave all other text alone |
| Dollars.UnescapeUndoes | pylib/omniroute_update.py:720-735 | unescape undoes escape on every nested service tree |
| Dollars.EscapeKeepsDollars | pylib/omniroute_update.py:720-731 | escaping keeps which trees have dollars and leaves the others alone |
| Dollars.ListedEnv | pylib/omniroute_update.py:382-385 | a listed environment holds for every key what the last item that sets it says |
| Dollars.DictEnv | pylib/omniroute_update.py:382-385 | a dictionary environment holds its texts, its numbers in decimal, its flags as Python prints them, and the empty text for a missing value |
| Dollars.EnvMapped | pylib/omniroute_update.py:382-385 | rewriting a service's strings rewrites exactly the values of its environment, in both forms of an environment, when the rewriting leaves the names of listed items alone |
| Dollars.EnvEscaped | pylib/omniroute_update.py:382-385 | doubling a service's dollars doubles exactly the values of its environment if and only if no listed item has a dollar in its name |
| Dollars.ToRuntimeLiteral | pylib/omniroute_update.py:741-757 | the loop over the environment decides the spelling, the literal and the two refusals as the function does |
| Dollars.SpellingsAgree | pylib/omniroute_update.py:741-757 | both spellings of a service give the same literal or the same refusal exactly when it has no dollars, or the evidence is right and not wrong in both, or mixed or missing in both |
| Dollars.MatchedAgree | pylib/omniroute_update.py:741-757 | in particular they agree when every dollar-bearing value is the running one and no listed name has a dollar |
| Dollars.LiteralOfSpelled | pylib/omniroute_update.py:741-757 | for every service and both spellings: found, refused, or taken for another one, each with its condition on the printed values that are right and on those that are wrong evidence of the spelling |
| Dollars.LiteralIsMeant | pylib/omniroute_update.py:741-757 | for every service, the literal is the one that was meant exactly when no value is wrong evidence and any dollars have a value that is right evidence |
| Dollars.EvidenceMeant | pylib/omniroute_update.py:741-757 | where no listed name has a dollar, right evidence is a running value that was meant, and wrong evidence a meant value that drifted to read like the other spelling |
| Dollars.MisreadDiffers | pylib/omniroute_update.py:741-757 | a service whose spelling is misread is never the one that was meant |
| Dollars.MatchedIsNotConfused | pylib/omniroute_update.py:741-757 | when every dollar-bearing value is the running one, nothing is confused |
| Dollars.DriftMisleads | pylib/omniroute_update.py:741-757 | a service that is taken for another one without a refusal, and one that is refused in one spelling and found in the other |
| Dollars.DollarNameDiffers | pylib/omniroute_update.py:741-757 | a listed environment of the one item `$=$`, whose value runs, is found in the plain spelling and refused in the doubled one |
| Projection.Mounts | pylib/omniroute_update.py:775-794 | accepts exactly the mounts of the running container, declares exactly the named volumes under their real names, and refuses with the first bad mount; stated over the text of an entry, its colon and its long form |
| Projection.OneSource | pylib/omniroute_update.py:781-782 | an entry has one source: what stands before its first colon, all of it if there is none, or what the long form gives |
| Projection.FitsOrRefused | pylib/omniroute_update.py:781-792 | a mount is accepted exactly when it is an absolute path the container binds or a volume it has; otherwise a relative path is an input refusal, an entry without a source an uncaught error, and anything else an ownership refusal |
| Projection.ResolvedMeans | pylib/omniroute_update.py:768-772 | the resolved networks are the declared names, or the key in the project, of the networks the service lists, or of the default network if it lists none |
| Projection.MountsAgain | pylib/omniroute_update.py:775-794 | accepted mounts are accepted again from the declared names |
| Projection.Attachments | pylib/omniroute_update.py:811-814 | every inspected network is attached under its real name, with the settings of the last key, as printed, that resolves to it |
| Projection.BuildProjection | pylib/omniroute_update.py:797-817 | writes a file exactly when the service is found, its literal is, it shares no namespace, its networks are the running ones and all its mounts fit; what the file contains, for any order the network keys are printed in; and when none is written, the first of its five causes with its own refusal |
| Projection.AcceptedMeansSame | pylib/omniroute_update.py:760-836 | `verify_projection` accepts a reading exactly when it is the one service with the new image, otherwise the service that runs, on the running networks and with mounts that fit |
| Projection.VerifyAcceptsBuild | pylib/omniroute_update.py:797-836 | what `verify_projection` says of what `build_projection` wrote, for every faithful provider and any names: accepted exactly when no value in it is wrong evidence of the spelling and any dollars have right evidence; mixed or missing evidence is an input refusal, wrong evidence alone an ownership refusal |
| Projection.AcceptedUnlessConfused | pylib/omniroute_update.py:797-836 | where no listed name has a dollar: accepted exactly when no drifted value of the literal reads like the other spelling, and refused for mixed evidence otherwise |
| Projection.SameProvider | pylib/omniroute_update.py:797-836 | with one provider for both readings and any names: what was found as meant is accepted; otherwise the service was misread on wrong evidence alone, and the verdict on the file follows its own evidence |
| Projection.PlannerMisreads | pylib/omniroute_update.py:797-836 | a service written other than meant and accepted, and one refused as the reading of its own file |
| KeyIssuance.MoveKeepsLocks | pylib/remote_setup.py:358-381 | the two locks belong to exactly the callers whose program says so |
| KeyIssuance.StepKeeps | pylib/remote_setup.py:407-435 | every step of every interleaving keeps the invariant of locks, cache, keys and handed-out keys |
| KeyIssuance.MintBound | pylib/remote_setup.py:407-435 | keys minted are at most one plus revocations, failed cache writes, crashes and lost replies |
| KeyIssuance.EveryMishapMints | pylib/remote_setup.py:407-435 | for revocations, failed cache writes, process deaths and lost replies alike, and every number of them: a reachable state with that many of the one kind, no other mishap and one key more |
| KeyIssuance.HandedIsKept | pylib/remote_setup.py:417-435 | a key handed to a caller is one the server created, and what the caller leaves with, unless its process dies |
| KeyIssuance.WellMeansKey | pylib/remote_setup.py:417-435 | in every run, a call that has ended has a key exactly when all its steps went well |
| KeyIssuance.CallEndsWithKey | pylib/remote_setup.py:417-435 | in a process that does not die a call ends after at most nine steps of its own, whatever the others do |
| KeyIssuance.SameKey | pylib/remote_setup.py:407-435 | calls with no mishap during or between them return the same key |
| KeyIssuance.ColdCacheOneKey | pylib/remote_setup.py:344-358 | without mishaps all calls that end without a failed step of their own get one key, the only one minted |
| KeyIssuance.OneAtATime | pylib/remote_setup.py:361-381 | at most one caller is between reading and writing the cache |
| KeyIssuance.NoDeadlock | pylib/remote_setup.py:417-417 | while a call is under way, some call can take its next step |
| KeyIssuance.MoveProgresses | pylib/remote_setup.py:407-435 | every step brings its call closer to the end and moves no other |
| ConfigFlight.RequestStep | pylib/remote_setup.py:662-682 | what one step does to its request and to the lock |
| ConfigFlight.StepKeeps | pylib/remote_setup.py:662-682 | every step keeps that the lock is held exactly while one request flies |
| ConfigFlight.AnIncompleteBoxIsNeverRead | pylib/remote_setup.py:673-682 | a handler that may read its box has a dead worker and a complete box, so the reading raises no exception but one that the worker had |
| ConfigFlight.NeverRaised | pylib/remote_setup.py:673-695 | no reachable state has a request that failed on an incomplete box |
| ConfigFlight.HeldExactlyInFlight | pylib/remote_setup.py:662-672 | the lock is held exactly while one handler is launching or one worker is still fetching |
| ConfigFlight.ReturnedOnce | pylib/remote_setup.py:282-296 | a lock given back was held, taken once for that request, and not yet given back |
| ConfigFlight.TakenIsReturned | pylib/remote_setup.py:662-672 | once a request is no longer in flight it has given back what it took |
| ConfigFlight.ServedIsFetched | pylib/remote_setup.py:673-695 | what is served is what that request's own worker fetched |
| ConfigFlight.OthersDoNotMatter | pylib/remote_setup.py:662-695 | from its launch on a request depends on its own steps alone |
| ConfigFlight.ReadyIsServed | pylib/remote_setup.py:282-296 | a request whose worker is done when its handler wakes up is answered with what was fetched: both values, the error, or the exception |
| ConfigFlight.EarlyIsLate | pylib/remote_setup.py:673-676 | one whose worker still has a step to take is told that it took too long |
| ConfigFlight.FlightMoves | pylib/remote_setup.py:282-296 | the request that holds the lock can always take a step of its own, and fewer are left after it |
| ConfigFlight.FlightEnds | pylib/remote_setup.py:282-296 | whatever happens in between, after at most four steps of its own the request has given the lock back |
| GgufFormat.NumberOfBytes | pylib/gguf.py:69-71 | little-endian numbers are read back |
| GgufFormat.SkipIsRead | pylib/gguf.py:74-105 | for every known element type reading and skipping an array consume the same bytes and fail on the same inputs |
| GgufFormat.UnknownElements | pylib/gguf.py:74-105 | for unknown element types skipping always fails, and reading fails unless the array is empty |
| GgufReader.Stream.ReadExact | pylib/gguf.py:52-56 | exactly the wanted bytes, or truncated |
| GgufReader.Stream.SkipExact | pylib/gguf.py:59-66 | a skip stays inside the file or fails |
| GgufReader.Stream.ReadString | pylib/gguf.py:69-71 | a length and that many bytes |
| GgufReader.Stream.SkipArrayPayload | pylib/gguf.py:74-87 | the skipping loop ends where the format says |
| GgufReader.Stream.ReadInline | pylib/gguf.py:101-102 | the elements in order, and the position after them |
| GgufReader.Stream.ReadValueOf | pylib/gguf.py:90-105 | one metadata value of any type, with the array limits |
| GgufReader.Stream.ReadMetadata | pylib/gguf.py:120-124 | all entries, later keys over earlier ones |
| GgufReader.ReadGgufHeader | pylib/gguf.py:108-125 | the stream reads the header as the format defines it, and ends where the tensor table begins |
| GgufRoundTrip.IntegersRoundTrip | pylib/gguf.py:29-41 | every integer in the range of its type, stored in as many bytes as the reader takes, is read back as itself |
| GgufRoundTrip.ItemsAt | pylib/gguf.py:101-102 | written elements are read back |
| GgufRoundTrip.ArrayAt | pylib/gguf.py:95-104 | a written array is read back, or summarized when it is large |
| GgufRoundTrip.HeaderRoundTrip | pylib/gguf.py:108-125 | for raw values, reading a written header gives back its version, counts and metadata and ends at its last byte, whatever follows |
| GgufTensors.ReadTable | pylib/gguf.py:177-193 | the tensor table in file order, refusing misaligned offsets |
| Sorting.SortSorts | pylib/gguf.py:198-198 | sorting by a key is a permutation in order |
| GgufTensors.LayoutIsLaidOut | pylib/gguf.py:177-227 | a file that is not refused has aligned, strictly increasing offsets inside the data section |
| GgufTensors.IntervalInside | pylib/gguf.py:193-235 | every tensor begins aligned and ends inside the file |
| GgufTensors.IntervalsDisjoint | pylib/gguf.py:208-235 | two tensors never share a byte |
| GgufTensors.TensorSizes | pylib/gguf.py:148-235 | the sizes are those of the layout, and every refusal is the layout's |
| GgufTensors.SizesSum | pylib/gguf.py:229-235 | distinct names: the sizes sum to the data span minus the first offset; repeated names: to no more |
| GgufTensors.SizeIsGap | pylib/gguf.py:229-235 | the size of a tensor reaches to the next offset there is, and that of the last one to the end of the file |
| GgufTensors.MoeExpertOffloadMib | pylib/gguf.py:238-274 | the offloaded share is the routed experts of the first blocks, in MiB rounded up; a file without an architecture or without its expert count is refused, even for no blocks |
| GgufTensors.OffloadMonotone | pylib/gguf.py:268-274 | offloading more blocks never moves fewer bytes |
| GgufTensors.SharesAreExact | llmenv.py:252-262 | the VRAM share is never negative and less than one MiB off the bytes that stay |
| GgufWriter.StoredIsRead | pylib/gguf.py:23-41 | every value in the range of its type, written in the width and with the sign of the format, is read back as itself, for all twelve types |
| GgufWriter.FileRoundTrip | pylib/gguf.py:108-125 | reading a header written byte by byte gives back version, count and metadata: the last entry of every key, and arrays as their elements or, if large, a summary; it ends at the last byte, whatever follows |
| GgufWriter.TableRoundTrip | pylib/gguf.py:177-193 | reading a written tensor table gives back names and offsets in order and ends at its last byte; it is refused exactly when an offset is not aligned |
| GgufWriter.AlignmentIsRead | pylib/gguf.py:141-145 | the alignment is that of the last `general.alignment`, a positive whole number, or 32 |
| GgufWriter.LayoutOfWritten | pylib/gguf.py:163-227 | a written file is laid out with its data section at the first multiple of the alignment behind the table; it is refused exactly when offsets are not aligned, not distinct, or past the end |
| Budget.Pad256 | pylib/budget.py:55-56 | the least multiple of 256 not below the value |
| Budget.KvCacheComponents | pylib/budget.py:59-100 | full and sliding-window caches are the bytes of their layers, each the least number of MiB that holds them; a sliding layer without a window is refused |
| Budget.LayerIsBytes | pylib/budget.py:77-90 | the bytes of a layer: keys and values of its heads, each in its own cache type, in every cell it keeps; a sliding layer keeps the window and one batch, or the context, padded to 256 |
| Budget.CacheMonotone | pylib/budget.py:73-91 | a longer context never needs a smaller cache |
| Budget.PrefixDominates | pylib/budget.py:133-136 | the most expensive models cost at least as much as any choice of as many |
| Budget.TopCovers | pylib/budget.py:133-136 | their cost bounds every resident set, and one set attains it |
| Budget.ComputeBudget | pylib/budget.py:103-138 | feasible exactly when every resident set fits: weights, caches and 512 MiB each, the extra reserve and 1024 MiB, with the compositor and with the floor, under the total and the ceiling; the reserve, what is available and the shortfall |
| Resources.ComputeResourceLimits | pylib/resources.py:216-341 | the floors, refusals and limits, step by step as the function has them |
| Resources.PoliciesAre | pylib/resources.py:186-243 | every value of a policy is the configured or the built-in one, and a service that is off gets nothing |
| Resources.RefusedOverrides | pylib/resources.py:133-183 | overrides are refused exactly when they leave a policy with a bound that is not positive, or a minimum above its maximum |
| Resources.LlmServerGets | pylib/resources.py:273-307 | memory and CPUs of llm-server: the greater of two rounded percentages of the host, at least one CPU, and no more than what is free |
| Resources.CpuMonotone | pylib/resources.py:299-304 | a higher CPU percentage never gives a smaller quota, nor more than what is free |
| Resources.NothingOverpromised | pylib/resources.py:234-307 | floors, reservations and llm-server's limit never exceed the host |
| Resources.MemoryMonotone | pylib/resources.py:274-284 | a higher percentage never gives less memory, nor more than the floors leave |
| Resources.CpuQuotaIsPositive | pylib/resources.py:286-304 | a running llm-server's CPU quota is never zero |
| Resources.RamCheck | llmenv.py:371-437 | a named percentage is at most 100 and makes the check pass; it is the least whole one exactly when one less, rounded to MiB, falls short, and two less never work; where none is named no percentage is enough |
| Resources.PercentIsEnough | llmenv.py:430-437 | the needed share in whole percents, recomputed with rounding, is enough |
| Resources.RemedyIsNearLeast | llmenv.py:430-437 | any percentage two below it or more is too little, and the one just below it exactly when its rounded share is |
| Resources.LessCanBeEnough | llmenv.py:430-437 | a host of 10050 MiB for which 32 percent is named and 31 is enough |
| BudgetCheck.CheckBudget | llmenv.py:325-441 | feasible exactly when every resident set fits in VRAM and in RAM, and either verdict by itself; a ceiling of zero is none; the remedy works for every resident set, or no percentage works for all of them |
| Spans.FlattenAttributes | pylib/phoenix_trial.py:979-1002 | succeeds exactly on well-formed attributes with distinct paths, and keeps every leaf under its path |
| Spans.NestingDoesNotMatter | pylib/phoenix_trial.py:979-1065 | how attributes are nested and ordered does not change the canonical span |
| Spans.CanonicalSpan | pylib/phoenix_trial.py:1024-1065 | a record becomes its canonical span or is refused as malformed |
| Spans.LevelIsEquality | pylib/phoenix_trial.py:1105-1107 | two spans count as one exactly when all fields are the same and all attributes are equal, numbers and truth values by value |
| Spans.SomeRecord | pylib/phoenix_trial.py:1024-1065 | every plausible span is the canonical span of some record |
| RunSummary.SummarizeSpans | pylib/phoenix_trial.py:543-630 | the totals, the error rate and the median over the roots; refuses what cannot be counted |
| RunSummary.SummarySays | pylib/phoenix_trial.py:565-630 | every total is the sum of its own attribute over the roots, or the number of roots of a kind; the rate times the requests is the errors; the median is that of the durations |
| RunSummary.DurationsCount | pylib/phoenix_trial.py:573-575 | a duration occurs as often as there are roots that have it |
| RunSummary.MedianIsMiddle | pylib/phoenix_trial.py:614-615 | the median is the middle value in order, or the mean of the middle two |
| RunSummary.RefusedWhen | pylib/phoenix_trial.py:549-613 | a run is refused exactly when it has no root, or one with a fault |
| RunSummary.OneOrder | pylib/phoenix_trial.py:614-615 | there is one sorted order, so the median is determined |
| RunSummary.SummaryConsistent | pylib/phoenix_trial.py:565-630 | requests are successes plus errors, errors report no usage, the rate is a rate and the median lies between two durations |
| RunSummary.SummaryIgnoresOrder | pylib/phoenix_trial.py:543-630 | the same spans in any order have the same summary or are refused alike |
| RunSummary.SummaryIgnoresLevel | pylib/phoenix_trial.py:1105-1107 | spans that comparison cannot tell apart have the same summary, if both can be summarized |
| Readback.CompareRun | pylib/phoenix_trial.py:1080-1107 | accepts exactly when the run's records equal the expected spans, each once, with numbers compared by value, and can be summarized; then it returns the expected summary |
| Readback.ReadbackIsIncomplete | pylib/phoenix_trial.py:1222-1240 | true exactly when the run's records equal a proper part of the expected spans |
| Readback.RejectedWhen | pylib/phoenix_trial.py:1080-1240 | rejected is a malformed record, a surplus or deviating span, or a full set that cannot be summarized |
| Readback.IncompleteIsCompleted | pylib/phoenix_trial.py:1222-1240 | an incomplete list is completed by exactly the missing spans, and only if what it has can be summarized |
| Readback.CompletedIff | pylib/phoenix_trial.py:1222-1240 | some later records complete an incomplete list exactly when what it has can be summarized |
| Readback.WaitsInVain | pylib/phoenix_trial.py:1222-1240 | a root whose count came back as a floating-point number leaves the list incomplete and can never be accepted |
| Readback.VainExample | pylib/phoenix_trial.py:1222-1240 | such a run exists: two items expected of each of two requests, and one of the counts comes back as 2.0 |
| Readback.RejectedForGood | pylib/phoenix_trial.py:1222-1240 | together with this: no later records mend a rejected list |
| Readback.SurplusIsRejected | pylib/phoenix_trial.py:1090-1107 | a span that names the run, or has an expected identity, and equals no expected span has the list rejected |
| Readback.OtherRunsDoNotMatter | pylib/phoenix_trial.py:1090-1094 | well-formed records that do not name the run and have no expected identity change nothing |
| Readback.OrderDoesNotMatter | pylib/phoenix_trial.py:1080-1240 | nor does the order of the records |
| Readback.VerifyRun | pylib/phoenix_trial.py:1243-1280 | retries only incomplete or transient readbacks, and reports the first decisive one |
| ZaiReset.ThresholdIsLower | pylib/zai_reset.py:69-72 | the check fires exactly from 98.95 percent on |
| ZaiReset.WeekCard | pylib/zai_reset.py:52-58 | the usable card that expires first, the first listed of several |
| ZaiReset.StepKeeps | pylib/zai_reset.py:61-90 | every check, new pass and loss of notes keeps the count of redemptions and notes in step |
| ZaiReset.NotesBoundCards | pylib/zai_reset.py:73-90 | over every run and for either kind of server at most one accepted redemption of a window beyond unnoted redemptions, lost notes and redemptions without a window, and no more cards than that |
| ZaiReset.EveryExcuseCosts | pylib/zai_reset.py:73-90 | the bound is met: for each of the four kinds of mishap and any number of them, a run with that many and one more accepted redemption |
| ZaiReset.SameText | pylib/zai_reset.py:81-84 | two requests carry the same idempotency key exactly when they are for the same window of the same connection, or a colon in an id makes them run into each other |
| ZaiReset.OneCardPerText | pylib/zai_reset.py:81-84 | a server that honours the key spends exactly one card for all the accepted requests of one text |
| ZaiReset.SpentExactlyOnce | pylib/zai_reset.py:73-90 | so a window whose text no other request of the run carries costs exactly one card once accepted, however often it is retried |
| ZaiReset.ClashLosesCard | pylib/zai_reset.py:81-84 | where two texts do run into each other, the second redemption is accepted and renews nothing |
| ZaiReset.Program.Redeem | pylib/zai_reset.py:80-90 | an accepted redemption is noted in memory and on disk, and nothing else is |
| ZaiReset.Program.CheckConnection | pylib/zai_reset.py:61-90 | one check is one step of the runs; every report exactly, from the usage, the note, the cards and the dry run; a redemption is requested exactly when 98.95 percent are used, the window is not noted, there is a card and it is no dry run, and with the card that expires first |

## Left out

- IdleGate.Gate.Step: the clock of the samples is any real number; the results about whole runs say where they need it
  not to run backwards.
- Observer.ReadyIsQuiet: a quiet window is not claimed for every ready answer, because the code keeps its window across
  a defer-unknown answer; the lemma says exactly for which.
- Collector.Sampler.Sample: identity fields, detail strings and the boot id of a sample are not modelled, and the sums
  over the admission counters and the pending counters are one number each.
- JournalReader.Reader.Poll: lines are whole lines that are already parsed; partial reads of a non-blocking pipe and
  the two-second cap of the wait are a number of lines the budget allows.
- AgentWorld.Drain.Iterate: one pass of a drain thread is one step; the runner's own steps interleave with passes, not
  with parts of them, and emptying the event queue is one step.
- AgentRunner.RunBoundedAgent: opening the files, starting the scope and starting each thread may fail freely, but the
  systemd command lines and file modes are not modelled; clock values are exact.
- Inventory.TakeSnapshot: the shape checks of the container engine's answers are not modelled; digests are injective.
- Dollars.EnvMapped: a nested value, which compose does not allow in an environment, counts as missing instead of as
  its Python text.
- Projection.VerifyAcceptsBuild: an image reference contains no dollar, and network and volume names are not empty, as
  the container engine guarantees; the provider is one that undoes the doubling and repeats the rest.
- Projection.Attachments: a service is a map here, whose keys have no order; the order in which its network keys are
  printed is a parameter.
- KeyIssuance.MintBound: modelled on values, as interleaved steps, because the subject is the interleaving; a request
  or a file access is one step, and nobody else touches the cache file.
- ConfigFlight.HeldExactlyInFlight: modelled on values, as interleaved steps; exceptions that even `except Exception`
  does not catch are not modelled.
- GgufFormat.SkipIsRead: a string length of 2^63 or more is a truncated file here; in the source reading it raises
  another exception than skipping it, and which one depends on the machine.
- GgufReader.ReadGgufHeader: text stays as bytes and a float as its bits; the file does not change while it is read.
- GgufTensors.MoeExpertOffloadMib: which tensor names are routed experts, and of which block, is given.
- Budget.KvCacheComponents: the kinds of layers are taken from the geometry; expanding it from the metadata is not
  modelled, and byte ratios are exact thirty-seconds.
- Resources.ComputeResourceLimits: percentages are exact numbers, not floating-point ones.
- Spans.CanonicalSpan: identifier patterns, timestamps and JSON text are already judged; floating-point numbers are
  finite and exact.
- Readback.VerifyRun: a page walk is one step with its records or its failure, and the deadline is the end of the
  walks; the expected run is one that validation accepts.
- ZaiReset.NotesBoundCards: windows of one connection do not come back once a later one was seen, and passes do not
  overlap; a window stands for its reset time, which the server writes in its own way.
- The verdict wording, remedies other than the RAM percentage, and all rendering of reports are not modelled.
- Preflight, commit verification, image resolution, profile loading and the shell side of the updater are not modelled.
- Configuration validation and migration, compose rendering, capacity cards, the benchmark drivers and the fake
  inference server would only add easy members.
