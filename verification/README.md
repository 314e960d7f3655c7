# Verified models of X server extensions

This project models stateful parts of the X server's extension code in Dafny and proves what they promise.
`dafny verify dfyconfig.toml` checks everything. Each part has imperative Dafny where the C code updates things in
place (classes, arrays, linked nodes, loops), functions that say what those operations do, and theorems about the
functions.

- **SYNC counters, alarms and awaits** (`Xext/sync.c`). `SyncModel` is the state machine as functions, up to `Step`, one
  request. `SyncServer` has the objects and the walks that update them in place; each method is proved to lead to the
  state its function gives, and `Serve` to do so for a whole run. `SyncLinks` proves that trigger lists and triggers agree
  in every reachable state, `SyncTypes` when check functions agree with test-types, `SyncQuiescence` that what waits has a
  reason to wait, `SyncRearm` the closed form of alarm re-arming, `SyncLoops` when that loop ends, `SyncAwaitEvents` the
  events of a fired Await, `SyncBrackets` that the lazy bracket test of the idle counter cannot be told from eager checking
  after a SyncChangeCounter, `SyncLazy` from exactly which states on this is so. `SyncCoverage`, `SyncAwaitCoverage`,
  `SyncUncovered`, `SyncRefusedAwait` and `SyncKept` say for every request what it makes of a counter's coverage, and
  `SyncMixedRuns` joins wakeups and requests. `SyncFires` says by the protocol's rule for each test-type what a change of a
  counter does to each alarm and Await, `SyncSends` everything that a change or the end of a counter sends, in order,
  `SyncRequests` and `SyncAwaitRequests` what each request answers and stores, field by field, and `SyncBracketValues`
  which brackets are set, for every type of counter.
- **Glyph metrics** (`Xext/xf86bigfont.c`). `BigFont` runs the chained hash table in the four slices of one 16-bit array,
  with rehashing; `BigFontReply` serialises the result and proves that a client reads the full metrics back.
- **Xinerama** (`Xext/panoramiX.c`, `Xext/panoramiXprocs.c`). `PixelLayout` and `XineramaImage` stitch one image from the
  screens' parts, `BoxRegions` shows that the region operations they rely on exist, `ImageReply` sends the image a buffer
  at a time, `DrawRequests` shifts drawing requests per screen, `ValueLists` rewrites attribute lists per screen.
- **Hash table and XRes** (`Xext/hashtable.c`, `Xext/xres.c`). `HashTable` is the resizing table as a finite map;
  `XRes`, `XResContext`, `XResQuery` and `XResReply` build the resource-size answer. Their tables of visited resources are
  kept as a set and a map, which is what `HashTable` proves such a table to be.
- **Smaller parts.** `SleepQueue` and `SleepList` (`Xext/sleepuntil.c`), `SecurityTimers` and `SecurityServer`
  (`Xext/security.c` with the timers of `os/WaitFor.c`), `ShmSegments` (`Xext/shm.c`).

## Where the code falls short of what it is meant to do

The models follow the code. Six intended properties do not hold of it. Each has lemmas with concrete inputs, and a
theorem about exactly when the property does hold.

- A ChangeAlarm that is refused after it has written the alarm (`Xext/sync.c:887-891`) can leave an active alarm whose
  comparison holds: `RefusedChangeIsNotQuiet`. `StepWaitInv` says exactly which requests keep what waits waiting for a
  reason: all but a ChangeAlarm that SyncInitTrigger refuses after giving an active alarm on a client's counter a test
  value with which its comparison holds (`RefusedTest` is that value). `RunWaitInv` carries this to runs, `InitAcceptsExactly`
  says what is refused. A refusal can also leave a test-type that is not the one checked: `MistypedChangeShows`.
  `StepTyped` says exactly which requests keep check functions those of the test-types, `RefusedShows` when what an alarm
  shows is quiet all the same.
- Such a ChangeAlarm can also leave an alarm with delta 0 that SyncAlarmTriggerFired takes into its loop
  (`Xext/sync.c:563-566`), which then never ends: `RefusedChangeLoops`. `FiringEndsExactly` says when firing an alarm
  ends, `StepEnds` exactly which requests keep the server where every firing does; a quiet server is there
  (`QuietAllEnd`). Where the loop does not end, `SyncModel.Rearm` is None without a meaning.
- Checking the idle counter lazily can lose an alarm. `LazySoundExactly` says from which states on it cannot: those in
  which no armed trigger that somebody could see fire is missed, that is, no idle time strictly inside the brackets is
  where it fires when it comes from the stored value or from another idle time inside. SyncChangeCounter leads to such a
  state (`LazyBracketsSound`). Requests need not:
  - An alarm that fires while it is created or changed does not set the brackets anew (`Xext/sync.c:1765`,
    `Xext/sync.c:1809-1811`): `CreationIsNotCovered`.
  - SyncInitTrigger stores the value a driver answers without a look at the triggers (`Xext/sync.c:334-342`), so that
    brackets set afterwards no longer guard an alarm that was overtaken: `QueryIsNotCovered`, where nothing fires.
    `CreateAlarmCovered`, `ChangeAlarmCovered` and `AwaitCovered` say on the state before exactly which accepted requests
    leave the counter covered.
  - QueryCounter (`Xext/sync.c:1664-1668`), and a request that SyncInitTrigger refuses, store the answer and keep the old
    brackets, which guard a transition from the wrong side: `ThirtyStored`, `StoredIsNotSound`. `QueryCovered`,
    `CreateRefusedCovered`, `ChangeRefusedCovered` and `AwaitRefusedCovered` say exactly when coverage is kept: when the
    armed transitions are bracketed at the answer, as they are when it lies strictly inside the brackets.
  - DestroyAlarm, the end of an Await, and a ChangeAlarm that moves an alarm away set the brackets for the value stored, as
    if every trigger had been checked at it: `OneLostReached`, `DestroyIsNotCovered`. `DestroyAlarmCovered`,
    `FreeAwaitCovered` and `MovedCovered` say exactly when coverage is kept.
  - Every other request leaves a counter covered on which no comparison holds unnoticed (`StepKeepsCovered`), and runs of
    wakeups and requests that do so can be checked lazily from every state on the way (`MixedRunSound`).
  - All this is for servers whose check functions agree with the test-types. After a change refused with a test-type that
    does not exist SyncChangeCounter sets no bracket for the alarm: `UntypedReached`, `UntypedIsNotBracketed`.
- Resource sizes asked about one client: a client number is compared with the id asked about (`Xext/xres.c:890-892`). A
  resource of that client is never found by its id, `NamedResourceMissed`, and one of the client whose number is that id
  is, `ForeignResourceAnswered`. `OneClientExactly` says what is visited, `AsAskedExactly` when that is what was asked for.
  Of several resources with one id, as Xinerama has them, only the first visited is answered (`Xext/xres.c:743`):
  `SameIdLeftOut`, and `LeftOutExactly` for which are dropped.
- The sleep queue's wait is passed as a signed 32-bit number (`os/WaitFor.c:238`): `LongSleepBlocksForever`, and
  `LongSleepOverrides` where another timer or a client just woken is overridden. `BlocksUntilHead` says exactly when the
  wait is right.
- A timer set for 2^31 ms or more runs at once (`os/WaitFor.c:343-345`), so an authorization with a timeout of 25 days is
  freed when it is made: `TwentyFiveDays`, and `LivesItsTimeout` for when the timeout is kept. In a build with asserts
  the server ends there instead: TimerSet has not returned, the authorization's timer is still NULL, and
  `assert(pAuth->timer == timer)` (`Xext/security.c:300`) fails. In one without, the callback frees the authorization
  inside TimerSet, and what TimerSet returns is then stored in the freed authorization (`Xext/security.c:328`).

`test/sync/sync.c` expects a negative delta to be accepted on an alarm whose test-type is the default
PositiveComparison; `Xext/sync.c:868-884` answers BadMatch, and the model does the same. `Xext/syncsrv.h` declares an
older layout of counters and triggers than the one `Xext/sync.c` uses; the model has the latter.

## Assumptions

Memory allocation succeeds except where a failure is a parameter (`HashTable`, `XResContext`, `ShmSegments`,
`SleepList`). A value that a driver, a system counter or another client delivers is a parameter: `clock` for the
values of system counters, `Image` for what a screen shows, `outcomes` for what a screen's own handler answers. The
conditions of one Await name distinct counters (`DistinctCounters`). The methods of `SyncServer` are proved for servers in
which every firing ends (`AllEnd`) and requests that keep it so, which termination of the code needs. Compiled-in `assert`
calls of the C code are not modelled. A bit mask is a natural number; `mask & (bit - 1)` is `ValueLists.Below`, and `Ones` counts bits one by one.

## Model

| member | source | states |
|---|---|---|
| SyncLinks.ReachableLists | Xext/sync.c:144-222 | Over every run of requests with distinct counters in each Await: each live trigger with a counter is on that counter's list exactly once and on no other, and no list holds a trigger that is gone or points elsewhere. |
| SyncLinks.StepListInv | Xext/sync.c:1571-1651 | Every single request, accepted or refused, keeps the invariant behind that theorem. |
| SyncLinks.DeleteTriggerLinked | Xext/sync.c:145-185 | Deleting a trigger takes exactly it off the lists; all other triggers stay linked. |
| SyncLinks.InitTriggerLinked | Xext/sync.c:314-423 | Re-targeting a trigger, or refusing to, leaves it on the list of the counter it names afterwards. |
| SyncLinks.FreeCounterLinked | Xext/sync.c:1155-1184 | Destroying a counter fires what waits on it and leaves no trigger that points to it. |
| SyncLinks.FreeAlarmListInv | Xext/sync.c:1131-1152 | Destroying an alarm takes its trigger off its list and keeps the list invariant. |
| SyncLinks.FreeAwaitLinked | Xext/sync.c:1187-1210 | Freeing an Await takes all its conditions off their lists. |
| SyncRearm.RearmPositive | Xext/sync.c:551-581 | The re-arming loop of a positive comparison with delta above 0 ends, at t + (floor((c - t) / delta) + 1) * delta, or reports overflow exactly when that is no INT64. |
| SyncRearm.RearmNegative | Xext/sync.c:551-581 | The same, mirrored, for a negative comparison with delta below 0. |
| SyncRearm.RearmTransition | Xext/sync.c:269-301 | A transition alarm is moved by exactly one delta. |
| SyncRearm.AlarmFiredClosedForm | Xext/sync.c:528-604 | An alarm that fires ends with the closed-form test value, or inactive with its test value kept, and sends one event with the old test value to each client that wants one. |
| SyncRearm.AlarmEventsEach | Xext/sync.c:425-464 | Every recipient gets the same event, in order. |
| SyncAwaitEvents.AwaitFiredOutput | Xext/sync.c:612-699 | The events of a fired Await are, in request order, exactly one for each condition the protocol's rule reports, counted down to 0; then the client is attended once. |
| SyncAwaitEvents.CounterEventsEach | Xext/sync.c:471-509 | The event at place k has count n - 1 - k and its condition's counter, test value and destroyed flag. |
| SyncAwaitEvents.AwaitLeavesLists | Xext/sync.c:1187-1210 | After it fired, the Await is gone, and every surviving list is as before without its conditions. |
| SyncAwaitEvents.SavedNextStaysOnList | Xext/sync.c:713-730 | Firing a trigger takes at most that trigger off the list being walked, so the saved next node stays on it. |
| SyncQuiescence.ReachableQuiet | Xext/sync.c:527-604 | Over every run without the refused changes of the next row: each condition of a pending Await and each active alarm has a counter, and on a client's counter the comparison that is checked does not hold. |
| SyncQuiescence.StepWaitInv | Xext/sync.c:1693-1812 | A request, accepted or refused, keeps that and the list invariant if and only if it is no ChangeAlarm that SyncInitTrigger refuses after it gave an active alarm on a client's counter a test value with which its comparison holds. |
| SyncQuiescence.RunWaitInv | Xext/sync.c:2113-2165 | A run keeps that throughout if and only if each of its requests is such a one. |
| SyncTypes.StepTyped | Xext/sync.c:796-896 | A request keeps every check function that of its test-type, and the sign rule for delta, if and only if it is no ChangeAlarm that writes another test-type and is then refused by SyncInitTrigger. |
| SyncQuiescence.StepQuietInv | Xext/sync.c:1693-1812 | The two together: lists, reasons to wait, check functions of the test-types and signs of delta are kept exactly by the requests of the last row. |
| SyncQuiescence.ChangeAlarmWaitInv | Xext/sync.c:796-896 | The same for ChangeAlarm alone, for the invariant and for quiescence by itself: what a refusal leaves behind is quiescent exactly when the alarm is not active, is on no client's counter, checks a transition, or its comparison is false at the test value left. |
| SyncQuiescence.RunQuietInv | Xext/sync.c:2113-2165 | A run from a quiet state keeps all of that throughout if and only if each of its requests does. |
| SyncQuiescence.RefusedShows | Xext/sync.c:887-891 | After a refused ChangeAlarm no active alarm shows a comparison that holds if and only if the alarm is not active, or its new test-type and the test value left make none. |
| SyncQuiescence.MistypedChangeShows | Xext/sync.c:887-891 | A concrete refused ChangeAlarm after which an active alarm shows a comparison that holds, while the one it checks does not. |
| SyncQuiescence.ChangeCounterQuiet | Xext/sync.c:713-730 | SyncChangeCounter leaves every armed trigger on the counter false. |
| SyncQuiescence.FreeCounterWaitInv | Xext/sync.c:1155-1184 | Destroying a counter keeps quiescence: its alarms become inactive and its awaits are gone. |
| SyncTypes.InitAcceptsExactly | Xext/sync.c:314-423 | SyncInitTrigger answers Success if and only if the counter exists, the value-type is valid, a relative value fits, and the test-type exists. |
| SyncQuiescence.RefusedChangeIsNotQuiet | Xext/sync.c:887-891 | A concrete refused ChangeAlarm leaves an active alarm whose comparison holds, against what the first row says. |
| SyncFires.ChangeFiresAlarm | Xext/sync.c:240-301 | An active alarm on the counter fires if and only if old < test <= new (PositiveTransition), old > test >= new (NegativeTransition), new >= test or new <= test (the comparisons); it then has its next test value or is inactive, and each listener is told once, with the old test value, the new counter value and the new state. Otherwise it is as it was and nobody is told. |
| SyncFires.ChangeLeavesAlarm | Xext/sync.c:713-730 | An alarm on another counter, or not active, is as it was, and nobody is told. |
| SyncFires.ChangeEndsAwait | Xext/sync.c:713-730 | A pending Await is over if and only if one of its conditions is on the counter and the rule of its test-type holds; otherwise it is as it was. |
| SyncSends.ChangeCounterSends | Xext/sync.c:713-730 | What a change sends is, for each trigger on the counter's list in its order, what the rule of its test-type asks for, and nothing else. |
| SyncSends.FreeCounterGives | Xext/sync.c:1155-1184 | Destroying a counter makes every alarm on it inactive and without a counter and tells its listeners the old value, ends every Await with a condition on it, leaves all others and every other counter's value, and sends nothing else, in the order of the list. |
| SyncSends.AwaitEventsGive | Xext/sync.c:612-699 | The events of one Await in any state, also while a counter is destroyed: one for each condition the protocol reports, numbered down to 0, unless the client has gone. |
| SyncRequests.InitStores | Xext/sync.c:314-423 | An accepted SyncInitTrigger stores the counter, the check function for the number of the test-type, and as test value the wait value if it is absolute, what the counter shows plus the wait value if it is relative, and the old one if neither value nor value-type is given; of all values only that counter's may change, to its driver's answer. |
| SyncRequests.InitVerdict | Xext/sync.c:314-423 | Its answer: Counter, Value and Match errors in the order of the checks. |
| SyncRequests.CreateAlarmAnswer | Xext/sync.c:1693-1767 | The answer of CreateAlarm from the request: a taken id, unknown attributes or events, a delta of the wrong sign, then SyncInitTrigger's. |
| SyncRequests.CreateAlarmGives | Xext/sync.c:1693-1767 | The new alarm field by field, with absolute value 0, PositiveComparison, delta 1 and events for what is not given; without a counter it is inactive, and it fires at once, with its events, if and only if its comparison holds. |
| SyncRequests.CreateAlarmRefused | Xext/sync.c:1693-1767 | A refused CreateAlarm leaves no alarm, and at most the driver's answer in the counter. |
| SyncRequests.ChangeAlarmAnswer | Xext/sync.c:1776-1812 | The answer of ChangeAlarm from the request and the old alarm. |
| SyncRequests.ChangeAlarmGives | Xext/sync.c:1776-1812 | The same for ChangeAlarm with the old alarm's fields for what is not given; an alarm without a counter fires, is inactive afterwards and shows value 0. |
| SyncRequests.ChangeAlarmRefused | Xext/sync.c:796-896 | What each kind of refusal leaves: nothing changed, only events selected, or all fields written with counter, check function and state as they were, and the test value new only if the test-type was refused. |
| SyncRequests.SelectSelects | Xext/sync.c:734-785 | The owner says whether it wants events; another client that wants them comes to the front of the list unless it is on it, and one that does not loses its place. |
| SyncRequests.CounterRequests | Xext/sync.c:1427-1508 | SetCounter, ChangeCounter and DestroyCounter: an unknown counter, a system counter and a sum that is no INT64 are refused and change nothing; otherwise the new value is the given one or the old one plus the amount, and no other counter's changes. |
| SyncRequests.SystemRequests | Xext/sync.c:702-730 | A tick of a system counter is a change to the value, an update only stores it, and either leaves other counters alone. |
| SyncRequests.QueryCounterGives | Xext/sync.c:1651-1690 | QueryCounter stores the driver's answer and changes nothing else. |
| SyncRequests.PlainRequests | Xext/sync.c:969-1022 | A new counter has the given value, no triggers and, if it is the server's, no brackets; a client that goes gets no more events, and one freed from an alarm loses its place on its list. |
| SyncRequests.DestroyAlarmGives | Xext/sync.c:1876-1892 | The alarm is gone, and its listeners are told so with what its counter shows, 0 without one. |
| SyncRequests.FreeAwaitGives | Xext/sync.c:1187-1210 | An Await freed with its client is gone and nobody is told. |
| SyncAwaitRequests.AwaitAnswer | Xext/sync.c:1571-1648 | Await answers with the error of the first condition that is refused; a refused Await leaves no trace in alarms, Awaits and events. |
| SyncAwaitRequests.AwaitGives | Xext/sync.c:1536-1648 | An accepted Await: the client is ignored, and either all conditions are pending as requested, with the check function and test value of each, or, if and only if a comparison among them holds already, the client is told in request order which have reached their thresholds and goes on. |
| SyncBracketValues.BracketsNearest | Xext/sync.c:1033-1121 | For every type of counter: the upper bracket is the least test value the counter has to be watched for on its way up, the lower one the greatest on its way down, the driver is given none that nothing asks for, and a counter that never changes keeps what it had. |
| SyncLinks.AddedOnce | Xext/sync.c:188-222 | A trigger that is on its list already is not added again. |
| SyncLoops.LoopEndsExactly | Xext/sync.c:563-566 | On a trigger that holds, repeated addition of delta comes to a stop if and only if delta is not 0 or the check is no comparison. |
| SyncLoops.RearmIsFirstStop | Xext/sync.c:563-566 | The loop's outcome is the first sum at which the trigger is false, or an overflow that comes before it. |
| SyncLoops.FiringEndsExactly | Xext/sync.c:547-566 | Firing an alarm whose test holds ends if and only if its delta is not 0, or its test-type is a comparison, or its check is none. |
| SyncLoops.QuietAllEnd | Xext/sync.c:547-566 | In a quiet server, where check functions and deltas suit the test-types, every firing ends. |
| SyncLoops.StepEnds | Xext/sync.c:796-896 | From a server where every firing ends, a request leads to another one if and only if it is no ChangeAlarm that gives an alarm delta 0 and a test-type that is no comparison while its check function stays a comparison, as one refused by SyncInitTrigger does. |
| SyncLoops.RefusedChangeLoops | Xext/sync.c:563-566 | A concrete refused ChangeAlarm after which setting the counter enters the loop and no number of additions ends it. |
| SyncBrackets.LazyBracketsSound | Xext/sync.c:2753-2795 | From any SyncChangeCounter on an unrestricted counter, any sequence of wakeups of the idle-time handler gives the same alarms, awaits, events and other counters as checking every trigger each time. |
| SyncBrackets.ComputeBracketsCovers | Xext/sync.c:1033-1123 | On a counter whose armed triggers are all false, the brackets lie at or before every value at which one would become true. |
| SyncBrackets.ChangeCounterCovers | Xext/sync.c:713-730 | Just after SyncChangeCounter this holds. |
| SyncBrackets.NothingFires | Xext/sync.c:2753-2762 | At an idle time strictly inside the brackets a walk over triggers none of which is missed would change nothing. |
| SyncBrackets.CreatedStateReached | Xext/sync.c:1751-1767 | A CreateAlarm whose alarm fires at once leads to the state of the next row. |
| SyncBrackets.CreationIsNotCovered | Xext/sync.c:1765 | In that state the eager check at idle time 30 reports the alarm and the bracket test does not. |
| SyncLazy.LazySoundExactly | Xext/sync.c:2753-2795 | Lazy and eager checking agree over all runs of wakeups if and only if no armed trigger is missed, but for alarms nobody could see fire: no idle time inside the brackets is where it fires, coming from the stored value or from another idle time inside. |
| SyncLazy.BracketedSoundExactly | Xext/sync.c:2753-2795 | With its transitions bracketed that is so if and only if the comparisons are bracketed too, or no idle time lies strictly between the brackets. |
| SyncLazy.WalkShows | Xext/sync.c:713-730 | A walk over a list with an armed trigger that fires and is not silent ends with its alarm changed, more events sent, or its Await gone. |
| SyncCoverage.BracketWalkExactly | Xext/sync.c:1033-1123 | The computed upper bracket lies at or below a value exactly when some trigger on the list asks for one there, and the same for the lower bracket. |
| SyncCoverage.GuardedExactly | Xext/sync.c:1053-1116 | A comparison is guarded by new brackets if and only if it is false, or its test value is the counter's value and a transition the same way is there too, or lies at the end of the range. |
| SyncCoverage.FreshCoveredExactly | Xext/sync.c:1033-1123 | New brackets cover the counter if and only if each armed trigger on the list is guarded; transitions always are. |
| SyncCoverage.InitFresh | Xext/sync.c:314-423 | An accepted SyncInitTrigger stores the driver's answer, puts the trigger on that counter's list and computes the brackets of both. |
| SyncCoverage.FinishedCovered | Xext/sync.c:1751-1812 | After the firing that may follow, they cover the counter if and only if the list guards all other armed triggers and the alarm's next test value, if it has one. |
| SyncCoverage.ChangeAlarmCovered | Xext/sync.c:1776-1813 | On the state before a ChangeAlarm that succeeds: exactly when it leaves the counter covered, and exactly when the counter can be checked lazily afterwards. |
| SyncCoverage.CreateAlarmCovered | Xext/sync.c:1693-1770 | The same for CreateAlarm. |
| SyncAwaitCoverage.AwaitCovered | Xext/sync.c:1571-1648 | The same for Await and the counter of each of its conditions. |
| SyncAwaitCoverage.AwaitedFresh | Xext/sync.c:1571-1648 | What an accepted Await makes of each of its counters: the driver's answer, the list with or without the condition, and the brackets of both. |
| SyncCoverage.OvertakenReached | Xext/sync.c:334-342 | A CreateAlarm that fires nothing leads to the state of the next row. |
| SyncCoverage.QueryIsNotCovered | Xext/sync.c:334-342 | There the counter, covered before, is covered no longer: at idle time 31 the handler is silent about an alarm due at 25, and checking every trigger reports it. |
| SyncUncovered.QueryCovered | Xext/sync.c:1664-1668 | After QueryCounter the counter can be checked lazily if and only if nothing is missed with the answer stored; a covered one stays covered if and only if its armed transitions are bracketed there, and always when the answer is strictly inside the brackets. |
| SyncUncovered.CreateRefusedCovered | Xext/sync.c:1693-1770 | The same after a CreateAlarm that is refused. |
| SyncUncovered.ChangeRefusedCovered | Xext/sync.c:796-896 | After a ChangeAlarm that SyncInitTrigger refuses, any system counter is covered if and only if its other armed triggers are bracketed at the value stored, and the alarm with the test value left; with the test-type unchanged it can be checked lazily if and only if nothing is missed. |
| SyncUncovered.ChangeBadCovered | Xext/sync.c:796-886 | One refused before that leaves counters covered or not as they were. |
| SyncRefusedAwait.AwaitRefusedCovered | Xext/sync.c:1571-1648 | After a refused Await, the counter of each condition before the refused one is covered exactly when its list guards every armed trigger, that of the refused one as after QueryCounter, and later ones are as they were. |
| SyncUncovered.ThirtyStored | Xext/sync.c:334-342 | QueryCounter, and a CreateAlarm refused for its value-type, lead to the state of the next row. |
| SyncUncovered.StoredIsNotSound | Xext/sync.c:1664-1668 | There lazy and eager checking disagree: an alarm for the transition below 20 is passed over at 15. |
| SyncUncovered.DestroyAlarmCovered | Xext/sync.c:1131-1152 | DestroyAlarm leaves the alarm's counter covered if and only if the rest of its list guards each armed trigger at the value stored, and able to be checked lazily exactly then or when no idle time is inside the brackets. |
| SyncUncovered.FreeAwaitCovered | Xext/sync.c:1187-1210 | The same for the counter of each condition of an Await that is freed. |
| SyncUncovered.MovedCovered | Xext/sync.c:404-420 | The same for the counter that an alarm is moved away from. |
| SyncUncovered.OneLostReached | Xext/sync.c:1131-1152 | A covered counter, asked for its value, and then a DestroyAlarm lead to the state of the next row. |
| SyncUncovered.DestroyIsNotCovered | Xext/sync.c:1131-1152 | There an alarm that was due at 25 is passed over at 31. |
| SyncKept.StepHeld | Xext/sync.c:2113-2165 | Every request that does not touch a system counter leaves its value, adds no trigger to its list, changes none that stays, and leaves its brackets or sets them anew for that list. |
| SyncKept.StepKeepsCovered | Xext/sync.c:2113-2165 | So it leaves the counter covered, and no comparison on it true, if it was so before. |
| SyncMixedRuns.MixedRunSound | Xext/sync.c:2753-2795 | Over every run of wakeups and requests that leave the counter covered, it can be checked lazily from every state reached. |
| SyncMixedRuns.UntypedIsNotBracketed | Xext/sync.c:1033-1123 | After a concrete refused ChangeAlarm, SyncChangeCounter sets no bracket for an alarm that is still checked, and it is passed over. |
| SyncMixedRuns.DestroyTellsOldValue | Xext/sync.c:2753-2795 | Without brackets the handler stores no idle time, and an alarm destroyed then reports the value stored before. |
| SyncServer.Server.SyncDeleteTriggerFromSyncObject | Xext/sync.c:145-185 | The list search and unlinking, and the brackets set anew, as DeleteTrigger. |
| SyncServer.Server.SyncAddTriggerToSyncObject | Xext/sync.c:188-222 | The check for a trigger already there, and insertion at the head, as AddTrigger. |
| SyncServer.Server.SyncInitTrigger | Xext/sync.c:314-423 | All checks in their order, with the partial writes of a refused one, as InitTrigger. |
| SyncServer.Server.SyncComputeBracketValues | Xext/sync.c:1033-1123 | The loop over the list computes the brackets of ComputeBrackets and changes nothing else. |
| SyncServer.Server.SyncAlarmTriggerFired | Xext/sync.c:528-604 | The loop, the state, and the events, as AlarmFired. |
| SyncServer.Server.SyncAwaitTriggerFired | Xext/sync.c:612-699 | Collecting, sending, attending and freeing, as AwaitFired. |
| SyncServer.Server.SyncSendCounterNotifyEvents | Xext/sync.c:471-509 | The events written are CounterEvents, or none for a client that is gone. |
| SyncServer.Server.SyncChangeCounter | Xext/sync.c:713-730 | The walk with its saved next node, then the brackets, as ChangeCounter. |
| SyncServer.Server.SyncChangeAlarmAttributes | Xext/sync.c:796-896 | The attributes written before any check, the sign rule for delta, and the trigger, as ChangeAlarmAttributes. |
| SyncServer.Server.FreeCounterResource | Xext/sync.c:1155-1184 | Popping and notifying every trigger, as FreeCounter. |
| SyncServer.Server.FreeAlarmResource | Xext/sync.c:1131-1152 | The Destroyed event, then the trigger off its list, as FreeAlarm. |
| SyncServer.Server.FreeAwaitResource | Xext/sync.c:1187-1210 | Every condition off its list, as FreeAwait. |
| SyncServer.Server.SyncAwaitEpilogue | Xext/sync.c:1536-1565 | The client is ignored, and the first condition that holds fires the Await, as AwaitEpilogue. |
| SyncServer.Server.ProcSyncAwait | Xext/sync.c:1571-1648 | A whole Await request, with the conditions undone when one is refused. |
| SyncServer.Server.ProcSyncCreateAlarm | Xext/sync.c:1693-1770 | A whole CreateAlarm request: defaults, attributes, and the alarm inactive without a counter, or fired at once when its test holds. |
| SyncServer.Server.ProcSyncChangeAlarm | Xext/sync.c:1776-1813 | A whole ChangeAlarm request; an alarm without a counter fires too, and becomes inactive. |
| SyncServer.Server.SetCounterValue | Xext/sync.c:1427-1487 | SetCounter and ChangeCounter, with BadAccess for a system counter and BadValue on overflow. |
| SyncServer.Server.Dispatch | Xext/sync.c:2113-2165 | Every request leads the objects to the state, and gives the status, of Step. |
| SyncServer.Serve | Xext/sync.c:2113-2165 | A whole run of requests in which every firing ends leads to the state that Run gives; if the run is without refused changes of the test-type, that state is quiet. |
| BigFont.RemoveDuplicates | Xext/xf86bigfont.c:453-530 | Every character's unique entry has its metrics, unique entries differ from each other, and none comes after the character it stands for. |
| BigFont.FirstOccurrence | Xext/xf86bigfont.c:523-527 | A unique entry is the first character with its metrics. |
| BigFont.Minimal | Xext/xf86bigfont.c:523-530 | No list that has every character's metrics is shorter. |
| BigFont.Lookup | Xext/xf86bigfont.c:485-495 | The walk down a chain ends, and finds the entry with the metrics if there is one. |
| BigFont.Rehash | Xext/xf86bigfont.c:502-522 | A larger table holds the same entries in well-formed chains, inside the cells that are there. |
| BigFont.Push | Xext/xf86bigfont.c:523-525 | A new entry at the head of its chain keeps all chains well formed: each holds exactly the entries of its bucket, latest first. |
| BigFont.Enter | Xext/xf86bigfont.c:501-527 | A character with new metrics gets the next entry, after a rehash when the table is full. |
| BigFontReply.QueryFontMetrics | Xext/xf86bigfont.c:607-625 | Decoding the serialised metrics gives back those of every character, in either byte order, and on the wire the six fields of each unique metric come in their order, in two's complement, then the indices. |
| BigFontReply.DecodedLaidOut | Xext/xf86bigfont.c:607-625 | What decodes is laid out so, cell by cell, with each cell's bytes exchanged for a client of the other byte order. |
| BigFontReply.SerializeMetrics | Xext/xf86bigfont.c:607-625 | The same for any result of the compression. |
| BigFontReply.WriteUnique | Xext/xf86bigfont.c:612-617 | The unique metrics are written in order. |
| BigFontReply.WriteIndices | Xext/xf86bigfont.c:618-624 | The indices follow, one for each character, and the metrics stay as written. |
| XineramaImage.GetImageData | Xext/panoramiX.c:1142-1299 | Each pixel of the box that some screen shows is the image's pixel at that point; every other pixel is unchanged. |
| XineramaImage.AddWhole | Xext/panoramiX.c:1191-1200 | A screen that holds the box paints all of it, with the offsets of that screen. |
| XineramaImage.AddPart | Xext/panoramiX.c:1186-1290 | A screen that holds part of the box paints what no earlier screen showed, and that is taken from the region that is left. |
| XineramaImage.GrabBoxes | Xext/panoramiX.c:1204-1286 | Every box of a screen's part is fetched to scratch memory and copied to its place. |
| XineramaImage.BytePadHoldsLine | include/servermd.h:111-124 | A padded line holds its pixels, is a multiple of four bytes, and less than four bytes longer. |
| XineramaImage.ScreenStep | Xext/panoramiX.c:1175-1203 | What a screen adds to what is shown, and what it leaves, for each answer of the containment test. |
| PixelLayout.CopyBox | Xext/panoramiX.c:1273-1283 | The box has the source's pixels at their places; all other pixels stay. |
| PixelLayout.PixelAgainstRow | Xext/panoramiX.c:1273-1283 | A pixel's bytes lie in a copied stretch exactly when the pixel does, at the right distance. |
| ImageReply.GetZPixmap | Xext/panoramiXprocs.c:1839-1888 | The bytes written are four times the announced length, and are the lines of the whole image in order, right wherever a screen shows the point. |
| ImageReply.GetXYPixmap | Xext/panoramiXprocs.c:1841-1907 | Each line of each plane asked for is fetched once, planes from the highest, lines in order, each call as many lines as the buffer holds or are left, and as many lines are fetched as the announced length holds. |
| ImageReply.WantedCount | Xext/panoramiXprocs.c:1844-1849 | As many lines are wanted as the reply's length is computed for. |
| ImageReply.WantedExactly | Xext/panoramiXprocs.c:1891-1907 | Just the lines of the planes whose bits are set are wanted, each once, higher planes first. |
| ImageReply.LinesPerBuffer | Xext/panoramiXprocs.c:1855-1863 | None when there is nothing to send, otherwise at least one and at most what fits the buffer or was asked for. |
| ImageReply.BufferFilled | Xext/panoramiXprocs.c:1855-1863 | As many lines as fit 256 kilobytes, one at least, and no fewer unless fewer are asked for. |
| DrawRequests.PolyPoint | Xext/panoramiXprocs.c:1270-1301 | In either coordinate mode each screen draws the client's absolute points minus its own origin, modulo 2^16, whatever a handler left in the buffer before; requests stop at the first failure. |
| DrawRequests.ShiftedMeaning | Xext/panoramiXprocs.c:1286-1292 | Shifting all points, or with CoordModePrevious only the first, translates the absolute points. |
| DrawRequests.AbsoluteSteps | Xext/panoramiXprocs.c:1286-1292 | With CoordModePrevious each point after the first is added to the one before it. |
| ValueLists.OffsetReads | Xext/panoramiXprocs.c:104-105 | The word at Ones(mask & (bit - 1)) is in range and is the one read for the bit, least significant bit first. |
| ValueLists.ReplaceOne | Xext/panoramiXprocs.c:156-161 | Replacing that word replaces the value of that bit and no other. |
| ValueLists.HandOffsets | Xext/panoramiXprocs.c:479-487 | The offsets worked out by hand for x and y agree with the formula. |
| ValueLists.ChangeWindowAttributes | Xext/panoramiXprocs.c:177-241 | Every screen, last to first, is sent its own window, background, border and colormap ids and otherwise the client's values; each check has its error. |
| ValueLists.ChangeGC | Xext/panoramiXprocs.c:792-852 | The same for tile, stipple and clip mask; the screens are sent theirs from the last down to the first failure, one at least, and the answer is Success if and only if all accept. |
| ValueLists.ConfigureWindow | Xext/panoramiXprocs.c:442-505 | Every screen, first to last, is sent its own window and sibling ids and, for a top-level window, the position minus its own origin, up to the first failure; the answer is Success if and only if all accept. |
| ValueLists.WindowChanges | Xext/panoramiXprocs.c:202-228 | Which values differ from screen to screen for a window: background pixmap, border pixmap and colormap by bit 0, 2 and 13, unless 0 or, for the background, ParentRelative. |
| ValueLists.GcChanges | Xext/panoramiXprocs.c:817-835 | For a graphics context: tile, stipple and clip mask by bit 10, 11 and 19, unless 0. |
| ValueLists.MoveChanges | Xext/panoramiXprocs.c:465-497 | For a configured window: the sibling by bit 5, and x and y modulo 2^32 for a top-level window only. |
| ValueLists.LegalBits | Xext/panoramiXprocs.c:198-200 | Exactly which masks an InputOnly window may be given. |
| HashTables.HashTable.Add | Xext/hashtable.c:121-164 | An absent key is added to the map; the table is doubled when it then holds more than four entries to a bucket and fewer than 2^11 buckets; when memory for the key or the larger table fails, map, buckets and size are as before. |
| HashTables.HashTable.DoubleSize | Xext/hashtable.c:87-118 | Every entry moves to the bucket its hash selects among twice as many, or nothing changes; it fails only for lack of memory. |
| HashTables.HashTable.Remove | Xext/hashtable.c:167-183 | The key leaves the map and everything else stays. |
| HashTables.HashTable.Find | Xext/hashtable.c:186-199 | The map's entry for the key, or null. |
| HashTables.HashTable.constructor | Xext/hashtable.c:36-69 | A table of 64 empty buckets is the empty map. |
| HashTables.CountIsSize | Xext/hashtable.c:15-26 | The map has as many keys as the buckets have entries. |
| HashTables.Present | Xext/hashtable.c:186-199 | A key's entry is in the bucket its hash selects, and every entry there is the map's. |
| XResContext.Context.AddSubResourceSizeSpec | Xext/xres.c:674-725 | A sub-resource met before under this resource is counted again, another gets a spec and a cross-reference; it fails if and only if memory for the two does. |
| XResContext.Context.AddResourceSizeValue | Xext/xres.c:739-797 | Memory lasts if and only if there is enough for the answer about all that was visited, and as long as it lasts the response, its size and the number of values are those of that answer. |
| XRes.AnswerIsGrouped | Xext/xres.c:642-657 | The answer is a sequence of values each followed by as many specs as it announces. |
| XRes.UseCountsConserved | Xext/xres.c:713-723 | The use counts of a resource's specs add up to the number of sub-resources met. |
| XRes.UsesAre | Xext/xres.c:713-723 | Each use count is the number of times that sub-resource was met. |
| XResReply.AnswerValues | Xext/xres.c:739-797 | The answer has one value for each id visited, no id twice, and no other values. |
| XResReply.AnswersFirst | Xext/xres.c:739-797 | The values are those of the resources visited before any other with their id. |
| XResReply.AnswerFields | Xext/xres.c:674-797 | Field by field: each value has id, type, bytes and reference count of a resource as first visited, use count 1 and the number of different sub-resources; a spec for each of these follows, as first met, with the number of times it was met. |
| XResReply.BytesCounted | Xext/xres.c:718-790 | The reply is 24 bytes long for each value and 20 for each spec. |
| XResReply.SwappedFields | Xext/xres.c:617-638 | A swapped fragment has the four bytes of each field in the opposite order. |
| XResReply.LeftOutExactly | Xext/xres.c:742-743 | A resource visited is left out if and only if another with its id comes before it wherever it is visited. |
| XResReply.SwapFragments | Xext/xres.c:642-657 | The swapping walk stays in the list, ends at its end, and swaps every fragment once. |
| XResQuery.ConstructResourceBytes | Xext/xres.c:914-946 | An unknown client is BadValue; otherwise it is Success if and only if memory is enough for the answer about everything visited, and the response, its size and the number of values are then those of that answer. |
| XResQuery.AllClientsExactly | Xext/xres.c:927-943 | Asked about no client in particular, exactly the resources that some spec matches are visited. |
| XResQuery.OneClientExactly | Xext/xres.c:884-905 | Asked about one client, exactly these resources are visited: its own that a spec without an id matches, and those of the client whose number is the id asked about that a spec names. |
| XResQuery.AsAskedExactly | Xext/xres.c:914-932 | That is what was asked for if and only if each own resource that is named is asked about without an id as well, and no resource of that other client is named. |
| XResQuery.NamedResourceMissed | Xext/xres.c:890-892 | A client that asks about its own resource by name is answered nothing. |
| XResQuery.ForeignResourceAnswered | Xext/xres.c:890-892 | Asked about the server's id 1, a resource of client 1 is answered by name. |
| XResQuery.SameIdLeftOut | Xext/xres.c:742-743 | Two resources under one id are both visited, and only the first is answered. |
| SleepQueue.RunSorted | Xext/sleepuntil.c:123-135 | After any mix of sleeps, client deaths and handler runs the queue is sorted by time, first come first among equals. |
| SleepQueue.HandlerWakesDue | Xext/sleepuntil.c:190-201 | A handler run wakes exactly the entries not later than now, in order, and keeps exactly the others. |
| SleepQueue.RunOnce | Xext/sleepuntil.c:151-172 | Over any run nobody is woken twice, and nobody woken is still asleep. |
| SleepQueue.LaterIsTotal | dix/dixutils.c:106-118 | Comparing months and milliseconds in turn compares the total times. |
| SleepQueue.DelayIsGap | Xext/sleepuntil.c:206 | The computed delay is the time left modulo 2^32, so it is the time left if and only if that is below 2^32 ms. |
| SleepQueue.BlocksUntilHead | os/WaitFor.c:238-245 | For every queue, time and timeout the wait is the earliest of the old timeout, 0 if someone was just woken, and the time left for the first entry, if and only if nobody is left, or less than 2^31 ms are left, or the earlier two come no later than the delay as computed. |
| SleepQueue.LongSleepBlocksForever | os/WaitFor.c:238-245 | A concrete sleep of 2^31 ms gives a negative timeout. |
| SleepQueue.LongSleepOverrides | os/WaitFor.c:238-245 | It does so too with another timer due in 5 ms, and when the handler has just woken a client. |
| SleepList.Queue.ClientSleepUntil | Xext/sleepuntil.c:81-140 | The linked list is spliced so that its contents are those of Insert, and the handlers are registered; a request the table refuses leaves the list alone. |
| SleepList.Queue.FreeResource | Xext/sleepuntil.c:151-172 | Exactly the request leaves list and table, and its client is notified. |
| SleepList.Queue.BlockHandler | Xext/sleepuntil.c:175-207 | Those due are woken, the rest stay, and the timeout is BlockTimeout. |
| SleepList.Queue.WakeupHandler | Xext/sleepuntil.c:211-237 | Those due are woken, the rest stay, and the handlers are dropped when nobody is left. |
| SleepList.Queue.ClientGone | Xext/sleepuntil.c:151-172 | Whatever the order of freeing, the queue is as before without the client's requests, and the client is notified once for each. |
| SecurityTimers.DelaysAddUp | Xext/security.c:258-276 | The delays handed out until the last expiry add up to timeout * 1000 ms for every 32-bit timeout. |
| SecurityTimers.ExpiriesCounted | Xext/security.c:296-312 | There is one expiry for each 4294967 seconds begun, at most 1001. |
| SecurityTimers.LivesItsTimeout | os/WaitFor.c:298-348 | The authorization lives its timeout if and only if that is below 2^31 ms. |
| SecurityTimers.TwentyFiveDays | os/WaitFor.c:343-345 | A timeout of 25 days is over at once. |
| SecurityTimers.SettleRemaining | os/WaitFor.c:298-348 | A timer set for some seconds has the time to run that the delays waited for add up to, callbacks run at once included. |
| SecurityTimers.ExpireRemaining | Xext/security.c:296-312 | Running out of one delay leaves exactly the time of the others. |
| SecurityServer.Authorization.SetTimer | os/WaitFor.c:298-348 | The timer is left as Settle says, or the authorization is over. |
| SecurityServer.Server.Generate | Xext/security.c:521-529 | A new authorization has no users and its timer runs, unless it is over at once or has no timeout. |
| SecurityServer.Server.Running | Xext/security.c:961-974 | A client counts for its authorization, and no timer runs while there is a user; every authorization still counts its live clients. |
| SecurityServer.Server.Gone | Xext/security.c:976-987 | The user is counted off once, and the timer starts again with the last one; exactly the client, and the clients of an authorization that is over at once, are forgotten, and no other authorization's timer is touched. |
| SecurityServer.Server.TimerExpires | Xext/security.c:296-312 | The timer goes on with what is left, or the authorization and exactly its clients go. |
| SecurityServer.Server.Free | Xext/security.c:169-218 | Only the authorization and its own clients go; the others are counted as before. |
| ShmSegments.Server.Attach | Xext/shm.c:372-427 | A shared memory id attached before shares its descriptor, refused if and only if writing is asked for and the descriptor is read-only; another gets a descriptor, refused if and only if access is; past that it fails only if the resource is refused. All counts stay right. |
| ShmSegments.Server.AttachFd | Xext/shm.c:1146-1203 | A file descriptor always gets a descriptor of its own, at the head of the list, unless it cannot be mapped or the resource is refused. |
| ShmSegments.Server.Detach | Xext/shm.c:454-468 | The resource and its reference go. |
| ShmSegments.Server.DetachSegment | Xext/shm.c:431-451 | One reference is given up; the descriptor is on the list afterwards exactly while there are references. |
| ShmSegments.Server.Predecessor | Xext/shm.c:448 | The unlinking walk ends, at the descriptor's predecessor. |
| ShmSegments.Server.CreatePixmap | Xext/shm.c:1053-1128 | A pixmap in a segment is one reference more, or nothing changes; each error has its condition. |
| ShmSegments.Server.DestroyPixmap | Xext/shm.c:249-268 | Only the last reference to a pixmap gives up its segment. |

## Left out

- SYNC fences, AwaitFence and CheckTriggerFence: their implementation is outside the extension.
- SYNC Initialize, ListSystemCounters, GetPriority, SetPriority, QueryAlarm: they read or set one value.
- The wire form of alarm value lists: a request carries the attributes given; values out of range for an enumeration stay in.
- An Await that names one counter twice: the walk's saved next node could then be freed with the Await.
- Lazy checking of counters that only rise or only fall: which brackets they get is `BracketsNearest`, whether these guard what waits there is not stated.
- SyncBrackets.LazyBracketsSound: idle times equal to the least or greatest INT64 are left out, as no bracket can be set there.
- SyncLazy.LazySoundExactly: states that a ChangeAlarm refused with another test-type leaves, in which a check function is not that of its test-type, have an input (`UntypedIsNotBracketed`) and no exact condition. Idle times are any INT64 but the least and the greatest.
- SyncMixedRuns.MixedRunSound: the two ways of checking are compared over the wakeups that follow, not across a request, which may report a stored value that the lazy server has not kept up to date (`DestroyTellsOldValue`).
- XResContext.Context: its two tables are a set and a map, not objects of `HashTable`.
- ImageReply.GetXYPixmap: which lines are fetched, not the bytes of a plane that the depth-1 copy puts in them.
- SyncServer keeps a trigger list as a sequence that is reassigned, not as linked nodes; it pops a dying counter's trigger before the callback, which does not look at that list.
- What the stored value of an INT64 overflow would be: the code tests for overflow first and does not use it.
- The shared memory path of the font reply, and its header and properties.
- The depth-1 branch of XineramaGetImageData and CopyBits.
- The region library itself: its operations are assumed to have their meaning on point sets (`RegionOps.Sound`).
- PanoramiX CreateWindow and CreateGC: they add fresh ids to the rewriting shown for ChangeWindowAttributes and ChangeGC. PolySegment, PolyRectangle, PolyArc and their filled forms: they shift like CoordModeOrigin.
- Adding a key that a hash table has already: doubling reverses a bucket, so the entry found would change.
- XResContext.Context.AddResourceSizeValue: what an answer given up for lack of memory holds is not described, since it is not sent.
- The other XRes requests.
- The `months` adjustment of the sleep queue's clock, and wake-up functions other than the one that attends the client.
- SecurityServer: access checks, audit and revocation events; an id is never given out twice.
- ShmSegments: mapping and unmapping memory, sizes and offsets, and the Xinerama form of CreatePixmap.
- Byte-swapping request wrappers, version queries and dispatch tables.
