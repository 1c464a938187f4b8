# Verified models of the proxy core

A Dafny 4.11 project that models the concurrent protocols, schedulers and
state machines of this sing-box fork and proves what they guarantee. Check it
with `dafny verify dfyconfig.toml`.

| module | models |
|---|---|
| `DependencyStart` | the multi-pass, dependency-ordered start of DNS transports and outbounds and its recursive diagnosis |
| `Managers` | the item list, by-tag map, reverse-dependency map and default of the two managers |
| `DialAdmission` | the per-outbound dial budget, the global dial semaphore and the degraded flag, one atomic operation per step |
| `DialOutcomes` | the same calls told by what their dials returned |
| `SingleFlight` | the DNS client's single flight per (question, transport) and its response cache and its negative cache of network failures |
| `FlightHistory` | the same queries told by their steps: who stored, recorded and asked what when |
| `ResponseCache` | how a DNS response gets its lifetime, is stored and is aged on a hit |
| `RacingDialers` | the coordinator and racers of the three parallel dialers |
| `RaceHistory` | the same races told by their dials |
| `ServiceStatus` | the daemon's reload, close and set-error operations under a lock that a reload drops midway |
| `ServiceOperations` | what one CloseService and one reload do, whatever runs beside them |
| `ConnectionStream` | the daemon's snapshot-diff event stream and the client that replays it |
| `HuffmanPadding` | the Huffman-tuned base62 padding and its random draw |
| `HuffmanCode` | the code words behind the padding's lengths, their encoder and decoder |
| `LogStartup` | log lines written while the log factory starts and closes |
| `LogOrder` | the order in which buffered lines reach the file, and the steps that open and close it |
| `RuleRetry` | DNS rule matching and the retry loops of the DNS router |
| `Counting`, `Options` | cardinalities of sets that change one element at a time; the optional value |

Concurrent components are step systems: a state, a `Step` per atomic
operation, `Enabled` and `Apply`, and theorems over every run, with any number
of threads. Components that update objects or arrays in place are classes and
methods proved against functions of the old state.

Assumptions. Atomic operations and concurrent-map operations are single steps.
Clocks do not go backwards. The caches are maps with expiry; in `SingleFlight`
the response cache may drop any entry at any time, the cache of failures drops
none early, and `ResponseCache` follows one entry that is not evicted. A
transport's Exchange returns after the nested queries it made. Dials and Start
calls return rather than panic. Outcomes of I/O (a dial, a Start, a client
answer, random bytes, clock readings) are parameters of steps or methods.

What the code turns out not to guarantee is stated with a concrete input and
the exact condition:

- A degraded outbound can hold more dials than its budget: the comment's "at
  most 32" holds through a degraded period iff it holds when the period begins,
  and no number bounds the holders at that moment
  (`DialAdmission.BudgetHoldsIffAtEntry`, `DialAdmission.DegradedOverBudget`).
- With no health update under way, the degraded flag equals "8 failures since
  the last success" iff the last write of the flag fitted the counter it found,
  as it always does when updates do not overlap; a run with an overlap breaks it
  (`DialAdmission.FlagExactIffLastWriteFitted`, `DialAdmission.SerialFlag`,
  `DialAdmission.OverlapLeavesFlagSet`).
- Single flight covers leaders only: two waiters of a closed flight can ask the
  transport together iff neither an unexpired response nor a recent failure is
  there for their key and neither found the leader's deadline past. The first is
  so when the flight stored nothing and recorded no failure, and also when, in a
  cache shared by transports, another transport's shorter-lived answer replaced
  the flight's
  (`SingleFlight.TogetherIffNothingAlive`, `SingleFlight.ReleasedWaitersAreServed`,
  `SingleFlight.ReleasedWaitersMayExchangeTogether`, `SingleFlight.OtherTransportOverwrites`).
- A nested query waits for itself iff a call it serves leads a flight of the same
  question and transport, because the flight is looked up before the loopback
  check; nothing releases it and the deadline ends it
  (`SingleFlight.WaitsForItselfIff`, `SingleFlight.OnlyTheDeadlineEndsIt`,
  `SingleFlight.NestedRun`).
- An instance can be lost in a run where SetError interrupts a reload that is
  closing the old one, and in no other. It is lost at the step that installs over
  an unclosed instance nobody is about to close, and lost for good
  (`ServiceStatus.InstancesNeverLeak`, `ServiceStatus.LeakHappensExactlyAtInstall`,
  `ServiceStatus.LeakedForever`, `ServiceStatus.ErrorDuringStopCanLeak`).
- STARTED may be announced while the current instance's Start is still running,
  and that Start's error is then dropped. The announcement is true, that is, the
  current instance's Start has succeeded, iff nobody is inside that Start or
  waiting to report its failure; it is about the announcing reload's own instance
  iff no other reload is still starting or confirming the current one
  (`ServiceStatus.AnnouncementTrueIff`, `ServiceStatus.AnnouncesOwnIff`,
  `ServiceStatus.StartedBeforeItsInstance`, `ServiceStatus.StartErrorIsSwallowed`).
- A finished log line is missing from the file iff Close found it in the buffer
  or it was written after Close had closed the file, also when Start came first
  (`LogStartup.DeliveredExactlyOnce`, `LogStartup.ClearedRun`,
  `LogStartup.FlushedLateRun`, `LogStartup.LoggedLateRun`).
- The padding is within its tolerance for every draw iff the target is at most
  608, and inside the server's default range iff it is at most 921
  (`HuffmanPadding.ToleranceExactlyUpTo608`, `HuffmanPadding.DefaultRangeAcceptedUpTo921`).
- Listing a dependency twice can make Remove forget another item's
  registration (`Managers.ExactAfterWithdraw`, `Managers.DuplicateDependencyLosesOther`).
- After Close of a started manager the next Remove of any known tag panics,
  because the list is emptied and the map is not
  (`Managers.TransportManager.Close`, `Managers.TransportManager.Remove`).
- A transport manager restarted after Close reports success having started
  nothing (`Managers.RestartStartsNothing`).
- Remove's error says the default cannot be fakeip, but the test refuses every
  successor that is not fakeip; the model follows the test
  (`Managers.TransportManager.Remove`).
- Removing the fakeip server makes no room for another: the next one is refused,
  yet installed (`Managers.FakeIPIsNeverReplaced`).
- A reject rule with the reply method makes Exchange call the client without a
  transport (`RuleRetry.NilTransportExactly`).
- The client's totals differ from the server's snapshots by exactly the
  difference between the two counter readings taken at NEW, while no counter
  goes back; the first batch leaves client and server in step iff no connection
  is listed both as active and as closed, and a later tick restores it iff it
  finds the connections so listed inactive
  (`ConnectionStream.Stream.BuildTrafficUpdates`, `ConnectionStream.Stream.BuildInitial`).
- A character set whose size divides 256 rejects every random byte; base62 does
  not (`HuffmanPadding.LimitIsZeroWhen`).

## Model

| member | source | states |
|---|---|---|
| `DependencyStart.StartAll` | dns/transport_manager.go:90-146 | Never starts an item twice or before a dependency whose Start returned without error; at most max(1, n) passes; a failing Start ends it at once; items are marked in the order of whole sweeps of the list, the last cut short by a failing Start; success means all items exactly once in a topological order; unless a Start fails or tags repeat, it succeeds iff such an order exists; a diagnosis is that of the first unstarted item, leaves nothing startable unstarted and, if the map is within the list, is true of the graph; the nil dereference only with duplicate tags |
| `DependencyStart.SweepAll` | dns/transport_manager.go:91-123 | Sweeps the list, at most max(1, n) times, until every tag is started, a Start fails, or a sweep started nothing and every unstarted item has an unstarted dependency |
| `DependencyStart.Pass` | dns/transport_manager.go:94-117 | One sweep extends the start order by exactly the items that are ready when their turn in the list comes, up to a failing Start; a sweep that starts nothing is stuck: every unstarted item has an unstarted dependency |
| `DependencyStart.Diagnose` | dns/transport_manager.go:124-143 | When stuck, no topological order exists, the verdict is truthful and is that of the first unstarted item; no unstarted item at all means duplicate tags |
| `DependencyStart.OrderExistsIffClosedAcyclic` | dns/transport_manager.go:93-145 | For distinct tags a topological start order exists iff every dependency is listed and the graph has no cycle |
| `DependencyStart.LintIsTruthful` | dns/transport_manager.go:127-143 | In a stuck state the diagnosis follows real edges of unstarted items: "circular" repeats a tag of its chain, "not found" names a dependency absent from the map |
| `DependencyStart.LintWalks` | dns/transport_manager.go:127-143 | The diagnosis walks by the first unstarted dependency through known items it has not passed; it says "circular" with the way it came iff the next one was passed, and else "not found" of the item it stands at |
| `DependencyStart.FirstUnstartedIsFirst` | dns/transport_manager.go:128-131 | The dependency followed is the first listed one that is not started |
| `DependencyStart.CircularVerdictHasCycle` | dns/transport_manager.go:132-134 | A circular verdict contains an actual cycle: its tree from the repeated tag on |
| `DependencyStart.StuckIsMaximal` | dns/transport_manager.go:118-123 | A stuck set of started tags contains everything any start order could reach |
| `DependencyStart.StuckRefutesOrder` | dns/transport_manager.go:124-126 | A stuck state with an unstarted item refutes every topological order |
| `Managers.Install` | dns/transport_manager.go:263-283 | Replacing or adding an item keeps list and map in agreement, and keeps the reverse-dependency map exact iff a replaced item's dependencies are all kept; fails exactly when the map knows the tag and the list has lost the item |
| `Managers.Unlist` | dns/transport_manager.go:204-211 | Removing from map and list keeps them in agreement; the reverse map stays exact iff the item had no dependencies |
| `Managers.Release` | dns/transport_manager.go:225-238 | With an exact map the removal is refused iff some item depends on the tag, and leaves the map exact iff no doubly listed dependency held one other registration |
| `Managers.Withdraw` | dns/transport_manager.go:229-238 | Each entry becomes the entry with the withdrawal round applied once per listing of that dependency |
| `Managers.Register` | dns/transport_manager.go:280-283 | The entry of each dependency gains the tag at its end, once for every time it is listed, and no other entry changes |
| `Managers.ExactAfterRegister` | dns/transport_manager.go:280-283 | A new tag keeps the reverse map exact; a replacement does iff it drops no dependency |
| `Managers.ExactAfterWithdraw` | dns/transport_manager.go:229-238 | After a completed Remove the reverse map is exact iff no dependency was listed twice with exactly one other registration |
| `Managers.ExactAfterRefusal` | dns/transport_manager.go:225-228 | A refused Remove leaves the reverse map exact iff the item had no dependencies |
| `Managers.DuplicateDependencyLosesOther` | dns/transport_manager.go:230-237 | A concrete agreeing, exact manager on which a doubly listed dependency loses another item's registration |
| `Managers.AgreeAfterRemoval` | dns/transport_manager.go:204-211 | Taking an item out of both list and map keeps distinct tags and the same items in both |
| `Managers.AgreeAfterInsertion` | dns/transport_manager.go:278-279 | Adding an item under an unused tag to both keeps distinct tags and the same items in both |
| `Managers.TransportManager.Create` | dns/transport_manager.go:245-300 | Changes nothing on its early errors, else appends the item in place of any namesake and registers its dependencies; the exact condition of every result, the two fakeip refusals coming after the install; keeps agreement; what becomes of the default and of the fakeip server; the default dangles exactly when it was replaced and the successor was not adopted |
| `Managers.TransportManager.Appoint` | dns/transport_manager.go:284-298 | Refuses a fakeip default and a second fakeip server, each exactly when; otherwise the default and the fakeip server change exactly as the configuration says |
| `Managers.TransportManager.Remove` | dns/transport_manager.go:197-243 | Keeps agreement on every path; the exact condition of every result (the fakeip refusal as the test is written); a removed default hands over to the first of the rest; what is left of every registration; the default dangles iff the fakeip refusal fired |
| `Managers.TransportManager.Close` | dns/transport_manager.go:148-158 | A started manager empties its list and keeps its map, so every known tag is orphaned; everything else is kept, and a manager not started is left alone |
| `Managers.FakeIPIsNeverReplaced` | dns/transport_manager.go:293-297 | After the fakeip server is removed, every fakeip Create fails; one that reaches the check is in list and map all the same, and the removed server stays the fakeip server |
| `Managers.RestartStartsNothing` | dns/transport_manager.go:74-76 | A started manager with a default that is closed and started again reports success with no server started, its list empty and its map and default kept |
| `Managers.TransportManager.Start` | dns/transport_manager.go:59-76 | Fails without a default exactly when none can be had; the fallback breaks agreement iff its tag was taken; servers are marked in the order of sweeps of the list, and a failing Start is the last; with agreement, success iff the graph is closed and acyclic, a reported cycle is one and a "not found" tag is in no item; with an empty list it succeeds and starts nothing |
| `Managers.TransportManager.ResolveDefault` | dns/transport_manager.go:59-73 | There is a default exactly when there was one, or no tag is configured and the fallback can be built; only then the fallback joins list and map, and they agree iff its tag was free |
| `Managers.OutboundManager.Create` | adapter/outbound/manager.go:314-386 | As for transports, with the invalid-config placeholder standing in for a failed constructor: the exact condition of every result, the registrations, who becomes the default; the default dangles iff it was replaced under a tag that is not the configured default |
| `Managers.OutboundManager.Remove` | adapter/outbound/manager.go:270-312 | Keeps agreement and a listed default on every path, handing it to the first of the rest; the exact condition of every result: refused iff something is registered for the tag, a close error iff started and the close fails; what is left of every registration |
| `Managers.OutboundManager.StartOutbounds` | adapter/outbound/manager.go:101-171 | At most max(1, n) passes over outbounds and endpoints, each Start at most once after its dependencies and in the order of sweeps, a failing one the last; success iff closed and acyclic for distinct tags; a circular verdict exhibits a cycle; a "not found" verdict is true of the whole system iff the name is not an endpoint's |
| `DialAdmission.SlotsNeverLeak` | route/conn.go:289-353 | In every run inFlight is the number of calls between increment and decrement, the semaphore is the number between acquire and release and at most 256, and both are zero when all calls are finished |
| `DialAdmission.DegradedBudget` | route/conn.go:161-172 | Over any stretch of a run in which the outbound stays degraded, holders of a slot never exceed max(32, holders at its beginning) |
| `DialAdmission.BudgetHoldsIffAtEntry` | route/conn.go:95-96 | The budget bounds a degraded period iff it bounds its first state |
| `DialAdmission.DegradedOverBudget` | route/conn.go:417-424 | For every n a run reaches a degraded outbound with n holders of a slot |
| `DialAdmission.NewHolderWithinBudget` | route/conn.go:161-167 | While degraded, a call becomes a holder only by being counted within the budget |
| `DialAdmission.ReportsAlternate` | route/conn.go:401-428 | In every run degraded and recovered reports strictly alternate, beginning with degraded, and the flag is their parity |
| `DialAdmission.SerialFlag` | route/conn.go:401-428 | When health updates do not overlap, between updates the flag is set iff at least 8 failures were counted since the last success |
| `DialAdmission.FlagExactIffLastWriteFitted` | route/conn.go:401-428 | In every run, overlapping or not, with no update under way: the flag is "at least 8 failures since the last success" iff the last flag write set it exactly when the counter it found had reached 8 |
| `DialAdmission.OverlapLeavesFlagSet` | route/conn.go:409-423 | A run reaches a state, all calls finished, that is degraded with no failure since the last success |
| `DialAdmission.OutboundHealth.TryAcquireSlot` | route/conn.go:161-167 | Succeeds iff fewer than 32 slots are taken or the outbound is not degraded; the object ends as the steps of one call running alone leave it, and success is that call going on |
| `DialAdmission.OutboundHealth.ReleaseSlot` | route/conn.go:172 | Undoes one acquisition: the object ends as either step that gives a slot back leaves it, and the call of that step is no longer counted |
| `DialAdmission.OutboundHealth.UpdateAfterDial` | route/conn.go:401-429 | Keeps counter and flag equal to the failures since the last success and their threshold; reports exactly the changes of the flag; a cancelled dial changes nothing; for any other the object ends as the steps of one call running alone leave it |
| `DialOutcomes.OutcomesAreDialResults` | route/conn.go:343-349 | In every run the outcomes an outbound counted are what the dials of its calls returned, each call once, in the order its updates began; a finished call is among them iff its dial succeeded or failed, never when it was cancelled |
| `DialOutcomes.CancelledDialsAreIgnored` | route/conn.go:413-414 | After its dial was cancelled no step of a call changes an outbound's counter, flag, reports or outcomes |
| `DialOutcomes.FlagOverDials` | route/conn.go:401-429 | The law of the degraded flag over what the dials returned: with no update under way it is "8 failures since the last success" iff the last flag write fitted, and always when updates do not overlap |
| `DialOutcomes.AdmittedIff` | route/conn.go:56-63 | A call, of an outbound or not, gets a global slot iff fewer than 256 calls are between acquire and release |
| `DialOutcomes.ShedIff` | route/conn.go:161-167 | A call is shed iff 32 others of its outbound were counted when it was and the last report it then finds is a degradation |
| `SingleFlight.OneLeaderPerKey` | dns/client.go:270-301 | In every run at most one undeleted leader per key, and the lock map holds exactly the flights of such leaders |
| `SingleFlight.DeleteOwnCloseOnce` | dns/client.go:295-299 | A leader's Delete removes its own flight; its close comes after the entry is gone, once, and no flight is closed twice |
| `SingleFlight.WaitersAreServed` | dns/client.go:84-99 | A waiter's flight is closed iff its leader is finished, so none is stranded; it waits for a deadline at most one timeout after it joined |
| `SingleFlight.ReleasedWaitersFastFail` | dns/client.go:326-348 | A waiter released by a flight that ended in a network error asks the transport only if its negFail check came a full TTL after the failure was recorded; before that the check ends the call |
| `SingleFlight.ReleasedWaitersAreServed` | dns/client.go:291-307 | A released waiter asks the transport only after its cache load missed; if its flight had stored a response, that was dropped, or the last entry under its key, that one or a later one, had expired, and with independent caches that entry is of the same question and transport |
| `SingleFlight.TogetherIffNothingAlive` | dns/client.go:302-348 | Two calls queued on a closed flight can ask the transport together, with nothing else happening, iff no unexpired response and no recent failure is there for their key and neither found the leader's deadline past; a response the flight stored is there until dropped or until the last entry under its key expires, a failure it recorded for the whole TTL |
| `SingleFlight.ReleasedWaitersMayExchangeTogether` | dns/client.go:291-307 | A run with a closed flight that neither stored nor failed and two waiters that can ask the transport together |
| `SingleFlight.OtherTransportOverwrites` | dns/client.go:548-549 | With a shared cache, a run in which another transport's shorter-lived answer to the question lets the waiters ask together while their flight's own answer would still be alive |
| `SingleFlight.WaitsForItselfIff` | dns/client.go:278-313 | In every run a nested query that looks up its flight comes to wait for one led by a call it serves iff such a call leads a flight of the same question and transport |
| `SingleFlight.OnlyTheDeadlineEndsIt` | dns/client.go:84-99 | While it waits its flight is open and its leader asking, so nothing releases it; besides the end of its own context the deadline ends it, at most one timeout after it joined |
| `SingleFlight.NestedRun` | dns/client.go:278-315 | A run in which a query that comes back through a second transport waits for its own outermost call |
| `FlightHistory.PassesIffNoneRecent` | dns/client.go:326-328 | In every run a query passes the check of recent failures iff no failure of its key was recorded in the last 5 seconds |
| `FlightHistory.LoadHitsIffStillStored` | dns/client.go:302-307 | In every run a cache load answers the query iff the last response stored under its entry was neither dropped nor has expired; a load that misses leaves no entry |
| `FlightHistory.WayOfACall` | dns/client.go:270-350 | In every run a query asks the transport at most once and iff the circuit check let it through; one that uses the cache asks only as a leader or a released waiter, one that does not touches no flight; a failure is recorded iff the transport returned a network error |
| `FlightHistory.DeadlineIsOneTimeout` | dns/client.go:278-281 | A flight's deadline is one timeout after the leader's LoadOrStore |
| `FlightHistory.FailureAgesOut` | dns/client.go:326-348 | A run in which a failure is recorded and six seconds later a query of the same key passes the check |
| `ResponseCache.ChooseLifetime` | dns/client.go:426-446 | The lifetime is the rewrite TTL, else for an answerless response with a non-zero SOA the lesser of its TTL and MINIMUM (section 5 of RFC 2308), else the least positive non-OPT TTL |
| `ResponseCache.LifetimeIsDetermined` | dns/client.go:426-446 | At most one lifetime fits that description |
| `ResponseCache.ExtractNegativeTTL` | dns/client.go:209-221 | The lesser of TTL and MINIMUM of the first SOA of the authority section, if any |
| `ResponseCache.FirstSOAIsFirst` | dns/client.go:209-217 | The SOA found is one of the section with none before it; none is found iff there is none |
| `ResponseCache.ScanIsLeast` | dns/client.go:433-442 | The record scan finds the least positive TTL of the non-OPT records, 0 if none is positive |
| `ResponseCache.Stamp` | dns/client.go:447-454 | Every non-OPT record carries the lifetime; nothing else changes |
| `ResponseCache.AgedCopy` | dns/client.go:642-675 | A fresh copy whose non-OPT TTLs are the whole seconds left, without 32-bit wrap |
| `ResponseCache.Cache.Finish` | dns/client.go:426-457 | Stamps the response and, if cacheable with a positive lifetime, stores a separate copy that expires after it; every stored record carries its entry's lifetime; the entry serves exactly the queries that share it and all other entries stay |
| `ResponseCache.Cache.KeysApart` | dns/client.go:534-557 | Two queries meet in the cache iff they ask the same question and, with independent caches, the same transport |
| `ResponseCache.Cache.LoadResponse` | dns/client.go:599-677 | Hits iff present and not expired, dropping an expired entry; returns its own copy with non-OPT TTLs equal to the whole seconds remaining (the full lifetime when nothing expires); stored messages are untouched |
| `RacingDialers.Accounting` | common/dialer/default_parallel_interface.go:52-87 | While the loop runs, errors + outstanding racers + unlaunched fallbacks equal all racers, and something is pending |
| `RacingDialers.Verdict` | common/dialer/default_parallel_interface.go:75-82 | Failure is reported iff every racer has failed, with each racer's error once; success iff a connection was received |
| `RacingDialers.LaunchedOnce` | common/dialer/default_parallel_interface.go:69-85 | Fallback racers are launched at most once, whether Stop takes back an unread expiry or reports the timer expired |
| `RacingDialers.NothingLeaks` | common/dialer/default_parallel_interface.go:25-51 | When no step is left the dialer has returned and the only open connection is the returned one, for all three dialers |
| `RacingDialers.ClosedOnlyAfterReturn` | common/dialer/default_parallel_interface.go:44-50 | A racer closes its connection only after the coordinator returned, and never the returned one |
| `RacingDialers.RunsAreBounded` | common/dialer/default_parallel_network.go:85-129 | Every run of n racers ends within 3n + 4 steps, the expiries of the timer included |
| `RacingDialers.RunningIsNotQuiescent` | common/dialer/default_parallel_interface.go:67-87 | While the coordinator runs some step is possible, so it never waits with nothing pending |
| `RaceHistory.RacersByTheirDials` | common/dialer/default_parallel_interface.go:32-51 | In every run a racer has a connection iff its dial succeeded and an error iff it failed; it was taken iff the coordinator received it, closed or dropped iff the racer saw `returned` |
| `RaceHistory.VerdictByTheDials` | common/dialer/default_parallel_interface.go:67-87 | Failure is reported iff every racer's dial failed and its error was received; a racer's connection is returned iff its dial succeeded and it was received |
| `RaceHistory.NoConnectionLeaks` | common/dialer/default_parallel_interface.go:44-50 | When no step is left every racer whose dial succeeded is the returned one or has closed its connection, never both |
| `RaceHistory.FallbacksWaitForTheTimer` | common/dialer/default_parallel_interface.go:69-74 | A racer is unlaunched iff it is a fallback, the dialer is not the eager one and the timer's value has not been received |
| `RaceHistory.TimerByItsSteps` | common/dialer/default_parallel_interface.go:69-85 | In every run the fallback timer is drained iff the fallbacks were launched, else fired iff it expired and, where Stop takes an unread value back, no primary's error was received since; else it runs, reset to expire at once iff a primary's error was received |
| `RaceHistory.FallbackWins` | common/dialer/default_parallel_interface.go:83-85 | A race in which the primary's failure brings the fallback on and its connection is returned |
| `ServiceStatus.StatusMatchesInstance` | daemon/started_service.go:186-276 | Whenever the lock is free STARTING and STARTED have an instance, IDLE has none, and STOPPING has one that a reload is still closing |
| `ServiceStatus.LockIsBalanced` | daemon/started_service.go:133-139 | The lock is held exactly by the operation in its critical section; a finished operation released it as often as it took it |
| `ServiceStatus.InstancesNeverLeak` | daemon/started_service.go:194-220 | Unless SetError strikes while a reload is closing the old instance, every instance created is closed, current or in hand |
| `ServiceStatus.LeakHappensExactlyAtInstall` | daemon/started_service.go:194-214 | A step loses an instance iff a reload installs over one that is not closed and that no operation holds in order to install or close it |
| `ServiceStatus.LeakedForever` | daemon/started_service.go:194-214 | An instance once lost is lost in the rest of the run and never closed |
| `ServiceStatus.ErrorDuringStopCanLeak` | daemon/started_service.go:272-276 | A run with SetError inside a closing window loses an instance |
| `ServiceStatus.AnnouncesOwnIff` | daemon/started_service.go:224-234 | In every run a reload about to announce STARTED started the current instance itself iff no other reload is inside that instance's Start or waiting to confirm it |
| `ServiceStatus.AnnouncementTrueIff` | daemon/started_service.go:224-234 | In every run a reload about to announce STARTED finds that the current instance's Start has succeeded iff no operation is inside that Start or waiting to confirm its failure |
| `ServiceStatus.StartedMeans` | daemon/started_service.go:223-235 | With the lock free, STARTED means that the current instance's Start has succeeded, has failed or is still running, and exactly one of them |
| `ServiceStatus.StartedMeansStarted` | daemon/started_service.go:214-235 | If no reload installs while another stands between its install and its confirmation, STARTED means that the current instance's Start returned without error |
| `ServiceStatus.StartedBeforeItsInstance` | daemon/started_service.go:223-234 | A run in which an overtaken reload announces STARTED while the current instance's Start is still running |
| `ServiceStatus.StartErrorIsSwallowed` | daemon/started_service.go:225-229 | A run that ends, all operations finished, STARTED on an instance whose Start failed |
| `ServiceStatus.StartErrorReportedIff` | daemon/started_service.go:225-232 | A failed Start turns the status FATAL iff its reload finds STARTING and else changes nothing; the status then spoils another reload's instance iff that one is still being started or confirmed |
| `ServiceOperations.CloseServiceCloses` | daemon/started_service.go:248-269 | In every run a CloseService that finds STARTING or STARTED leaves no instance, the one it found closed, and IDLE, or FATAL iff the close failed; one that finds another status changes nothing |
| `ServiceOperations.ReloadInstallsOrFails` | daemon/started_service.go:201-213 | In every run a reload makes a created instance current under STARTING; a failed creation leaves the current instance and ends FATAL |
| `ServiceOperations.ClosedRun` | daemon/started_service.go:248-269 | A run that ends IDLE with the started instance closed |
| `ConnectionStream.Connections.ApplyEvents` | experimental/libbox/command_types.go:112-173 | Whatever closed connections the client evicts, its open connections and their totals are those of the full replay of all events, given that CLOSED events carry a non-zero time as the server's do; exactly the closed ones older than the maximum age are gone, and the rest is as the events left it |
| `ConnectionStream.ClosedKeepsTotals` | experimental/libbox/command_types.go:134-147 | A CLOSED event closes its connection with the totals it brings, or else with those shown, and touches no other |
| `ConnectionStream.Stream.BuildInitial` | daemon/started_service.go:817-843 | The first batch lists the active and then the closed connections, one NEW each, and takes the readings for snapshots; it opens exactly the active connections not also listed as closed, which become stale; client and server are in step iff the two lists are disjoint |
| `ConnectionStream.Stream.ApplyConnectionEvent` | daemon/started_service.go:845-883 | The client's open set is the snapshots but for the stale connections: a NEW is sent iff unknown, with its reading for a snapshot; a CLOSED is always sent, with the event's time, the metadata's or the clock's, and removes, also from the stale; events stay well behaved and other connections untouched |
| `ConnectionStream.Stream.BuildTrafficUpdates` | daemon/started_service.go:885-981 | After a tick every active connection has its reading for a snapshot and was told of by NEW, by the differences iff a counter moved and none went back, or by a last zero; every other known one is closed, once, with its last totals; the client shows the active list but for connections that were stale and still active, with the readings plus the drift for totals, so client and server are in step iff the tick finds every stale one inactive; while no counter goes back the drift is kept |
| `ConnectionStream.Stream.TickKnown` | daemon/started_service.go:907-948 | The snapshot becomes the reading; what is sent is the differences, a zero after traffic, or nothing; the client total stays snapshot plus drift, the drift unchanged unless a counter went back; a zero UPDATE only after a non-zero one |
| `ConnectionStream.Stream.RetireGone` | daemon/started_service.go:951-978 | Whatever the order of iteration, exactly the active connections remain, stale ones among them, and their drift is kept; each of the others is closed once, with its remembered totals and time |
| `ConnectionStream.SyncSend` | daemon/started_service.go:924-936 | An UPDATE with non-negative deltas keeps the client in step, and hadTraffic equal to "the last event was a non-zero UPDATE"; it fits what was sent before iff its connection is not stale |
| `ConnectionStream.SyncSnoc` | daemon/started_service.go:775-806 | An event that leaves its own connection tracked, closed or stale leaves the whole stream in sync |
| `HuffmanPadding.GenerateTokenishPadding` | option/v2ray_transport.go:624-662 | The loop computes the adjustment function about which the bounds are proved |
| `HuffmanPadding.PaddingNearTarget` | option/v2ray_transport.go:633-661 | For every target from 1 and every draw the Huffman length misses by at most max(2, ceil(T/4) - 150); a short draw only grows by alternating X and Z, a long one only shrinks |
| `HuffmanPadding.ToleranceExactlyUpTo608` | option/v2ray_transport.go:616-661 | Every base62 draw ends within the tolerance of 2 iff the target is at most 608; beyond, a draw of X's meets the worst miss exactly |
| `HuffmanPadding.DefaultRangeAcceptedUpTo921` | option/v2ray_transport.go:448-455 | Within the default range 100 to 1000 the server accepts every draw iff the target is at most 921 |
| `HuffmanPadding.GrowsOnly` | option/v2ray_transport.go:637-650 | A short string gets exactly as many adjustment characters as it lacks beyond the tolerance, or as iterations remain, one octet each |
| `HuffmanPadding.ShrinksOnly` | option/v2ray_transport.go:652-659 | A long string only loses characters from its end, never falling below the target, and no more than needed to be within tolerance, unless iterations run out |
| `HuffmanPadding.NoTargetNoChange` | option/v2ray_transport.go:624-658 | A target of zero or less returns the draw, one character, unchanged |
| `HuffmanPadding.PaddingStaysBase62` | option/v2ray_transport.go:611-662 | A base62 draw gives a base62 padding |
| `HuffmanCode.WidthsAreBits` | option/v2ray_transport.go:620-622 | The lengths the padding counts with are those of the code words of Appendix B of RFC 7541, whose values are consecutive within a width |
| `HuffmanCode.HeadWidthOfWord` | option/v2ray_transport.go:620-622 | No word is the beginning of another: whatever follows, a word is read with its own width and value |
| `HuffmanCode.DecodeEncode` | option/v2ray_transport.go:635 | Decoding the encoded and padded string gives the string back, for every base62 string |
| `HuffmanCode.EncodedOctets` | option/v2ray_transport.go:635 | The length the padding is adjusted by is the number of octets of the encoding |
| `HuffmanPadding.RandStringFromCharset` | option/v2ray_transport.go:668-693 | Yields the first n accepted bytes mapped into the set, and fails exactly when n or the set is empty or the source runs dry first |
| `HuffmanPadding.DrawIsUniform` | option/v2ray_transport.go:664-685 | Below a positive rejection limit each of the m characters is selected by 256 / m byte values |
| `HuffmanPadding.EveryCharacterAlike` | option/v2ray_transport.go:664-689 | Of the 256 values of a random byte, 256 / m are drawn as any one character of a set of m, and none when the limit wraps to zero |
| `HuffmanPadding.AcceptedByteByByte` | option/v2ray_transport.go:678-690 | Each random byte adds its character, or nothing, independently of the others and in order |
| `HuffmanPadding.LimitIsZeroWhen` | option/v2ray_transport.go:673 | The limit wraps to 0, rejecting every byte, iff the set's size divides or exceeds 256 |
| `LogStartup.DeliveredExactlyOnce` | log/observable.go:158-165 | Once a Log call and Start are done its line reached the platform writer once; it is missing from the file iff Close found it in the buffer or it was written after Close had closed the file, never both, and else is there once |
| `LogStartup.ExactlyOnceWhenStartPrecedesClose` | log/observable.go:115-140 | When Start precedes Close every line is handed exactly once to both writers and the buffer stays empty after Start; the file has it iff it was not written after the file was closed |
| `LogStartup.NeverTwice` | log/observable.go:196-226 | At no moment has a line been handed to either writer twice; a finished call's line is with the platform writer whether or not Start happened |
| `LogStartup.FileWritesUseFinalWriter` | log/observable.go:115-128 | No line is written before the final writer is in place |
| `LogStartup.NothingLost` | log/observable.go:158-161 | No line is cleared from the buffer in runs where Close clears it only after Start took it |
| `LogStartup.ClearedRun` | log/observable.go:158-161 | A run in which Close before Start clears a line, and the file Start then opens is never closed |
| `LogStartup.FlushedLateRun` | log/observable.go:134-138 | A run in which Close between the taking of the buffer and its flush has the line flushed to a closed file |
| `LogStartup.LoggedLateRun` | log/observable.go:200-222 | A run in which a line logged after Close is written to a closed file |
| `LogOrder.FlushKeepsOrder` | log/observable.go:129-138 | In every run the lines appended are, in order, those cleared, those flushed, those to be flushed and those buffered; a finished Start has flushed all that were not cleared, in the order they were logged |
| `LogOrder.FileByItsSteps` | log/observable.go:117-128 | In every run the file is open or closed iff there is a path and Start has opened it, and closed iff Close came upon it after that |
| `LogOrder.LateByTheSteps` | log/observable.go:158-165 | A line is written in vain iff there is a path and the line is handed to the file after Start opened it and Close then closed it |
| `RuleRetry.MatchDNS` | dns/router.go:120-208 | Returns the first deciding rule after the previous one, or the default, with the options gathered from the options-only rules in between |
| `RuleRetry.Exchange` | dns/router.go:255-320 | The loop makes exactly the calls and ends with exactly the outcome of the round-by-round reference, and every call gets the transport and options of its own round, begun from the options of the query |
| `RuleRetry.Lookup` | dns/router.go:380-427 | Likewise for Lookup, which retries on any error of an address-limited rule and on an empty answer of a bypassing one |
| `RuleRetry.CallsAdvance` | dns/router.go:260-319 | Client calls belong to strictly later rules, each the first deciding one after the previous; the default transport is only asked last; every earlier answer asked for another round |
| `RuleRetry.CallsAreBounded` | dns/router.go:260-319 | At most one client call per rule plus one |
| `RuleRetry.HowItEnds` | dns/router.go:264-318 | The outcome is the last call's answer, which asked for no more, or the verdict of the next deciding rule without a transport |
| `RuleRetry.WhyExchangeGoesOn` | dns/router.go:288-319 | Exchange makes another round after a call iff the answer was rejected and the rule checks addresses, or it failed while the caller was there and the rule bypasses failures |
| `RuleRetry.WhyLookupGoesOn` | dns/router.go:418-426 | Lookup makes another round after a call iff no address came and the rule bypasses failures, or the call failed and the rule checks addresses |
| `RuleRetry.HowRulesEndIt` | dns/router.go:264-283 | Without an answer, the outcome is that of the deciding rule: refused, dropped, called without a transport or a fixed response in Exchange; an error or a fixed response in Lookup |
| `RuleRetry.OptionsOfACall` | dns/router.go:147-208 | Each call, field by field: the transport its rule names or the default; strategy, subnet and TTL of the last rule that set one, else the query's, else the transport's own, else the router's strategy; the cache disabled iff the query, a rule or a fakeip route disables it |
| `RuleRetry.NilTransportExactly` | dns/router.go:265-288 | Some client that rejects only where it was given an address check makes Exchange call the client without a transport iff a reply-method reject rule lies behind rules that may all ask for another round; Lookup never does |
| `RuleRetry.FirstFromIsFirst` | dns/router.go:129-197 | No rule between the starting index and the one found decides |
| `RuleRetry.WhichRuleIsNext` | dns/router.go:129-197 | A round goes to the first later rule that matched, whose address check fits the query, and that rejects, answers or names a known server, which in Lookup is not fakeip |

## Left out

- Sockets, TLS, DNS wire format, gRPC, JSON, file rotation and platform interfaces.
- Option structs, registries, constants and command-line wiring: data declarations with easy claims.
- route/route.go sniffing and packet buffering; common/badtls and common/daita.
- Slice aliasing in Create and Remove: the lists are values, so an append that shifts a list another goroutine is ranging over is not captured.
- Concurrent changes of the by-tag map while the diagnosis runs.
- The outbound manager's default endpoint, fallback outbound and time-bounded Close.
- DialSerialNetwork and selectInterfaces: a serial loop and filters with easy claims. Which error DialParallelNetwork returns (the primary's) and the fast-fallback reset callback are not tracked.
- The cancellation of contexts passed to racers and dials.
- The circuit check's walk through selector groups: an open circuit is an outcome of a step.
- Rounding of `Duration.Seconds` to a float, which can only matter for lifetimes of 2^24 seconds and more; the division by 0.8 is modelled as an exact 5/4.
- Rejected-response caching, EDNS handling and the HTTPS hint filter of Exchange.
- Early eviction from the cache of failures, which holds 256 keys.
- That CLOSED is sent once per connection: it is sent again for a late tracker event.
- Fatal and panic log lines, log levels, a missing platform writer and the order of lines logged directly beside a flush; opening the log file is taken to succeed.
- The DNS router's address strategies, reverse mapping and queries with a transport of their own; a rule's match is an input.
- generateXPadding's choice of method and its fallback to repeated X's when no random bytes are available.
- Start stages other than the start stage proper, and the panic when a stage is repeated.
