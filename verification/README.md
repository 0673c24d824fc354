# sing-box: verified models of its protocols, schedulers and codecs

sing-box is a universal proxy platform. This Dafny 4.11 project models the parts of it that carry
real protocol, scheduling, caching or codec logic, and proves what each of them promises over all
inputs, all interleavings or all runs. `dafny verify dfyconfig.toml` checks everything.

Each file is one module that follows one component:

| file | component | form of the model |
|---|---|---|
| `DialRace.dfy` | racing dials over interfaces, a happy-eyeballs scheme as in section 5 of RFC 8305 | step relation over racers, timer and receiver |
| `DialNetwork.dfy` | racing the two address families, serial dialing inside each | loop method plus an instance of the race |
| `ConnectionStream.dfy` | the connection delta stream of the daemon and the client that replays it | class with in-place snapshots, client as a replay function |
| `ServiceStatus.dfy` | the service status machine whose lock is given up in mid-operation | step relation over any number of calls |
| `StartOrder.dfy` | dependency-ordered start with its cycle diagnoser | repeated-pass loops over a list and a started set |
| `OutboundRegistry.dfy` | outbound list, tag map and reverse-dependency index | class with in-place fields |
| `TransportRegistry.dfy` | DNS transport registry: default and FakeIP transport | class with in-place fields |
| `DnsRouter.dfy` | DNS rule scan and retry loop | loop methods against a one-pass specification |
| `SingleFlight.dfy` | the per-question lock of the DNS client | step relation over any number of calls |
| `DnsCache.dfy` | TTL choice, storing, ageing in 32-bit arithmetic | message objects changed in place, shared with the cache |
| `Geosite.dfy` | geosite database writer and seeking, buffered reader | loops and reader classes against a grammar |
| `ClientHello.dfy` | TLS ClientHello fingerprint parser | class filled in place against a parse function |
| `RuleMatch.dfy` | route rule matching in pre-match and full mode | class whose metadata the loop rewrites |
| `ConnectionLifecycle.dfy` | a proxied connection from dial to close, and the list of tracked connections | step relation over the caller and two copies; class |
| `Common.dfy` | shared datatypes, sequences without repeats, termination measures | |

Step relations have the same shape everywhere: `Enabled` and `Next` say which step each party can
take and what it does, `IsRun` says that a sequence of states is a run, and the main lemmas speak of
every run. Choices the program does not control (which goroutine moves, whether a dial or a foreign
call succeeds, map iteration order, how many bytes a read delivers) are arbitrary.

## What the proofs found

Where a promised property fails in the code, the code is kept as it is, a concrete case shows the
failure, and the exact condition under which it holds is proved.

- A cached DNS answer can show a TTL far too high. The client writes the chosen TTL into every record,
  also into the OPT record, whose TTL field holds flags; the EDNS clean-up then reads those flags back.
  If that re-adds an OPT record with the DO bit, the age subtraction wraps. `DnsCache.HitShowsTimeLeft`
  gives the exact condition, `DnsCache.OversizedTTL` a TTL of 98304 shown as 163840.
- A reload can forget a live instance: exactly when it puts a new one in the place of one that nobody
  closed or is about to close (`ServiceStatus.InstancesAreLostExactly`). That takes an error reported
  while an old instance is being closed (`ServiceStatus.ErrorWhileStoppingLosesInstance`).
- STARTED can be shown over an instance that has not started: exactly when a success is reported while
  the current instance has not started (`ServiceStatus.StartedIsTruthfulExactly`), as two reloads can do
  (`ServiceStatus.OvertakenStartMisleads`).
- The outbound manager's report of a missing dependency is false exactly when following first unstarted
  dependencies from the first unstarted node, through outbounds, ends at an endpoint
  (`StartOrder.StartOutbounds`); `StartOrder.EndpointReportedMissing` is such a start. The DNS transports'
  report is always true.
- The fallback outbound started beside endpoints makes the start loop dereference nil exactly when one of
  them carries its tag and the list without that endpoint could be started (`StartOrder.StartFallback`);
  configuration refuses any other repeated tag.
- Removing an outbound whose dependency list repeats a tag can delete other outbounds' index entries;
  `OutboundRegistry.ForgetKeepsOthersExactly` says exactly when,
  `OutboundRegistry.RemovalLosesEntry` shows it on a manager.
- The ClientHello parser reads past its data exactly on the segments of `ClientHello.ParsePanicsExactly`;
  `ClientHello.OverrunExample` is one.
- A connection that leaves between the two listings of a subscription's first message is shown as closed
  while the server still holds it (`ConnectionStream.FirstMessageSyncs`,
  `ConnectionStream.LeavingBetweenListings`); the next tick repairs that.
- Client totals differ from the counters by exactly what backward readings kept from them: what one
  direction fell, less what the other grew in the same tick (`ConnectionStream.TotalsExactly`,
  `ConnectionStream.RestartedCounterDrifts`).
- Options set by a route-options rule of the DNS router are dropped when a later rule's answer is
  rejected (`DnsRouter.AttemptsForgetOptions`); `DnsRouter.RetryDropsOptionsExactly` says when that
  changes the next attempt, `DnsRouter.DroppedOptionExample` shows it.
- A DNS exchange that comes to a rule rejecting by reply is not refused: the client is called without a
  transport (`DnsRouter.ReplyRejectAsksNobody`). A lookup is refused.
- The destination a connection came with can be neither kept nor recorded once rules override it: exactly
  when none was recorded before and a sniffer moved it before the first overriding rule saw it, or for
  good (`RuleMatch.WalkRemembersExactly`, `RuleMatch.SniffedDestinationIsNotRecorded`).

## Model

| member | source | states |
|---|---|---|
| `DialRace.StepKeepsInv` | common/dialer/default_parallel_interface.go:16-88 | every step keeps what is known of racers, timer, receiver, received errors and open connections |
| `DialRace.RunKeepsInv` | common/dialer/default_parallel_interface.go:16-88 | the invariant holds in every state of every interleaving, with and without fast fallback |
| `DialRace.Conservation` | common/dialer/default_parallel_interface.go:30-88 | while the receiver selects, errors received, racers in flight and fallbacks not launched add up to all candidates |
| `DialRace.ReceiverIsNeverAbandoned` | common/dialer/default_parallel_interface.go:60-88 | the receiver never waits with nobody left to send: a racer is in flight or the timer is pending |
| `DialRace.SelectingHasStep` | common/dialer/default_parallel_interface.go:60-88 | as long as the receiver selects, some party can move, so the dial cannot hang on its own channel |
| `DialRace.StepLowersRank` | common/dialer/default_parallel_interface.go:16-88 | every step uses up a bounded measure, re-armed timers included |
| `DialRace.RunIsShort` | common/dialer/default_parallel_interface.go:16-151 | no run takes more than four steps per candidate and two for the timer |
| `DialRace.AllAccounted` | common/dialer/default_parallel_interface.go:24-58 | where nothing is left to do, each opened connection was returned or closed |
| `DialRace.EveryRunReturnsAndLeaksNothing` | common/dialer/default_parallel_interface.go:16-151 | every finished run returned one connection and closed all others, or returned an error after every candidate failed and was received exactly once |
| `DialRace.FallbacksLaunchOnce` | common/dialer/default_parallel_interface.go:60-88 | fallbacks are launched at most once in any run |
| `DialRace.WaitsExactly` | common/dialer/default_parallel_interface.go:60-74 | a racer waits if and only if it is a fallback of the slow variant and nothing has launched it yet: with fast fallback all start at once |
| `DialRace.LaunchNeedsTimer` | common/dialer/default_parallel_interface.go:60-74 | fallbacks are launched only after the timer fired, and in the fast variant never by a launch |
| `DialNetwork.FamiliesPartition` | common/dialer/default_parallel_network.go:58-76 | the two families hold each valid address exactly as often as it is listed, and nothing else |
| `DialNetwork.RacerDialsItsFamily` | common/dialer/default_parallel_network.go:58-76 | the primary racer has exactly the IPv6 addresses if those are preferred and exactly the IPv4 ones, mapped addresses included, if not; the fallback racer has the others |
| `DialNetwork.FamilyKeepsOrder` | common/dialer/default_parallel_network.go:58-76 | each racer dials its family in the order of the list |
| `DialNetwork.DialSerial` | common/dialer/default_parallel_network.go:16-45 | dials addresses in order up to the first success; an error means all were dialed |
| `DialNetwork.FailureWasDialed` | common/dialer/default_parallel_network.go:84-130 | a family that reports failure did dial all of its addresses without success |
| `DialNetwork.LaunchedBeforeError` | common/dialer/default_parallel_network.go:84-130 | the second family cannot have failed before the timer let it start |
| `DialNetwork.RaceTriesEveryAddress` | common/dialer/default_parallel_network.go:84-130 | when the race of the families ends in an error both dialed all their addresses, and the second was started exactly once |
| `DialNetwork.ErrorMeansEveryAddressTried` | common/dialer/default_parallel_network.go:47-130 | an error is returned only after every valid address was dialed exactly as often as it was listed, whether the families raced or one of them was empty |
| `ConnectionStream.Server.BuildInitial` | daemon/started_service.go:777-803 | the first message announces every live and every remembered closed connection and leaves exactly the live ones in the snapshots |
| `ConnectionStream.Server.ApplyHook` | daemon/started_service.go:805-843 | a hook event adds or removes its own snapshot only, once, and says what it sends |
| `ConnectionStream.Server.BuildTrafficUpdates` | daemon/started_service.go:845-941 | whatever the iteration orders, a tick leaves the snapshots of the live table and sends each connection exactly the event it calls for (what that is worth to the client: `TickAt`, `TickCloses`) |
| `ConnectionStream.TickIsPerConnection` | daemon/started_service.go:845-941 | the two loops of a tick treat every connection independently of all others |
| `ConnectionStream.ReplayIsPerConnection` | experimental/libbox/command_types.go:112-173 | replaying a batch with at most one event per connection changes each connection by its own event alone |
| `ConnectionStream.FirstMessageSyncs` | daemon/started_service.go:777-803 | after the first message client and snapshots agree if and only if no connection left between the two listings, which the client takes for closed; totals agree wherever both are open |
| `ConnectionStream.LeavingBetweenListings` | daemon/started_service.go:777-803 | one connection in both listings makes client and snapshots disagree |
| `ConnectionStream.FirstMessageLists` | daemon/started_service.go:777-789 | it shows a live connection open with its counters, which its snapshot holds too |
| `ConnectionStream.FirstMessageRemembers` | daemon/started_service.go:790-800 | the first message shows a remembered connection with its totals and the time it closed |
| `ConnectionStream.TickAt` | daemon/started_service.go:850-909 | after a tick a client total equals the live counter if and only if the counter did not decrease; the speed shown is the growth since the snapshot |
| `ConnectionStream.HookAt` | daemon/started_service.go:805-843 | a hook event, timely, late or repeated, keeps client and snapshot equal for its connection |
| `ConnectionStream.TickCloses` | daemon/started_service.go:911-941 | a tick that misses a connection leaves the client with the remembered totals and time, or else with its own totals and the time of the tick, and with speed zero |
| `ConnectionStream.HookCloses` | daemon/started_service.go:822-839 | a closing hook event leaves the totals of its metadata, or else the client's own, and the time of the event, of the metadata or of now, whichever is there first |
| `ConnectionStream.HookOpens` | daemon/started_service.go:807-821 | an announcing hook event opens an unknown connection with its counters on both sides and changes nothing about a known one |
| `ConnectionStream.LastCloseRests` | experimental/libbox/command_types.go:112-173 | after any batch a connection last closed in it is at rest, with the time of that event and the totals the event carried or else its own |
| `ConnectionStream.StepLeavesOthers` | daemon/started_service.go:805-941 | a step leaves connections it is not about alone; an eviction drops exactly the closed ones older than five minutes, never an open one |
| `ConnectionStream.ClosedStays` | experimental/libbox/command_types.go:112-173 | through any steps that are not about it a closed connection stays exactly as it is until an eviction more than five minutes after it closed, and is gone from then on |
| `ConnectionStream.GoneConnectionShows` | daemon/started_service.go:911-941 | in any subscription a connection that a tick finds gone is shown at rest, until eviction or until something is about it again, with the totals and time the manager remembers; if it remembers nothing, with the counters last read plus what backward readings kept from it, closed at the tick |
| `ConnectionStream.StepKeepsSync` | daemon/started_service.go:805-941 | every tick, hook event and eviction keeps client and snapshots in agreement about a connection, and a tick restores it for one that left between its listings |
| `ConnectionStream.StepKeepsTotal` | daemon/started_service.go:805-941 | every step keeps the total of an open connection equal to its counters plus what backward readings have kept from it |
| `ConnectionStream.TotalsExactly` | daemon/started_service.go:777-941 | at every moment of every subscription a total is the counters plus what backward readings kept from it since the connection was announced, so the two agree if and only if that adds up to nothing in both directions |
| `ConnectionStream.TotalsMirrorServer` | daemon/started_service.go:777-941 | as long as no counter runs backwards all totals equal the counters |
| `ConnectionStream.RestartedCounterDrifts` | daemon/started_service.go:866-882 | a subscription in which a counter restarts from zero and the total stays |
| `ConnectionStream.ClientMirrorsServer` | daemon/started_service.go:777-941 | at every moment of every subscription a connection is open on the client exactly when it is in the snapshots, except one that left between its two listings and is still held |
| `ConnectionStream.TickShowsLiveTable` | daemon/started_service.go:845-941 | right after a tick the client shows exactly the live table with the speeds of that tick and totals that are the counters plus what backward readings kept from them, even if hook events were lost, late or repeated, and whatever left between the first listings |
| `ConnectionStream.BurstEndsInOneZero` | daemon/started_service.go:850-909 | among the events a tick of any subscription sends about a connection that stays live, a zero update is there exactly when its counters did not move but did at the tick before, traffic exactly when they moved, and nothing else |
| `ServiceStatus.StepKeepsInv` | daemon/started_service.go:114-248 | every step keeps lock ownership, lock counts and the tie between status and instance |
| `ServiceStatus.StepLosesExactly` | daemon/started_service.go:168-242 | one step loses exactly the current instance, and only by putting a new one in its place while nobody has closed it or is about to |
| `ServiceStatus.InstancesAreLostExactly` | daemon/started_service.go:168-242 | a run has lost no instance if and only if none of its steps overwrote one in that way |
| `ServiceStatus.FinishedRunClosesAll` | daemon/started_service.go:168-242 | when every call has returned, every instance is current or closed if and only if no step overwrote one |
| `ServiceStatus.RunKeepsInv` | daemon/started_service.go:168-248 | so does every run of any number of concurrent calls |
| `ServiceStatus.FreeLockMeansInstance` | daemon/started_service.go:168-248 | whenever the lock is free, STARTING or STARTED implies an instance |
| `ServiceStatus.ShowsLastSet` | daemon/started_service.go:168-248 | in every state of every run status and instance are those set last, by the events and outcomes that set one |
| `ServiceStatus.FatalExactly` | daemon/started_service.go:168-248 | in every state of every run FATAL shows if and only if the last step that set a status was a failed creation, a failed start reported over STARTING, a failed close of CloseService or a reported error |
| `ServiceStatus.NoFailureNoFatal` | daemon/started_service.go:168-248 | in a run in which nothing fails and no error is reported FATAL never shows |
| `ServiceStatus.CloseServiceRefused` | daemon/started_service.go:220-226 | a CloseService that finds neither STARTING nor STARTED changes nothing |
| `ServiceStatus.CloseServiceLeavesIdle` | daemon/started_service.go:220-242 | a CloseService that is not refused shows STOPPING and no instance, whatever others do, until it has closed the instance it found and leaves IDLE, or FATAL if that close failed |
| `ServiceStatus.StartedInstanceIsAlive` | daemon/started_service.go:168-248 | in every state of every run, STARTING and STARTED mean a current instance that nobody has closed or is about to close, except for the caller just creating one |
| `ServiceStatus.LocksBalance` | daemon/started_service.go:114-248 | only the holder unlocks, at most one call holds the lock, and every path releases each lock it took exactly once |
| `ServiceStatus.StepKeepsOrder` | daemon/started_service.go:168-242 | a step other than an error report over STOPPING keeps at most one caller replacing an instance, and that the current one |
| `ServiceStatus.NoInstanceIsLost` | daemon/started_service.go:168-242 | in every run without an error report over STOPPING no instance is lost |
| `ServiceStatus.ErrorWhileStoppingLosesInstance` | daemon/started_service.go:244-248 | without that condition a run of three reloads and one error loses a live instance |
| `ServiceStatus.StartedIsTruthfulExactly` | daemon/started_service.go:196-209 | a run never shows STARTED over an instance that has not started if and only if it never reports a success while the current instance has not started |
| `ServiceStatus.StartedIsTruthful` | daemon/started_service.go:196-209 | in every run in which no start is overtaken by a reload, STARTED means that the current instance did start |
| `ServiceStatus.OvertakenStartMisleads` | daemon/started_service.go:196-209 | without that condition two reloads end in STARTED over an instance whose start has not returned |
| `ServiceStatus.RunIsShort` | daemon/started_service.go:168-248 | no run takes more than twelve steps per call |
| `ServiceStatus.NobodyIsStuck` | daemon/started_service.go:168-248 | until every call has returned some call can move: the lock is never left behind |
| `StartOrder.Pass` | adapter/outbound/manager.go:103-136 | one pass starts only nodes whose dependencies are started, and a pass without progress leaves a stuck list |
| `StartOrder.StartAll` | adapter/outbound/manager.go:99-171 | the start succeeds if and only if tags are distinct, dependencies are all listed, no dependency cycle exists and every single start succeeds, each node then started exactly once, after its dependencies; otherwise a start failed, or all that can be started was and either that is every tag, some repeated, or the first node left is diagnosed; if all starts succeed, the list alone decides which |
| `StartOrder.StuckStartedAll` | adapter/outbound/manager.go:103-145 | when no pass makes progress, exactly the tags that some sequence of starts can reach have been started, whatever the order of the list |
| `StartOrder.CompleteStart` | adapter/outbound/manager.go:99-145 | a complete start is possible only for a well-formed graph, and then the log holds every node |
| `StartOrder.CompleteStartHasNoCycle` | adapter/outbound/manager.go:99-145 | a log in which dependencies come first rules out any cycle |
| `StartOrder.StuckHasReason` | adapter/outbound/manager.go:137-145 | a list that makes no progress misses a dependency or holds a cycle |
| `StartOrder.LintOutcome` | dns/transport_manager.go:127-143 | the diagnoser always ends, in one of its two reports |
| `StartOrder.ProblemIsFirst` | adapter/outbound/manager.go:154-156 | the diagnosis follows the first dependency that is not started |
| `StartOrder.LintIsTruthful` | dns/transport_manager.go:124-143 | read from any registry of listed nodes, a circular report prints a real dependency path that runs into itself, a not-found report names a real dependency that is neither started nor registered |
| `StartOrder.ReportIsFalseExactly` | dns/transport_manager.go:124-143 | a report names a tag the list does carry if and only if following first unstarted dependencies from the first unstarted node leaves the registry at a node of the list, which a full tag map rules out |
| `StartOrder.StartTransports` | dns/transport_manager.go:90-146 | the first unstarted transport is diagnosed and every report is true |
| `StartOrder.StartOutbounds` | adapter/outbound/manager.go:81 | the first unstarted node is diagnosed, every report names a real dependency path or dependency, and it is false if and only if following first unstarted dependencies from that node through outbounds ends at an endpoint |
| `StartOrder.StartFallback` | adapter/outbound/manager.go:69-81 | beside any endpoints, with any dependencies and outcomes, the fallback outbound makes the start dereference nil if and only if an endpoint carries its tag and the list without it is well-formed; otherwise the start succeeds if and only if the whole list is well-formed |
| `StartOrder.EndpointReportedMissing` | adapter/outbound/manager.go:99-171 | a start of two nodes that reports an existing endpoint as missing |
| `OutboundRegistry.Manager.constructor` | adapter/outbound/manager.go:38-47 | a new manager satisfies the registry invariant |
| `OutboundRegistry.Manager.Create` | adapter/outbound/manager.go:267-317 | registers or replaces one outbound, whatever its dependencies, at the end of the list, records its dependencies, may become the default; a failure changes nothing; list and map stay in bijection and a complete index stays complete |
| `OutboundRegistry.Manager.Remove` | adapter/outbound/manager.go:223-265 | takes the outbound out of list and map even when it then refuses, updates the index only when it does not refuse, promotes the first remaining outbound; the index stays complete unless a dependency repeats in the one way that loses an entry |
| `OutboundRegistry.Manager.StartDefault` | adapter/outbound/manager.go:53-78 | keeps the default there is, else takes the named endpoint, else the fallback, which is then the whole registry; fails exactly when that leaves no default |
| `OutboundRegistry.RecordGrows` | adapter/outbound/manager.go:304-307 | recording loses no dependent and adds the new tag under each of its dependencies |
| `OutboundRegistry.RecordAt` | adapter/outbound/manager.go:304-307 | recording appends the tag under each dependency, once for every time it is listed, and nowhere else |
| `OutboundRegistry.ForgetKeepsOthers` | adapter/outbound/manager.go:251-258 | with duplicate-free dependencies removal takes out the removed tag and nothing else |
| `OutboundRegistry.ForgetKeepsOthersExactly` | adapter/outbound/manager.go:251-258 | for any dependency list, removal keeps other outbounds' entries if and only if no dependency repeats while listing one other outbound |
| `OutboundRegistry.RecordKeepsIndexed` | adapter/outbound/manager.go:304-307 | after recording, every registered outbound is listed under each of its dependencies |
| `OutboundRegistry.ForgetKeepsIndexed` | adapter/outbound/manager.go:251-258 | removal keeps the index complete whenever it loses no other outbound's entry, which is known exactly |
| `OutboundRegistry.NoLoneRepeatOf` | adapter/outbound/manager.go:251-258 | outbounds that repeat no dependency are removed without loss |
| `OutboundRegistry.RepeatedDependencyLosesEntry` | adapter/outbound/manager.go:251-258 | two outbounds, one of which repeats a dependency, whose removal loses the entry of the other |
| `OutboundRegistry.RemovalLosesEntry` | adapter/outbound/manager.go:223-317 | two creations and a removal that all go through leave a registered outbound unlisted under its dependency |
| `OutboundRegistry.BijectionAdd` | adapter/outbound/manager.go:302-303 | registering an unused tag keeps list and map in bijection |
| `OutboundRegistry.BijectionRemove` | adapter/outbound/manager.go:230-238 | unregistering keeps list and map in bijection |
| `OutboundRegistry.IndexedShrinks` | adapter/outbound/manager.go:239-250 | an empty index entry means that no remaining outbound depends on the tag |
| `TransportRegistry.TransportManager.Create` | dns/transport_manager.go:245-300 | registers a transport; the default never becomes a FakeIP transport, which is refused but stays registered; only the first FakeIP transport that is not refused is kept as such |
| `TransportRegistry.TransportManager.StartDefault` | dns/transport_manager.go:52-76 | starting keeps an existing default, else registers the fallback if no default is named; it leaves a default exactly when it succeeds, never a FakeIP one, and touches nothing else |
| `TransportRegistry.TransportManager.RunLookup` | dns/router.go:374-409 | in every manager state reached by creating and starting, no lookup consults a FakeIP transport at any retry |
| `DnsRouter.MatchDNS` | dns/router.go:120-208 | the resumable scan selects what the specification of one scan says, from the rule after the index given; what the rules then make of a query is said by their fields below |
| `DnsRouter.ScanArrives` | dns/router.go:129-207 | the scan stops at the first rule that tries a transport or ends the query, with the options of the rules passed |
| `DnsRouter.Resolve` | dns/router.go:255-307 | the retry loop ends as the first deciding rule of a single pass says and calls the client exactly at the places up to there that try something, in their order, at most once per rule and once for the default |
| `DnsRouter.RefusalEndsQuery` | dns/router.go:255-307 | an applicable rule that predefines or rejects (an exchange's reply method excepted) ends the query at the latest: the client is called for no rule or default from there on, and if nothing earlier decided that rule is the outcome |
| `DnsRouter.SettledByRule` | dns/router.go:266-281 | a query that ends without a client's answer ends at an applicable rule that predefines or so rejects |
| `DnsRouter.ReplyRejectAsksNobody` | dns/router.go:266-278 | an exchange that comes to a rejection by reply calls the client without any transport |
| `DnsRouter.RouteIsTried` | dns/router.go:129-167 | an applicable rule that routes to a registered and permitted transport is tried on that transport unless an earlier rule decided |
| `DnsRouter.NothingElseIsTried` | dns/router.go:255-307 | every call of the client comes from an applicable rule routing to that registered, permitted transport, from the reply rejection, or is the default's |
| `DnsRouter.GoesOnExactly` | dns/router.go:255-307 | a call is the last unless its rule is limited to addresses and the reply was a rejection or, in a lookup, any failure |
| `DnsRouter.LastSetterWins` | dns/router.go:168-185 | of several route-options rules on the way each option is that of the last one setting it |
| `DnsRouter.UnsetStaysUnset` | dns/router.go:168-185 | an option that no route-options rule on the way sets is not set |
| `DnsRouter.LookupAvoidsFakeIP` | dns/router.go:129-180 | no attempt of a lookup goes to a FakeIP transport, whatever the rules name |
| `DnsRouter.AttemptsForgetOptions` | dns/router.go:261-288 | every attempt uses exactly the options set by the rules passed since the last rule that was tried |
| `DnsRouter.RetryDropsOptionsExactly` | dns/router.go:261-288 | the attempt is the one all rules passed ask for if and only if each field set before the last retry is set again later or ends up the same without it |
| `DnsRouter.DroppedOptionExample` | dns/router.go:376-404 | a router whose second attempt uses the cache although a rule on the way turned it off |
| `SingleFlight.StepKeepsInv` | dns/client.go:143-172 | every step of every caller keeps the lock table, the owners and the closed channels consistent |
| `SingleFlight.RunKeepsInv` | dns/client.go:143-172 | so does every interleaving of any number of calls |
| `SingleFlight.OneLeader` | dns/client.go:145-158 | at most one leader per question |
| `SingleFlight.LeaderDeletesItsOwn` | dns/client.go:153-156 | a leader deletes the entry it stored itself and no other, although it deletes by question |
| `SingleFlight.CloseHitsOpenChannel` | dns/client.go:153-156 | no channel is closed twice |
| `SingleFlight.WaiterIsServed` | dns/client.go:146-151 | a waiter's channel is closed or still owned by a caller of the same question |
| `SingleFlight.PhaseTellsHistory` | dns/client.go:143-172 | a caller leads if it found no entry on entering and waits on the one it found; it goes on without the lock only after that channel was closed, and finishes only by closing its own channel, leaving or giving up |
| `SingleFlight.NobodyIsStuck` | dns/client.go:143-172 | until every call finished some step other than a cancellation is possible |
| `SingleFlight.RunIsShort` | dns/client.go:143-172 | no run takes more than three steps per call |
| `SingleFlight.EveryRunServesEverybody` | dns/client.go:143-172 | a finished run has finished every call, emptied the table and closed every stored channel exactly once |
| `DnsCache.ExtractNegativeTTL` | dns/client.go:98-110 | the first SOA record's TTL or minimum, whichever is smaller, as section 5 of RFC 2308 asks |
| `DnsCache.SmallestIsSmallest` | dns/client.go:283-291 | the running comparison yields the smallest positive TTL of all sections, or zero when there is none |
| `DnsCache.ChooseTTL` | dns/client.go:277-294 | the rewrite value if set, else for an empty answer the nonzero negative TTL, else the smallest positive TTL; no other value would do |
| `DnsCache.LifetimeIsUnique` | dns/client.go:277-294 | these rules fix one value |
| `DnsCache.OriginIsSmallest` | dns/client.go:486-493 | the origin TTL a hit computes is the smallest positive TTL of the kept message |
| `DnsCache.KeptExtra` | dns/client.go:295-313 | the kept additional section has the chosen TTL throughout, except for an OPT record that the clean-up re-added |
| `DnsCache.SubtractionIsExact` | dns/client.go:499-506 | with no more than the origin TTL left, the two 32-bit subtractions do not wrap and give the time left |
| `DnsCache.UniformHit` | dns/client.go:486-512 | with one TTL on all records a hit shows the seconds left on every record |
| `DnsCache.HitShowsTimeLeft` | dns/client.go:443-515 | a hit shows the seconds left on all records but OPT if and only if no OPT record with the DO bit was re-added (or nothing but OPT records exists); else it shows exactly the wrapped value |
| `DnsCache.OversizedTTL` | dns/client.go:304-313 | a record of 98304 seconds that a hit shows at once with 163840 |
| `DnsCache.Client.Complete` | dns/client.go:277-313 | gives the response its TTL, stores it under its question (and transport, when kept apart) exactly when it may and the TTL is not zero, leaving all other entries, cleans it up, and keeps every entry true to the latest deposit for its question |
| `DnsCache.Client.LoadResponse` | dns/client.go:443-515 | there is a hit exactly when something was stored for this question (from this transport, when kept apart) and the latest such deposit has not expired; it is a fresh copy of that deposit showing the whole seconds left; neither the rest of the cache nor the kept messages change |
| `DnsCache.RecallsStored` | dns/client.go:378-401 | storing an answer makes it the one recalled for its own question and transport and disturbs no other |
| `DnsCache.LatestIsLast` | dns/client.go:378-401 | the latest deposit for a question is the last one stored for it, from its transport when kept apart |
| `DnsCache.Message.Age` | dns/client.go:486-512 | ageing a copy changes its TTLs as the specification of a hit says |
| `DnsCache.Message.CleanUp` | dns/client.go:304-313 | the clean-up changes the additional section only |
| `DnsCache.ServeRepeatedly` | dns/client.go:443-515 | any number of hits each show the time left of the latest deposit for the question at their own moment: hits do not compound |
| `Geosite.UvarintRoundTrip` | common/geosite/writer.go:66-73 | an unsigned varint below 2^64 reads back, wherever it sits |
| `Geosite.UvarintFits` | common/geosite/reader.go:67-70 | whatever the bytes, a value that is read is below 2^64 |
| `Geosite.MetadataInside` | common/geosite/reader.go:57-101 | whatever the file, a table is read only behind version zero, only from the bytes that are there, and has no more entries than these |
| `Geosite.StringRoundTrip` | common/geosite/reader.go:145-158 | a length-prefixed string reads back |
| `Geosite.ItemsRoundTrip` | common/geosite/reader.go:113-124 | a run of items reads back |
| `Geosite.TableRoundTrip` | common/geosite/reader.go:74-95 | the table of codes, offsets and counts reads back |
| `Geosite.ContentAtOffset` | common/geosite/writer.go:18-38 | the recorded offset of a code is where its items are |
| `Geosite.MetadataRoundTrip` | common/geosite/reader.go:57-101 | the reader finds the whole table and the exact start of the content area |
| `Geosite.TableKeys` | common/geosite/reader.go:44-48 | the codes listed are exactly the codes written |
| `Geosite.CodeRoundTrip` | common/geosite/reader.go:103-126 | looking up a written code yields its items |
| `Geosite.FileRoundTrip` | common/geosite/reader.go:36-126 | a written file below 2^63 bytes opens to a table through which every code serves its items and no other code is found |
| `Geosite.WriteContent` | common/geosite/writer.go:17-38 | lays out all items and records where each code begins |
| `Geosite.Write` | common/geosite/writer.go:10-64 | the whole file is version, table and content in ascending order of the codes |
| `Geosite.FileIsDetermined` | common/geosite/writer.go:11-15 | a database has one file: its bytes do not depend on how the map iteration collects the codes |
| `Geosite.BufferedReader.ReadUvarint` | common/geosite/reader.go:67-70 | reads what the grammar says at the logical position, whatever chunks the buffer was filled with, errors included |
| `Geosite.BufferedReader.ReadString` | common/geosite/reader.go:145-158 | the same for strings |
| `Geosite.Reader.ReadMetadata` | common/geosite/reader.go:57-101 | fills the two maps and the content offset, independently of how far the buffer read ahead; an error leaves them alone |
| `Geosite.Reader.Read` | common/geosite/reader.go:103-126 | the answer depends on the code alone, not on earlier reads |
| `Geosite.WriteThenRead` | common/geosite/geosite_test.go:12-34 | writing any database whose file, codes ascending, is below 2^63 bytes and reading any codes in any order with repetition returns exactly the codes and items written |
| `ClientHello.Fingerprint.ParseSegment` | common/ja3/parser.go:53-83 | fills the fingerprint as the parse function says, for every segment; after an error exactly the version and cipher suites that were reached are set |
| `ClientHello.Fingerprint.ReadHandshake` | common/ja3/parser.go:85-153 | the same for the handshake body |
| `ClientHello.Fingerprint.ReadExtensions` | common/ja3/parser.go:155-289 | the same for the extension loop; an error keeps the fields as they were |
| `ClientHello.ReadTrusting` | common/ja3/parser.go:265-281 | the loops that trust an inner length panic exactly when it reaches past the data |
| `ClientHello.BodyRoundTrip` | common/ja3/parser.go:189-285 | each kind of extension body reads back |
| `ClientHello.WalkRoundTrip` | common/ja3/parser.go:155-289 | the extension loop reads back any list of well-formed extensions in order |
| `ClientHello.HandshakeRoundTrip` | common/ja3/parser.go:85-153 | version, cipher suites and extension block read back from the handshake of section 4.1.2 of RFC 8446 |
| `ClientHello.SupportedVersionsAre` | common/ja3/parser.go:66-71 | the versions accepted are exactly SSL 3.0 to TLS 1.3 |
| `ClientHello.ParseRoundTrip` | common/ja3/parser.go:53-289 | parsing the wire form of any well-formed ClientHello, whatever follows it, gives back what was sent |
| `ClientHello.SummaryOrder` | common/ja3/parser.go:168-187 | the extension order is kept |
| `ClientHello.SummaryIsFaithful` | common/ja3/parser.go:189-285 | with one extension of each type, every field equals what that extension carried |
| `ClientHello.ParseIsFaithful` | common/ja3/parser.go:53-289 | parsing any well-formed ClientHello with at most one extension of each type gives back every field exactly as sent, and empty fields where nothing was sent |
| `ClientHello.BodyAcceptsExactly` | common/ja3/parser.go:189-285 | an extension body is accepted if and only if its inner lengths are those of what they announce (for versions and signature algorithms: do not overrun it) |
| `ClientHello.WalkAcceptsExactly` | common/ja3/parser.go:155-289 | the extension loop accepts exactly the blocks that are a list of extensions of the form their types ask for, with nothing between or after them |
| `ClientHello.ParseAcceptsExactly` | common/ja3/parser.go:53-289 | the parser accepts exactly the segments that are a handshake record holding a ClientHello whose lengths are those of what they announce, except that the outer length of a server name is not read and that of the extension block may fall short; anything may follow |
| `ClientHello.WalkPanicsExactly` | common/ja3/parser.go:262-285 | the loop panics if and only if it meets an extension whose inner length overruns its data |
| `ClientHello.ParsePanicsExactly` | common/ja3/parser.go:53-289 | the parser panics if and only if record and handshake are accepted and the extension block meets such an extension |
| `ClientHello.OverrunExample` | common/ja3/parser.go:262-269 | one segment on which it panics |
| `ClientHello.AdvanceNeverWraps` | common/ja3/parser.go:286-287 | the 16-bit sum that advances the loop never wraps within a record |
| `RuleMatch.OptionsCompose` | route/route.go:500-548 | applying the options of two rules in turn is applying their combination, the later over the earlier, if and only if the connection had a destination to begin with or the rules do not both override it |
| `RuleMatch.PreparedSettles` | route/route.go:440-463 | preparing fails exactly for a FakeIP address without a record; else no FakeIP address with a name reaches the rules, which see the name at the same port |
| `RuleMatch.PreparedKeepsTheRest` | route/route.go:410-467 | preparing never replaces what was known and changes nothing but what it settles |
| `RuleMatch.PreparedFills` | route/route.go:410-467 | the process, the remembered domain and the version come from their lookups, and only a FakeIP address that gave way is marked |
| `RuleMatch.InboundContext.MatchRule` | route/route.go:403-592 | the loop over the rules selects, rewrites, buffers and fails as the walk says, in both modes |
| `RuleMatch.SelectsFirstFinal` | route/route.go:469-590 | a rule is selected if and only if no earlier rule ended the walk, it matches the metadata as rewritten so far, and it routes, rejects, hijacks, bypasses (to an outbound, or where bypass is supported) or sniffs a TCP or UDP connection in a pre-match |
| `RuleMatch.NeverPassesAnEnd` | route/route.go:469-590 | a match that comes to a matching rule of such a kind is never carried past it, and no later failure hides it |
| `RuleMatch.NothingSelectedMeansNoEnd` | route/route.go:469-590 | a match that ends at no rule and without failure met no matching rule of such a kind |
| `RuleMatch.EffectByKind` | route/route.go:494-572 | what each kind of action does to the metadata, the buffers and the failure |
| `RuleMatch.OverrideReplaces` | route/route.go:500-520 | an override replaces host and port independently of each other, and a new host drops the resolved addresses |
| `RuleMatch.WalksAgree` | route/route.go:469-590 | from any rule on, the two modes agree exactly when the pre-match does not stop at a deferring rule |
| `RuleMatch.ModesAgree` | route/route.go:403-592 | for TCP and UDP, full match and pre-match end at the same rule with the same metadata and failure if and only if the pre-match did not stop at a sniff or an outbound-less bypass |
| `RuleMatch.WithoutBypassOnlySniffDefers` | route/route.go:580-590 | where bypass is not supported, only a sniff rule can make the modes differ |
| `RuleMatch.WalkRemembers` | route/route.go:500-520 | in both modes, under sniffers that do not move it unrecorded, a destination changed by rules comes with the first destination recorded beside it |
| `RuleMatch.WalkRemembersExactly` | route/route.go:466-592 | in both modes, the destination a connection came with is kept or recorded if and only if one was recorded before or the first overriding rule on the walk (or its end) still sees it |
| `RuleMatch.SniffedDestinationIsNotRecorded` | route/route.go:594-789 | a sniffer that overrides the destination leaves no record of the first one |
| `ConnectionLifecycle.StepKeepsInv` | route/conn.go:93-140 | every step of caller and copies keeps flag, handler calls and closed ends consistent |
| `ConnectionLifecycle.RunKeepsInv` | route/conn.go:93-140 | so does every interleaving |
| `ConnectionLifecycle.HandlerWaitsForBothCopies` | route/conn.go:271-276 | the close handler never runs twice and, once copies run, only after both have ended |
| `ConnectionLifecycle.HalfCloseKeepsOpen` | route/conn.go:259-270 | after launch no end is closed until a copy fails, cannot half-close its destination, or both are through |
| `ConnectionLifecycle.ClosedExactly` | route/conn.go:93-140 | at every moment an end is closed if and only if an event so far closes it: an error path, the second copy to finish, a failed copy or half-close (both ends), or a copy to an end that cannot half-close (that end) |
| `ConnectionLifecycle.LaunchedExactly` | route/conn.go:102-139 | the copies run if and only if the dial, its report and both write handshakes went well or were tolerated |
| `ConnectionLifecycle.RunIsShort` | route/conn.go:93-140 | a connection takes at most twenty steps, copying counted as one |
| `ConnectionLifecycle.NobodyIsStuck` | route/conn.go:93-140 | until the connection is over some step is possible |
| `ConnectionLifecycle.EveryRunClosesOnce` | route/conn.go:93-140 | for every outcome of dial, report and kicks and every interleaving of the copies, the handler has run exactly once and every open end is closed |
| `ConnectionLifecycle.ConnectionManager.TrackConn` | route/conn.go:71-80 | a tracked connection joins the end of the list |
| `ConnectionLifecycle.ConnectionManager.CloseTracked` | route/conn.go:381-386 | closing it takes its own cell out of the list, if still there, and no other |
| `ConnectionLifecycle.ConnectionManager.CloseAll` | route/conn.go:51-64 | empties the list and leaves no connection open that was ever tracked |

## Left out

Of the repository:

- Interface selection (common/dialer/default_parallel_interface.go:185): filters that only build the candidate lists of the race.
- The reset of the fast-fallback history by the network monitor: it changes which variant of the race is taken, and both are covered.
- The explicit-transport path of DNS Exchange and Lookup (dns/router.go:239-254, dns/router.go:353-373): it makes one attempt.
- DNS reply parsing, address sorting, rejected-response cache, client subnet and the error text of Lookup.
- A caller of the DNS client that re-enters the same question from inside its own exchange: calls are independent of each other here.
- Which requests and replies may use the cache (dns/client.go:134-142, dns/client.go:239): a parameter here, since the statements hold either way.
- Capacity of the response cache: a full cache may drop any entry, so statements about hits speak of entries still there.
- The second cache keyed by transport is the same cache under a longer key; the two are never in use together.
- TransportManager.Remove and the reverse index of the transport manager: its default promotion has no clean statement.
- NewPacketConnection: one of its error paths returns without running the close handler.
- Sniffing (route/route.go:594-789): an arbitrary function of the rule and the metadata, with the data it read.
- The rule cache fields of the metadata: reset before each rule, so a match is a function of the rest.
- marshalJA3: its filter keeps only GREASE values, against its evident intent.
- Configuration, generated code, command line, logging, operating system calls: wiring without logic of this kind.
- Operations on the connection list concurrent with CloseAll: it lets go of the lock before it closes, so a connection tracked meanwhile stays open.

Contracts stated weaker than they could be read:

- Geosite.Reader.ReadMetadata: reserving memory for the announced number of entries always succeeds here.
- OutboundRegistry.Manager.Create: replacing an outbound leaves its old index entries, and may leave it as default, as the original does; the in-place shift of the list's backing array is a new sequence here.
- DnsCache.Client.LoadResponse: whole seconds are exact; the original rounds through a floating-point number of seconds, which can differ below a microsecond before a full second.
- DnsCache.Client.Complete: the response is an object of its own, which nobody changes while the cache holds it; the original relies on that too.
- DnsCache.HitShowsTimeLeft: how version, DO bit and a new OPT record sit in the TTL field follows section 6.1.3 of RFC 6891; the DNS message library is not part of this model.
- ConnectionStream.TickShowsLiveTable: says nothing of a connection that is in both first listings and live again later, which the traffic manager never makes.
- DnsRouter.Resolve: matching is a function of the query and the rule, and a reject action refuses or drops.
- ConnectionLifecycle.EveryRunClosesOnce: the handshake-failure helper of the network library is taken to close the connection and run the handler once; closing both ends counts as one step.
- RuleMatch.WalkRemembersExactly: sniffing is taken not to touch the recorded destination, which only the rule loop writes, and to leave a destination valid, as the names it puts there are.
- RuleMatch.ModesAgree: matching and resolving are functions of the rule and the metadata, the same in both modes.
