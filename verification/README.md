# Border in Dafny

Border is a DNS server and load balancer that heals itself. Health checks prune and revive the
addresses that DNS answers are made of, a balancer spreads connections over backends, peers elect a
publisher by uptime, a control server hands out one-time nonces, and the configuration is saved and
reloaded while it runs. This project models those five parts and proves what they promise over whole
runs, for every interleaving and every map iteration order.

`dafny verify dfyconfig.toml` checks all of it.

## How it is built

- `CheckTrace`, `RunChecks`, `HealthRuns`, `HealthChecker`, `Launcher`: the health checker. A tick runs one
  goroutine per check. Each takes three atomic steps (observe the outcome, run the action, settle the flag),
  and a schedule decides who moves next. Ticks do not overlap, because a tick waits for its goroutines.
- `DnsConfig`, `DnsServer`, `Healing`: records, zone search, replies, and the path from check outcomes to answers.
- `Balancer`: the TCP balancer as steps of one forwarder and of closing connections.
- `Peers`, `ElectionRound`: the peer list, and one election round with its split removals.
- `PeerHealth`, `PeerRuns`, `PeerElections`, `PeerExamples`, `Voting`: a tick of the peer health checks, whose actions change the
  list and hold elections at the same time and beside the election of the launch, what ticks and runs do to
  failed peers, what their elections publish, and the objects that do it.
- `Nonces`: the nonce table and its sweeper.
- `Names`, `Zones`, `Configuration`: trailing dots, saving, loading, and the configuration object.

Objects that the program updates in place are classes. Their methods are proved against functions on
values, and the results about runs are lemmas about those functions. Modules that run concurrently
describe one atomic step by `Step` or `Apply` and a whole run by `Run`, for peers by `RunMoves` and `Play`.

## Assumptions

- An IP address is its text form, which is what the closures compare.
- Each closure's change to an A record's list is one atomic step, although the code takes no lock for it.
- A validation checks a nonce in one atomic step and removes it in a later one. The write that issues a nonce
  is one step and may overwrite an entry. The sweeper reads an entry, looks at the clock, and deletes, in
  three steps.
- One checker runs both the peer checks and the A record checks. They share no state, so each kind is
  modelled by itself.
- The peer actions of a tick run at once, and so do the goroutines of their elections: a removal's read and
  its write, an append, the list an election starts from, each removal it makes, its look-up of the winner
  and the publication are separate atomic steps. The election of the launch is one more such closure, which
  may begin and end in any tick.
- Probes, dials, uptimes, random reads, file system results, schedules and the order of every range over
  a map are arbitrary parameters. The clock never goes backwards.
- The codecs are the identity on exported fields, and parsing a literal is an arbitrary deterministic function.
- Integers are unbounded.

The repository's README says that a vote should give a clear winner. A peer that booted before the voters
ask is elected by every voter that reaches it if and only if it booted, by more than the time over which
voters sample uptimes, before every other peer of the round (`OldestWinsIff`).

## Where the code falls short of a promise

Each of these is proved as an if-and-only-if, with an example.

- A record's list holds exactly its healthy addresses after every run if and only if no two checks share an
  address. A second health check lists an address again while the first has it down (`HealingIff`,
  `ListedIffHealthyIff`, `RelistedExample`).
- A tick's effect depends on the schedule exactly when one check prunes an address that another revives
  (`TickScheduleIndependentIff`, `ConflictExample`).
- A tick of the peer checks may leave a failed peer listed exactly when the failed action of a peer that is
  not out yet fires together with another action, or beside a launch election that can still write that peer
  back (one that cannot is tame). That peer can then be elected. A schedule that runs list changes and elections one at a time always
  drops it (`TickDropsFailedIff`, `OneAtATimeDropsFailed`, `FailedPeerElectedExample`).
- A round may leave an unreachable peer listed exactly when two of different names are unreachable
  (`AllUnreachableGoneIff`, `LostRemovalExample`).
- A round may drop a peer that answered exactly when an unreachable entry has the same name. One failed
  check and a success list a peer twice, which is how that comes about (`KeepsRespondersIff`,
  `ResponderDroppedExample`).
- A round without a positive uptime elects somebody in some schedule exactly when a peer with the empty name
  can stay listed, since a vote that found nobody looks up the empty name (`VoteFailsIff`,
  `EmptyNameElectedExample`).
- The zone found is the nearest ancestor exactly when every zone that encloses the name, in any case, has one
  below the root that encloses it as spelled and is no shorter. Keys are compared letter by letter and the
  root is never looked for (`NearestAncestorIff`, `CaseExample`, `RootZoneExample`).
- The least-loaded pick fails for some order exactly when a backend with an empty name wins a tie
  (`PickBestIff`, `UnnamedExample`), and so does finding no backend only when all are full (`SaturatedIff`).
- Connections spread unevenly exactly when there is an unnamed backend, two named ones and room for two
  connections on each (`SpreadIff`, `UnevenRun`).
- Save and reload change a zone exactly when a name ends in two dots (`SaveLoadRestoresIff`, `RestoreExample`).
- From the first trim of a save until a relaunch, the DNS server answers a query, other than for SOA or NS,
  exactly when it reaches a record named like the query with one more dot. All qualified names are lost if
  none ends in two dots (`TrimmedServerAnswersIff`, `TrimmedLosesRecord`).
- A nonce that was accepted is accepted again exactly while no validation has removed it: validations that
  overlap all succeed (`AcceptedAgainIff`, `OverlapExample`).
- The sweeper deletes a valid nonce exactly when the nonce is issued again while the sweeper holds an older
  entry of it (`TransparentAfterIssueIff`, `CarelessExample`).

## Model

| member | source | states |
|---|---|---|
| CheckTrace.TraceForm | pkg/healthcheck/healthcheck.go:126-164 | after any history the counter is the trailing failure streak, and the flag holds iff the streak is at least max(1, threshold) |
| CheckTrace.ActionTrace | pkg/healthcheck/healthcheck.go:132-154 | the failed action runs exactly when the streak reaches the limit, the revive action exactly on a success right after a failure |
| RunChecks.TickLocals | pkg/healthcheck/healthcheck.go:120-170 | under every complete schedule each check ends as if it had run alone |
| RunChecks.WithoutConcat | pkg/launcher/launcher.go:337-349 | what a prune leaves of a list is what it leaves of its parts, in order |
| RunChecks.WithoutHead | pkg/launcher/launcher.go:337-349 | an address stays in its place iff it is not the target |
| RunChecks.WithoutCopies | pkg/launcher/launcher.go:337-349 | a prune removes all copies of the target and no copy of another address |
| RunChecks.TickTally | pkg/launcher/launcher.go:337-355 | with no conflict on an address, a tick leaves zero copies if someone pruned it and otherwise one more per reviving check, whatever the schedule |
| RunChecks.RunLast | pkg/healthcheck/healthcheck.go:120-170 | any firing check can be scheduled last, and then its target is listed iff it revived, at the end of the list |
| RunChecks.TickScheduleIndependentIff | pkg/healthcheck/healthcheck.go:120-170 | all complete schedules agree on counters, flags and address multisets iff no address is both pruned and revived in the tick |
| HealthRuns.ConflictExample | pkg/healthcheck/healthcheck.go:120-170 | a reachable state with two checks on one address, and a tick that ends with the address listed under one schedule and not under another |
| HealthRuns.RunTraceForm | pkg/healthcheck/healthcheck.go:120-170 | the trace form holds for every check after any number of ticks under any schedules |
| HealthRuns.NoHealthyAddressLost | pkg/launcher/launcher.go:321-357 | in every reachable state, also mid-tick and with any number of checks, a configured address is listed unless one of its checks is failed or has just pruned it |
| HealthRuns.HealthyAddressServed | pkg/launcher/launcher.go:321-357 | between ticks an address all of whose checks have a streak below their limit is listed |
| HealthRuns.ExactCopies | pkg/healthcheck/healthcheck.go:132-161 | with one check on an address its copies are 0 while failed, else 1 plus the below-limit recoveries since the start or the last recovery from failed |
| HealthRuns.UncheckedCopies | pkg/launcher/launcher.go:337-355 | an address without checks keeps its copies for ever |
| HealthRuns.UncheckedKeepOrder | pkg/launcher/launcher.go:337-355 | after every run the addresses without checks are listed in the configured order |
| HealthRuns.FailedIsUnlisted | pkg/healthcheck/healthcheck.go:120-170 | while the only check on an address has a streak at its limit, the address is not listed |
| HealthRuns.RelistedWhileFailed | pkg/launcher/launcher.go:337-355 | for any two checks on one address there is a run at whose end one is failed and the address is listed |
| HealthRuns.RelistedExample | pkg/launcher/launcher.go:337-355 | such a run from the start with two checks |
| HealthRuns.ListedIffHealthyIff | pkg/launcher/launcher.go:321-357 | after every run the address is listed iff it is healthy, iff at most one check aims at it |
| HealthChecker.HealthChecker.Init | pkg/healthcheck/healthcheck.go:110-118 | counters at zero, no check failed, the configured addresses |
| HealthChecker.HealthChecker.ObserveOutcome | pkg/healthcheck/healthcheck.go:127-148 | refines the observing step: count a failure and decide whether the action is due |
| HealthChecker.HealthChecker.Prune | pkg/launcher/launcher.go:337-349 | the list without any copy of the target, order kept, other records untouched |
| HealthChecker.HealthChecker.Revive | pkg/launcher/launcher.go:350-355 | the target appended once, other records untouched |
| HealthChecker.HealthChecker.RunAction | pkg/healthcheck/healthcheck.go:137-155 | refines the acting step |
| HealthChecker.HealthChecker.SettleCheck | pkg/healthcheck/healthcheck.go:142-162 | refines the settling step |
| HealthChecker.HealthChecker.RunChecks | pkg/healthcheck/healthcheck.go:120-170 | refines one tick under a given schedule |
| Launcher.MakeCheck | pkg/launcher/launcher.go:323-333 | threshold and timeout come from the template, the target is the address, a given type or name is kept, an empty type becomes ping and an empty name is the record's name |
| Launcher.BuildRecordChecks | pkg/launcher/launcher.go:321-357 | one check per template and address of an A record, in order |
| Launcher.BuildHealthChecks | pkg/launcher/launcher.go:315-358 | the checks of all A records of all zones, for any order of the zones |
| Launcher.BuiltChecks | pkg/launcher/launcher.go:315-358 | a check is built iff it is some template of some A record aimed at one of that record's addresses |
| Launcher.BuiltCheckCount | pkg/launcher/launcher.go:321-357 | the checks built for an A record are as many as its templates times its addresses |
| Launcher.BuiltCheckAt | pkg/launcher/launcher.go:321-357 | they are ordered by template and then by address, each made from its template and aimed at its address |
| Launcher.BuiltChecksAreSoleIff | pkg/launcher/launcher.go:321-357 | no address of a record gets two checks iff the record has no template, no address, or one template and distinct addresses |
| DnsConfig.ConvertA | pkg/dnsconfig/dnsconfig.go:60-75 | one A answer per address with the queried name and the record's TTL, in order |
| DnsConfig.ConvertNs | pkg/dnsconfig/dnsconfig.go:82-97 | one NS answer per server with the queried name and TTL, in order |
| DnsServer.FindZone | pkg/dnsserver/dnsserver.go:78-90 | returns the zone of the nearest key, or none if there is no key |
| DnsServer.SearchBelowRoot | pkg/dnsserver/dnsserver.go:78-90 | the key found is the longest zone key below the root that encloses the name at a label boundary, and none is found iff none encloses it |
| DnsServer.NearestAncestorIff | pkg/dnsserver/dnsserver.go:78-90 | the zone found is the nearest ancestor in the sense of section 4.3.2, step 2, of RFC 1034, with names compared without regard to case, iff every enclosing key has an enclosing key below the root that is spelled like the name and no shorter |
| DnsServer.RootZoneExample | pkg/dnsserver/dnsserver.go:78-90 | a root zone does not answer for a name below it |
| DnsServer.CaseExample | pkg/dnsserver/dnsserver.go:84-86 | a zone does not answer for its own name spelled in another case |
| DnsServer.SelectKind | pkg/dnsserver/dnsserver.go:126-138 | the balancer answers of the queried type |
| DnsServer.SelectKeepsKind | pkg/dnsserver/dnsserver.go:126-138 | keeps every answer of the type with its multiplicity and nothing else |
| DnsServer.BalancerAnswers | pkg/dnsserver/dnsserver.go:123-138 | a balancer record answers a type A query with one A record per IPv4 listener, in order, with the queried name and its TTL, a type AAAA query likewise per IPv6 listener, and no other type |
| DnsServer.AnswersMatchQuestion | pkg/dnsserver/dnsserver.go:104-143 | every answer has the name and the type asked for, and no type but A, AAAA, NS and SOA is answered |
| DnsServer.FindAnswers | pkg/dnsserver/dnsserver.go:115-143 | the first record of the name decides: all addresses for a type A query, matching addresses for a balancer, nothing otherwise |
| DnsServer.ServeDns | pkg/dnsserver/dnsserver.go:92-160 | answers from the zone found by query type; name error iff there are no answers; authoritative iff there are |
| Healing.AnswersAreAddresses | pkg/dnsserver/dnsserver.go:92-160 | a type A query returns the record's current list, entry by entry |
| Healing.HealingIff | pkg/launcher/launcher.go:321-357 | over all runs a record's list holds exactly its healthy addresses iff the record has no template, no address, or one template and distinct addresses |
| Healing.HealedAnswer | pkg/launcher/launcher.go:321-357 | for such a record, after every run, a type A query returns as a set exactly the configured addresses whose streak is below the limit, and nothing iff none is |
| Healing.HealedReply | pkg/dnsserver/dnsserver.go:92-160 | the reply to that query is a name error iff no address is healthy, and otherwise is authoritative with exactly the healthy ones |
| Healing.HealedAnswerCopies | pkg/launcher/launcher.go:321-357 | how often each checked address is answered |
| Healing.AnswerKeepsHealthy | pkg/dnsserver/dnsserver.go:92-160 | with any number of checks, also mid-tick, the answer holds every address that no check holds down |
| Healing.LoadedIsReady | pkg/config/disk.go:85-102 | what every load yields is what the health checker and the DNS server expect |
| Healing.LoadedZoneAnswers | pkg/config/record.go:86-117 | after a load an NS query is answered with the file's servers, qualified, with the file's TTL or else the minimum TTL, and an SOA query with the file's data and the minimum TTL |
| Healing.LoadedRecordAnswers | pkg/config/record.go:92-113 | and a type A query with the addresses and TTL that the record's literal parses to |
| Healing.LiveSameText | pkg/launcher/launcher.go:337-355 | prunes and revivals leave the text of the zones alone |
| Healing.ReloadUndoesHealingIff | pkg/config/disk.go:64-152 | after every run of the health checker, save and load bring back the configured addresses iff no name ends in two dots |
| Healing.TrimmedServerAnswersIff | pkg/config/record.go:30-53 | once a save has trimmed the zones in place, a query other than SOA or NS gets a name error iff the zone it reaches has no record named like it with one more dot that has something to answer |
| Healing.TrimmedServerAnswersNothing | pkg/config/record.go:30-53 | so with no name ending in two dots, dotted or not, every such query for a qualified name gets a name error |
| Healing.TrimmedLosesRecord | pkg/config/record.go:30-53 | every reachable A record with addresses is answered before and a name error after |
| Balancer.PickBestIff | pkg/lb/lb.go:173-191 | the pick is a least-loaded unsaturated backend for every order iff no unnamed backend wins a tie |
| Balancer.UnnamedExample | pkg/lb/lb.go:173-191 | a pool where an unnamed backend hides a free one |
| Balancer.StepInv | pkg/lb/tcp.go:58-100 | every critical section keeps counts, cap, key sets and the room of the chosen backend |
| Balancer.Accounting | pkg/lb/tcp.go:39-103 | in every reachable state the pool is the configured backends less those whose dial failed, both maps have equal keys, each count is the number of live connections, and none exceeds max(0, maxConns) |
| Balancer.DialFailureBound | pkg/lb/tcp.go:60-80 | dial failures plus remaining backends equal the backends at the start, and no backend comes back |
| Balancer.EmptyPoolDispatchesNothing | pkg/lb/tcp.go:60-100 | from an empty pool no connection is ever dispatched |
| Balancer.AcceptedAreDispatched | pkg/lb/tcp.go:44-100 | in every run the connections accepted are those dispatched plus the one the forwarder is busy with |
| Balancer.DispatchNext | pkg/lb/tcp.go:60-97 | from any state where a named backend has room and no unnamed one wins, one choice in any order and one dial dispatch that connection to a least-loaded backend |
| Balancer.RetryAfterFailure | pkg/lb/tcp.go:73-80 | after a failed dial the same connection is dispatched to another backend with room |
| Balancer.SaturatedIff | pkg/lb/lb.go:173-191 | for every order no backend is found iff the named backends have max(0, maxConns) live connections each, iff no unnamed backend wins a tie |
| Balancer.Spread | pkg/lb/tcp.go:60-80 | from any state with balanced counts, without closes, dials and dial failures keep the counts of named backends within one, if there is no unnamed backend, or at most one named, or at most one connection each |
| Balancer.SpreadIff | pkg/lb/tcp.go:60-80 | from the start and without closes, all runs keep the counts of named backends within one iff there is no unnamed backend, or at most one named, or at most one connection each |
| Balancer.UnevenRun | pkg/lb/lb.go:173-191 | otherwise a run dials one backend twice while another is idle |
| Balancer.Balancer.Init | pkg/lb/lb.go:53-80 | every distinct backend pooled with count zero |
| Balancer.Balancer.GetLowestBalancer | pkg/lb/lb.go:173-191 | computes the pick for any order, and it is the best pick unless an unnamed backend wins a tie |
| Balancer.Balancer.Dial | pkg/lb/tcp.go:66-97 | refines dial success and dial failure, after which the forwarder chooses again for the same connection, and keeps the invariant |
| Balancer.Balancer.DecrementCount | pkg/lb/lb.go:193-201 | refines the close of a connection and keeps the invariant |
| Balancer.Balancer.Forward | pkg/lb/tcp.go:39-103 | refines any run of the forwarder and the closes, and keeps the invariant |
| ElectionRound.OldestIsMaximal | pkg/election/election.go:32-44 | for every order the name chosen has maximal positive uptime, and is empty iff no uptime is positive |
| ElectionRound.RoundKeepsOrder | pkg/election/election.go:61-76 | in every interleaving the list stays an ordered subsequence of the original |
| ElectionRound.RoundKeepsResponders | pkg/config/config.go:132-150 | in every interleaving no responder is dropped if no unreachable peer has its name |
| ElectionRound.KeepsRespondersIff | pkg/config/config.go:132-150 | that condition is exact |
| ElectionRound.RoundReportsUptimes | pkg/election/election.go:47-59 | the table has an entry for every responder and only reported values |
| ElectionRound.VoteElectsOldest | pkg/election/election.go:26-76 | if no unreachable peer has a responder's name and all reports under some name are positive, the vote finds a responder, and every responder's name has a report no larger than one under the winner's; with distinct names the winner's uptime is maximal |
| ElectionRound.WinnerAnswered | pkg/election/election.go:26-45 | in every interleaving and order, a winner whose name is not empty has a positive uptime answered under its name |
| ElectionRound.VoteFailsIff | pkg/election/election.go:37-44 | with no positive uptime, every interleaving and order elects nobody iff no entry has the empty name or those that do are sure to be removed |
| ElectionRound.NobodyElectedExample | pkg/election/election.go:37-44 | two unreachable peers, one of which stays listed, and nobody is elected |
| ElectionRound.EmptyNameElectedExample | pkg/election/election.go:37-44 | a peer with the empty name is elected without a positive uptime |
| ElectionRound.AllUnreachableGoneIff | pkg/config/config.go:132-150 | every interleaving drops all unreachable peers iff all unreachable entries have one name |
| ElectionRound.LostRemovalExample | pkg/config/config.go:132-150 | an interleaving of two removals that loses one |
| ElectionRound.OldestWins | pkg/controlserver/peer_handlers.go:13-17 | a peer older than all of other names by more than the sampling window is elected by every voter that reaches it, also when it is listed twice |
| ElectionRound.OldestWinsIff | pkg/controlserver/peer_handlers.go:13-17 | it is elected in every round sampled in the window, under every schedule and order, iff it booted more than the window before every peer of another name |
| ElectionRound.Agreement | pkg/election/election.go:32-56 | any two such voters agree, for all schedules and orders |
| ElectionRound.RivalWins | pkg/election/election.go:32-44 | a peer that booted within the window of it can be sampled so that the vote does not elect it |
| Voting.Election.Advance | pkg/election/election.go:66-72 | refines one atomic step of one goroutine |
| Voting.Election.GatherUptimes | pkg/election/election.go:61-76 | refines the whole gathering under a given schedule |
| Voting.Election.ChooseOldest | pkg/election/election.go:32-44 | refines the vote for any order of the uptimes; a winner whose name is not empty has a positive uptime on record |
| Voting.HoldElection | pkg/launcher/launcher.go:258-268 | the winner becomes publisher and a failed vote keeps the old one; under the condition of VoteElectsOldest, which distinct names and a positive uptime meet, the publisher is a responder, of maximal uptime if names are distinct; a publisher it sets has answered with a positive uptime unless its name is empty, and with no positive uptime and no empty name it fails |
| Voting.PeerFailed | pkg/launcher/launcher.go:303-306 | undisturbed, drops the peer and elects among the rest; the peer is out and not elected |
| Voting.PeerRevived | pkg/launcher/launcher.go:298-301 | undisturbed, appends the peer and elects; a peer that answers stays unless an unreachable entry has its name |
| Voting.PeerTick.Move | pkg/launcher/launcher.go:298-306 | refines one atomic step of an action on the shared configuration |
| Voting.PeerTick.RunTick | pkg/healthcheck/healthcheck.go:120-170 | refines a whole tick in any interleaving, beside the launch election; failed peers are out of the list if failing peers fire alone or actions run one at a time |
| PeerRuns.MovesClean | pkg/launcher/launcher.go:298-306 | in every interleaving a name that no list holds and no action appends stays out, and is never published unless an election had already chosen it |
| PeerHealth.Finish | pkg/launcher/launcher.go:298-306 | from every state of a tick an action can run to its end whatever the others are doing |
| PeerRuns.LosingTick | pkg/healthcheck/healthcheck.go:120-170 | if another action fires, some interleaving leaves a listed peer listed although its failed action runs |
| PeerRuns.LosingLaunch | pkg/launcher/launcher.go:75-85 | so does a launch election that is under way and not tame |
| PeerRuns.TickDropsFailedIff | pkg/healthcheck/healthcheck.go:120-170 | all interleavings of a tick leave every failed peer out of every list iff each peer that is not out and whose failed action fires does so without another action and beside a tame launch election |
| PeerRuns.OneAtATimeDropsFailed | pkg/healthcheck/healthcheck.go:120-170 | whatever fires together, every schedule that runs list changes and elections one at a time leaves every failed peer out |
| PeerRuns.SerialTick | pkg/healthcheck/healthcheck.go:120-170 | every tick has such a schedule |
| PeerRuns.WrittenStaysOut | pkg/launcher/launcher.go:303-306 | after every prefix of such a tick, once a failing peer's action has written, no list holds the peer then or at the end, and no election that had not chosen it makes it publisher |
| PeerRuns.RunFailedAreOut | pkg/launcher/launcher.go:273-313 | after every run each of whose ticks has its failing peers fire alone or its actions run one at a time, no peer whose check is failed is listed |
| PeerRuns.FailedPeersAreNeverElected | pkg/launcher/launcher.go:298-306 | in the last tick of such a run a peer with three failures in a row is out of all lists from its action's write on, and is not published after it unless already chosen, which it is not if the launch election is over or actions run one at a time |
| PeerElections.PublishedHasAnswered | pkg/launcher/launcher.go:258-268 | in every run and after every prefix of a tick, a publication keeps the publisher if its election has no winner, and otherwise sets one under whose name that election got a positive uptime, unless the name is empty |
| PeerElections.SoloIsElection | pkg/launcher/launcher.go:298-306 | an action that runs by itself changes the list as its outcome asks, then holds one whole election among that list and publishes its winner, and so does the launch election |
| PeerElections.ElectionIsSolo | pkg/launcher/launcher.go:258-268 | conversely every answers, schedule and order of an election can be what such an action or the launch runs through |
| PeerElections.LaunchElects | pkg/launcher/launcher.go:75-85 | every election among the configured peers can be the one of the launch, over after the first tick with its winner as publisher |
| PeerElections.LaunchKeepsItsPlace | pkg/launcher/launcher.go:75-85 | a tick in which the launch election does not move leaves it where it was |
| PeerElections.PublisherLasts | pkg/config/config.go:158-168 | a tick without a publication leaves the publisher of the tick before |
| PeerExamples.FailedPeerElectedExample | pkg/launcher/launcher.go:303-306 | two peers fail three ticks in a row, and one ends up the only listed peer and the publisher |
| PeerExamples.ResponderDroppedExample | pkg/launcher/launcher.go:298-301 | a failure and a success list a peer twice, and an election then drops it although it answered |
| Peers.FindIsFirst | pkg/config/config.go:119-130 | what is found is the first peer of that name, and nothing iff there is none |
| Peers.Without | pkg/config/config.go:132-141 | exactly the peers of other names |
| Peers.WithoutKeepsOrder | pkg/config/config.go:132-141 | in their order |
| Peers.WithoutKeepsCopies | pkg/config/config.go:132-141 | each as often as it was listed |
| Configuration.Config.FindPeer | pkg/config/config.go:119-130 | the first peer of that name |
| Configuration.Config.PeersWithout | pkg/config/config.go:132-142 | the read half of a removal |
| Configuration.Config.RemovePeer | pkg/config/config.go:132-144 | undisturbed, exactly the peers of that name are gone |
| Configuration.Config.AddPeer | pkg/config/config.go:152-156 | the peer appended and found |
| Configuration.Config.SetPublisher | pkg/config/config.go:164-168 | sets the publisher only |
| Configuration.Config.CopyFrom | pkg/config/config.go:109-117 | takes settings, peers and zones, and leaves publisher, chain and reload channel |
| Names.RestoreIff | pkg/config/record.go:17-27 | a dotted name survives trim and decorate iff it does not end in two dots, and otherwise gets shorter |
| Names.TrimTwiceIff | pkg/config/record.go:17-19 | a second trim changes nothing iff the name did not end in two dots |
| Zones.RestoreExample | pkg/config/record.go:17-27 | a loaded zone that save and load do not bring back |
| Configuration.TrimNames | pkg/config/record.go:34-47 | every name of a zone loses one trailing dot |
| Configuration.AddDots | pkg/config/record.go:60-73 | every name of a zone ends in a dot |
| Configuration.Config.TrimZones | pkg/config/record.go:30-53 | refines trimming for any order of the zones |
| Configuration.DecorateZones | pkg/config/record.go:56-79 | refines decorating for any order of the zones |
| Configuration.ConvertZone | pkg/config/record.go:88-113 | TTL default and values from literals, or an error iff a record type is invalid or a literal does not parse |
| Configuration.ConvertLiterals | pkg/config/record.go:86-117 | all zones converted, or an error iff one cannot be, for any order |
| Configuration.PostLoad | pkg/config/disk.go:85-102 | fails iff there is no peer or a zone does not convert; otherwise the zones are dotted and agree with their text |
| Zones.LoadEstablishes | pkg/config/disk.go:85-102 | every load yields dotted names and values equal to what the text converts to |
| Zones.LoadSucceedsIff | pkg/config/record.go:86-117 | a load succeeds iff every record is of kind A or LB and its literal parses |
| Zones.LoadGives | pkg/config/record.go:56-117 | a load leaves under the dotted key of each zone of the file, and nowhere else, a zone made from one with that key: names dotted, NS TTL defaulting to the minimum TTL, values as parsed with that TTL as default |
| Zones.LoadGivesOwn | pkg/config/record.go:56-117 | that is the zone itself if no other zone shares the dotted key |
| Zones.SaveLoadRestoresIff | pkg/config/disk.go:64-152 | after any change of record values, save and load read back the loaded zones exactly iff no name ends in two dots |
| Zones.TrimTwiceSameIff | pkg/config/disk.go:136-152 | the JSON and YAML files hold the same zones iff no name ends in two dots |
| Configuration.Config.Save | pkg/config/disk.go:104-134 | for every file system failure: whether the save succeeds, how far the live zones are trimmed, and that each file is old or completely new |
| Configuration.Config.Reload | pkg/config/config.go:85-107 | settings, peers and zones from the JSON file; a failed reload changes nothing |
| Configuration.Config.SaveAndReload | pkg/controlserver/controlserver.go:201-211 | for any zones: succeeds iff there is a peer, the save succeeds and what it wrote loads; the contents of both files; peers and settings stay, and publisher, chain and reload channel are untouched |
| Configuration.Config.SaveConfig | pkg/controlserver/controlserver.go:201-211 | for zones that still have the text of loaded ones the reload cannot fail, and on success the zones are the loaded ones, and both files agree, iff no name ends in two dots |
| Nonces.SweeperIsTransparent | pkg/controlserver/controlserver.go:107-128 | after every run that never issues a nonce while the sweeper holds an older entry of it, a sweeping server accepts exactly what a server that never sweeps accepts |
| Nonces.TransparentAfterIssueIff | pkg/controlserver/controlserver.go:107-128 | an issue keeps that so in all continuations without further issues iff the sweeper does not hold an older entry of the nonce |
| Nonces.CarelessExample | pkg/controlserver/controlserver.go:116-124 | a run after which the sweeper holds such an entry |
| Nonces.AcceptedIff | pkg/controlserver/controlserver.go:213-223 | a check accepts a nonce only if it was issued, not removed or issued again since, and is at most expireTime old; in the runs above exactly then |
| Nonces.AcceptedOncePerIssue | pkg/controlserver/controlserver.go:213-230 | in every run a nonce that has been removed is accepted again only if it was issued after the removal |
| Nonces.AcceptedTwiceNeedsIssue | pkg/controlserver/controlserver.go:213-230 | in every run, between two accepted checks of a nonce with a removal in between, it was issued again after the removal and within the expiry time |
| Nonces.AcceptedAgainIff | pkg/controlserver/controlserver.go:213-230 | after an acceptance, without a new issue and before it expires, a nonce is accepted again iff it has not been removed yet |
| Nonces.OverlapExample | pkg/controlserver/controlserver.go:213-230 | one issue, two overlapping validations, both accepted |
| Nonces.Server.HandleNonce | pkg/controlserver/handlers.go:13-37 | hands out the first random value not in the table and records the time; a read error leaves the table alone |
| Nonces.Server.CheckNonce | pkg/controlserver/controlserver.go:214-223 | refines the check of a validation and gives the three verdicts |
| Nonces.Server.RemoveNonce | pkg/controlserver/controlserver.go:225-227 | refines the removal under the write lock |
| Nonces.Server.ValidateNonce | pkg/controlserver/controlserver.go:213-230 | undisturbed: the three verdicts, and that only an accepted nonce is removed |
| Nonces.Server.ReadEntry | pkg/controlserver/controlserver.go:116 | refines the sweeper's taking up of an entry, before any lock |
| Nonces.Server.LookAtClock | pkg/controlserver/controlserver.go:117-118 | refines its look at the clock with the value it took up |
| Nonces.Server.DeleteEntry | pkg/controlserver/controlserver.go:119-122 | refines its deletion under the write lock |
| Nonces.Server.ExpireNonces | pkg/controlserver/controlserver.go:116-126 | made of these three steps, one undisturbed pass removes exactly the entries expired when looked at |

## Left out

- Health closures of balancer backends and listeners: they share their loop variables, so which entry is pruned is not a property of the failing one.
- Conversion of balancer listeners to addresses: it can end the process and relies on foreign address parsing; a balancer record here holds the resolved addresses.
- HTTP balancing: the count depends on when the HTTP transport dials.
- Replication of the configuration between peers: it rests on a hash chain library outside the repository.
- Reflection over record literals: a parameter here.
- Encryption, the control client, message types, the command line, TLS and sockets: thin wrappers.
- Peer registration, launch and shutdown order, connection timeouts: operational.
- The reload channel's capacity and the temporary files of a save: only the final files are modelled.
- Escaped dots in domain names: the label splitter of the DNS library is modelled for names without them.
- Nonces.Server.CheckNonce: the look-up and the look at the clock are one step, while the program lets time pass between them, so a nonce removed or expiring in that moment is judged as at the look-up.
- Nonces.Server.ExpireNonces: states one undisturbed pass; passes that issues and validations come between are runs of its three steps, which `Nonces.SweeperIsTransparent` and `Nonces.TransparentAfterIssueIff` are about.
- An election whose list changes between counting its peers and starting their goroutines, which makes the wait group hang or panic: an election reads the list once here.
- Go's runtime stopping a process that ranges over a map while it is written: the sweeper's range is a sequence of reads here.
- Configuration.Config.TrimZones: trims copies of the zones, while the program changes zones that the running DNS server shares; what that server then answers is `Healing.TrimmedServerAnswersNothing`.
- Nonces.Server.HandleNonce: the endless loop is given a finite sequence of random reads, so that it never ends is the outcome StillLooking.
- Balancer.Balancer.Forward: the endless loop is given as a finite sequence of steps of any length.
