/** The election object, which gathers uptimes and votes, and the launcher's use of it. */
module Voting {
  import opened Basics
  import opened Peers
  import opened ElectionRound
  import opened Configuration
  import opened CheckTrace
  import opened PeerHealth
  import opened PeerRuns

  /** The name with the largest positive uptime, in any order of the map. */
  method OldestOf(order: seq<string>, uptimes: map<string, int>) returns (name: string)
    requires Enumerates(order, uptimes.Keys)
    ensures name == Oldest(order, uptimes).0
  {
    var oldestUptime := 0;
    name := "";
    for k := 0 to |order|
      invariant (name, oldestUptime) == Oldest(order[..k], uptimes)
    {
      assert order[..k + 1][..k] == order[..k];
      if uptimes[order[k]] > oldestUptime {
        name, oldestUptime := order[k], uptimes[order[k]];
      }
    }
    assert order[..|order|] == order;
  }

  class Election {
    const config: Config
    var uptimes: map<string, int>
    var stages: seq<Stage>

    ghost function View(): State
      reads this, config
    {
      State(config.peers, uptimes, stages)
    }

    constructor (c: Config)
      ensures config == c && View() == Start(c.peers)
    {
      config := c;
      uptimes := map[];
      stages := seq(|c.peers|, _ => Asking);
    }

    /** The next atomic step of the goroutine that asks peer i. */
    method Advance(round: seq<Peer>, answers: seq<Answer>, i: nat)
      requires Fits(round, answers, View()) && i < |round|
      modifies this, config`peers
      ensures View() == Step(round, answers, old(View()), i)
    {
      match stages[i]
      case Asking =>
        if answers[i].Uptime? {
          uptimes := uptimes[round[i].name := answers[i].d];
          stages := stages[i := Done];
        } else {
          stages := stages[i := Reading];
        }
      case Reading =>
        var kept := config.PeersWithout(round[i].name);
        stages := stages[i := Writing(kept)];
      case Writing(kept) =>
        config.SetPeers(kept);
        stages := stages[i := Done];
      case Done =>
    }

    method GatherUptimes(answers: seq<Answer>, schedule: seq<nat>)
      requires |answers| == |config.peers| && Schedule(config.peers, schedule) && View() == Start(config.peers)
      modifies this, config`peers
      ensures View() == Gather(old(config.peers), answers, schedule)
    {
      ghost var round := config.peers;
      var asked := config.peers;
      for k := 0 to |schedule|
        invariant View() == Gather(round, answers, schedule[..k])
      {
        assert schedule[..k + 1][..k] == schedule[..k];
        Advance(asked, answers, schedule[k]);
      }
      assert schedule[..|schedule|] == schedule;
    }

    /** The vote over the gathered uptimes, in any order of the map. */
    method ChooseOldest(order: seq<string>) returns (winner: Option<Peer>)
      requires Enumerates(order, uptimes.Keys)
      ensures winner == Vote(order, View())
      ensures winner.Some? && winner.value.name != "" ==>
                winner.value.name in uptimes && uptimes[winner.value.name] > 0
    {
      var oldestPeer := OldestOf(order, uptimes);
      OldestIsMaximal(order, uptimes);
      winner := config.FindPeer(oldestPeer);
    }
  }

  /** An election whose winner, if there is one, becomes the publisher. There always is one, a peer that
      answered, when no unreachable peer shares a responder's name and all uptimes reported under some name
      are positive; with distinct names its uptime is maximal. */
  method HoldElection(config: Config, answers: seq<Answer>, schedule: seq<nat>, order: seq<string>) returns (ok: bool)
    requires FullRound(config.peers, answers, schedule)
    requires Enumerates(order, Gather(config.peers, answers, schedule).uptimes.Keys)
    modifies config
    ensures var g := Gather(old(config.peers), answers, schedule);
            config.peers == g.peers && ok == Vote(order, g).Some? &&
            config.publisher == if ok then Vote(order, g) else old(config.publisher)
    ensures NoSharedName(old(config.peers), answers) && SurelyPositive(old(config.peers), answers) ==>
              ok && exists i :: 0 <= i < |answers| && answers[i].Uptime? &&
                                config.publisher == Some(old(config.peers)[i]) &&
                                (DistinctNames(old(config.peers)) ==> Maximal(answers, i))
    ensures DistinctNames(old(config.peers)) && SomePositive(answers) ==> ok
    ensures ok && config.publisher.value.name != "" ==>
              exists i :: 0 <= i < |answers| && old(config.peers)[i].name == config.publisher.value.name &&
                          answers[i].Uptime? && answers[i].d > 0
    ensures !SomePositive(answers) && NoneNamed(old(config.peers), "") ==> !ok
    ensures config.zones == old(config.zones) && config.chain == old(config.chain)
  {
    var e := new Election(config);
    e.GatherUptimes(answers, schedule);
    var winner := e.ChooseOldest(order);
    if DistinctNames(old(config.peers)) {
      DistinctNamesSuffice(old(config.peers), answers);
    }
    if NoSharedName(old(config.peers), answers) && SurelyPositive(old(config.peers), answers) {
      ghost var i, k := VoteElectsOldest(old(config.peers), answers, schedule, order);
    }
    ElectionOutcome(old(config.peers), answers, schedule, order);
    if winner.None? {
      return false;
    }
    config.SetPublisher(winner.value);
    return true;
  }

  /** What a peer's failed action does undisturbed: drop the peer, then elect among the others. */
  method PeerFailed(config: Config, peer: Peer, answers: seq<Answer>, schedule: seq<nat>, order: seq<string>)
    returns (ok: bool)
    requires FullRound(Without(config.peers, peer.name), answers, schedule)
    requires Enumerates(order, Gather(Without(config.peers, peer.name), answers, schedule).uptimes.Keys)
    modifies config
    ensures var g := Gather(Without(old(config.peers), peer.name), answers, schedule);
            config.peers == g.peers && ok == Vote(order, g).Some? &&
            config.publisher == if ok then Vote(order, g) else old(config.publisher)
    ensures NoneNamed(config.peers, peer.name)
    ensures NotPublished(old(config.publisher), config.publisher, peer.name)
  {
    config.RemovePeer(peer);
    RoundOnlyRemoves(config.peers, answers, schedule, peer.name);
    ok := HoldElection(config, answers, schedule, order);
  }

  /** What a peer's revive action does undisturbed: append the peer, then elect. */
  method PeerRevived(config: Config, peer: Peer, answers: seq<Answer>, schedule: seq<nat>, order: seq<string>)
    returns (ok: bool)
    requires FullRound(config.peers + [peer], answers, schedule)
    requires Enumerates(order, Gather(config.peers + [peer], answers, schedule).uptimes.Keys)
    modifies config
    ensures var g := Gather(old(config.peers) + [peer], answers, schedule);
            config.peers == g.peers && ok == Vote(order, g).Some? &&
            config.publisher == if ok then Vote(order, g) else old(config.publisher)
    ensures NoSharedName(old(config.peers) + [peer], answers) && answers[|old(config.peers)|].Uptime? ==>
              peer in config.peers
  {
    config.AddPeer(peer);
    RoundKeepsIfNotShared(config.peers, answers, schedule);
    ok := HoldElection(config, answers, schedule, order);
  }

  /** The actions of one tick and the launch election, run at once on the shared configuration. */
  class PeerTick {
    const config: Config
    const checks: seq<Peer>
    const outcomes: seq<Outcome>
    var closures: seq<Closure>

    ghost function View(): TickState
      reads this, config
    {
      TickState(config.peers, config.publisher, closures)
    }

    constructor (config: Config, checks: seq<Peer>, outcomes: seq<Outcome>, locals: seq<Local>, launch: Closure)
      requires |checks| == |outcomes| == |locals|
      ensures this.config == config && this.checks == checks && this.outcomes == outcomes
      ensures View() == Opening(Cluster(config.peers, config.publisher, locals, launch), outcomes)
    {
      this.config, this.checks, this.outcomes := config, checks, outcomes;
      closures := seq(|outcomes|, i requires 0 <= i < |outcomes| =>
        if Fires(PEER_FAILURES, locals[i], outcomes[i]) then Waiting else Over) + [launch];
    }

    /** A half of a removal, or an append. */
    method ChangeList(i: nat)
      requires Enabled(checks, outcomes, View(), Change(i))
      modifies this, config`peers
      ensures View() == Apply(checks, outcomes, old(View()), Change(i))
    {
      if closures[i].Holding? {
        config.SetPeers(closures[i].kept);
        closures := closures[i := Changed];
      } else if outcomes[i] == Fail {
        var kept := config.PeersWithout(checks[i].name);
        closures := closures[i := Holding(kept)];
      } else {
        config.AddPeer(checks[i]);
        closures := closures[i := Changed];
      }
    }

    /** A step of one goroutine of the election of action i. */
    method Ask(i: nat, j: nat)
      requires Enabled(checks, outcomes, View(), Advance(i, j))
      modifies this, config`peers
      ensures View() == Apply(checks, outcomes, old(View()), Advance(i, j))
    {
      var c := closures[i];
      match c.stages[j] {
        case Asking =>
          if c.answers[j].Uptime? {
            c := c.(uptimes := c.uptimes[c.round[j].name := c.answers[j].d], stages := c.stages[j := Done]);
          } else {
            c := c.(stages := c.stages[j := Reading]);
          }
        case Reading =>
          var kept := config.PeersWithout(c.round[j].name);
          c := c.(stages := c.stages[j := Writing(kept)]);
        case Writing(kept) =>
          config.SetPeers(kept);
          c := c.(stages := c.stages[j := Done]);
        case Done =>
      }
      closures := closures[i := c];
    }

    method Move(m: Move)
      requires Enabled(checks, outcomes, View(), m)
      modifies this, config`peers, config`publisher
      ensures View() == Apply(checks, outcomes, old(View()), m)
    {
      match m
      case Change(i) => ChangeList(i);
      case Begin(i, answers) =>
        closures := closures[i := Electing(config.peers, answers, map[], seq(|config.peers|, _ => Asking))];
      case Advance(i, j) => Ask(i, j);
      case Choose(i, order) =>
        var name := OldestOf(order, closures[i].uptimes);
        var winner := config.FindPeer(name);
        closures := closures[i := Elected(closures[i].round, closures[i].answers, winner)];
      case Publish(i) =>
        if closures[i].winner.Some? {
          config.SetPublisher(closures[i].winner.value);
        }
        closures := closures[i := Over];
    }

    /** The whole tick, in any interleaving. Failed peers are then out of the list if the tick is orderly. */
    method RunTick(ms: seq<Move>, ghost s: Cluster)
      requires s.peers == config.peers && s.publisher == config.publisher && FullTick(checks, s, outcomes, ms)
      requires View() == Opening(s, outcomes)
      modifies this, config`peers, config`publisher
      ensures var s' := PeerHealth.RunTick(checks, s, outcomes, ms);
              && config.peers == s'.peers && config.publisher == s'.publisher
              && |closures| == |checks| + 1 && closures[|checks|] == s'.launch && ActionsOver(View())
      ensures DistinctNames(checks) && FailedAreOut(checks, s) && OrderlyTick(checks, s, outcomes, ms) ==>
                FailedAreOut(checks, PeerHealth.RunTick(checks, s, outcomes, ms))
    {
      ghost var t := View();
      for k := 0 to |ms|
        invariant Moves(checks, outcomes, t, ms[..k]) && View() == RunMoves(checks, outcomes, t, ms[..k])
      {
        MovesPrefix(checks, outcomes, t, ms, k + 1);
        assert ms[..k + 1][..k] == ms[..k];
        Move(ms[k]);
      }
      assert ms[..|ms|] == ms;
      if DistinctNames(checks) && FailedAreOut(checks, s) && OrderlyTick(checks, s, outcomes, ms) {
        OrderlyTickDropsFailed(checks, s, outcomes, ms);
      }
    }
  }
}
