/** The elections of the peer actions: what publishes a peer in a tick, and what an action does that runs by
    itself. */
module PeerElections {
  import opened Basics
  import opened CheckTrace
  import opened Peers
  import opened ElectionRound
  import opened PeerHealth
  import opened PeerRuns

  // ----- whoever is published has answered

  /** An entry of that name answered with a positive uptime. */
  ghost predicate PositiveAnswer(round: seq<Peer>, answers: seq<Answer>, name: string) {
    |round| == |answers| &&
    exists j :: 0 <= j < |round| && round[j].name == name && answers[j].Uptime? && answers[j].d > 0
  }

  /** Every uptime on record was answered, and a winner's was positive. */
  ghost predicate Justified(c: Closure) {
    match c
    case Electing(round, answers, uptimes, _) =>
      WellFormed(c) &&
      forall n :: n in uptimes ==>
        exists j :: 0 <= j < |round| && round[j].name == n && answers[j] == Uptime(uptimes[n])
    case Elected(round, answers, winner) =>
      winner.Some? && winner.value.name != "" ==> PositiveAnswer(round, answers, winner.value.name)
    case _ => true
  }

  ghost predicate AllJustified(t: TickState) {
    forall i :: 0 <= i < |t.closures| ==> Justified(t.closures[i])
  }

  lemma AdvanceJustified(t: TickState, c: Closure, j: nat)
    requires c.Electing? && Justified(c) && j < |c.round|
    ensures var s := Step(c.round, c.answers, Seen(t, c), j);
            Justified(Electing(c.round, c.answers, s.uptimes, s.stages))
  {
    var s := Step(c.round, c.answers, Seen(t, c), j);
    forall n | n in s.uptimes
      ensures exists l :: 0 <= l < |c.round| && c.round[l].name == n && c.answers[l] == Uptime(s.uptimes[n])
    {
      if n in c.uptimes && s.uptimes[n] == c.uptimes[n] {
        assert exists l :: 0 <= l < |c.round| && c.round[l].name == n && c.answers[l] == Uptime(c.uptimes[n]);
      } else {
        assert c.round[j].name == n && c.answers[j] == Uptime(s.uptimes[n]);
      }
    }
  }

  lemma ChooseJustified(t: TickState, c: Closure, order: seq<string>)
    requires c.Electing? && Justified(c) && Enumerates(order, c.uptimes.Keys)
    ensures Justified(Elected(c.round, c.answers, Vote(order, Seen(t, c))))
  {
    OldestIsMaximal(order, c.uptimes);
    var name := Oldest(order, c.uptimes).0;
    if name != "" {
      assert name in c.uptimes;
      var j :| 0 <= j < |c.round| && c.round[j].name == name && c.answers[j] == Uptime(c.uptimes[name]);
      assert PositiveAnswer(c.round, c.answers, name);
    }
  }

  lemma MoveJustified(checks: seq<Peer>, os: seq<Outcome>, t: TickState, m: Move)
    requires Enabled(checks, os, t, m) && AllJustified(t)
    ensures AllJustified(Apply(checks, os, t, m))
  {
    var c := t.closures[m.i];
    assert Justified(c);
    if m.Advance? {
      AdvanceJustified(t, c, m.j);
    } else if m.Choose? {
      ChooseJustified(t, c, m.order);
    }
    var t' := Apply(checks, os, t, m);
    assert Justified(t'.closures[m.i]);
  }

  lemma {:induction false} MovesJustified(checks: seq<Peer>, os: seq<Outcome>, t: TickState, ms: seq<Move>)
    requires Moves(checks, os, t, ms) && AllJustified(t)
    ensures AllJustified(RunMoves(checks, os, t, ms))
  {
    if ms == [] {
    } else {
      var init, last := ms[..|ms| - 1], ms[|ms| - 1];
      MovesJustified(checks, os, t, init);
      MoveJustified(checks, os, RunMoves(checks, os, t, init), last);
    }
  }

  lemma {:induction false} RunJustified(checks: seq<Peer>, ticks: seq<Tick>)
    requires Valid(checks, ticks)
    ensures Justified(Play(checks, ticks).launch)
  {
    if ticks == [] {
    } else {
      var init, last := ticks[..|ticks| - 1], ticks[|ticks| - 1];
      RunJustified(checks, init);
      MovesJustified(checks, last.outcomes, Opening(Play(checks, init), last.outcomes), last.moves);
    }
  }

  /** In every run and after every prefix of a tick, a publication takes its closure's winner, keeps the
      publisher if there is none, and publishes no peer but one of whose name some entry answered that very
      election with a positive uptime, unless the name is empty. */
  lemma PublishedHasAnswered(checks: seq<Peer>, ticks: seq<Tick>, os: seq<Outcome>, ms: seq<Move>, i: nat)
    requires Valid(checks, ticks) && |Play(checks, ticks).locals| == |os|
    requires Moves(checks, os, Opening(Play(checks, ticks), os), ms)
    requires var t := RunMoves(checks, os, Opening(Play(checks, ticks), os), ms);
             i < |t.closures| && t.closures[i].Elected? && Enabled(checks, os, t, Publish(i))
    ensures var t := RunMoves(checks, os, Opening(Play(checks, ticks), os), ms);
            var c, p := t.closures[i], Apply(checks, os, t, Publish(i)).publisher;
            && (c.winner.None? ==> p == t.publisher)
            && (c.winner.Some? ==> p == c.winner)
            && (c.winner.Some? && p.value.name != "" ==> PositiveAnswer(c.round, c.answers, p.value.name))
  {
    RunJustified(checks, ticks);
    MovesJustified(checks, os, Opening(Play(checks, ticks), os), ms);
  }

  // ----- an action that runs by itself

  /** The list an action's election is held among. */
  function Changing(checks: seq<Peer>, os: seq<Outcome>, t: TickState, i: nat): seq<Peer>
    requires i < |t.closures| && (t.closures[i].Waiting? ==> i < |checks| == |os|)
  {
    if !t.closures[i].Waiting? then t.peers
    else if os[i] == Fail then Without(t.peers, checks[i].name)
    else t.peers + [checks[i]]
  }

  /** What the network and the scheduler contributed to an election. */
  datatype Held = Held(answers: seq<Answer>, schedule: seq<nat>, order: seq<string>)

  ghost predicate FullElection(round: seq<Peer>, e: Held) {
    && FullRound(round, e.answers, e.schedule)
    && Enumerates(e.order, Gather(round, e.answers, e.schedule).uptimes.Keys)
  }

  /** How far the action has come since t, as an election among round. */
  ghost predicate Underway(t: TickState, t': TickState, i: nat, round: seq<Peer>, e: Held) {
    && i < |t.closures| == |t'.closures|
    && (t'.closures[i] != Over ==> t'.publisher == t.publisher)
    && |e.answers| == |round| && Schedule(round, e.schedule)
    && match t'.closures[i]
       case Waiting => t.closures[i] == Waiting && t'.peers == t.peers && e.schedule == []
       case Holding(kept) => kept == round && e.schedule == []
       case Changed => t'.peers == round && e.schedule == []
       case Electing(r, answers, uptimes, stages) =>
         r == round && answers == e.answers && State(t'.peers, uptimes, stages) == Gather(round, answers, e.schedule)
       case Elected(_, _, winner) =>
         FullElection(round, e) && var g := Gather(round, e.answers, e.schedule);
         t'.peers == g.peers && winner == Vote(e.order, g)
       case Over =>
         FullElection(round, e) && var g := Gather(round, e.answers, e.schedule);
         t'.peers == g.peers && t'.publisher == if Vote(e.order, g).Some? then Vote(e.order, g) else t.publisher
  }

  lemma ChangeUnderway(checks: seq<Peer>, os: seq<Outcome>, t: TickState, t': TickState, i: nat, e: Held)
    requires Enabled(checks, os, t', Change(i)) && i < |t.closures| && i < |checks|
    requires Underway(t, t', i, Changing(checks, os, t, i), e)
    ensures Underway(t, Apply(checks, os, t', Change(i)), i, Changing(checks, os, t, i), e)
  {
  }

  lemma AdvanceUnderway(checks: seq<Peer>, os: seq<Outcome>, t: TickState, t': TickState, i: nat, j: nat,
                        round: seq<Peer>, e: Held)
    requires Enabled(checks, os, t', Advance(i, j)) && Underway(t, t', i, round, e)
    ensures Underway(t, Apply(checks, os, t', Advance(i, j)), i, round, e.(schedule := e.schedule + [j]))
  {
    RunOne(round, e.answers, Start(round), e.schedule, j);
  }

  lemma ElectUnderway(checks: seq<Peer>, os: seq<Outcome>, t: TickState, t': TickState, m: Move, round: seq<Peer>,
                      e: Held) returns (e': Held)
    requires Enabled(checks, os, t', m) && Underway(t, t', m.i, round, e) && (m.Begin? || m.Choose? || m.Publish?)
    ensures Underway(t, Apply(checks, os, t', m), m.i, round, e')
  {
    e' := e;
    if m.Begin? {
      e' := e.(answers := m.answers);
    } else if m.Choose? {
      e' := e.(order := m.order);
    }
  }

  lemma StepUnderway(checks: seq<Peer>, os: seq<Outcome>, t: TickState, t': TickState, m: Move, e: Held)
    returns (e': Held)
    requires Enabled(checks, os, t', m) && m.i < |t.closures| && (t.closures[m.i].Waiting? ==> m.i < |checks|)
    requires Underway(t, t', m.i, Changing(checks, os, t, m.i), e)
    ensures Underway(t, Apply(checks, os, t', m), m.i, Changing(checks, os, t, m.i), e')
  {
    if m.Change? {
      e' := e;
      ChangeUnderway(checks, os, t, t', m.i, e);
    } else if m.Advance? {
      e' := e.(schedule := e.schedule + [m.j]);
      AdvanceUnderway(checks, os, t, t', m.i, m.j, Changing(checks, os, t, m.i), e);
    } else {
      e' := ElectUnderway(checks, os, t, t', m, Changing(checks, os, t, m.i), e);
    }
  }

  lemma {:induction false} MovesUnderway(checks: seq<Peer>, os: seq<Outcome>, t: TickState, ms: seq<Move>, i: nat)
    returns (e: Held)
    requires Moves(checks, os, t, ms) && MovesOf(ms, i) && i <= |checks|
    requires t.closures[i].Changed? || (t.closures[i].Waiting? && i < |checks|)
    ensures Underway(t, RunMoves(checks, os, t, ms), i, Changing(checks, os, t, i), e)
  {
    var round := Changing(checks, os, t, i);
    if ms == [] {
      e := Held(seq(|round|, _ => Unreachable), [], []);
    } else {
      var init, last := ms[..|ms| - 1], ms[|ms| - 1];
      assert last.i == i;
      e := MovesUnderway(checks, os, t, init, i);
      e := StepUnderway(checks, os, t, RunMoves(checks, os, t, init), last, e);
    }
  }

  /** An action that runs from start to end by itself changes the list as its outcome asks and then holds one
      election among that list, whose winner, if any, becomes the publisher. So does the launch election. */
  lemma SoloIsElection(checks: seq<Peer>, os: seq<Outcome>, t: TickState, ms: seq<Move>, i: nat) returns (e: Held)
    requires Moves(checks, os, t, ms) && MovesOf(ms, i) && i <= |checks|
    requires t.closures[i].Changed? || (t.closures[i].Waiting? && i < |checks|)
    requires RunMoves(checks, os, t, ms).closures[i] == Over
    ensures var round := Changing(checks, os, t, i);
            && FullElection(round, e)
            && var g, t' := Gather(round, e.answers, e.schedule), RunMoves(checks, os, t, ms);
               && t'.peers == g.peers
               && t'.publisher == if Vote(e.order, g).Some? then Vote(e.order, g) else t.publisher
  {
    e := MovesUnderway(checks, os, t, ms, i);
  }

  // ----- every election can happen

  /** The goroutines of an election follow a schedule. */
  lemma {:induction false} FollowSchedule(checks: seq<Peer>, os: seq<Outcome>, t: TickState, i: nat, p: seq<nat>)
    returns (ms: seq<Move>)
    requires FitsTick(checks, os, t) && i <= |checks| && t.closures[i].Electing? && WellFormed(t.closures[i])
    requires Schedule(t.closures[i].round, p)
    ensures Moves(checks, os, t, ms) && MovesOf(ms, i) && OnlyMoved(t, RunMoves(checks, os, t, ms), i)
    ensures var c, t' := t.closures[i], RunMoves(checks, os, t, ms);
            var s := ElectionRound.Run(c.round, c.answers, Seen(t, c), p);
            && t'.peers == s.peers && t'.publisher == t.publisher
            && t'.closures[i] == Electing(c.round, c.answers, s.uptimes, s.stages)
    decreases |p|
  {
    ms := [];
    if p == [] {
    } else {
      var init, j := p[..|p| - 1], p[|p| - 1];
      ms := FollowSchedule(checks, os, t, i, init);
      Then(checks, os, t, ms, Advance(i, j));
      ms := ms + [Advance(i, j)];
    }
  }

  lemma Conclude(checks: seq<Peer>, os: seq<Outcome>, t: TickState, i: nat, order: seq<string>) returns (ms: seq<Move>)
    requires FitsTick(checks, os, t) && i <= |checks| && t.closures[i].Electing?
    requires Complete(Seen(t, t.closures[i])) && Enumerates(order, t.closures[i].uptimes.Keys)
    ensures Moves(checks, os, t, ms) && MovesOf(ms, i) && OnlyMoved(t, RunMoves(checks, os, t, ms), i)
    ensures var t', w := RunMoves(checks, os, t, ms), Vote(order, Seen(t, t.closures[i]));
            t'.closures[i] == Over && t'.peers == t.peers && t'.publisher == if w.Some? then w else t.publisher
  {
    var choose := Choose(i, order);
    var t1 := Apply(checks, os, t, choose);
    Single(checks, os, t1, Publish(i));
    First(checks, os, t, choose, [Publish(i)]);
    ms := [choose] + [Publish(i)];
  }

  /** Whatever the answers, the schedule and the order of the uptimes, an action that has changed the list, and
      the launch election, can hold that very election. */
  lemma ElectionIsSolo(checks: seq<Peer>, os: seq<Outcome>, t: TickState, i: nat, e: Held) returns (ms: seq<Move>)
    requires FitsTick(checks, os, t) && i <= |checks| && t.closures[i] == Changed && FullElection(t.peers, e)
    ensures Moves(checks, os, t, ms) && MovesOf(ms, i) && OnlyMoved(t, RunMoves(checks, os, t, ms), i)
    ensures var g, t' := Gather(t.peers, e.answers, e.schedule), RunMoves(checks, os, t, ms);
            && t'.closures[i] == Over && t'.peers == g.peers
            && t'.publisher == if Vote(e.order, g).Some? then Vote(e.order, g) else t.publisher
  {
    var begin := Begin(i, e.answers);
    var t1 := Apply(checks, os, t, begin);
    ms := FollowSchedule(checks, os, t1, i, e.schedule);
    var ns := Conclude(checks, os, RunMoves(checks, os, t1, ms), i, e.order);
    MovesConcat(checks, os, t1, ms, ns);
    First(checks, os, t, begin, ms + ns);
    ms := [begin] + (ms + ns);
  }

  /** Every election among the configured peers can be the one of the launch: there is a first tick after which
      it is over, and its winner, if any, is the publisher. */
  lemma LaunchElects(checks: seq<Peer>, e: Held) returns (tick: Tick)
    requires FullElection(checks, e)
    ensures Valid(checks, [tick])
    ensures var s, g := Play(checks, [tick]), Gather(checks, e.answers, e.schedule);
            s.launch == Over && s.peers == g.peers && s.publisher == Vote(e.order, g)
  {
    var os := seq(|checks|, _ => Pass);
    var s := Play(checks, []);
    var ms := ElectionIsSolo(checks, os, Opening(s, os), |checks|, e);
    tick := Tick(os, ms);
    assert FullTick(checks, s, os, ms);
    PlayMore(checks, [], tick);
    assert [] + [tick] == [tick];
  }

  /** A tick in which the launch election does not move leaves it where it was. */
  lemma LaunchKeepsItsPlace(checks: seq<Peer>, s: Cluster, os: seq<Outcome>, ms: seq<Move>)
    requires FullTick(checks, s, os, ms) && forall k :: 0 <= k < |ms| ==> ms[k].i != |checks|
    ensures RunTick(checks, s, os, ms).launch == s.launch
  {
    LaunchUnmoved(checks, os, Opening(s, os), ms);
  }

  lemma {:induction false} LaunchUnmoved(checks: seq<Peer>, os: seq<Outcome>, t: TickState, ms: seq<Move>)
    requires Moves(checks, os, t, ms) && forall k :: 0 <= k < |ms| ==> ms[k].i != |checks|
    ensures RunMoves(checks, os, t, ms).closures[|checks|] == t.closures[|checks|]
  {
    if ms == [] {
    } else {
      LaunchUnmoved(checks, os, t, ms[..|ms| - 1]);
    }
  }

  /** A tick in which nothing is published leaves the publisher of the tick before, and one in which nothing
      moves leaves the list as well. */
  lemma PublisherLasts(checks: seq<Peer>, s: Cluster, os: seq<Outcome>, ms: seq<Move>)
    requires FullTick(checks, s, os, ms) && forall k :: 0 <= k < |ms| ==> !ms[k].Publish?
    ensures RunTick(checks, s, os, ms).publisher == s.publisher
    ensures ms == [] ==> RunTick(checks, s, os, ms).peers == s.peers
  {
    PublisherUnmoved(checks, os, Opening(s, os), ms);
  }

  lemma {:induction false} PublisherUnmoved(checks: seq<Peer>, os: seq<Outcome>, t: TickState, ms: seq<Move>)
    requires Moves(checks, os, t, ms) && forall k :: 0 <= k < |ms| ==> !ms[k].Publish?
    ensures RunMoves(checks, os, t, ms).publisher == t.publisher
  {
    if ms == [] {
    } else {
      PublisherUnmoved(checks, os, t, ms[..|ms| - 1]);
    }
  }
}
