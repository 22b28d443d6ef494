/** Runs of two peers in which a failed peer is elected, and in which a peer that answers is dropped. */
module PeerExamples {
  import opened Basics
  import opened CheckTrace
  import opened Peers
  import opened ElectionRound
  import opened PeerHealth
  import opened PeerRuns

  /** A tick in which no action fires, and the launch election ends with everybody answering. */
  lemma LaunchTick(checks: seq<Peer>, s: Cluster, os: seq<Outcome>) returns (ms: seq<Move>)
    requires |checks| == |s.locals| == |os| && s.launch == Changed
    requires forall i :: 0 <= i < |os| ==> !FiresIn(s, os, i)
    ensures FullTick(checks, s, os, ms)
    ensures RunTick(checks, s, os, ms).peers == s.peers && RunTick(checks, s, os, ms).launch == Over
  {
    ms := Finish(checks, os, Opening(s, os), |checks|);
  }

  /** A tick in which no action fires. */
  lemma IdleTick(checks: seq<Peer>, s: Cluster, os: seq<Outcome>)
    requires |checks| == |s.locals| == |os| && s.launch == Over
    requires forall i :: 0 <= i < |os| ==> !FiresIn(s, os, i)
    ensures FullTick(checks, s, os, [])
    ensures RunTick(checks, s, os, []).peers == s.peers && RunTick(checks, s, os, []).launch == Over
  {
  }

  /** An election among one listed peer, which answers. */
  lemma ElectSole(checks: seq<Peer>, os: seq<Outcome>, t: TickState, i: nat, x: Peer) returns (ms: seq<Move>)
    requires FitsTick(checks, os, t) && i <= |checks| && t.closures[i] == Changed && t.peers == [x]
    ensures Moves(checks, os, t, ms)
    ensures RunMoves(checks, os, t, ms) == TickState([x], Some(x), t.closures[i := Over])
  {
    var begin := Begin(i, [Uptime(1)]);
    var t1 := Apply(checks, os, t, begin);
    var t2 := Apply(checks, os, t1, Advance(i, 0));
    assert t2.closures[i].uptimes == map[x.name := 1];
    var choose := Choose(i, [x.name]);
    assert Oldest([x.name], t2.closures[i].uptimes) == (x.name, 1);
    var t3 := Apply(checks, os, t2, choose);
    assert t3.closures[i] == Elected([x], [Uptime(1)], Some(x));
    Single(checks, os, t3, Publish(i));
    ms := [Publish(i)];
    assert Apply(checks, os, t3, Publish(i)).closures == t.closures[i := Over];
    First(checks, os, t2, choose, ms);
    ms := [choose] + ms;
    First(checks, os, t1, Advance(i, 0), ms);
    ms := [Advance(i, 0)] + ms;
    First(checks, os, t, begin, ms);
    ms := [begin] + ms;
  }

  lemma WithoutPush(peers: seq<Peer>, last: Peer, name: string)
    ensures Without(peers + [last], name) ==
            if last.name == name then Without(peers, name) else Without(peers, name) + [last]
  {
    assert (peers + [last])[..|peers + [last]| - 1] == peers;
  }

  lemma WithoutOne(a: Peer, b: Peer)
    requires a.name != b.name
    ensures Without([a, b], a.name) == [b] && Without([a, b], b.name) == [a]
  {
    assert [] + [a] == [a] && [a] + [b] == [a, b];
    WithoutPush([], a, a.name);
    WithoutPush([], a, b.name);
    WithoutPush([a], b, a.name);
    WithoutPush([a], b, b.name);
  }

  /** Both failed actions read the list, and the first writes it and elects the second's peer. */
  lemma BothRead(a: Peer, b: Peer, before: Option<Peer>) returns (ms: seq<Move>)
    requires a.name != b.name
    ensures var t := TickState([a, b], before, [Waiting, Waiting, Over]);
            Moves([a, b], [Fail, Fail], t, ms) &&
            RunMoves([a, b], [Fail, Fail], t, ms) == TickState([b], Some(b), [Over, Holding([a]), Over])
  {
    var checks, os, t := [a, b], [Fail, Fail], TickState([a, b], before, [Waiting, Waiting, Over]);
    WithoutOne(a, b);
    var t1 := Apply(checks, os, t, Change(1));
    assert t1 == TickState([a, b], before, [Waiting, Holding([a]), Over]);
    var t2 := Apply(checks, os, t1, Change(0));
    assert t2 == TickState([a, b], before, [Holding([b]), Holding([a]), Over]);
    var t3 := Apply(checks, os, t2, Change(0));
    assert t3 == TickState([b], before, [Changed, Holding([a]), Over]);
    ms := ElectSole(checks, os, t3, 0, b);
    First(checks, os, t2, Change(0), ms);
    ms := [Change(0)] + ms;
    First(checks, os, t1, Change(0), ms);
    ms := [Change(0)] + ms;
    First(checks, os, t, Change(1), ms);
    ms := [Change(1)] + ms;
  }

  /** Then the second writes the first's peer back and elects it. */
  lemma ElectFailed(a: Peer, b: Peer, before: Option<Peer>) returns (ms: seq<Move>)
    requires a.name != b.name
    ensures var t := TickState([a, b], before, [Waiting, Waiting, Over]);
            Moves([a, b], [Fail, Fail], t, ms) &&
            RunMoves([a, b], [Fail, Fail], t, ms) == TickState([a], Some(a), [Over, Over, Over])
  {
    var checks, os, t := [a, b], [Fail, Fail], TickState([a, b], before, [Waiting, Waiting, Over]);
    ms := BothRead(a, b, before);
    var t1 := RunMoves(checks, os, t, ms);
    var t2 := Apply(checks, os, t1, Change(1));
    assert t2 == TickState([a], Some(b), [Over, Changed, Over]);
    var ns := ElectSole(checks, os, t2, 1, a);
    First(checks, os, t1, Change(1), ns);
    MovesConcat(checks, os, t, ms, [Change(1)] + ns);
    ms := ms + ([Change(1)] + ns);
  }

  /** Nothing fires in the first tick, whatever its outcomes. */
  lemma FirstTick(checks: seq<Peer>, os: seq<Outcome>) returns (ticks: seq<Tick>)
    requires |os| == |checks|
    ensures Valid(checks, ticks)
    ensures var s := Play(checks, ticks);
            && s.peers == checks && s.launch == Over && |s.locals| == |checks|
            && forall i: nat :: i < |checks| ==>
                 s.locals[i] == Local(if os[i] == Fail then 1 else 0, false) && Outcomes(checks, ticks, i) == [os[i]]
  {
    ticks := [];
    var s := Play(checks, ticks);
    var ms := LaunchTick(checks, s, os);
    PlayMore(checks, ticks, Tick(os, ms));
    ticks := ticks + [Tick(os, ms)];
  }

  /** Two peers fail their first ticks together. */
  lemma FailTwice(a: Peer, b: Peer) returns (ticks: seq<Tick>)
    ensures Valid([a, b], ticks)
    ensures var s := Play([a, b], ticks);
            s.peers == [a, b] && s.locals == [Local(2, false), Local(2, false)] && s.launch == Over
    ensures Outcomes([a, b], ticks, 0) == [Fail, Fail]
  {
    var checks, os := [a, b], [Fail, Fail];
    ticks := FirstTick(checks, os);
    var s := Play(checks, ticks);
    assert s.locals[0] == Local(1, false) && s.locals[1] == Local(1, false);
    IdleTick(checks, s, os);
    PlayMore(checks, ticks, Tick(os, []));
    ticks := ticks + [Tick(os, [])];
  }

  lemma FailedTick(a: Peer, b: Peer, s: Cluster) returns (ms: seq<Move>)
    requires a.name != b.name
    requires s.peers == [a, b] && s.locals == [Local(2, false), Local(2, false)] && s.launch == Over
    ensures FullTick([a, b], s, [Fail, Fail], ms)
    ensures RunTick([a, b], s, [Fail, Fail], ms) == Cluster([a], Some(a), [Local(3, true), Local(3, true)], Over)
  {
    ms := ElectFailed(a, b, s.publisher);
    assert Opening(s, [Fail, Fail]) == TickState([a, b], s.publisher, [Waiting, Waiting, Over]);
    assert FullTick([a, b], s, [Fail, Fail], ms);
    assert RunTick([a, b], s, [Fail, Fail], ms).locals == [Local(3, true), Local(3, true)];
  }

  /** Two peers fail three ticks in a row, and the first is left listed and is the publisher. */
  lemma FailedPeerElectedExample(a: Peer, b: Peer) returns (ticks: seq<Tick>)
    requires a.name != b.name
    ensures Valid([a, b], ticks) && Streak(Outcomes([a, b], ticks, 0)) == 3
    ensures Play([a, b], ticks) == Cluster([a], Some(a), [Local(3, true), Local(3, true)], Over)
  {
    var checks, os := [a, b], [Fail, Fail];
    ticks := FailTwice(a, b);
    var ms := FailedTick(a, b, Play(checks, ticks));
    PlayMore(checks, ticks, Tick(os, ms));
    StreakOfPush(Outcomes(checks, ticks, 0), Fail);
    ticks := ticks + [Tick(os, ms)];
  }

  /** The peer is appended although it is still listed. */
  lemma ReviveListed(a: Peer, b: Peer, s: Cluster) returns (ms: seq<Move>)
    requires s.peers == [a, b] && s.locals == [Local(1, false), FRESH] && s.launch == Over
    ensures FullTick([a, b], s, [Pass, Pass], ms) && RunTick([a, b], s, [Pass, Pass], ms).peers == [a, b, a]
  {
    var checks, os := [a, b], [Pass, Pass];
    var t := Opening(s, os);
    var t1 := Apply(checks, os, t, Change(0));
    assert t1.peers == [a, b, a] && t1.closures == [Changed, Over, Over];
    ms := Finish(checks, os, t1, 0);
    assert ActionsOver(RunMoves(checks, os, t1, ms));
    First(checks, os, t, Change(0), ms);
    ms := [Change(0)] + ms;
  }

  /** One failure and a success list a peer twice, so names need not stay distinct. */
  lemma ListTwice(a: Peer, b: Peer) returns (ticks: seq<Tick>)
    ensures Valid([a, b], ticks) && Play([a, b], ticks).peers == [a, b, a]
  {
    var checks := [a, b];
    ticks := FirstTick(checks, [Fail, Pass]);
    var s := Play(checks, ticks);
    assert s.locals[0] == Local(1, false) && s.locals[1] == FRESH;
    var ms := ReviveListed(a, b, s);
    PlayMore(checks, ticks, Tick([Pass, Pass], ms));
    ticks := ticks + [Tick([Pass, Pass], ms)];
  }

  /** In the next election one copy answers and the other does not, and the peer is dropped although it
      answered. */
  lemma ResponderDroppedExample(a: Peer, b: Peer) returns (ticks: seq<Tick>, p: seq<nat>)
    requires a.name != b.name
    ensures Valid([a, b], ticks) && Play([a, b], ticks).peers == [a, b, a]
    ensures var answers := [Uptime(1), Uptime(1), Unreachable];
            && FullRound([a, b, a], answers, p)
            && !KeepsResponders([a, b, a], answers, Gather([a, b, a], answers, p).peers)
  {
    ticks := ListTwice(a, b);
    var round, answers := [a, b, a], [Uptime(1), Uptime(1), Unreachable];
    p := RemoveLast(round, answers, 2);
    assert answers[0].Uptime? && round[0].name == round[2].name;
  }
}
