/** Peer health checks. In one tick the actions that fire run at once: each changes the peer list and
    then holds an election, and their steps interleave on the shared list. The election held at the launch
    may still be under way and interleaves with them. */
module PeerHealth {
  import opened Basics
  import opened CheckTrace
  import opened Peers
  import opened ElectionRound

  const PEER_FAILURES := 3

  /** How far the action of a check is. A failed action removes its peer by a read and a later write. */
  datatype Closure =
    | Waiting
    | Holding(kept: seq<Peer>)
    | Changed
    | Electing(round: seq<Peer>, answers: seq<Answer>, uptimes: map<string, int>, stages: seq<Stage>)
    | Elected(round: seq<Peer>, answers: seq<Answer>, winner: Option<Peer>)
    | Over

  /** There is one closure for each check, and a last one for the launch election. */
  datatype TickState = TickState(peers: seq<Peer>, publisher: Option<Peer>, closures: seq<Closure>)

  /** The atomic steps: a half of the list change, the start of the election, a step of one of its
      goroutines, the choice of the winner, and the publication. */
  datatype Move =
    | Change(i: nat)
    | Begin(i: nat, answers: seq<Answer>)
    | Advance(i: nat, j: nat)
    | Choose(i: nat, order: seq<string>)
    | Publish(i: nat)

  ghost predicate FitsTick(checks: seq<Peer>, os: seq<Outcome>, t: TickState) {
    |checks| == |os| && |t.closures| == |checks| + 1 && OnlyElects(t.closures[|checks|])
  }

  /** The launch election changes nothing before it begins. */
  ghost predicate OnlyElects(c: Closure) {
    !c.Waiting? && !c.Holding?
  }

  ghost predicate WellFormed(c: Closure) {
    c.Electing? ==> |c.round| == |c.answers| == |c.stages|
  }

  /** What an election sees: the shared list, and its own uptimes and goroutines. */
  function Seen(t: TickState, c: Closure): State
    requires c.Electing?
  {
    State(t.peers, c.uptimes, c.stages)
  }

  ghost predicate Enabled(checks: seq<Peer>, os: seq<Outcome>, t: TickState, m: Move) {
    && FitsTick(checks, os, t) && m.i <= |checks|
    && var c := t.closures[m.i];
    match m
    case Change(i) => i < |checks| && (c.Waiting? || c.Holding?)
    case Begin(_, answers) => c.Changed? && |answers| == |t.peers|
    case Advance(_, j) => c.Electing? && WellFormed(c) && j < |c.round|
    case Choose(_, order) => c.Electing? && Complete(Seen(t, c)) && Enumerates(order, c.uptimes.Keys)
    case Publish(_) => c.Elected?
  }

  function Apply(checks: seq<Peer>, os: seq<Outcome>, t: TickState, m: Move): (t': TickState)
    requires Enabled(checks, os, t, m)
    ensures FitsTick(checks, os, t')
  {
    var i, c := m.i, t.closures[m.i];
    match m
    case Change(_) =>
      if c.Holding? then t.(peers := c.kept, closures := t.closures[i := Changed])
      else if os[i] == Fail then t.(closures := t.closures[i := Holding(Without(t.peers, checks[i].name))])
      else t.(peers := t.peers + [checks[i]], closures := t.closures[i := Changed])
    case Begin(_, answers) =>
      var s := Start(t.peers);
      t.(closures := t.closures[i := Electing(t.peers, answers, s.uptimes, s.stages)])
    case Advance(_, j) =>
      var s := Step(c.round, c.answers, Seen(t, c), j);
      t.(peers := s.peers, closures := t.closures[i := Electing(c.round, c.answers, s.uptimes, s.stages)])
    case Choose(_, order) => t.(closures := t.closures[i := Elected(c.round, c.answers, Vote(order, Seen(t, c)))])
    case Publish(_) =>
      t.(publisher := if c.winner.Some? then c.winner else t.publisher, closures := t.closures[i := Over])
  }

  ghost predicate Moves(checks: seq<Peer>, os: seq<Outcome>, t: TickState, ms: seq<Move>)
    decreases |ms|, 0
  {
    && FitsTick(checks, os, t)
    && (ms != [] ==>
          && Moves(checks, os, t, ms[..|ms| - 1])
          && Enabled(checks, os, RunMoves(checks, os, t, ms[..|ms| - 1]), ms[|ms| - 1]))
  }

  function RunMoves(checks: seq<Peer>, os: seq<Outcome>, t: TickState, ms: seq<Move>): (t': TickState)
    requires Moves(checks, os, t, ms)
    ensures FitsTick(checks, os, t')
    decreases |ms|, 1
  {
    if ms == [] then t else Apply(checks, os, RunMoves(checks, os, t, ms[..|ms| - 1]), ms[|ms| - 1])
  }

  // ----- ticks and runs

  /** What lasts from tick to tick; launch is how far the launch election is. */
  datatype Cluster = Cluster(peers: seq<Peer>, publisher: Option<Peer>, locals: seq<Local>, launch: Closure)

  ghost predicate FitsCluster(checks: seq<Peer>, s: Cluster) {
    |s.locals| == |checks| && OnlyElects(s.launch) && WellFormed(s.launch)
  }

  predicate FiresIn(s: Cluster, os: seq<Outcome>, i: nat)
    requires i < |s.locals| == |os|
  {
    Fires(PEER_FAILURES, s.locals[i], os[i])
  }

  function Opening(s: Cluster, os: seq<Outcome>): (t: TickState)
    requires |s.locals| == |os|
    ensures |t.closures| == |os| + 1
  {
    TickState(s.peers, s.publisher,
              seq(|os|, i requires 0 <= i < |os| => if FiresIn(s, os, i) then Waiting else Over) + [s.launch])
  }

  ghost predicate ActionsOver(t: TickState) {
    forall i :: 0 <= i < |t.closures| - 1 ==> t.closures[i] == Over
  }

  /** A tick ends when every action that fired is over; it does not wait for the launch election. */
  ghost predicate FullTick(checks: seq<Peer>, s: Cluster, os: seq<Outcome>, ms: seq<Move>) {
    && FitsCluster(checks, s) && |os| == |checks|
    && Moves(checks, os, Opening(s, os), ms)
    && ActionsOver(RunMoves(checks, os, Opening(s, os), ms))
  }

  function RunTick(checks: seq<Peer>, s: Cluster, os: seq<Outcome>, ms: seq<Move>): Cluster
    requires FullTick(checks, s, os, ms)
  {
    var t := RunMoves(checks, os, Opening(s, os), ms);
    Cluster(t.peers, t.publisher,
            seq(|os|, i requires 0 <= i < |os| => CheckTrace.After(PEER_FAILURES, s.locals[i], os[i])),
            t.closures[|checks|])
  }

  // ----- letting actions run to their end

  lemma Then(checks: seq<Peer>, os: seq<Outcome>, t: TickState, ms: seq<Move>, m: Move)
    requires Moves(checks, os, t, ms) && Enabled(checks, os, RunMoves(checks, os, t, ms), m)
    ensures Moves(checks, os, t, ms + [m])
    ensures RunMoves(checks, os, t, ms + [m]) == Apply(checks, os, RunMoves(checks, os, t, ms), m)
  {
    assert (ms + [m])[..|ms + [m]| - 1] == ms;
  }

  lemma Unroll(checks: seq<Peer>, os: seq<Outcome>, t: TickState, ms: seq<Move>) returns (init: seq<Move>, last: Move)
    requires Moves(checks, os, t, ms) && ms != []
    ensures ms == init + [last] && Moves(checks, os, t, init)
    ensures Enabled(checks, os, RunMoves(checks, os, t, init), last)
    ensures RunMoves(checks, os, t, ms) == Apply(checks, os, RunMoves(checks, os, t, init), last)
  {
    init, last := ms[..|ms| - 1], ms[|ms| - 1];
  }

  lemma {:induction false} MovesConcat(checks: seq<Peer>, os: seq<Outcome>, t: TickState, ms: seq<Move>, ns: seq<Move>)
    requires Moves(checks, os, t, ms) && Moves(checks, os, RunMoves(checks, os, t, ms), ns)
    ensures Moves(checks, os, t, ms + ns)
    ensures RunMoves(checks, os, t, ms + ns) == RunMoves(checks, os, RunMoves(checks, os, t, ms), ns)
    decreases |ns|
  {
    if ns == [] {
      assert ms + ns == ms;
    } else {
      var init, last := Unroll(checks, os, RunMoves(checks, os, t, ms), ns);
      MovesConcat(checks, os, t, ms, init);
      Then(checks, os, t, ms + init, last);
      assert ms + ns == ms + init + [last];
    }
  }

  lemma {:induction false} MovesPrefix(checks: seq<Peer>, os: seq<Outcome>, t: TickState, ms: seq<Move>, k: nat)
    requires Moves(checks, os, t, ms) && k <= |ms|
    ensures Moves(checks, os, t, ms[..k])
    decreases |ms|
  {
    if k < |ms| {
      MovesPrefix(checks, os, t, ms[..|ms| - 1], k);
      assert ms[..|ms| - 1][..k] == ms[..k];
    } else {
      assert ms[..k] == ms;
    }
  }

  lemma Single(checks: seq<Peer>, os: seq<Outcome>, t: TickState, m: Move)
    requires Enabled(checks, os, t, m)
    ensures Moves(checks, os, t, [m]) && RunMoves(checks, os, t, [m]) == Apply(checks, os, t, m)
  {
    assert [m][..|[m]| - 1] == [];
    assert Moves(checks, os, t, []) && RunMoves(checks, os, t, []) == t;
  }

  /** One move, then more from where it leads. */
  lemma First(checks: seq<Peer>, os: seq<Outcome>, t: TickState, m: Move, ns: seq<Move>)
    requires Enabled(checks, os, t, m) && Moves(checks, os, Apply(checks, os, t, m), ns)
    ensures Moves(checks, os, t, [m] + ns)
    ensures RunMoves(checks, os, t, [m] + ns) == RunMoves(checks, os, Apply(checks, os, t, m), ns)
  {
    Single(checks, os, t, m);
    MovesConcat(checks, os, t, [m], ns);
  }

  ghost predicate OnlyMoved(t: TickState, t': TickState, i: nat) {
    |t'.closures| == |t.closures| && forall k :: 0 <= k < |t.closures| && k != i ==> t'.closures[k] == t.closures[k]
  }

  /** All these moves are steps of closure i. */
  ghost predicate MovesOf(ms: seq<Move>, i: nat) {
    forall k :: 0 <= k < |ms| ==> ms[k].i == i
  }

  function Left(s: Stage): nat {
    match s case Asking => 3 case Reading => 2 case Writing(_) => 1 case Done => 0
  }

  /** The goroutine will not remove anything any more. */
  ghost predicate QuietStage(s: Stage, a: Answer) {
    s == Done || (s == Asking && a.Uptime?)
  }

  /** Goroutine j of the election of action i runs to its end. */
  lemma {:induction false} FinishStage(checks: seq<Peer>, os: seq<Outcome>, t: TickState, i: nat, j: nat)
    returns (ms: seq<Move>)
    requires FitsTick(checks, os, t) && i <= |checks| && t.closures[i].Electing? && WellFormed(t.closures[i])
    requires j < |t.closures[i].round|
    ensures Moves(checks, os, t, ms) && MovesOf(ms, i) && OnlyMoved(t, RunMoves(checks, os, t, ms), i)
    ensures var c, c' := t.closures[i], RunMoves(checks, os, t, ms).closures[i];
            c'.Electing? && c'.round == c.round && c'.answers == c.answers && c'.stages == c.stages[j := Done]
    ensures QuietStage(t.closures[i].stages[j], t.closures[i].answers[j]) ==>
              RunMoves(checks, os, t, ms).peers == t.peers
    decreases Left(t.closures[i].stages[j])
  {
    ms := [];
    if t.closures[i].stages[j] != Done {
      var m := Advance(i, j);
      var t1 := Apply(checks, os, t, m);
      ms := FinishStage(checks, os, t1, i, j);
      First(checks, os, t, m, ms);
      ms := [m] + ms;
    } else {
      assert t.closures[i].stages == t.closures[i].stages[j := Done];
    }
  }

  /** The first n goroutines of the election of action i run to their end. */
  lemma {:induction false} FinishStages(checks: seq<Peer>, os: seq<Outcome>, t: TickState, i: nat, n: nat)
    returns (ms: seq<Move>)
    requires FitsTick(checks, os, t) && i <= |checks| && t.closures[i].Electing? && WellFormed(t.closures[i])
    requires n <= |t.closures[i].round|
    ensures Moves(checks, os, t, ms) && MovesOf(ms, i) && OnlyMoved(t, RunMoves(checks, os, t, ms), i)
    ensures var c, c' := t.closures[i], RunMoves(checks, os, t, ms).closures[i];
            && c'.Electing? && WellFormed(c') && c'.round == c.round && c'.answers == c.answers
            && forall j :: 0 <= j < |c.stages| ==> c'.stages[j] == if j < n then Done else c.stages[j]
    ensures (forall j :: 0 <= j < n ==> QuietStage(t.closures[i].stages[j], t.closures[i].answers[j])) ==>
              RunMoves(checks, os, t, ms).peers == t.peers
  {
    ms := [];
    if n == 0 {
    } else {
      ms := FinishStages(checks, os, t, i, n - 1);
      var ns := FinishStage(checks, os, RunMoves(checks, os, t, ms), i, n - 1);
      MovesConcat(checks, os, t, ms, ns);
      ms := ms + ns;
    }
  }

  /** The action will not change the list any more if the peers it is yet to ask all answer. */
  ghost predicate Quiet(c: Closure) {
    match c
    case Electing(_, answers, _, stages) =>
      WellFormed(c) && forall j :: 0 <= j < |stages| ==> QuietStage(stages[j], answers[j])
    case _ => c.Changed? || c.Elected? || c.Over?
  }

  function Ahead(c: Closure): nat {
    match c
    case Waiting => 5
    case Holding(_) => 4
    case Changed => 3
    case Electing(_, _, _, _) => 2
    case Elected(_, _, _) => 1
    case Over => 0
  }

  /** A move that takes action i nearer to its end, once the goroutines of its election are done. */
  lemma NextMove(checks: seq<Peer>, os: seq<Outcome>, t: TickState, i: nat) returns (m: Move)
    requires FitsTick(checks, os, t) && i <= |checks| && t.closures[i] != Over
    requires t.closures[i].Electing? ==> Complete(Seen(t, t.closures[i]))
    ensures m.i == i && Enabled(checks, os, t, m)
    ensures var t' := Apply(checks, os, t, m);
            && OnlyMoved(t, t', i) && WellFormed(t'.closures[i]) && Ahead(t'.closures[i]) < Ahead(t.closures[i])
            && (Quiet(t.closures[i]) ==> Quiet(t'.closures[i]) && t'.peers == t.peers)
  {
    match t.closures[i]
    case Waiting => m := Change(i);
    case Holding(_) => m := Change(i);
    case Changed => m := Begin(i, seq(|t.peers|, _ => Uptime(1)));
    case Electing(_, _, uptimes, _) =>
      var order := OrderOf(uptimes.Keys);
      m := Choose(i, order);
    case Elected(_, _, _) => m := Publish(i);
  }

  /** Closure i gets nearer to its end. */
  lemma Proceed(checks: seq<Peer>, os: seq<Outcome>, t: TickState, i: nat) returns (ms: seq<Move>)
    requires FitsTick(checks, os, t) && i <= |checks| && WellFormed(t.closures[i]) && t.closures[i] != Over
    ensures Moves(checks, os, t, ms) && MovesOf(ms, i)
    ensures var t' := RunMoves(checks, os, t, ms);
            && OnlyMoved(t, t', i) && WellFormed(t'.closures[i]) && Ahead(t'.closures[i]) < Ahead(t.closures[i])
            && (Quiet(t.closures[i]) ==> Quiet(t'.closures[i]) && t'.peers == t.peers)
  {
    ms := [];
    if t.closures[i].Electing? {
      ms := FinishStages(checks, os, t, i, |t.closures[i].round|);
    }
    var m := NextMove(checks, os, RunMoves(checks, os, t, ms), i);
    Then(checks, os, t, ms, m);
    ms := ms + [m];
  }

  /** Action i can always run to its end, whatever the others are doing. */
  lemma {:induction false} Finish(checks: seq<Peer>, os: seq<Outcome>, t: TickState, i: nat) returns (ms: seq<Move>)
    requires FitsTick(checks, os, t) && i <= |checks| && WellFormed(t.closures[i])
    ensures Moves(checks, os, t, ms) && MovesOf(ms, i) && OnlyMoved(t, RunMoves(checks, os, t, ms), i)
    ensures RunMoves(checks, os, t, ms).closures[i] == Over
    ensures Quiet(t.closures[i]) ==> RunMoves(checks, os, t, ms).peers == t.peers
    decreases Ahead(t.closures[i])
  {
    ms := [];
    if t.closures[i] == Over {
    } else {
      ms := Proceed(checks, os, t, i);
      var ns := Finish(checks, os, RunMoves(checks, os, t, ms), i);
      MovesConcat(checks, os, t, ms, ns);
      ms := ms + ns;
    }
  }

  ghost predicate OthersOver(t: TickState, t': TickState, n: nat, skip: nat) {
    && |t'.closures| == |t.closures|
    && forall i :: 0 <= i < |t.closures| ==> t'.closures[i] == if i < n && i != skip then Over else t.closures[i]
  }

  lemma {:induction false} FinishOthers(checks: seq<Peer>, os: seq<Outcome>, t: TickState, n: nat, skip: nat)
    returns (ms: seq<Move>)
    requires FitsTick(checks, os, t) && n <= |checks| && forall i :: 0 <= i < n ==> WellFormed(t.closures[i])
    ensures Moves(checks, os, t, ms) && OthersOver(t, RunMoves(checks, os, t, ms), n, skip)
  {
    ms := [];
    if n == 0 {
    } else {
      ms := FinishOthers(checks, os, t, n - 1, skip);
      if n - 1 != skip {
        var ns := Finish(checks, os, RunMoves(checks, os, t, ms), n - 1);
        MovesConcat(checks, os, t, ms, ns);
        ms := ms + ns;
      }
    }
  }
}
