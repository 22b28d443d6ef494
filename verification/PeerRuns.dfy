/** What ticks of the peer checks do to failed peers: which interleavings, ticks and runs drop them. */
module PeerRuns {
  import opened Basics
  import opened CheckTrace
  import opened Peers
  import opened ElectionRound
  import opened PeerHealth

  // ----- a name that no list holds

  /** No list the closure has still to write holds the name. */
  ghost predicate CleanClosure(c: Closure, name: string) {
    match c
    case Holding(kept) => NoneNamed(kept, name)
    case Electing(_, _, _, stages) =>
      forall j :: 0 <= j < |stages| && stages[j].Writing? ==> NoneNamed(stages[j].kept, name)
    case _ => true
  }

  ghost predicate Clean(t: TickState, name: string) {
    NoneNamed(t.peers, name) && forall i :: 0 <= i < |t.closures| ==> CleanClosure(t.closures[i], name)
  }

  /** No election has chosen a peer of this name that is yet to be published. */
  ghost predicate Unelected(t: TickState, name: string) {
    forall i :: 0 <= i < |t.closures| ==> !Elects(t.closures[i], name)
  }

  ghost predicate Elects(c: Closure, name: string) {
    c.Elected? && c.winner.Some? && c.winner.value.name == name
  }

  /** The publisher is the old one or has another name. */
  ghost predicate NotPublished(before: Option<Peer>, now: Option<Peer>, name: string) {
    now == before || (now.Some? && now.value.name != name)
  }

  /** No check of this name passes, so no action adds the name. */
  ghost predicate NeverRevived(checks: seq<Peer>, os: seq<Outcome>, name: string)
    requires |checks| == |os|
  {
    forall i :: 0 <= i < |checks| && checks[i].name == name ==> os[i] == Fail
  }

  lemma MoveClean(checks: seq<Peer>, os: seq<Outcome>, t: TickState, m: Move, name: string)
    requires Enabled(checks, os, t, m) && Clean(t, name) && NeverRevived(checks, os, name)
    ensures Clean(Apply(checks, os, t, m), name)
    ensures Unelected(t, name) ==>
              && Unelected(Apply(checks, os, t, m), name)
              && NotPublished(t.publisher, Apply(checks, os, t, m).publisher, name)
  {
    var t' := Apply(checks, os, t, m);
    assert CleanClosure(t.closures[m.i], name);
    assert NoneNamed(t'.peers, name) && CleanClosure(t'.closures[m.i], name);
  }

  /** A name that no list holds and no action adds stays out in every interleaving, and is never published
      unless an election had already chosen it. */
  lemma {:induction false} MovesClean(checks: seq<Peer>, os: seq<Outcome>, t: TickState, ms: seq<Move>, name: string)
    requires Moves(checks, os, t, ms) && Clean(t, name) && NeverRevived(checks, os, name)
    ensures Clean(RunMoves(checks, os, t, ms), name)
    ensures Unelected(t, name) ==>
              && Unelected(RunMoves(checks, os, t, ms), name)
              && NotPublished(t.publisher, RunMoves(checks, os, t, ms).publisher, name)
  {
    if ms == [] {
    } else {
      var init, last := ms[..|ms| - 1], ms[|ms| - 1];
      MovesClean(checks, os, t, init, name);
      MoveClean(checks, os, RunMoves(checks, os, t, init), last, name);
    }
  }

  // ----- a failed action that fires alone

  /** The launch election will write no list with this name in it, as long as only peers of this name are
      removed from the list. */
  ghost predicate Tame(c: Closure, peers: seq<Peer>, name: string) {
    match c
    case Changed => forall p :: p in peers ==> p.name == name
    case Electing(round, answers, _, stages) =>
      WellFormed(c) && forall j :: 0 <= j < |stages| ==> TameStage(stages[j], answers[j], round[j], name)
    case _ => true
  }

  ghost predicate TameStage(s: Stage, a: Answer, asked: Peer, name: string) {
    match s
    case Asking => a.Uptime? || asked.name == name
    case Reading => asked.name == name
    case Writing(kept) => NoneNamed(kept, name)
    case Done => true
  }

  /** The action has written the list, or had nothing to write. */
  predicate Written(c: Closure) {
    !c.Waiting? && !c.Holding?
  }

  /** Of the actions only i is under way, beside a tame launch election (none, if quiet); once action i has
      read the list, what it holds is clean, and once it has written, everything is. */
  ghost predicate Alone(t: TickState, i: nat, name: string, quiet: bool) {
    && i < |t.closures| - 1
    && (forall k :: 0 <= k < |t.closures| - 1 && k != i ==> t.closures[k] == Over)
    && (quiet ==> t.closures[|t.closures| - 1] == Over)
    && match t.closures[i]
       case Waiting => Tame(t.closures[|t.closures| - 1], t.peers, name)
       case Holding(kept) => Tame(t.closures[|t.closures| - 1], t.peers, name) && NoneNamed(kept, name)
       case _ => Clean(t, name) && (quiet ==> Unelected(t, name))
  }

  lemma LaunchStaysTame(checks: seq<Peer>, os: seq<Outcome>, t: TickState, m: Move, name: string)
    requires Enabled(checks, os, t, m) && m.i == |checks| && Tame(t.closures[m.i], t.peers, name)
    ensures Tame(Apply(checks, os, t, m).closures[m.i], Apply(checks, os, t, m).peers, name)
  {
  }

  lemma LaunchMoveAlone(checks: seq<Peer>, os: seq<Outcome>, t: TickState, m: Move, i: nat, quiet: bool)
    requires Enabled(checks, os, t, m) && i < |checks| && Alone(t, i, checks[i].name, quiet)
    requires m.i == |checks| && !Written(t.closures[i])
    ensures Alone(Apply(checks, os, t, m), i, checks[i].name, quiet)
  {
    LaunchStaysTame(checks, os, t, m, checks[i].name);
  }

  lemma WriteAlone(checks: seq<Peer>, os: seq<Outcome>, t: TickState, i: nat, quiet: bool)
    requires Enabled(checks, os, t, Change(i)) && Alone(t, i, checks[i].name, quiet) && os[i] == Fail
    ensures Alone(Apply(checks, os, t, Change(i)), i, checks[i].name, quiet)
  {
    var t' := Apply(checks, os, t, Change(i));
    if t.closures[i].Holding? {
      assert CleanClosure(t'.closures[|checks|], checks[i].name);
    }
  }

  lemma MoveAlone(checks: seq<Peer>, os: seq<Outcome>, t: TickState, m: Move, i: nat, quiet: bool)
    requires Enabled(checks, os, t, m) && i < |checks| && Alone(t, i, checks[i].name, quiet)
    requires NeverRevived(checks, os, checks[i].name)
    ensures Alone(Apply(checks, os, t, m), i, checks[i].name, quiet)
  {
    assert m.i == i || m.i == |checks|;
    if Written(t.closures[i]) {
      MoveClean(checks, os, t, m, checks[i].name);
    } else if m.i == |checks| {
      LaunchMoveAlone(checks, os, t, m, i, quiet);
    } else {
      WriteAlone(checks, os, t, i, quiet);
    }
  }

  lemma {:induction false} MovesAlone(checks: seq<Peer>, os: seq<Outcome>, t: TickState, ms: seq<Move>, i: nat,
                                      quiet: bool)
    requires Moves(checks, os, t, ms) && i < |checks| && Alone(t, i, checks[i].name, quiet)
    requires NeverRevived(checks, os, checks[i].name)
    ensures Alone(RunMoves(checks, os, t, ms), i, checks[i].name, quiet)
  {
    if ms == [] {
    } else {
      var init, last := ms[..|ms| - 1], ms[|ms| - 1];
      MovesAlone(checks, os, t, init, i, quiet);
      MoveAlone(checks, os, RunMoves(checks, os, t, init), last, i, quiet);
    }
  }

  // ----- actions that run one at a time

  /** The closure is not in the middle of a list change or an election. */
  predicate Idle(c: Closure) {
    c.Waiting? || c.Changed? || c.Over?
  }

  ghost predicate OthersIdle(t: TickState, i: nat) {
    forall k :: 0 <= k < |t.closures| && k != i ==> Idle(t.closures[k])
  }

  /** List changes and elections run one at a time: nobody moves while another is in the middle of one. */
  ghost predicate OneAtATime(checks: seq<Peer>, os: seq<Outcome>, t: TickState, ms: seq<Move>)
    requires Moves(checks, os, t, ms)
  {
    ms != [] ==>
      && OneAtATime(checks, os, t, ms[..|ms| - 1])
      && OthersIdle(RunMoves(checks, os, t, ms[..|ms| - 1]), ms[|ms| - 1].i)
  }

  /** What action i holds is clean, and once it has written, everything is. */
  ghost predicate InTurn(t: TickState, i: nat, name: string) {
    && i < |t.closures|
    && match t.closures[i]
       case Waiting => true
       case Holding(kept) => NoneNamed(kept, name)
       case _ => Clean(t, name) && Unelected(t, name)
  }

  lemma MoveInTurn(checks: seq<Peer>, os: seq<Outcome>, t: TickState, m: Move, i: nat)
    requires Enabled(checks, os, t, m) && i < |checks| && InTurn(t, i, checks[i].name) && OthersIdle(t, m.i)
    requires NeverRevived(checks, os, checks[i].name)
    ensures InTurn(Apply(checks, os, t, m), i, checks[i].name)
  {
    if Written(t.closures[i]) {
      MoveClean(checks, os, t, m, checks[i].name);
    }
  }

  lemma {:induction false} MovesInTurn(checks: seq<Peer>, os: seq<Outcome>, t: TickState, ms: seq<Move>, i: nat)
    requires Moves(checks, os, t, ms) && OneAtATime(checks, os, t, ms)
    requires i < |checks| && InTurn(t, i, checks[i].name) && NeverRevived(checks, os, checks[i].name)
    ensures InTurn(RunMoves(checks, os, t, ms), i, checks[i].name)
  {
    if ms == [] {
    } else {
      var init, last := ms[..|ms| - 1], ms[|ms| - 1];
      MovesInTurn(checks, os, t, init, i);
      MoveInTurn(checks, os, RunMoves(checks, os, t, init), last, i);
    }
  }

  lemma {:induction false} OneAtATimePrefix(checks: seq<Peer>, os: seq<Outcome>, t: TickState, ms: seq<Move>, k: nat)
    requires Moves(checks, os, t, ms) && OneAtATime(checks, os, t, ms) && k <= |ms|
    ensures Moves(checks, os, t, ms[..k]) && OneAtATime(checks, os, t, ms[..k])
    decreases |ms|
  {
    if k == |ms| {
      assert ms[..k] == ms;
    } else {
      OneAtATimePrefix(checks, os, t, ms[..|ms| - 1], k);
      assert ms[..|ms| - 1][..k] == ms[..k];
    }
  }

  /** One closure runs while all others are idle. */
  lemma {:induction false} SoloIsOneAtATime(checks: seq<Peer>, os: seq<Outcome>, t: TickState, ms: seq<Move>, i: nat)
    requires Moves(checks, os, t, ms) && MovesOf(ms, i) && OthersIdle(t, i)
    ensures OneAtATime(checks, os, t, ms) && OthersIdle(RunMoves(checks, os, t, ms), i)
  {
    if ms == [] {
    } else {
      var init := ms[..|ms| - 1];
      SoloIsOneAtATime(checks, os, t, init, i);
      assert ms[|ms| - 1].i == i;
    }
  }

  lemma {:induction false} OneAfterAnother(checks: seq<Peer>, os: seq<Outcome>, t: TickState, ms: seq<Move>,
                                           ns: seq<Move>)
    requires Moves(checks, os, t, ms) && OneAtATime(checks, os, t, ms)
    requires Moves(checks, os, RunMoves(checks, os, t, ms), ns)
    requires OneAtATime(checks, os, RunMoves(checks, os, t, ms), ns)
    ensures Moves(checks, os, t, ms + ns) && OneAtATime(checks, os, t, ms + ns)
  {
    MovesConcat(checks, os, t, ms, ns);
    if ns == [] {
      assert ms + ns == ms;
    } else {
      var init := ns[..|ns| - 1];
      OneAfterAnother(checks, os, t, ms, init);
      MovesConcat(checks, os, t, ms, init);
      assert (ms + ns)[..|ms + ns| - 1] == ms + init;
    }
  }

  /** The first n actions run one after the other. */
  lemma {:induction false} FinishInTurn(checks: seq<Peer>, os: seq<Outcome>, t: TickState, n: nat)
    returns (ms: seq<Move>)
    requires FitsTick(checks, os, t) && n <= |checks| && forall i :: 0 <= i <= |checks| ==> Idle(t.closures[i])
    ensures Moves(checks, os, t, ms) && OneAtATime(checks, os, t, ms)
    ensures OthersOver(t, RunMoves(checks, os, t, ms), n, |checks|)
  {
    ms := [];
    if n == 0 {
    } else {
      ms := FinishInTurn(checks, os, t, n - 1);
      var t1 := RunMoves(checks, os, t, ms);
      var ns := Finish(checks, os, t1, n - 1);
      SoloIsOneAtATime(checks, os, t1, ns, n - 1);
      OneAfterAnother(checks, os, t, ms, ns);
      MovesConcat(checks, os, t, ms, ns);
      ms := ms + ns;
    }
  }

  // ----- ticks that drop failed peers

  /** The name is in no list, neither the shared one nor one the launch election has still to write. */
  ghost predicate Out(s: Cluster, name: string) {
    NoneNamed(s.peers, name) && CleanClosure(s.launch, name)
  }

  /** No peer whose check counts as failed is in a list. */
  ghost predicate FailedAreOut(checks: seq<Peer>, s: Cluster) {
    && FitsCluster(checks, s)
    && forall i :: 0 <= i < |checks| && s.locals[i].failed ==> Out(s, checks[i].name)
  }

  /** The failed action of a peer that is not out fires. */
  ghost predicate Failing(checks: seq<Peer>, s: Cluster, os: seq<Outcome>, i: nat)
    requires i < |checks| == |s.locals| == |os|
  {
    os[i] == Fail && FiresIn(s, os, i) && !Out(s, checks[i].name)
  }

  /** Every such action fires with no other in the tick, and beside a tame launch election. */
  ghost predicate FailuresFireAlone(checks: seq<Peer>, s: Cluster, os: seq<Outcome>)
    requires |checks| == |s.locals| == |os|
  {
    && (forall i :: 0 <= i < |checks| && Failing(checks, s, os, i) ==> Tame(s.launch, s.peers, checks[i].name))
    && (forall i, k :: 0 <= i < |checks| && 0 <= k < |checks| && i != k && Failing(checks, s, os, i) ==>
          !FiresIn(s, os, k))
  }

  /** Failing peers fire alone, or the schedule runs actions one at a time. */
  ghost predicate OrderlyTick(checks: seq<Peer>, s: Cluster, os: seq<Outcome>, ms: seq<Move>)
    requires FullTick(checks, s, os, ms)
  {
    FailuresFireAlone(checks, s, os) || OneAtATime(checks, os, Opening(s, os), ms)
  }

  /** How a tick starts for a peer that counts as failed after it. */
  lemma FailedAtOpening(checks: seq<Peer>, s: Cluster, os: seq<Outcome>, i: nat)
    requires DistinctNames(checks) && FailedAreOut(checks, s) && |os| == |checks|
    requires i < |checks| && CheckTrace.After(PEER_FAILURES, s.locals[i], os[i]).failed
    ensures FitsTick(checks, os, Opening(s, os)) && NeverRevived(checks, os, checks[i].name)
    ensures if Out(s, checks[i].name) then Clean(Opening(s, os), checks[i].name) else Failing(checks, s, os, i)
  {
  }

  /** After every prefix of an orderly tick, a peer that counts as failed at its end and whose action has
      written is in no list. No election has chosen it, if the actions run one at a time and none had
      chosen it before, or if the launch election is over. */
  lemma WrittenIsOut(checks: seq<Peer>, s: Cluster, os: seq<Outcome>, ms: seq<Move>, k: nat, i: nat)
    requires DistinctNames(checks) && FailedAreOut(checks, s) && FullTick(checks, s, os, ms)
    requires OrderlyTick(checks, s, os, ms) && k <= |ms|
    requires i < |checks| && RunTick(checks, s, os, ms).locals[i].failed
    ensures Moves(checks, os, Opening(s, os), ms[..k])
    ensures var t := RunMoves(checks, os, Opening(s, os), ms[..k]);
            Written(t.closures[i]) ==>
              && Clean(t, checks[i].name)
              && (s.launch == Over ||
                  (OneAtATime(checks, os, Opening(s, os), ms) && !Elects(s.launch, checks[i].name)) ==>
                    Unelected(t, checks[i].name))
  {
    var t, name := Opening(s, os), checks[i].name;
    FailedAtOpening(checks, s, os, i);
    MovesPrefix(checks, os, t, ms, k);
    if Out(s, name) {
      MovesClean(checks, os, t, ms[..k], name);
    } else if OneAtATime(checks, os, t, ms) {
      OneAtATimePrefix(checks, os, t, ms, k);
      MovesInTurn(checks, os, t, ms[..k], i);
    } else {
      MovesAlone(checks, os, t, ms[..k], i, s.launch == Over);
    }
  }

  lemma {:induction false} LaunchStaysWellFormed(checks: seq<Peer>, os: seq<Outcome>, t: TickState, ms: seq<Move>)
    requires Moves(checks, os, t, ms) && WellFormed(t.closures[|checks|])
    ensures WellFormed(RunMoves(checks, os, t, ms).closures[|checks|])
  {
    if ms == [] {
    } else {
      LaunchStaysWellFormed(checks, os, t, ms[..|ms| - 1]);
    }
  }

  lemma TickFits(checks: seq<Peer>, s: Cluster, os: seq<Outcome>, ms: seq<Move>)
    requires FullTick(checks, s, os, ms)
    ensures FitsCluster(checks, RunTick(checks, s, os, ms))
  {
    LaunchStaysWellFormed(checks, os, Opening(s, os), ms);
  }

  lemma TickDropsFailed(checks: seq<Peer>, s: Cluster, os: seq<Outcome>, ms: seq<Move>, i: nat)
    requires DistinctNames(checks) && FailedAreOut(checks, s) && FullTick(checks, s, os, ms)
    requires OrderlyTick(checks, s, os, ms)
    requires i < |checks| && RunTick(checks, s, os, ms).locals[i].failed
    ensures Out(RunTick(checks, s, os, ms), checks[i].name)
  {
    WrittenIsOut(checks, s, os, ms, |ms|, i);
    assert ms[..|ms|] == ms;
    assert RunMoves(checks, os, Opening(s, os), ms).closures[i] == Over;
  }

  lemma OrderlyTickDropsFailed(checks: seq<Peer>, s: Cluster, os: seq<Outcome>, ms: seq<Move>)
    requires DistinctNames(checks) && FailedAreOut(checks, s) && FullTick(checks, s, os, ms)
    requires OrderlyTick(checks, s, os, ms)
    ensures FailedAreOut(checks, RunTick(checks, s, os, ms))
  {
    TickFits(checks, s, os, ms);
    forall i | 0 <= i < |checks| && RunTick(checks, s, os, ms).locals[i].failed
      ensures Out(RunTick(checks, s, os, ms), checks[i].name)
    {
      TickDropsFailed(checks, s, os, ms, i);
    }
  }

  /** Whatever actions fire together, a tick that runs them one at a time leaves every failed peer out. */
  lemma OneAtATimeDropsFailed(checks: seq<Peer>, s: Cluster, os: seq<Outcome>, ms: seq<Move>)
    requires DistinctNames(checks) && FailedAreOut(checks, s) && FullTick(checks, s, os, ms)
    requires OneAtATime(checks, os, Opening(s, os), ms)
    ensures FailedAreOut(checks, RunTick(checks, s, os, ms))
  {
    OrderlyTickDropsFailed(checks, s, os, ms);
  }

  lemma {:induction false} RestOfTick(checks: seq<Peer>, os: seq<Outcome>, t: TickState, ms: seq<Move>, ns: seq<Move>)
    requires Moves(checks, os, t, ms + ns)
    ensures Moves(checks, os, t, ms) && Moves(checks, os, RunMoves(checks, os, t, ms), ns)
    ensures RunMoves(checks, os, RunMoves(checks, os, t, ms), ns) == RunMoves(checks, os, t, ms + ns)
    decreases |ns|
  {
    if ns == [] {
      assert ms + ns == ms;
    } else {
      var init, last := Unroll(checks, os, t, ms + ns);
      var rest := ns[..|ns| - 1];
      assert init == ms + rest && ns == rest + [last];
      RestOfTick(checks, os, t, ms, rest);
      Then(checks, os, RunMoves(checks, os, t, ms), rest, last);
    }
  }

  /** After k moves of the tick: if the action of peer i has written, no list holds the name then or at the
      end, and no election that has not chosen it yet makes it publisher. */
  ghost predicate StaysOut(checks: seq<Peer>, s: Cluster, os: seq<Outcome>, ms: seq<Move>, i: nat, k: nat)
    requires FullTick(checks, s, os, ms) && i < |checks| && k <= |ms|
  {
    && Moves(checks, os, Opening(s, os), ms[..k])
    && var t, end, name := RunMoves(checks, os, Opening(s, os), ms[..k]), RunTick(checks, s, os, ms), checks[i].name;
       Written(t.closures[i]) ==>
         && Clean(t, name) && Out(end, name)
         && (Unelected(t, name) ==> NotPublished(t.publisher, end.publisher, name))
         && (s.launch == Over || (OneAtATime(checks, os, Opening(s, os), ms) && !Elects(s.launch, name)) ==>
               Unelected(t, name))
  }

  lemma WrittenStaysOut(checks: seq<Peer>, s: Cluster, os: seq<Outcome>, ms: seq<Move>, i: nat, k: nat)
    requires DistinctNames(checks) && FailedAreOut(checks, s) && FullTick(checks, s, os, ms)
    requires OrderlyTick(checks, s, os, ms) && k <= |ms|
    requires i < |checks| && RunTick(checks, s, os, ms).locals[i].failed
    ensures StaysOut(checks, s, os, ms, i, k)
  {
    FailedAtOpening(checks, s, os, i);
    WrittenIsOut(checks, s, os, ms, k, i);
    assert ms == ms[..k] + ms[k..];
    RestOfTick(checks, os, Opening(s, os), ms[..k], ms[k..]);
    var t := RunMoves(checks, os, Opening(s, os), ms[..k]);
    if Written(t.closures[i]) {
      MovesClean(checks, os, t, ms[k..], checks[i].name);
    }
  }

  /** Every tick can run one action after the other, after the launch election if that is under way. */
  lemma SerialTick(checks: seq<Peer>, s: Cluster, os: seq<Outcome>) returns (ms: seq<Move>)
    requires FitsCluster(checks, s) && |os| == |checks|
    ensures FullTick(checks, s, os, ms) && OneAtATime(checks, os, Opening(s, os), ms)
  {
    var t := Opening(s, os);
    ms := Finish(checks, os, t, |checks|);
    SoloIsOneAtATime(checks, os, t, ms, |checks|);
    var t1 := RunMoves(checks, os, t, ms);
    var ns := FinishInTurn(checks, os, t1, |checks|);
    OneAfterAnother(checks, os, t, ms, ns);
    MovesConcat(checks, os, t, ms, ns);
    ms := ms + ns;
  }

  // ----- a stale list written back

  /** Move m of the closure writes a list with this peer in it. */
  ghost predicate HoldsBack(c: Closure, p: Peer, m: Move) {
    match c
    case Holding(kept) => p in kept && m.Change?
    case Electing(_, _, _, stages) =>
      WellFormed(c) && m.Advance? && m.j < |stages| && stages[m.j].Writing? && p in stages[m.j].kept
    case _ => false
  }

  /** After that move the closure removes nothing any more. */
  ghost predicate QuietBut(c: Closure, m: Move) {
    c.Electing? && WellFormed(c) && m.Advance? ==>
      forall j :: 0 <= j < |c.stages| && j != m.j ==> QuietStage(c.stages[j], c.answers[j])
  }

  lemma WriteBack(checks: seq<Peer>, os: seq<Outcome>, t: TickState, p: Peer, m: Move) returns (ms: seq<Move>)
    requires FitsTick(checks, os, t) && m.i <= |checks| && HoldsBack(t.closures[m.i], p, m)
    requires m.i < |checks| ==> QuietBut(t.closures[m.i], m)
    ensures Moves(checks, os, t, ms) && OnlyMoved(t, RunMoves(checks, os, t, ms), m.i)
    ensures m.i < |checks| ==> RunMoves(checks, os, t, ms).closures[m.i] == Over
    ensures p in RunMoves(checks, os, t, ms).peers
  {
    var t1 := Apply(checks, os, t, m);
    ms := [];
    if m.i < |checks| {
      assert Quiet(t1.closures[m.i]);
      ms := Finish(checks, os, t1, m.i);
    }
    First(checks, os, t, m, ms);
    ms := [m] + ms;
  }

  /** A failed action that has read the list holds back every listed peer of another name. */
  lemma HoldBackFailing(checks: seq<Peer>, os: seq<Outcome>, t: TickState, k: nat, p: Peer)
    returns (ms: seq<Move>, m: Move)
    requires FitsTick(checks, os, t) && k < |checks| && t.closures[k] == Waiting && os[k] == Fail
    requires p in t.peers && p.name != checks[k].name
    ensures Moves(checks, os, t, ms) && OnlyMoved(t, RunMoves(checks, os, t, ms), k)
    ensures m.i == k && HoldsBack(RunMoves(checks, os, t, ms).closures[k], p, m)
    ensures QuietBut(RunMoves(checks, os, t, ms).closures[k], m)
  {
    m := Change(k);
    Single(checks, os, t, m);
    ms := [m];
  }

  /** So does the removal of a peer that did not answer, once it has read the list. */
  lemma {:induction false} ReadList(checks: seq<Peer>, os: seq<Outcome>, t: TickState, k: nat, j: nat, p: Peer)
    returns (ms: seq<Move>, m: Move)
    requires FitsTick(checks, os, t) && k <= |checks| && t.closures[k].Electing? && WellFormed(t.closures[k])
    requires j < |t.closures[k].round| && p in t.peers && p.name != t.closures[k].round[j].name
    requires t.closures[k].stages[j] == Reading ||
             (t.closures[k].stages[j] == Asking && t.closures[k].answers[j].Unreachable?)
    ensures Moves(checks, os, t, ms) && OnlyMoved(t, RunMoves(checks, os, t, ms), k)
    ensures m.i == k && HoldsBack(RunMoves(checks, os, t, ms).closures[k], p, m)
    ensures (forall l :: 0 <= l < |t.closures[k].stages| && l != j ==>
               QuietStage(t.closures[k].stages[l], t.closures[k].answers[l])) ==>
              QuietBut(RunMoves(checks, os, t, ms).closures[k], m)
    decreases Left(t.closures[k].stages[j])
  {
    var advance := Advance(k, j);
    var t1 := Apply(checks, os, t, advance);
    if t.closures[k].stages[j] == Reading {
      m := advance;
      Single(checks, os, t, advance);
      ms := [advance];
    } else {
      ms, m := ReadList(checks, os, t1, k, j, p);
      First(checks, os, t, advance, ms);
      ms := [advance] + ms;
    }
  }

  /** An election that has not begun can lose the answer of any listed peer. */
  lemma BeginLosing(checks: seq<Peer>, os: seq<Outcome>, t: TickState, k: nat, j: nat, p: Peer)
    returns (ms: seq<Move>, m: Move)
    requires FitsTick(checks, os, t) && k <= |checks| && t.closures[k] == Changed
    requires j < |t.peers| && p in t.peers && p.name != t.peers[j].name
    ensures Moves(checks, os, t, ms) && OnlyMoved(t, RunMoves(checks, os, t, ms), k)
    ensures m.i == k && HoldsBack(RunMoves(checks, os, t, ms).closures[k], p, m)
    ensures QuietBut(RunMoves(checks, os, t, ms).closures[k], m)
  {
    var begin := Begin(k, seq(|t.peers|, l => if l == j then Unreachable else Uptime(1)));
    ms, m := ReadList(checks, os, Apply(checks, os, t, begin), k, j, p);
    First(checks, os, t, begin, ms);
    ms := [begin] + ms;
  }

  /** A revived peer may fail to answer its own election. */
  lemma HoldBackReviving(checks: seq<Peer>, os: seq<Outcome>, t: TickState, k: nat, p: Peer)
    returns (ms: seq<Move>, m: Move)
    requires FitsTick(checks, os, t) && k < |checks| && t.closures[k] == Waiting && os[k] == Pass
    requires p in t.peers && p.name != checks[k].name
    ensures Moves(checks, os, t, ms) && OnlyMoved(t, RunMoves(checks, os, t, ms), k)
    ensures m.i == k && HoldsBack(RunMoves(checks, os, t, ms).closures[k], p, m)
    ensures QuietBut(RunMoves(checks, os, t, ms).closures[k], m)
  {
    ms, m := BeginLosing(checks, os, Apply(checks, os, t, Change(k)), k, |t.peers|, p);
    First(checks, os, t, Change(k), ms);
    ms := [Change(k)] + ms;
  }

  /** A launch election that is not tame can hold the name back. */
  lemma HoldBackLaunch(checks: seq<Peer>, os: seq<Outcome>, t: TickState, name: string)
    returns (ms: seq<Move>, m: Move, p: Peer)
    requires FitsTick(checks, os, t) && WellFormed(t.closures[|checks|])
    requires !Tame(t.closures[|checks|], t.peers, name)
    requires !NoneNamed(t.peers, name) || !CleanClosure(t.closures[|checks|], name)
    ensures Moves(checks, os, t, ms) && OnlyMoved(t, RunMoves(checks, os, t, ms), |checks|)
    ensures m.i == |checks| && p.name == name && HoldsBack(RunMoves(checks, os, t, ms).closures[m.i], p, m)
  {
    var l, c := |checks|, t.closures[|checks|];
    if !CleanClosure(c, name) {
      var j: nat :| j < |c.stages| && c.stages[j].Writing? && !NoneNamed(c.stages[j].kept, name);
      p :| p in c.stages[j].kept && p.name == name;
      ms, m := [], Advance(l, j);
    } else {
      p :| p in t.peers && p.name == name;
      if c.Changed? {
        var j: nat :| j < |t.peers| && t.peers[j].name != name;
        ms, m := BeginLosing(checks, os, t, l, j, p);
      } else {
        var j: nat :| j < |c.stages| && !TameStage(c.stages[j], c.answers[j], c.round[j], name);
        ms, m := ReadList(checks, os, t, l, j, p);
      }
    }
  }

  /** A peer that is held back can be written back at the end of the tick. */
  lemma WriteBackLast(checks: seq<Peer>, s: Cluster, os: seq<Outcome>, held: seq<Move>, m: Move, p: Peer)
    returns (ms: seq<Move>)
    requires FitsCluster(checks, s) && |os| == |checks| && Moves(checks, os, Opening(s, os), held)
    requires m.i <= |checks| && OnlyMoved(Opening(s, os), RunMoves(checks, os, Opening(s, os), held), m.i)
    requires HoldsBack(RunMoves(checks, os, Opening(s, os), held).closures[m.i], p, m)
    requires m.i < |checks| ==> QuietBut(RunMoves(checks, os, Opening(s, os), held).closures[m.i], m)
    ensures FullTick(checks, s, os, ms) && p in RunTick(checks, s, os, ms).peers
  {
    var t := Opening(s, os);
    var t1 := RunMoves(checks, os, t, held);
    assert forall j :: 0 <= j < |checks| ==> WellFormed(t1.closures[j]);
    var ns := FinishOthers(checks, os, t1, |checks|, m.i);
    MovesConcat(checks, os, t, held, ns);
    ms := held + ns;
    ns := WriteBack(checks, os, RunMoves(checks, os, t, ms), p, m);
    MovesConcat(checks, os, t, ms, ns);
    ms := ms + ns;
  }

  /** Two actions in one tick: the other can read the list before action i removes its peer, and write it
      back afterwards. */
  lemma LosingTick(checks: seq<Peer>, s: Cluster, os: seq<Outcome>, i: nat, k: nat) returns (ms: seq<Move>)
    requires DistinctNames(checks) && FitsCluster(checks, s) && |os| == |checks|
    requires i < |checks| && k < |checks| && i != k && !NoneNamed(s.peers, checks[i].name) && FiresIn(s, os, k)
    ensures FullTick(checks, s, os, ms) && !NoneNamed(RunTick(checks, s, os, ms).peers, checks[i].name)
  {
    var t := Opening(s, os);
    var p :| p in s.peers && p.name == checks[i].name;
    var m: Move;
    if os[k] == Fail {
      ms, m := HoldBackFailing(checks, os, t, k, p);
    } else {
      ms, m := HoldBackReviving(checks, os, t, k, p);
    }
    ms := WriteBackLast(checks, s, os, ms, m, p);
  }

  /** So can a launch election that is not tame. */
  lemma LosingLaunch(checks: seq<Peer>, s: Cluster, os: seq<Outcome>, i: nat) returns (ms: seq<Move>)
    requires FitsCluster(checks, s) && |os| == |checks| && i < |checks|
    requires !Out(s, checks[i].name) && !Tame(s.launch, s.peers, checks[i].name)
    ensures FullTick(checks, s, os, ms) && !NoneNamed(RunTick(checks, s, os, ms).peers, checks[i].name)
  {
    var m, p;
    ms, m, p := HoldBackLaunch(checks, os, Opening(s, os), checks[i].name);
    ms := WriteBackLast(checks, s, os, ms, m, p);
  }

  lemma LosingMoves(checks: seq<Peer>, s: Cluster, os: seq<Outcome>) returns (ms: seq<Move>)
    requires DistinctNames(checks) && FailedAreOut(checks, s) && |os| == |checks|
    requires !FailuresFireAlone(checks, s, os)
    ensures FullTick(checks, s, os, ms) && !FailedAreOut(checks, RunTick(checks, s, os, ms))
  {
    var i: nat :| i < |checks| && Failing(checks, s, os, i) &&
                  (!Tame(s.launch, s.peers, checks[i].name) ||
                   exists k :: 0 <= k < |checks| && i != k && FiresIn(s, os, k));
    if Tame(s.launch, s.peers, checks[i].name) {
      var k: nat :| k < |checks| && i != k && FiresIn(s, os, k);
      ms := LosingTick(checks, s, os, i, k);
    } else {
      ms := LosingLaunch(checks, s, os, i);
    }
    assert RunTick(checks, s, os, ms).locals[i].failed;
  }

  /** Every interleaving of a tick leaves all failed peers out of the list if and only if each peer whose
      failed action fires, and that is not out already, does so with no other action and beside a launch
      election that is over or tame. */
  lemma TickDropsFailedIff(checks: seq<Peer>, s: Cluster, os: seq<Outcome>)
    requires DistinctNames(checks) && FailedAreOut(checks, s) && |os| == |checks|
    ensures FailuresFireAlone(checks, s, os) <==>
            forall ms :: FullTick(checks, s, os, ms) ==> FailedAreOut(checks, RunTick(checks, s, os, ms))
  {
    if FailuresFireAlone(checks, s, os) {
      forall ms | FullTick(checks, s, os, ms)
        ensures FailedAreOut(checks, RunTick(checks, s, os, ms))
      {
        OrderlyTickDropsFailed(checks, s, os, ms);
      }
    } else {
      var ms := LosingMoves(checks, s, os);
    }
  }

  // ----- whole runs

  datatype Tick = Tick(outcomes: seq<Outcome>, moves: seq<Move>)

  ghost predicate Valid(checks: seq<Peer>, ticks: seq<Tick>)
    decreases |ticks|, 0
  {
    ticks != [] ==>
      var last := ticks[|ticks| - 1];
      Valid(checks, ticks[..|ticks| - 1]) &&
      FullTick(checks, Play(checks, ticks[..|ticks| - 1]), last.outcomes, last.moves)
  }

  /** A run from the launch, where every configured peer has a check and the launch election is to begin. */
  function Play(checks: seq<Peer>, ticks: seq<Tick>): Cluster
    requires Valid(checks, ticks)
    decreases |ticks|, 1
  {
    if ticks == [] then Cluster(checks, None, seq(|checks|, _ => FRESH), Changed)
    else
      var last := ticks[|ticks| - 1];
      RunTick(checks, Play(checks, ticks[..|ticks| - 1]), last.outcomes, last.moves)
  }

  /** Every tick of the run is orderly. */
  ghost predicate Orderly(checks: seq<Peer>, ticks: seq<Tick>)
    requires Valid(checks, ticks)
  {
    ticks != [] ==>
      var init, last := ticks[..|ticks| - 1], ticks[|ticks| - 1];
      Orderly(checks, init) && OrderlyTick(checks, Play(checks, init), last.outcomes, last.moves)
  }

  /** The outcomes of check i so far. */
  ghost function Outcomes(checks: seq<Peer>, ticks: seq<Tick>, i: nat): seq<Outcome>
    requires Valid(checks, ticks) && i < |checks|
  {
    if ticks == [] then []
    else Outcomes(checks, ticks[..|ticks| - 1], i) + [ticks[|ticks| - 1].outcomes[i]]
  }

  lemma {:induction false} RunReplays(checks: seq<Peer>, ticks: seq<Tick>, i: nat)
    requires Valid(checks, ticks) && i < |checks|
    ensures |Play(checks, ticks).locals| == |checks|
    ensures Play(checks, ticks).locals[i] == Replay(PEER_FAILURES, Outcomes(checks, ticks, i))
  {
    if ticks == [] {
    } else {
      var init, last := ticks[..|ticks| - 1], ticks[|ticks| - 1];
      RunReplays(checks, init, i);
      StreakOfPush(Outcomes(checks, init, i), last.outcomes[i]);
    }
  }

  lemma {:induction false} RunFailedAreOut(checks: seq<Peer>, ticks: seq<Tick>)
    requires DistinctNames(checks) && Valid(checks, ticks) && Orderly(checks, ticks)
    ensures FailedAreOut(checks, Play(checks, ticks))
  {
    if ticks == [] {
    } else {
      var init, last := ticks[..|ticks| - 1], ticks[|ticks| - 1];
      RunFailedAreOut(checks, init);
      OrderlyTickDropsFailed(checks, Play(checks, init), last.outcomes, last.moves);
    }
  }

  /** In the last tick of an orderly run, from the moment its action has written, a peer that ends with
      three failures in a row is in no list, and unless an election had already chosen it, it is not
      published any more. With the launch election over, or actions run one at a time, none had. */
  lemma FailedPeersAreNeverElected(checks: seq<Peer>, ticks: seq<Tick>, last: Tick, i: nat, k: nat)
    requires DistinctNames(checks) && Valid(checks, ticks + [last]) && Valid(checks, ticks)
    requires FullTick(checks, Play(checks, ticks), last.outcomes, last.moves) && Orderly(checks, ticks)
    requires OrderlyTick(checks, Play(checks, ticks), last.outcomes, last.moves)
    requires i < |checks| && Streak(Outcomes(checks, ticks + [last], i)) >= PEER_FAILURES && k <= |last.moves|
    ensures StaysOut(checks, Play(checks, ticks), last.outcomes, last.moves, i, k)
    ensures NoneNamed(Play(checks, ticks + [last]).peers, checks[i].name)
  {
    PlayMore(checks, ticks, last);
    RunReplays(checks, ticks + [last], i);
    TraceForm(PEER_FAILURES, Outcomes(checks, ticks + [last], i));
    RunFailedAreOut(checks, ticks);
    WrittenStaysOut(checks, Play(checks, ticks), last.outcomes, last.moves, i, k);
    TickDropsFailed(checks, Play(checks, ticks), last.outcomes, last.moves, i);
  }

  lemma PlayMore(checks: seq<Peer>, ticks: seq<Tick>, tick: Tick)
    requires Valid(checks, ticks) && FullTick(checks, Play(checks, ticks), tick.outcomes, tick.moves)
    ensures Valid(checks, ticks + [tick])
    ensures Play(checks, ticks + [tick]) == RunTick(checks, Play(checks, ticks), tick.outcomes, tick.moves)
    ensures forall i: nat :: i < |checks| ==>
              Outcomes(checks, ticks + [tick], i) == Outcomes(checks, ticks, i) + [tick.outcomes[i]]
  {
    assert (ticks + [tick])[..|ticks + [tick]| - 1] == ticks;
  }
}
