/** One election round: uptimes are gathered from all peers at once, and unreachable peers are removed
    by a read and a later write that other removals may come between. */
module ElectionRound {
  import opened Basics
  import opened Peers

  datatype Answer = Unreachable | Uptime(d: int)

  /** How far a goroutine is; a peer that did not answer is removed by a read and a write. */
  datatype Stage = Asking | Reading | Writing(kept: seq<Peer>) | Done

  datatype State = State(peers: seq<Peer>, uptimes: map<string, int>, stages: seq<Stage>)

  ghost predicate Fits(round: seq<Peer>, answers: seq<Answer>, s: State) {
    |round| == |answers| == |s.stages|
  }

  function Step(round: seq<Peer>, answers: seq<Answer>, s: State, i: nat): State
    requires Fits(round, answers, s) && i < |round|
  {
    match s.stages[i]
    case Asking =>
      if answers[i].Uptime? then s.(uptimes := s.uptimes[round[i].name := answers[i].d], stages := s.stages[i := Done])
      else s.(stages := s.stages[i := Reading])
    case Reading => s.(stages := s.stages[i := Writing(Without(s.peers, round[i].name))])
    case Writing(kept) => s.(peers := kept, stages := s.stages[i := Done])
    case Done => s
  }

  predicate Schedule(round: seq<Peer>, p: seq<nat>) {
    forall k :: 0 <= k < |p| ==> p[k] < |round|
  }

  function Run(round: seq<Peer>, answers: seq<Answer>, s: State, p: seq<nat>): (s': State)
    requires Fits(round, answers, s) && Schedule(round, p)
    ensures Fits(round, answers, s')
  {
    if p == [] then s else Step(round, answers, Run(round, answers, s, p[..|p| - 1]), p[|p| - 1])
  }

  function Start(round: seq<Peer>): State {
    State(round, map[], seq(|round|, _ => Asking))
  }

  ghost predicate Complete(s: State) {
    forall i :: 0 <= i < |s.stages| ==> s.stages[i] == Done
  }

  /** A schedule under which every goroutine of the round finishes. */
  ghost predicate FullRound(round: seq<Peer>, answers: seq<Answer>, p: seq<nat>) {
    |round| == |answers| && Schedule(round, p) && Complete(Run(round, answers, Start(round), p))
  }

  function Gather(round: seq<Peer>, answers: seq<Answer>, p: seq<nat>): State
    requires |round| == |answers| && Schedule(round, p)
  {
    Run(round, answers, Start(round), p)
  }

  // ----- choosing the oldest, in any order of the uptimes

  function Oldest(order: seq<string>, uptimes: map<string, int>): (string, int)
    requires forall k :: 0 <= k < |order| ==> order[k] in uptimes
  {
    if order == [] then ("", 0)
    else
      var (name, d) := Oldest(order[..|order| - 1], uptimes);
      var x := order[|order| - 1];
      if uptimes[x] > d then (x, uptimes[x]) else (name, d)
  }

  function Vote(order: seq<string>, s: State): Option<Peer>
    requires Enumerates(order, s.uptimes.Keys)
  {
    Find(s.peers, Oldest(order, s.uptimes).0)
  }

  /** The choice is a peer of maximal positive uptime, or the empty name if no uptime is positive. */
  lemma {:induction false} OldestIsMaximal(order: seq<string>, uptimes: map<string, int>)
    requires forall k :: 0 <= k < |order| ==> order[k] in uptimes
    ensures var (name, d) := Oldest(order, uptimes);
            && (if exists n :: n in order && uptimes[n] > 0 then d > 0 && name in order && uptimes[name] == d
                else name == "" && d == 0)
            && forall n :: n in order ==> uptimes[n] <= d
  {
    if order == [] {
    } else {
      var init, x := order[..|order| - 1], order[|order| - 1];
      assert order == init + [x];
      OldestIsMaximal(init, uptimes);
    }
  }

  // ----- the list never loses a responder

  ghost predicate SublistsOf(round: seq<Peer>, s: State) {
    && Subsequence(s.peers, round)
    && forall i :: 0 <= i < |s.stages| && s.stages[i].Writing? ==> Subsequence(s.stages[i].kept, round)
  }

  lemma {:induction false} RoundKeepsOrder(round: seq<Peer>, answers: seq<Answer>, p: seq<nat>)
    requires |round| == |answers| && Schedule(round, p)
    ensures SublistsOf(round, Gather(round, answers, p))
  {
    if p == [] {
      SubsequenceRefl(round);
    } else {
      RoundKeepsOrder(round, answers, p[..|p| - 1]);
      var s, i := Gather(round, answers, p[..|p| - 1]), p[|p| - 1];
      WithoutKeepsOrder(s.peers, round[i].name);
      SubsequenceTrans(Without(s.peers, round[i].name), s.peers, round);
    }
  }

  /** Nobody has started to remove peers of this name. */
  ghost predicate Untouched(round: seq<Peer>, answers: seq<Answer>, s: State, name: string)
    requires Fits(round, answers, s)
  {
    forall i :: 0 <= i < |round| && round[i].name == name ==> answers[i].Uptime? || s.stages[i] in {Asking, Reading}
  }

  ghost predicate KeepsUntouched(round: seq<Peer>, answers: seq<Answer>, s: State, p: Peer)
    requires Fits(round, answers, s)
  {
    Untouched(round, answers, s, p.name) ==>
      p in s.peers && forall i :: 0 <= i < |round| && s.stages[i].Writing? ==> p in s.stages[i].kept
  }

  lemma {:induction false} RespondersRemoveNothing(round: seq<Peer>, answers: seq<Answer>, p: seq<nat>)
    requires |round| == |answers| && Schedule(round, p)
    ensures forall i :: 0 <= i < |round| && answers[i].Uptime? ==> Gather(round, answers, p).stages[i] in {Asking, Done}
  {
    if p == [] {
    } else {
      RespondersRemoveNothing(round, answers, p[..|p| - 1]);
    }
  }

  lemma {:induction false} RoundKeepsUntouched(round: seq<Peer>, answers: seq<Answer>, p: seq<nat>, peer: Peer)
    requires |round| == |answers| && Schedule(round, p) && peer in round
    ensures KeepsUntouched(round, answers, Gather(round, answers, p), peer)
  {
    if p == [] {
    } else {
      RoundKeepsUntouched(round, answers, p[..|p| - 1], peer);
      RespondersRemoveNothing(round, answers, p[..|p| - 1]);
      var s, s' := Gather(round, answers, p[..|p| - 1]), Gather(round, answers, p);
      var i := p[|p| - 1];
      assert forall j :: 0 <= j < |round| && j != i ==> s'.stages[j] == s.stages[j];
      if Untouched(round, answers, s', peer.name) {
        assert Untouched(round, answers, s, peer.name);
      }
    }
  }

  /** No peer that failed to answer shares its name with one that answered. */
  ghost predicate NoSharedName(round: seq<Peer>, answers: seq<Answer>)
    requires |round| == |answers|
  {
    forall i, j :: 0 <= i < |round| && 0 <= j < |round| && answers[i].Unreachable? && answers[j].Uptime? ==>
      round[i].name != round[j].name
  }

  ghost predicate KeepsResponders(round: seq<Peer>, answers: seq<Answer>, peers: seq<Peer>)
    requires |round| == |answers|
  {
    forall i :: 0 <= i < |round| && answers[i].Uptime? ==> round[i] in peers
  }

  lemma RoundKeepsResponders(round: seq<Peer>, answers: seq<Answer>, p: seq<nat>)
    requires |round| == |answers| && Schedule(round, p) && NoSharedName(round, answers)
    ensures KeepsResponders(round, answers, Gather(round, answers, p).peers)
  {
    forall i | 0 <= i < |round| && answers[i].Uptime?
      ensures round[i] in Gather(round, answers, p).peers
    {
      RoundKeepsUntouched(round, answers, p, round[i]);
    }
  }

  lemma RoundKeepsIfNotShared(round: seq<Peer>, answers: seq<Answer>, p: seq<nat>)
    requires |round| == |answers| && Schedule(round, p)
    ensures NoSharedName(round, answers) ==> KeepsResponders(round, answers, Gather(round, answers, p).peers)
  {
    if NoSharedName(round, answers) {
      RoundKeepsResponders(round, answers, p);
    }
  }

  // ----- the uptimes gathered

  /** The table holds for each responder that is done one uptime reported under its name. */
  ghost predicate UptimesReported(round: seq<Peer>, answers: seq<Answer>, s: State)
    requires Fits(round, answers, s)
  {
    && (forall i :: 0 <= i < |round| && answers[i].Uptime? && s.stages[i] == Done ==> round[i].name in s.uptimes)
    && (forall n :: n in s.uptimes ==>
      exists i :: 0 <= i < |round| && round[i].name == n && answers[i] == Uptime(s.uptimes[n]))
  }

  lemma StepReportsUptimes(round: seq<Peer>, answers: seq<Answer>, s: State, i: nat)
    requires Fits(round, answers, s) && i < |round| && UptimesReported(round, answers, s)
    requires answers[i].Uptime? ==> s.stages[i] in {Asking, Done}
    ensures UptimesReported(round, answers, Step(round, answers, s, i))
  {
    var s' := Step(round, answers, s, i);
    forall n | n in s'.uptimes
      ensures exists j :: 0 <= j < |round| && round[j].name == n && answers[j] == Uptime(s'.uptimes[n])
    {
      if n in s.uptimes && s'.uptimes[n] == s.uptimes[n] {
        assert exists j :: 0 <= j < |round| && round[j].name == n && answers[j] == Uptime(s.uptimes[n]);
      } else {
        assert round[i].name == n && answers[i] == Uptime(s'.uptimes[n]);
      }
    }
  }

  lemma {:induction false} RoundReportsUptimes(round: seq<Peer>, answers: seq<Answer>, p: seq<nat>)
    requires |round| == |answers| && Schedule(round, p)
    ensures UptimesReported(round, answers, Gather(round, answers, p))
  {
    if p == [] {
    } else {
      RoundReportsUptimes(round, answers, p[..|p| - 1]);
      RespondersRemoveNothing(round, answers, p[..|p| - 1]);
      StepReportsUptimes(round, answers, Gather(round, answers, p[..|p| - 1]), p[|p| - 1]);
    }
  }

  // ----- the winner

  ghost predicate SomePositive(answers: seq<Answer>) {
    exists i :: 0 <= i < |answers| && answers[i].Uptime? && answers[i].d > 0
  }

  ghost predicate Maximal(answers: seq<Answer>, i: nat)
    requires i < |answers| && answers[i].Uptime?
  {
    forall j :: 0 <= j < |answers| && answers[j].Uptime? ==> answers[j].d <= answers[i].d
  }

  ghost predicate DistinctNames(round: seq<Peer>) {
    forall i, j :: 0 <= i < j < |round| ==> round[i].name != round[j].name
  }

  /** Some peer answered, and every uptime reported under its name is positive. */
  ghost predicate SurelyPositive(round: seq<Peer>, answers: seq<Answer>)
    requires |round| == |answers|
  {
    exists k :: 0 <= k < |round| && answers[k].Uptime? && PositiveName(round, answers, round[k].name)
  }

  ghost predicate PositiveName(round: seq<Peer>, answers: seq<Answer>, name: string)
    requires |round| == |answers|
  {
    forall i :: 0 <= i < |round| && round[i].name == name && answers[i].Uptime? ==> answers[i].d > 0
  }

  /** Some answer given under that name is at most d. */
  ghost predicate ReportsAtMost(round: seq<Peer>, answers: seq<Answer>, name: string, d: int)
    requires |round| == |answers|
  {
    exists i :: 0 <= i < |round| && round[i].name == name && answers[i].Uptime? && answers[i].d <= d
  }

  /** Whose answer is on record under a name. */
  lemma RecordOf(round: seq<Peer>, answers: seq<Answer>, p: seq<nat>, name: string) returns (i: nat)
    requires |round| == |answers| && Schedule(round, p) && name in Gather(round, answers, p).uptimes
    ensures i < |round| && round[i].name == name && answers[i] == Uptime(Gather(round, answers, p).uptimes[name])
  {
    RoundReportsUptimes(round, answers, p);
    i :| 0 <= i < |round| && round[i].name == name && answers[i] == Uptime(Gather(round, answers, p).uptimes[name]);
  }

  lemma ResponderRecorded(round: seq<Peer>, answers: seq<Answer>, p: seq<nat>, j: nat)
    requires FullRound(round, answers, p) && j < |round| && answers[j].Uptime?
    ensures round[j].name in Gather(round, answers, p).uptimes
  {
    RoundReportsUptimes(round, answers, p);
  }

  lemma PositiveIsChosen(order: seq<string>, uptimes: map<string, int>, name: string)
    requires Enumerates(order, uptimes.Keys) && name in uptimes && uptimes[name] > 0
    ensures var x := Oldest(order, uptimes).0; x in uptimes && forall n :: n in uptimes ==> uptimes[n] <= uptimes[x]
  {
    OldestIsMaximal(order, uptimes);
    assert name in order;
  }

  /** The name chosen has the answer of some entry k on record, and every other responder's name was given
      an answer that is no larger. */
  lemma OldestReported(round: seq<Peer>, answers: seq<Answer>, p: seq<nat>, order: seq<string>) returns (k: nat)
    requires FullRound(round, answers, p) && SurelyPositive(round, answers)
    requires Enumerates(order, Gather(round, answers, p).uptimes.Keys)
    ensures k < |round| && answers[k].Uptime? && round[k].name == Oldest(order, Gather(round, answers, p).uptimes).0
    ensures forall j :: 0 <= j < |round| && answers[j].Uptime? ==>
              ReportsAtMost(round, answers, round[j].name, answers[k].d)
  {
    var u := Gather(round, answers, p).uptimes;
    var m: nat :| m < |round| && answers[m].Uptime? && PositiveName(round, answers, round[m].name);
    ResponderRecorded(round, answers, p, m);
    m := RecordOf(round, answers, p, round[m].name);
    PositiveIsChosen(order, u, round[m].name);
    k := RecordOf(round, answers, p, Oldest(order, u).0);
    forall j: nat | j < |round| && answers[j].Uptime?
      ensures ReportsAtMost(round, answers, round[j].name, answers[k].d)
    {
      ResponderRecorded(round, answers, p, j);
      var i := RecordOf(round, answers, p, round[j].name);
    }
  }

  /** A listed peer whose name was reported did answer, when no unreachable peer shares a responder's name. */
  lemma ReportedPeerAnswered(round: seq<Peer>, answers: seq<Answer>, p: seq<nat>, k: nat) returns (i: nat)
    requires |round| == |answers| && Schedule(round, p) && NoSharedName(round, answers)
    requires k < |round| && answers[k].Uptime?
    ensures i < |round| && answers[i].Uptime? && round[i].name == round[k].name
    ensures Find(Gather(round, answers, p).peers, round[k].name) == Some(round[i])
  {
    var s := Gather(round, answers, p);
    RoundKeepsResponders(round, answers, p);
    RoundKeepsOrder(round, answers, p);
    assert round[k] in s.peers;
    var w := Find(s.peers, round[k].name);
    SubsequenceMembers(s.peers, round, w.value);
    i :| 0 <= i < |round| && round[i] == w.value;
  }

  /** In every interleaving of the removals and every order of the uptimes, the vote finds a peer i that
      answered, and no responder gave only larger uptimes than one given under that peer's name (k). With
      distinct names its uptime is maximal. */
  lemma VoteElectsOldest(round: seq<Peer>, answers: seq<Answer>, p: seq<nat>, order: seq<string>)
    returns (i: nat, k: nat)
    requires FullRound(round, answers, p) && NoSharedName(round, answers) && SurelyPositive(round, answers)
    requires Enumerates(order, Gather(round, answers, p).uptimes.Keys)
    ensures i < |round| && answers[i].Uptime? && Vote(order, Gather(round, answers, p)) == Some(round[i])
    ensures k < |round| && answers[k].Uptime? && round[k].name == round[i].name
    ensures forall j :: 0 <= j < |round| && answers[j].Uptime? ==>
              ReportsAtMost(round, answers, round[j].name, answers[k].d)
    ensures DistinctNames(round) ==> Maximal(answers, i)
  {
    k := OldestReported(round, answers, p, order);
    i := ReportedPeerAnswered(round, answers, p, k);
    if DistinctNames(round) {
      assert i == k;
      forall j | 0 <= j < |round| && answers[j].Uptime?
        ensures answers[j].d <= answers[i].d
      {
        var m :| 0 <= m < |round| && round[m].name == round[j].name && answers[m].Uptime? &&
          answers[m].d <= answers[k].d;
        assert m == j;
      }
    }
  }

  /** With distinct names one positive uptime is enough. */
  lemma DistinctNamesSuffice(round: seq<Peer>, answers: seq<Answer>)
    requires |round| == |answers| && DistinctNames(round)
    ensures NoSharedName(round, answers)
    ensures SurelyPositive(round, answers) <==> SomePositive(answers)
  {
    if SomePositive(answers) {
      var k :| 0 <= k < |answers| && answers[k].Uptime? && answers[k].d > 0;
      assert PositiveName(round, answers, round[k].name);
    }
  }

  // ----- lost removals

  lemma {:induction false} RunConcat(round: seq<Peer>, answers: seq<Answer>, s: State, p: seq<nat>, q: seq<nat>)
    requires Fits(round, answers, s) && Schedule(round, p) && Schedule(round, q)
    ensures Schedule(round, p + q)
    ensures Run(round, answers, s, p + q) == Run(round, answers, Run(round, answers, s, p), q)
  {
    if q == [] {
      assert p + q == p;
    } else {
      RunConcat(round, answers, s, p, q[..|q| - 1]);
      assert (p + q)[..|p + q| - 1] == p + q[..|q| - 1];
    }
  }

  /** The goroutines below n are done, except those left out, and the others are where they were. */
  ghost predicate OthersDone(s: State, s': State, n: nat, skip: set<nat>) {
    && |s'.stages| == |s.stages|
    && forall i :: 0 <= i < |s.stages| ==> s'.stages[i] == if i < n && i !in skip then Done else s.stages[i]
  }

  /** Goroutine i runs from start to end. */
  lemma RunSolo(round: seq<Peer>, answers: seq<Answer>, s: State, i: nat) returns (p: seq<nat>)
    requires Fits(round, answers, s) && i < |round| && s.stages[i] == Asking
    ensures Schedule(round, p)
    ensures var s' := Run(round, answers, s, p);
            s'.stages == s.stages[i := Done] &&
            s'.peers == if answers[i].Uptime? then s.peers else Without(s.peers, round[i].name)
  {
    p := [i, i, i];
    assert p[..2] == [i, i] && [i, i][..1] == [i] && [i][..0] == [];
    assert Run(round, answers, s, [i]) == Step(round, answers, s, i);
    assert Run(round, answers, s, [i, i]) == Step(round, answers, Run(round, answers, s, [i]), i);
  }

  lemma {:induction false} RunOthers(round: seq<Peer>, answers: seq<Answer>, s: State, n: nat, skip: set<nat>)
    returns (p: seq<nat>)
    requires Fits(round, answers, s) && n <= |round|
    requires forall i :: 0 <= i < n && i !in skip ==> s.stages[i] == Asking
    ensures Schedule(round, p)
    ensures OthersDone(s, Run(round, answers, s, p), n, skip)
  {
    p := [];
    if n == 0 {
    } else {
      p := RunOthers(round, answers, s, n - 1, skip);
      if n - 1 !in skip {
        var q := RunSolo(round, answers, Run(round, answers, s, p), n - 1);
        RunConcat(round, answers, s, p, q);
        p := p + q;
      }
    }
  }

  /** An unreachable peer's removal can come last, and then no peer of its name is left. */
  lemma RemoveLast(round: seq<Peer>, answers: seq<Answer>, i: nat) returns (p: seq<nat>)
    requires |round| == |answers| && i < |round| && answers[i].Unreachable?
    ensures FullRound(round, answers, p)
    ensures forall q :: q in Gather(round, answers, p).peers ==> q.name != round[i].name
  {
    p := RunOthers(round, answers, Start(round), |round|, {i});
    var q := RunSolo(round, answers, Gather(round, answers, p), i);
    RunConcat(round, answers, Start(round), p, q);
    p := p + q;
  }

  /** Every interleaving keeps every responder exactly when no unreachable peer shares a responder's name. */
  lemma KeepsRespondersIff(round: seq<Peer>, answers: seq<Answer>)
    requires |round| == |answers|
    ensures NoSharedName(round, answers) <==>
            forall p :: FullRound(round, answers, p) ==>
              KeepsResponders(round, answers, Gather(round, answers, p).peers)
  {
    if NoSharedName(round, answers) {
      forall p | FullRound(round, answers, p)
        ensures KeepsResponders(round, answers, Gather(round, answers, p).peers)
      {
        RoundKeepsResponders(round, answers, p);
      }
    } else {
      var i: nat, j: nat :| i < |round| && j < |round| && answers[i].Unreachable? && answers[j].Uptime? &&
        round[i].name == round[j].name;
      var p := RemoveLast(round, answers, i);
      assert !KeepsResponders(round, answers, Gather(round, answers, p).peers);
    }
  }

  ghost predicate AllUnreachableGone(round: seq<Peer>, answers: seq<Answer>, peers: seq<Peer>)
    requires |round| == |answers|
  {
    forall i :: 0 <= i < |round| && answers[i].Unreachable? ==> round[i] !in peers
  }

  ghost predicate OneUnreachableName(round: seq<Peer>, answers: seq<Answer>)
    requires |round| == |answers|
  {
    forall i, j :: 0 <= i < |answers| && 0 <= j < |answers| && answers[i].Unreachable? && answers[j].Unreachable? ==>
      round[i].name == round[j].name
  }

  ghost predicate NoneNamed(peers: seq<Peer>, name: string) {
    forall p :: p in peers ==> p.name != name
  }

  /** Once one removal of the only unreachable name is done, no list holds that name. */
  lemma {:induction false} SoleRemovalSticks(round: seq<Peer>, answers: seq<Answer>, p: seq<nat>, name: string)
    requires |round| == |answers| && Schedule(round, p)
    requires forall i :: 0 <= i < |round| && answers[i].Unreachable? ==> round[i].name == name
    ensures var s := Gather(round, answers, p);
            forall i :: 0 <= i < |round| && answers[i].Unreachable? ==>
              && (s.stages[i] == Done ==> NoneNamed(s.peers, name))
              && (s.stages[i].Writing? ==> NoneNamed(s.stages[i].kept, name))
  {
    if p == [] {
    } else {
      SoleRemovalSticks(round, answers, p[..|p| - 1], name);
      RespondersRemoveNothing(round, answers, p[..|p| - 1]);
    }
  }

  lemma AskAndRead(round: seq<Peer>, answers: seq<Answer>, s: State, i: nat) returns (p: seq<nat>)
    requires Fits(round, answers, s) && i < |round| && answers[i].Unreachable? && s.stages[i] == Asking
    ensures Schedule(round, p)
    ensures Run(round, answers, s, p) == s.(stages := s.stages[i := Writing(Without(s.peers, round[i].name))])
  {
    p := [i, i];
    assert [i, i][..1] == [i] && [i][..0] == [];
    assert Run(round, answers, s, [i]) == Step(round, answers, s, i);
  }

  lemma RunOne(round: seq<Peer>, answers: seq<Answer>, s: State, p: seq<nat>, i: nat)
    requires Fits(round, answers, s) && Schedule(round, p) && i < |round|
    ensures Run(round, answers, s, p + [i]) == Step(round, answers, Run(round, answers, s, p), i)
  {
    assert (p + [i])[..|p + [i]| - 1] == p;
  }

  /** A removal that reads first and writes last undoes all others. */
  lemma LostRemoval(round: seq<Peer>, answers: seq<Answer>, i: nat, j: nat) returns (p: seq<nat>)
    requires |round| == |answers| && i < |round| && j < |round| && round[i].name != round[j].name
    requires answers[j].Unreachable?
    ensures FullRound(round, answers, p) && round[i] in Gather(round, answers, p).peers
  {
    p := AskAndRead(round, answers, Start(round), j);
    var s := Gather(round, answers, p);
    var q := RunOthers(round, answers, s, |round|, {j});
    RunConcat(round, answers, Start(round), p, q);
    RunOne(round, answers, Start(round), p + q, j);
    p := p + q + [j];
  }

  /** A round is sure to drop every unreachable peer exactly when all unreachable entries have one name. */
  lemma AllUnreachableGoneIff(round: seq<Peer>, answers: seq<Answer>)
    requires |round| == |answers|
    ensures OneUnreachableName(round, answers) <==>
            forall p :: FullRound(round, answers, p) ==>
              AllUnreachableGone(round, answers, Gather(round, answers, p).peers)
  {
    if OneUnreachableName(round, answers) {
      forall p, i: nat | FullRound(round, answers, p) && i < |round| && answers[i].Unreachable?
        ensures round[i] !in Gather(round, answers, p).peers
      {
        SoleRemovalSticks(round, answers, p, round[i].name);
      }
    } else {
      var i: nat, j: nat :| i < |answers| && j < |answers| && answers[i].Unreachable? && answers[j].Unreachable? &&
                            round[i].name != round[j].name;
      var p := LostRemoval(round, answers, i, j);
    }
  }

  /** Two unreachable peers, one of which stays listed. */
  lemma LostRemovalExample() returns (p: seq<nat>)
    ensures var round, answers := [Peer("a", [], ""), Peer("b", [], "")], [Unreachable, Unreachable];
            FullRound(round, answers, p) && round[0] in Gather(round, answers, p).peers
  {
    p := LostRemoval([Peer("a", [], ""), Peer("b", [], "")], [Unreachable, Unreachable], 0, 1);
  }

  /** A round only removes names. */
  lemma RoundOnlyRemoves(round: seq<Peer>, answers: seq<Answer>, p: seq<nat>, name: string)
    requires |round| == |answers| && Schedule(round, p) && NoneNamed(round, name)
    ensures NoneNamed(Gather(round, answers, p).peers, name)
  {
    var g := Gather(round, answers, p);
    RoundKeepsOrder(round, answers, p);
    forall q | q in g.peers
      ensures q.name != name
    {
      SubsequenceMembers(g.peers, round, q);
    }
  }

  // ----- votes that fail

  /** Whoever wins under a name that is not empty has a positive uptime reported under it. */
  lemma WinnerAnswered(round: seq<Peer>, answers: seq<Answer>, p: seq<nat>, order: seq<string>) returns (i: nat)
    requires |round| == |answers| && Schedule(round, p)
    requires Enumerates(order, Gather(round, answers, p).uptimes.Keys)
    requires var w := Vote(order, Gather(round, answers, p)); w.Some? && w.value.name != ""
    ensures i < |round| && round[i].name == Vote(order, Gather(round, answers, p)).value.name
    ensures answers[i].Uptime? && answers[i].d > 0
  {
    var u := Gather(round, answers, p).uptimes;
    OldestIsMaximal(order, u);
    i := RecordOf(round, answers, p, Oldest(order, u).0);
  }

  lemma NothingPositive(round: seq<Peer>, answers: seq<Answer>, p: seq<nat>, order: seq<string>)
    requires |round| == |answers| && Schedule(round, p) && !SomePositive(answers)
    requires Enumerates(order, Gather(round, answers, p).uptimes.Keys)
    ensures Vote(order, Gather(round, answers, p)) == None <==> NoneNamed(Gather(round, answers, p).peers, "")
  {
    var u := Gather(round, answers, p).uptimes;
    OldestIsMaximal(order, u);
    if n :| n in order && u[n] > 0 {
      var i := RecordOf(round, answers, p, n);
      assert false;
    }
  }

  /** No entry has the empty name, or those that do are sure to be removed. */
  ghost predicate EmptyNameGoes(round: seq<Peer>, answers: seq<Answer>)
    requires |round| == |answers|
  {
    NoneNamed(round, "") ||
    (OneUnreachableName(round, answers) &&
     exists i :: 0 <= i < |round| && round[i].name == "" && answers[i].Unreachable?)
  }

  /** A round without a positive uptime, in which nobody is called by the empty name, elects nobody. The look-up
      of the empty name can find a peer in some schedule exactly when such a peer can stay listed. */
  lemma VoteFailsIff(round: seq<Peer>, answers: seq<Answer>)
    requires |round| == |answers| && !SomePositive(answers)
    ensures EmptyNameGoes(round, answers) <==>
            forall p, order ::
              FullRound(round, answers, p) && Enumerates(order, Gather(round, answers, p).uptimes.Keys) ==>
                Vote(order, Gather(round, answers, p)) == None
  {
    if EmptyNameGoes(round, answers) {
      forall p, order |
        FullRound(round, answers, p) && Enumerates(order, Gather(round, answers, p).uptimes.Keys)
        ensures Vote(order, Gather(round, answers, p)) == None
      {
        NothingPositive(round, answers, p, order);
        EmptyNameGone(round, answers, p);
      }
    } else {
      var p := EmptyNameStays(round, answers);
      var order := OrderOf(Gather(round, answers, p).uptimes.Keys);
      NothingPositive(round, answers, p, order);
    }
  }

  lemma EmptyNameGone(round: seq<Peer>, answers: seq<Answer>, p: seq<nat>)
    requires FullRound(round, answers, p) && EmptyNameGoes(round, answers)
    ensures NoneNamed(Gather(round, answers, p).peers, "")
  {
    if NoneNamed(round, "") {
      RoundOnlyRemoves(round, answers, p, "");
    } else {
      var i :| 0 <= i < |round| && round[i].name == "" && answers[i].Unreachable?;
      SoleRemovalSticks(round, answers, p, "");
    }
  }

  lemma EmptyNameStays(round: seq<Peer>, answers: seq<Answer>) returns (p: seq<nat>)
    requires |round| == |answers| && !EmptyNameGoes(round, answers)
    ensures FullRound(round, answers, p) && !NoneNamed(Gather(round, answers, p).peers, "")
  {
    var i: nat :| i < |round| && round[i].name == "";
    if j: nat :| j < |round| && answers[j].Unreachable? && round[j].name != "" {
      p := LostRemoval(round, answers, i, j);
    } else {
      p := RunOthers(round, answers, Start(round), |round|, {});
      RoundKeepsUntouched(round, answers, p, round[i]);
    }
  }

  /** What an election's outcome says about the answers. */
  lemma ElectionOutcome(round: seq<Peer>, answers: seq<Answer>, p: seq<nat>, order: seq<string>)
    requires FullRound(round, answers, p) && Enumerates(order, Gather(round, answers, p).uptimes.Keys)
    ensures var w := Vote(order, Gather(round, answers, p));
            && (w.Some? && w.value.name != "" ==>
                  exists i ::
                    0 <= i < |answers| && round[i].name == w.value.name && answers[i].Uptime? && answers[i].d > 0)
            && (!SomePositive(answers) && NoneNamed(round, "") ==> w.None?)
  {
    var w := Vote(order, Gather(round, answers, p));
    if w.Some? && w.value.name != "" {
      var i := WinnerAnswered(round, answers, p, order);
    }
    if !SomePositive(answers) && NoneNamed(round, "") {
      RoundOnlyRemoves(round, answers, p, "");
      NothingPositive(round, answers, p, order);
    }
  }

  /** The round that loses a removal elects nobody, although a peer stays listed. */
  lemma NobodyElectedExample(order: seq<string>) returns (p: seq<nat>)
    ensures var round, answers := [Peer("a", [], ""), Peer("b", [], "")], [Unreachable, Unreachable];
            && FullRound(round, answers, p) && round[0] in Gather(round, answers, p).peers
            && (Enumerates(order, Gather(round, answers, p).uptimes.Keys) ==>
                  Vote(order, Gather(round, answers, p)) == None)
  {
    var round, answers := [Peer("a", [], ""), Peer("b", [], "")], [Unreachable, Unreachable];
    p := LostRemovalExample();
    RoundOnlyRemoves(round, answers, p, "");
    if Enumerates(order, Gather(round, answers, p).uptimes.Keys) {
      NothingPositive(round, answers, p, order);
    }
  }

  /** A peer called by the empty name is elected without having answered with a positive uptime. */
  lemma EmptyNameElectedExample() returns (p: seq<nat>, order: seq<string>)
    ensures var round, answers := [Peer("", [], "")], [Uptime(0)];
            && FullRound(round, answers, p) && Enumerates(order, Gather(round, answers, p).uptimes.Keys)
            && Vote(order, Gather(round, answers, p)) == Some(round[0])
  {
    var round, answers := [Peer("", [], "")], [Uptime(0)];
    p := EmptyNameStays(round, answers);
    order := OrderOf(Gather(round, answers, p).uptimes.Keys);
    NothingPositive(round, answers, p, order);
    RoundKeepsOrder(round, answers, p);
    SubsequenceMembers(Gather(round, answers, p).peers, round, Vote(order, Gather(round, answers, p)).value);
  }

  // ----- agreement between voters

  /** A voter's round: each peer that answers reports the time since its boot, sampled in the window. */
  ghost predicate SampledInWindow(round: seq<Peer>, answers: seq<Answer>, boot: map<string, int>, from: int,
                                  width: nat) {
    && |round| == |answers|
    && (forall i :: 0 <= i < |round| ==> round[i].name in boot)
    && (forall i :: 0 <= i < |round| && answers[i].Uptime? ==>
      from <= answers[i].d + boot[round[i].name] <= from + width)
  }

  /** Every entry of the name of entry o is that same peer, and all of them answer. */
  ghost predicate Reached(round: seq<Peer>, answers: seq<Answer>, o: nat)
    requires |round| == |answers| && o < |round|
  {
    forall i :: 0 <= i < |round| && round[i].name == round[o].name ==> round[i] == round[o] && answers[i].Uptime?
  }

  /** Every peer of another name booted more than the window's width after peer o. */
  ghost predicate BootedFirst(round: seq<Peer>, boot: map<string, int>, width: nat, o: nat)
    requires o < |round| && forall i :: 0 <= i < |round| ==> round[i].name in boot
  {
    forall i :: 0 <= i < |round| && round[i].name != round[o].name ==> boot[round[i].name] > boot[round[o].name] + width
  }

  lemma OldestIsLargest(order: seq<string>, uptimes: map<string, int>, name: string)
    requires Enumerates(order, uptimes.Keys) && name in uptimes && uptimes[name] > 0
    requires forall n :: n in uptimes && n != name ==> uptimes[n] < uptimes[name]
    ensures Oldest(order, uptimes).0 == name
  {
    OldestIsMaximal(order, uptimes);
    assert name in order;
  }

  /** A peer that booted more than the window's width before all others, and before the window, is elected
      by every voter that reaches it, whatever the schedule and the order of its uptimes. */
  lemma OldestWins(round: seq<Peer>, answers: seq<Answer>, p: seq<nat>, order: seq<string>,
                   boot: map<string, int>, from: int, width: nat, o: nat)
    requires FullRound(round, answers, p) && Enumerates(order, Gather(round, answers, p).uptimes.Keys)
    requires SampledInWindow(round, answers, boot, from, width)
    requires o < |round| && Reached(round, answers, o) && boot[round[o].name] < from
    requires BootedFirst(round, boot, width, o)
    ensures Vote(order, Gather(round, answers, p)) == Some(round[o])
  {
    var s, name := Gather(round, answers, p), round[o].name;
    RoundReportsUptimes(round, answers, p);
    assert answers[o].Uptime?;
    forall n | n in s.uptimes
      ensures if n == name then from <= s.uptimes[n] + boot[name] else s.uptimes[n] + boot[name] < from
    {
      var i :| 0 <= i < |round| && round[i].name == n && answers[i] == Uptime(s.uptimes[n]);
    }
    OldestIsLargest(order, s.uptimes, name);
    RoundKeepsUntouched(round, answers, p, round[o]);
    RoundKeepsOrder(round, answers, p);
    SubsequenceMembers(s.peers, round, Find(s.peers, name).value);
  }

  /** A rival that booted no later than the window's width after peer o can be sampled late, and peer o
      early, so that the uptimes of only these two are on record. */
  function RivalAnswers(round: seq<Peer>, boot: map<string, int>, from: int, width: nat, o: nat, r: nat)
    : (a: seq<Answer>)
    requires o < |round| && r < |round| && forall i :: 0 <= i < |round| ==> round[i].name in boot
    ensures |a| == |round|
  {
    seq(|round|, i requires 0 <= i < |round| =>
      if i == r then Uptime(from + width - boot[round[r].name])
      else if round[i].name == round[o].name then Uptime(from - boot[round[o].name])
      else Unreachable)
  }

  lemma RivalUptimes(round: seq<Peer>, boot: map<string, int>, from: int, width: nat, o: nat, r: nat, p: seq<nat>)
    requires forall i :: 0 <= i < |round| ==> round[i].name in boot
    requires o < |round| && r < |round| && round[r].name != round[o].name
    requires FullRound(round, RivalAnswers(round, boot, from, width, o, r), p)
    ensures var x, y := round[r].name, round[o].name;
            Gather(round, RivalAnswers(round, boot, from, width, o, r), p).uptimes ==
            map[x := from + width - boot[x], y := from - boot[y]]
  {
    var answers := RivalAnswers(round, boot, from, width, o, r);
    assert answers[r].Uptime? && answers[o].Uptime?;
    ResponderRecorded(round, answers, p, r);
    ResponderRecorded(round, answers, p, o);
    var u := Gather(round, answers, p).uptimes;
    forall n | n in u
      ensures n in {round[r].name, round[o].name}
      ensures u[n] == if n == round[r].name then from + width - boot[n] else from - boot[n]
    {
      var i := RecordOf(round, answers, p, n);
    }
  }

  lemma OldestOfTwo(x: string, y: string, u: map<string, int>)
    requires x != y && u.Keys == {x, y} && 0 < u[y] <= u[x]
    ensures Enumerates([x, y], u.Keys) && Oldest([x, y], u).0 == x
  {
    assert [x, y][..1] == [x] && [x][..0] == [];
    assert Oldest([x], u) == (x, u[x]);
  }

  lemma RivalWins(round: seq<Peer>, boot: map<string, int>, from: int, width: nat, o: nat, r: nat)
    returns (p: seq<nat>, order: seq<string>)
    requires forall i :: 0 <= i < |round| ==> round[i].name in boot
    requires o < |round| && r < |round| && round[r].name != round[o].name
    requires boot[round[o].name] < from && boot[round[r].name] <= boot[round[o].name] + width
    ensures var answers := RivalAnswers(round, boot, from, width, o, r);
            && FullRound(round, answers, p) && Enumerates(order, Gather(round, answers, p).uptimes.Keys)
            && Vote(order, Gather(round, answers, p)) != Some(round[o])
  {
    var answers := RivalAnswers(round, boot, from, width, o, r);
    p := RunOthers(round, answers, Start(round), |round|, {});
    RivalUptimes(round, boot, from, width, o, r, p);
    order := [round[r].name, round[o].name];
    OldestOfTwo(round[r].name, round[o].name, Gather(round, answers, p).uptimes);
  }

  /** Whatever the samples in the window, the schedule and the order of the uptimes, a voter that reaches
      peer o elects it. */
  ghost predicate AlwaysElected(round: seq<Peer>, boot: map<string, int>, from: int, width: nat, o: nat)
    requires o < |round|
  {
    forall answers, p, order ::
      && SampledInWindow(round, answers, boot, from, width) && Reached(round, answers, o)
      && FullRound(round, answers, p) && Enumerates(order, Gather(round, answers, p).uptimes.Keys) ==>
        Vote(order, Gather(round, answers, p)) == Some(round[o])
  }

  /** A peer that booted before the window is elected by every voter that reaches it if and only if it
      booted more than the window's width before every other peer of the round. */
  lemma OldestWinsIff(round: seq<Peer>, boot: map<string, int>, from: int, width: nat, o: nat)
    requires forall i :: 0 <= i < |round| ==> round[i].name in boot
    requires o < |round| && boot[round[o].name] < from
    requires forall i :: 0 <= i < |round| && round[i].name == round[o].name ==> round[i] == round[o]
    ensures AlwaysElected(round, boot, from, width, o) <==> BootedFirst(round, boot, width, o)
  {
    if BootedFirst(round, boot, width, o) {
      forall answers, p, order |
        && SampledInWindow(round, answers, boot, from, width) && Reached(round, answers, o)
        && FullRound(round, answers, p) && Enumerates(order, Gather(round, answers, p).uptimes.Keys)
        ensures Vote(order, Gather(round, answers, p)) == Some(round[o])
      {
        OldestWins(round, answers, p, order, boot, from, width, o);
      }
    } else {
      var r: nat :| r < |round| && round[r].name != round[o].name && boot[round[r].name] <= boot[round[o].name] + width;
      var p, order := RivalWins(round, boot, from, width, o, r);
      var answers := RivalAnswers(round, boot, from, width, o, r);
      assert SampledInWindow(round, answers, boot, from, width) && Reached(round, answers, o);
    }
  }

  /** Any two voters that reach the oldest peer agree. */
  lemma Agreement(round: seq<Peer>, answers: seq<Answer>, p: seq<nat>, order: seq<string>, o: nat,
                  round': seq<Peer>, answers': seq<Answer>, p': seq<nat>, order': seq<string>, o': nat,
                  boot: map<string, int>, from: int, width: nat)
    requires FullRound(round, answers, p) && Enumerates(order, Gather(round, answers, p).uptimes.Keys)
    requires FullRound(round', answers', p') && Enumerates(order', Gather(round', answers', p').uptimes.Keys)
    requires SampledInWindow(round, answers, boot, from, width) && SampledInWindow(round', answers', boot, from, width)
    requires o < |round| && o' < |round'| && round[o] == round'[o']
    requires Reached(round, answers, o) && Reached(round', answers', o')
    requires boot[round[o].name] < from
    requires forall n :: n in boot && n != round[o].name ==> boot[n] > boot[round[o].name] + width
    ensures Vote(order, Gather(round, answers, p)) == Some(round[o]) == Vote(order', Gather(round', answers', p'))
  {
    OldestWins(round, answers, p, order, boot, from, width, o);
    OldestWins(round', answers', p', order', boot, from, width, o');
  }
}
