/** One tick of the health checker: a goroutine per check, interleaved in any order.

    A goroutine takes three atomic steps. It observes the outcome (and counts a failure), runs its
    action on the A record if the outcome calls for one, and settles its flag and counter. */
module RunChecks {
  import opened DnsConfig
  import opened CheckTrace

  /** A check together with the A record its closures change. */
  datatype Action = Action(check: HealthCheck, record: RecordId)

  datatype Stage = Ready | Observed | Acted | Settled

  datatype Worker = Worker(stage: Stage, fire: bool)

  const IDLE := Worker(Ready, false)

  datatype State = State(locals: seq<Local>, workers: seq<Worker>, addresses: map<RecordId, seq<string>>)

  /** The list with every copy of x removed, order kept. */
  function Without(s: seq<string>, x: string): (r: seq<string>) {
    if s == [] then [] else if s[0] == x then Without(s[1..], x) else [s[0]] + Without(s[1..], x)
  }

  /** No copy of x is left, and all copies of the others are. */
  lemma {:induction false} WithoutCopies(s: seq<string>, x: string)
    ensures forall y :: multiset(Without(s, x))[y] == if y == x then 0 else multiset(s)[y]
  {
    if s == [] {
    } else {
      WithoutCopies(s[1..], x);
      assert s == [s[0]] + s[1..];
    }
  }

  /** An address stays in its place exactly if it is another one. */
  lemma WithoutHead(y: string, s: seq<string>, x: string)
    ensures Without([y] + s, x) == if y == x then Without(s, x) else [y] + Without(s, x)
  {
    assert ([y] + s)[1..] == s;
  }

  lemma WithoutConcatHead(y: string, s: seq<string>, t: seq<string>, x: string)
    requires Without(s + t, x) == Without(s, x) + Without(t, x)
    ensures Without([y] + s + t, x) == Without([y] + s, x) + Without(t, x)
  {
    assert [y] + s + t == [y] + (s + t);
    WithoutHead(y, s + t, x);
    WithoutHead(y, s, x);
  }

  /** The others stay in order. */
  lemma {:induction false} WithoutConcat(s: seq<string>, t: seq<string>, x: string)
    ensures Without(s + t, x) == Without(s, x) + Without(t, x)
  {
    if s == [] {
      assert s + t == t;
    } else {
      WithoutConcat(s[1..], t, x);
      assert s == [s[0]] + s[1..];
      WithoutConcatHead(s[0], s[1..], t, x);
    }
  }

  /** The entries that belong to a set of addresses, in order. */
  ghost function Only(s: seq<string>, keep: set<string>): seq<string> {
    if s == [] then [] else if s[0] in keep then [s[0]] + Only(s[1..], keep) else Only(s[1..], keep)
  }

  lemma {:induction false} OnlyPush(s: seq<string>, y: string, keep: set<string>)
    ensures Only(s + [y], keep) == if y in keep then Only(s, keep) + [y] else Only(s, keep)
  {
    if s == [] {
      assert s + [y] == [y] && [y][1..] == [];
    } else {
      OnlyPush(s[1..], y, keep);
      assert (s + [y])[1..] == s[1..] + [y];
    }
  }

  lemma {:induction false} OnlyWithout(s: seq<string>, x: string, keep: set<string>)
    requires x !in keep
    ensures Only(Without(s, x), keep) == Only(s, keep)
  {
    if s == [] {
    } else {
      OnlyWithout(s[1..], x, keep);
      if s[0] != x {
        assert ([s[0]] + Without(s[1..], x))[1..] == Without(s[1..], x);
      }
    }
  }

  ghost predicate Fits(acts: seq<Action>, s: State) {
    && |s.locals| == |s.workers| == |acts|
    && forall i :: 0 <= i < |acts| ==> acts[i].record in s.addresses
  }

  function Threshold(a: Action): int {
    a.check.failures
  }

  function Observe(a: Action, s: State, i: nat, o: Outcome): State
    requires i < |s.locals| && i < |s.workers|
  {
    var l := s.locals[i];
    s.(workers := s.workers[i := Worker(Observed, Fires(Threshold(a), l, o))],
       locals := s.locals[i := if o == Fail then l.(count := l.count + 1) else l])
  }

  function Act(a: Action, s: State, i: nat, o: Outcome): State
    requires i < |s.workers| && a.record in s.addresses
  {
    var w := s.workers[i];
    var list := s.addresses[a.record];
    s.(workers := s.workers[i := w.(stage := Acted)],
       addresses := if !w.fire then s.addresses
                    else if o == Fail then s.addresses[a.record := Without(list, a.check.target)]
                    else s.addresses[a.record := list + [a.check.target]])
  }

  function Settle(s: State, i: nat, o: Outcome): State
    requires i < |s.locals| && i < |s.workers|
  {
    var w, l := s.workers[i], s.locals[i];
    s.(workers := s.workers[i := w.(stage := Settled)],
       locals := s.locals[i := if o == Pass then FRESH else if w.fire then l.(failed := true) else l])
  }

  /** Goroutine i takes its next step; a finished goroutine does nothing. */
  function Step(acts: seq<Action>, os: seq<Outcome>, s: State, i: nat): (s': State)
    requires Fits(acts, s) && |os| == |acts| && i < |acts|
    ensures Fits(acts, s')
    ensures s'.addresses.Keys == s.addresses.Keys
  {
    match s.workers[i].stage
    case Ready => Observe(acts[i], s, i, os[i])
    case Observed => Act(acts[i], s, i, os[i])
    case Acted => Settle(s, i, os[i])
    case Settled => s
  }

  /** A schedule names the goroutine that moves at each step. */
  predicate Schedule(acts: seq<Action>, p: seq<nat>) {
    forall k :: 0 <= k < |p| ==> p[k] < |acts|
  }

  function Run(acts: seq<Action>, os: seq<Outcome>, s: State, p: seq<nat>): (s': State)
    requires Fits(acts, s) && |os| == |acts| && Schedule(acts, p)
    ensures Fits(acts, s')
    ensures s'.addresses.Keys == s.addresses.Keys
  {
    if p == [] then s else Step(acts, os, Run(acts, os, s, p[..|p| - 1]), p[|p| - 1])
  }

  lemma RunOne(acts: seq<Action>, os: seq<Outcome>, s: State, p: seq<nat>, i: nat)
    requires Fits(acts, s) && |os| == |acts| && Schedule(acts, p) && i < |acts|
    ensures Schedule(acts, p + [i])
    ensures Run(acts, os, s, p + [i]) == Step(acts, os, Run(acts, os, s, p), i)
  {
    assert (p + [i])[..|p + [i]| - 1] == p;
  }

  lemma Unroll(acts: seq<Action>, os: seq<Outcome>, s: State, p: seq<nat>) returns (init: seq<nat>, last: nat)
    requires Fits(acts, s) && |os| == |acts| && Schedule(acts, p) && p != []
    ensures p == init + [last] && Schedule(acts, init) && last < |acts|
    ensures Run(acts, os, s, p) == Step(acts, os, Run(acts, os, s, init), last)
  {
    init, last := p[..|p| - 1], p[|p| - 1];
  }

  lemma {:induction false} RunConcat(acts: seq<Action>, os: seq<Outcome>, s: State, p: seq<nat>, q: seq<nat>)
    requires Fits(acts, s) && |os| == |acts| && Schedule(acts, p) && Schedule(acts, q)
    ensures Schedule(acts, p + q)
    ensures Run(acts, os, s, p + q) == Run(acts, os, Run(acts, os, s, p), q)
    decreases |q|
  {
    if q == [] {
      assert p + q == p;
    } else {
      var init, last := Unroll(acts, os, Run(acts, os, s, p), q);
      RunConcat(acts, os, s, p, init);
      RunOne(acts, os, s, p + init, last);
      assert p + q == p + init + [last];
    }
  }

  /** A tick begins with every goroutine about to probe. */
  ghost predicate Begun(acts: seq<Action>, s: State) {
    Fits(acts, s) && forall i :: 0 <= i < |acts| ==> s.workers[i] == IDLE
  }

  ghost predicate Complete(s: State) {
    forall i :: 0 <= i < |s.workers| ==> s.workers[i].stage == Settled
  }

  // ----- what a goroutine does to its own counter and flag, whatever the others do

  ghost predicate Progress(a: Action, l0: Local, o: Outcome, w: Worker, l: Local) {
    match w.stage
    case Ready => l == l0
    case Settled => l == After(Threshold(a), l0, o)
    case _ => w.fire == Fires(Threshold(a), l0, o) && l == if o == Fail then l0.(count := l0.count + 1) else l0
  }

  ghost predicate AllProgress(acts: seq<Action>, os: seq<Outcome>, s0: State, s: State)
    requires Fits(acts, s0) && Fits(acts, s) && |os| == |acts|
  {
    forall i :: 0 <= i < |acts| ==> Progress(acts[i], s0.locals[i], os[i], s.workers[i], s.locals[i])
  }

  lemma {:induction false} RunProgress(acts: seq<Action>, os: seq<Outcome>, s0: State, p: seq<nat>)
    requires Begun(acts, s0) && |os| == |acts| && Schedule(acts, p)
    ensures AllProgress(acts, os, s0, Run(acts, os, s0, p))
  {
    if p == [] {
    } else {
      RunProgress(acts, os, s0, p[..|p| - 1]);
    }
  }

  /** Whatever the schedule, addresses of a record that no check aims at keep their order. */
  lemma {:induction false} RunKeepsOrder(acts: seq<Action>, os: seq<Outcome>, s0: State, p: seq<nat>, id: RecordId,
                                         keep: set<string>)
    requires Fits(acts, s0) && |os| == |acts| && Schedule(acts, p) && id in s0.addresses
    requires forall i :: 0 <= i < |acts| && acts[i].record == id ==> acts[i].check.target !in keep
    ensures Only(Run(acts, os, s0, p).addresses[id], keep) == Only(s0.addresses[id], keep)
    decreases |p|
  {
    if p == [] {
    } else {
      var init, i := Unroll(acts, os, s0, p);
      RunKeepsOrder(acts, os, s0, init, id, keep);
      var list := Run(acts, os, s0, init).addresses[id];
      if acts[i].record == id {
        OnlyPush(list, acts[i].check.target, keep);
        OnlyWithout(list, acts[i].check.target, keep);
      }
    }
  }

  // ----- what the tick does to the address lists

  ghost predicate Aims(a: Action, id: RecordId, x: string) {
    a.record == id && a.check.target == x
  }

  /** Check i runs its action on copies of x in record id during this tick. */
  ghost predicate Touches(acts: seq<Action>, os: seq<Outcome>, s0: State, i: nat, o: Outcome, id: RecordId, x: string)
    requires Fits(acts, s0) && |os| == |acts| && i < |acts|
  {
    os[i] == o && Aims(acts[i], id, x) && Fires(Threshold(acts[i]), s0.locals[i], o)
  }

  ghost function Doers(acts: seq<Action>, os: seq<Outcome>, s0: State, s: State, o: Outcome, id: RecordId, x: string)
    : set<nat>
    requires Fits(acts, s0) && Fits(acts, s) && |os| == |acts|
  {
    set i: nat | i < |acts| && Touches(acts, os, s0, i, o, id, x) && s.workers[i].stage in {Acted, Settled}
  }

  /** In this tick x is not pruned by one check and revived by another. */
  ghost predicate NoConflictAt(acts: seq<Action>, os: seq<Outcome>, s0: State, id: RecordId, x: string)
    requires Fits(acts, s0) && |os| == |acts|
  {
    forall i: nat, j: nat :: i < |acts| && j < |acts| && Touches(acts, os, s0, i, Fail, id, x) ==>
      !Touches(acts, os, s0, j, Pass, id, x)
  }

  ghost predicate NoConflict(acts: seq<Action>, os: seq<Outcome>, s0: State)
    requires Fits(acts, s0) && |os| == |acts|
  {
    forall id, x :: NoConflictAt(acts, os, s0, id, x)
  }

  /** Copies of x: none once someone pruned it, otherwise one more for each revival so far. */
  ghost predicate Tally(acts: seq<Action>, os: seq<Outcome>, s0: State, s: State, id: RecordId, x: string)
    requires Fits(acts, s0) && Fits(acts, s) && |os| == |acts| && id in s0.addresses && id in s.addresses
  {
    multiset(s.addresses[id])[x] ==
    if Doers(acts, os, s0, s, Fail, id, x) != {} then 0
    else multiset(s0.addresses[id])[x] + |Doers(acts, os, s0, s, Pass, id, x)|
  }

  lemma DoersAfterStep(acts: seq<Action>, os: seq<Outcome>, s0: State, s: State, i: nat, o: Outcome, id: RecordId,
                       x: string)
    requires Fits(acts, s0) && Fits(acts, s) && |os| == |acts| && i < |acts|
    ensures var d, d' := Doers(acts, os, s0, s, o, id, x), Doers(acts, os, s0, Step(acts, os, s, i), o, id, x);
            if s.workers[i].stage == Observed && Touches(acts, os, s0, i, o, id, x) then i !in d && d' == d + {i}
            else d' == d
  {
    var s' := Step(acts, os, s, i);
    assert forall j :: 0 <= j < |acts| && j != i ==> s'.workers[j] == s.workers[j];
  }

  /** What one step does to the copies of x. */
  lemma StepCopies(acts: seq<Action>, os: seq<Outcome>, s: State, i: nat, id: RecordId, x: string)
    requires Fits(acts, s) && |os| == |acts| && i < |acts| && id in s.addresses
    ensures multiset(Step(acts, os, s, i).addresses[id])[x] ==
            if s.workers[i].stage == Observed && s.workers[i].fire && Aims(acts[i], id, x)
            then if os[i] == Fail then 0 else multiset(s.addresses[id])[x] + 1
            else multiset(s.addresses[id])[x]
  {
    WithoutCopies(s.addresses[id], acts[i].check.target);
  }

  lemma StepTally(acts: seq<Action>, os: seq<Outcome>, s0: State, s: State, i: nat, id: RecordId, x: string)
    requires Fits(acts, s0) && Fits(acts, s) && |os| == |acts| && i < |acts|
    requires s.addresses.Keys == s0.addresses.Keys && id in s0.addresses
    requires Progress(acts[i], s0.locals[i], os[i], s.workers[i], s.locals[i])
    requires Touches(acts, os, s0, i, Pass, id, x) ==> Doers(acts, os, s0, s, Fail, id, x) == {}
    requires Tally(acts, os, s0, s, id, x)
    ensures Tally(acts, os, s0, Step(acts, os, s, i), id, x)
  {
    DoersAfterStep(acts, os, s0, s, i, Fail, id, x);
    DoersAfterStep(acts, os, s0, s, i, Pass, id, x);
    StepCopies(acts, os, s, i, id, x);
  }

  lemma {:induction false} RunTally(acts: seq<Action>, os: seq<Outcome>, s0: State, p: seq<nat>, id: RecordId,
                                    x: string)
    requires Begun(acts, s0) && |os| == |acts| && Schedule(acts, p) && NoConflictAt(acts, os, s0, id, x) &&
             id in s0.addresses
    ensures Tally(acts, os, s0, Run(acts, os, s0, p), id, x)
  {
    if p == [] {
      assert Doers(acts, os, s0, s0, Fail, id, x) == {} == Doers(acts, os, s0, s0, Pass, id, x);
    } else {
      RunTally(acts, os, s0, p[..|p| - 1], id, x);
      RunProgress(acts, os, s0, p[..|p| - 1]);
      var s := Run(acts, os, s0, p[..|p| - 1]);
      assert Touches(acts, os, s0, p[|p| - 1], Pass, id, x) ==> Doers(acts, os, s0, s, Fail, id, x) == {};
      StepTally(acts, os, s0, s, p[|p| - 1], id, x);
    }
  }

  /** Equal counters and flags, and the same addresses in every record up to order. */
  ghost predicate SameEffect(s: State, t: State) {
    && s.locals == t.locals
    && s.addresses.Keys == t.addresses.Keys
    && forall id :: id in s.addresses ==> multiset(s.addresses[id]) == multiset(t.addresses[id])
  }

  /** What a tick does to an address without conflict, in terms of the state it began in alone. */
  lemma TickTally(acts: seq<Action>, os: seq<Outcome>, s0: State, p: seq<nat>, id: RecordId, x: string)
    requires Begun(acts, s0) && |os| == |acts| && NoConflictAt(acts, os, s0, id, x) && id in s0.addresses
    requires Schedule(acts, p) && Complete(Run(acts, os, s0, p))
    ensures multiset(Run(acts, os, s0, p).addresses[id])[x] ==
            if exists i: nat :: i < |acts| && Touches(acts, os, s0, i, Fail, id, x) then 0
            else multiset(s0.addresses[id])[x] + |set i: nat | i < |acts| && Touches(acts, os, s0, i, Pass, id, x)|
  {
    var s := Run(acts, os, s0, p);
    RunTally(acts, os, s0, p, id, x);
    assert Doers(acts, os, s0, s, Pass, id, x) == set i: nat | i < |acts| && Touches(acts, os, s0, i, Pass, id, x);
    if i: nat :| i < |acts| && Touches(acts, os, s0, i, Fail, id, x) {
      assert i in Doers(acts, os, s0, s, Fail, id, x);
    }
  }

  /** A complete tick leaves every counter and flag as if its check had run alone. */
  lemma TickLocals(acts: seq<Action>, os: seq<Outcome>, s0: State, p: seq<nat>)
    requires Begun(acts, s0) && |os| == |acts| && Schedule(acts, p) && Complete(Run(acts, os, s0, p))
    ensures forall i :: 0 <= i < |acts| ==>
              Run(acts, os, s0, p).locals[i] == After(Threshold(acts[i]), s0.locals[i], os[i])
  {
    RunProgress(acts, os, s0, p);
  }

  lemma ScheduleIndependent(acts: seq<Action>, os: seq<Outcome>, s0: State, p: seq<nat>, q: seq<nat>)
    requires Begun(acts, s0) && |os| == |acts| && NoConflict(acts, os, s0)
    requires Schedule(acts, p) && Complete(Run(acts, os, s0, p))
    requires Schedule(acts, q) && Complete(Run(acts, os, s0, q))
    ensures SameEffect(Run(acts, os, s0, p), Run(acts, os, s0, q))
  {
    var s, t := Run(acts, os, s0, p), Run(acts, os, s0, q);
    TickLocals(acts, os, s0, p);
    TickLocals(acts, os, s0, q);
    forall id | id in s0.addresses
      ensures multiset(s.addresses[id]) == multiset(t.addresses[id])
    {
      forall x
        ensures multiset(s.addresses[id])[x] == multiset(t.addresses[id])[x]
      {
        TickTally(acts, os, s0, p, id, x);
        TickTally(acts, os, s0, q, id, x);
      }
    }
  }

  // ----- running the goroutines one after the other

  /** Goroutine i runs from start to end. */
  lemma RunSolo(acts: seq<Action>, os: seq<Outcome>, s: State, i: nat) returns (p: seq<nat>)
    requires Fits(acts, s) && |os| == |acts| && i < |acts| && s.workers[i] == IDLE
    ensures Schedule(acts, p)
    ensures Run(acts, os, s, p) == Settle(Act(acts[i], Observe(acts[i], s, i, os[i]), i, os[i]), i, os[i])
  {
    p := [i, i, i];
    assert p[..2] == [i, i] && [i, i][..1] == [i] && [i][..0] == [];
    assert Run(acts, os, s, [i]) == Observe(acts[i], s, i, os[i]);
    assert Run(acts, os, s, [i, i]) == Act(acts[i], Run(acts, os, s, [i]), i, os[i]);
  }

  /** Goroutines below n other than last are done, the rest have not begun. */
  ghost predicate DoneBelow(s: State, n: nat, last: nat) {
    forall i :: 0 <= i < |s.workers| ==>
      if i < n && i != last then s.workers[i].stage == Settled else s.workers[i] == IDLE
  }

  lemma OneMoreDone(s: State, s': State, n: nat, last: nat)
    requires DoneBelow(s, n, last) && n < |s.workers| == |s'.workers| && s'.workers[n].stage == Settled
    requires forall j :: 0 <= j < |s.workers| && j != n ==> s'.workers[j] == s.workers[j]
    requires n != last
    ensures DoneBelow(s', n + 1, last)
  {
  }

  lemma {:induction false} RunOthers(acts: seq<Action>, os: seq<Outcome>, s0: State, n: nat, last: nat)
    returns (p: seq<nat>)
    requires Begun(acts, s0) && |os| == |acts| && n <= |acts|
    ensures Schedule(acts, p)
    ensures DoneBelow(Run(acts, os, s0, p), n, last)
  {
    p := [];
    if n == 0 {
    } else {
      p := RunOthers(acts, os, s0, n - 1, last);
      if n - 1 != last {
        var s := Run(acts, os, s0, p);
        var q := RunSolo(acts, os, s, n - 1);
        OneMoreDone(s, Run(acts, os, s, q), n - 1, last);
        RunConcat(acts, os, s0, p, q);
        p := p + q;
      }
    }
  }

  /** Every tick can be run to its end. */
  lemma FinishTick(acts: seq<Action>, os: seq<Outcome>, s0: State) returns (p: seq<nat>)
    requires Begun(acts, s0) && |os| == |acts|
    ensures Schedule(acts, p) && Complete(Run(acts, os, s0, p))
  {
    p := RunOthers(acts, os, s0, |acts|, |acts|);
  }

  /** Check i can be the last to run; what it did to its target is then what remains, and a revived target is
      at the end of the list. */
  lemma RunLast(acts: seq<Action>, os: seq<Outcome>, s0: State, i: nat) returns (p: seq<nat>)
    requires Begun(acts, s0) && |os| == |acts| && i < |acts|
    requires Fires(Threshold(acts[i]), s0.locals[i], os[i])
    ensures Schedule(acts, p) && Complete(Run(acts, os, s0, p))
    ensures var list, x := Run(acts, os, s0, p).addresses[acts[i].record], acts[i].check.target;
            && (x in multiset(list) <==> os[i] == Pass)
            && (os[i] == Pass ==> list != [] && list[|list| - 1] == x)
  {
    p := RunOthers(acts, os, s0, |acts|, i);
    RunProgress(acts, os, s0, p);
    var s := Run(acts, os, s0, p);
    var q := RunSolo(acts, os, s, i);
    WithoutCopies(s.addresses[acts[i].record], acts[i].check.target);
    RunConcat(acts, os, s0, p, q);
    p := p + q;
  }

  /** A tick has the same effect under every complete schedule exactly when no address is both pruned
      and revived in it. */
  lemma TickScheduleIndependentIff(acts: seq<Action>, os: seq<Outcome>, s0: State)
    requires Begun(acts, s0) && |os| == |acts|
    ensures NoConflict(acts, os, s0) <==>
            forall p, q :: Schedule(acts, p) && Complete(Run(acts, os, s0, p)) &&
                           Schedule(acts, q) && Complete(Run(acts, os, s0, q)) ==>
              SameEffect(Run(acts, os, s0, p), Run(acts, os, s0, q))
  {
    if NoConflict(acts, os, s0) {
      forall p, q | Schedule(acts, p) && Complete(Run(acts, os, s0, p)) &&
                    Schedule(acts, q) && Complete(Run(acts, os, s0, q))
        ensures SameEffect(Run(acts, os, s0, p), Run(acts, os, s0, q))
      {
        ScheduleIndependent(acts, os, s0, p, q);
      }
    } else {
      var id, x :| !NoConflictAt(acts, os, s0, id, x);
      var i: nat, j: nat :| i < |acts| && j < |acts| && Touches(acts, os, s0, i, Fail, id, x) &&
                            Touches(acts, os, s0, j, Pass, id, x);
      var p := RunLast(acts, os, s0, i);
      var q := RunLast(acts, os, s0, j);
      assert id in Run(acts, os, s0, p).addresses;
      assert !SameEffect(Run(acts, os, s0, p), Run(acts, os, s0, q));
    }
  }
}
