/** The TCP least-connections balancer as interleaved critical sections.

    One forwarder picks a backend under the read lock and dials it under the write lock. Closed
    connections decrement their backend's count at any time, also between the two. */
module Balancer {
  import opened Basics

  datatype Forwarder = Waiting | Choosing | Chosen(addr: string)

  /** live maps each open connection to the backend it was dispatched to. */
  datatype State = State(pool: set<string>, conns: map<string, int>, maxConns: int, forwarder: Forwarder,
                         live: map<nat, string>)

  datatype Step = Accept | Choose(order: seq<string>) | DialOk(id: nat) | DialFail | Close(id: nat)

  /** Reading an absent key of a Go map yields zero. */
  function Count(conns: map<string, int>, addr: string): int {
    if addr in conns then conns[addr] else 0
  }

  /** The pair (lowestAddr, lowestCount) after visiting the addresses in order. */
  function Scan(order: seq<string>, conns: map<string, int>, maxConns: int): (string, int) {
    if order == [] then ("", 0)
    else
      var (addr, low) := Scan(order[..|order| - 1], conns, maxConns);
      var x := order[|order| - 1];
      var count := Count(conns, x);
      if count < maxConns && (addr == "" || count <= low) then (x, count) else (addr, low)
  }

  function Lowest(order: seq<string>, conns: map<string, int>, maxConns: int): string {
    Scan(order, conns, maxConns).0
  }

  ghost predicate Enabled(s: State, step: Step) {
    match step
    case Accept => s.forwarder == Waiting
    case Choose(order) => s.forwarder == Choosing && Enumerates(order, s.pool)
    case DialOk(id) => s.forwarder.Chosen? && id !in s.live
    case DialFail => s.forwarder.Chosen?
    case Close(id) => id in s.live
  }

  function Apply(s: State, step: Step): State
    requires Enabled(s, step)
  {
    match step
    case Accept => s.(forwarder := Choosing)
    case Choose(order) =>
      var addr := Lowest(order, s.conns, s.maxConns);
      s.(forwarder := if addr == "" then Choosing else Chosen(addr))
    case DialOk(id) =>
      var addr := s.forwarder.addr;
      s.(conns := s.conns[addr := Count(s.conns, addr) + 1], live := s.live[id := addr], forwarder := Waiting)
    case DialFail =>
      s.(conns := s.conns - {s.forwarder.addr}, pool := s.pool - {s.forwarder.addr}, forwarder := Choosing)
    case Close(id) =>
      var addr := s.live[id];
      s.(conns := if addr in s.conns then s.conns[addr := s.conns[addr] - 1] else s.conns, live := s.live - {id})
  }

  ghost predicate Valid(s: State, steps: seq<Step>)
    decreases |steps|, 0
  {
    steps != [] ==> Valid(s, steps[..|steps| - 1]) && Enabled(Run(s, steps[..|steps| - 1]), steps[|steps| - 1])
  }

  function Run(s: State, steps: seq<Step>): State
    requires Valid(s, steps)
    decreases |steps|, 1
  {
    if steps == [] then s else Apply(Run(s, steps[..|steps| - 1]), steps[|steps| - 1])
  }

  function Initial(backends: seq<string>, maxConns: int): State {
    var pool := set a | a in backends;
    State(pool, map a | a in pool :: 0, maxConns, Waiting, map[])
  }

  // ----- choosing

  ghost predicate Free(conns: map<string, int>, maxConns: int, a: string) {
    Count(conns, a) < maxConns
  }

  /** A least loaded unsaturated backend, or the empty name if every named backend is saturated. */
  ghost predicate BestPick(order: seq<string>, conns: map<string, int>, maxConns: int, r: string) {
    if forall a :: a in order && a != "" ==> !Free(conns, maxConns, a) then r == ""
    else r != "" && r in order && Free(conns, maxConns, r) &&
         forall a :: a in order && a != "" && Free(conns, maxConns, a) ==> Count(conns, r) <= Count(conns, a)
  }

  lemma {:induction false} ScanSound(order: seq<string>, conns: map<string, int>, maxConns: int)
    ensures var (r, low) := Scan(order, conns, maxConns);
            r != "" ==> r in order && low == Count(conns, r) < maxConns
  {
    if order == [] {
    } else {
      ScanSound(order[..|order| - 1], conns, maxConns);
    }
  }

  lemma {:induction false} ScanNamed(order: seq<string>, conns: map<string, int>, maxConns: int)
    requires "" in order ==> !Free(conns, maxConns, "")
    ensures var (r, low) := Scan(order, conns, maxConns);
            forall a :: a in order && Free(conns, maxConns, a) ==> r != "" && low <= Count(conns, a)
  {
    if order == [] {
    } else {
      var init, x := order[..|order| - 1], order[|order| - 1];
      assert order == init + [x];
      ScanNamed(init, conns, maxConns);
      ScanSound(init, conns, maxConns);
    }
  }

  /** A backend without a name cannot hide backends that are strictly less loaded. */
  lemma {:induction false} ScanBelowUnnamed(order: seq<string>, conns: map<string, int>, maxConns: int)
    ensures var (r, low) := Scan(order, conns, maxConns);
            forall a :: a in order && Free(conns, maxConns, a) && Count(conns, a) < Count(conns, "") ==>
              r != "" && low <= Count(conns, a)
  {
    if order == [] {
    } else {
      var init, x := order[..|order| - 1], order[|order| - 1];
      assert order == init + [x];
      ScanBelowUnnamed(init, conns, maxConns);
      ScanSound(init, conns, maxConns);
    }
  }

  /** The unnamed backend is free and no named free backend has fewer connections, yet one exists. */
  ghost predicate UnnamedWins(pool: set<string>, conns: map<string, int>, maxConns: int) {
    && "" in pool && Free(conns, maxConns, "")
    && (exists a :: a in pool && a != "" && Free(conns, maxConns, a))
    && (forall a :: a in pool && a != "" && Free(conns, maxConns, a) ==> Count(conns, "") <= Count(conns, a))
  }

  lemma PickIsBest(order: seq<string>, pool: set<string>, conns: map<string, int>, maxConns: int)
    requires Enumerates(order, pool) && !UnnamedWins(pool, conns, maxConns)
    ensures BestPick(order, conns, maxConns, Lowest(order, conns, maxConns))
  {
    ScanSound(order, conns, maxConns);
    if "" in pool && Free(conns, maxConns, "") {
      ScanBelowUnnamed(order, conns, maxConns);
    } else {
      ScanNamed(order, conns, maxConns);
    }
  }

  /** Visited last, an unnamed backend that wins hides the others. */
  lemma UnnamedLast(pool: set<string>, conns: map<string, int>, maxConns: int) returns (order: seq<string>)
    requires UnnamedWins(pool, conns, maxConns)
    ensures Enumerates(order, pool) && Lowest(order, conns, maxConns) == ""
  {
    var rest := OrderOf(pool - {""});
    order := rest + [""];
    assert order[..|order| - 1] == rest;
    ScanSound(rest, conns, maxConns);
  }

  /** The pick is a least loaded unsaturated backend for every iteration order, exactly when the pool
      has no unnamed backend that wins a tie with the named ones. */
  lemma PickBestIff(pool: set<string>, conns: map<string, int>, maxConns: int)
    ensures !UnnamedWins(pool, conns, maxConns) <==>
            forall order :: Enumerates(order, pool) ==> BestPick(order, conns, maxConns, Lowest(order, conns, maxConns))
  {
    if !UnnamedWins(pool, conns, maxConns) {
      forall order | Enumerates(order, pool)
        ensures BestPick(order, conns, maxConns, Lowest(order, conns, maxConns))
      {
        PickIsBest(order, pool, conns, maxConns);
      }
    } else {
      var order := UnnamedLast(pool, conns, maxConns);
      assert !BestPick(order, conns, maxConns, "");
    }
  }

  /** An idle unnamed backend hides an idle named one. */
  lemma UnnamedExample()
    ensures Lowest(["a", ""], map["a" := 0, "" := 0], 1) == ""
  {
    assert ["a", ""][..1] == ["a"] && ["a"][..0] == [];
    assert Scan(["a"], map["a" := 0, "" := 0], 1) == ("a", 0);
  }

  // ----- what every step keeps

  ghost function On(live: map<nat, string>, a: string): set<nat> {
    set id | id in live && live[id] == a
  }

  function Cap(maxConns: int): nat {
    if maxConns < 0 then 0 else maxConns
  }

  /** Both maps have the same keys, every count is the number of live connections, no count is above the
      cap, and a chosen backend is in the pool with room left. */
  ghost predicate Inv(s: State) {
    && s.conns.Keys == s.pool
    && (forall a :: a in s.pool ==> s.conns[a] == |On(s.live, a)| && s.conns[a] <= Cap(s.maxConns))
    && (s.forwarder.Chosen? ==>
      s.forwarder.addr in s.pool && s.conns[s.forwarder.addr] < s.maxConns && s.forwarder.addr != "")
  }

  lemma OnOpen(live: map<nat, string>, id: nat, addr: string, a: string)
    requires id !in live
    ensures |On(live[id := addr], a)| == |On(live, a)| + if a == addr then 1 else 0
  {
    if a == addr {
      assert On(live[id := addr], a) == On(live, a) + {id};
    } else {
      assert On(live[id := addr], a) == On(live, a);
    }
  }

  lemma OnClose(live: map<nat, string>, id: nat, a: string)
    requires id in live
    ensures |On(live - {id}, a)| == |On(live, a)| - if a == live[id] then 1 else 0
  {
    if a == live[id] {
      assert On(live, a) == On(live - {id}, a) + {id};
    } else {
      assert On(live - {id}, a) == On(live, a);
    }
  }

  lemma StepInv(s: State, step: Step)
    requires Inv(s) && Enabled(s, step)
    ensures Inv(Apply(s, step))
  {
    match step
    case Choose(order) => ScanSound(order, s.conns, s.maxConns);
    case DialOk(id) =>
      forall a { OnOpen(s.live, id, s.forwarder.addr, a); }
    case Close(id) =>
      forall a { OnClose(s.live, id, a); }
    case _ =>
  }

  /** The backends whose dial failed during the run. */
  ghost function Dropped(s: State, steps: seq<Step>): set<string>
    requires Valid(s, steps)
  {
    if steps == [] then {}
    else
      var init, last := steps[..|steps| - 1], steps[|steps| - 1];
      Dropped(s, init) + if last == DialFail then {Run(s, init).forwarder.addr} else {}
  }

  /** Accounting and cap in every reachable state of every interleaving: the pool is the configured backends
      less those whose dial failed, each of them has a count, which is the number of its live connections and
      at most the configured maximum. */
  lemma {:induction false} Accounting(backends: seq<string>, maxConns: int, steps: seq<Step>)
    requires Valid(Initial(backends, maxConns), steps)
    ensures Inv(Run(Initial(backends, maxConns), steps))
    ensures var s := Run(Initial(backends, maxConns), steps);
            && (forall a :: a in s.pool <==> a in backends && a !in Dropped(Initial(backends, maxConns), steps))
            && s.conns.Keys == s.pool
            && forall a :: a in s.pool ==>
                 s.conns[a] == |On(s.live, a)| && s.conns[a] <= if maxConns < 0 then 0 else maxConns
  {
    if steps == [] {
      assert forall a :: On(map[], a) == {};
    } else {
      Accounting(backends, maxConns, steps[..|steps| - 1]);
      AccountingStep(backends, maxConns, steps);
    }
  }

  lemma AccountingStep(backends: seq<string>, maxConns: int, steps: seq<Step>)
    requires steps != [] && Valid(Initial(backends, maxConns), steps)
    requires var s0, init := Initial(backends, maxConns), steps[..|steps| - 1];
             Inv(Run(s0, init)) && forall a :: a in Run(s0, init).pool <==> a in backends && a !in Dropped(s0, init)
    ensures var s0 := Initial(backends, maxConns);
            && Inv(Run(s0, steps)) && Run(s0, steps).maxConns == maxConns
            && forall a :: a in Run(s0, steps).pool <==> a in backends && a !in Dropped(s0, steps)
  {
    var s0, init, last := Initial(backends, maxConns), steps[..|steps| - 1], steps[|steps| - 1];
    StepInv(Run(s0, init), last);
    SameMax(s0, steps);
  }

  lemma {:induction false} SameMax(s: State, steps: seq<Step>)
    requires Valid(s, steps)
    ensures Run(s, steps).maxConns == s.maxConns
  {
    if steps == [] {
    } else {
      SameMax(s, steps[..|steps| - 1]);
    }
  }

  // ----- the pool only shrinks

  function DialFailures(steps: seq<Step>): nat {
    if steps == [] then 0 else DialFailures(steps[..|steps| - 1]) + if steps[|steps| - 1] == DialFail then 1 else 0
  }

  lemma StepPool(s: State, step: Step)
    requires Inv(s) && Enabled(s, step)
    ensures var s' := Apply(s, step);
            s'.maxConns == s.maxConns && s'.pool <= s.pool && |s'.pool| == |s.pool| - if step == DialFail then 1 else 0
  {
  }

  /** Every dial failure costs one backend for good: over a whole run the failures and the backends left
      add up to the backends at its start, and no backend comes back. */
  lemma {:induction false} DialFailureBound(s: State, steps: seq<Step>)
    requires Inv(s) && Valid(s, steps)
    ensures var s' := Run(s, steps);
            Inv(s') && s'.maxConns == s.maxConns && s'.pool <= s.pool && DialFailures(steps) + |s'.pool| == |s.pool|
  {
    if steps == [] {
    } else {
      DialFailureBound(s, steps[..|steps| - 1]);
      StepInv(Run(s, steps[..|steps| - 1]), steps[|steps| - 1]);
      StepPool(Run(s, steps[..|steps| - 1]), steps[|steps| - 1]);
    }
  }

  lemma EmptyPoolEnablesNoDial(s: State, step: Step)
    requires Inv(s) && s.pool == {} && Enabled(s, step)
    ensures !step.DialOk?
  {
  }

  function Dispatches(steps: seq<Step>): nat {
    if steps == [] then 0 else Dispatches(steps[..|steps| - 1]) + if steps[|steps| - 1].DialOk? then 1 else 0
  }

  /** Once the pool is empty nothing is dispatched any more. */
  lemma {:induction false} EmptyPoolDispatchesNothing(s: State, steps: seq<Step>)
    requires Inv(s) && s.pool == {} && Valid(s, steps)
    ensures Dispatches(steps) == 0
  {
    if steps == [] {
    } else {
      EmptyPoolDispatchesNothing(s, steps[..|steps| - 1]);
      DialFailureBound(s, steps[..|steps| - 1]);
      EmptyPoolEnablesNoDial(Run(s, steps[..|steps| - 1]), steps[|steps| - 1]);
    }
  }

  // ----- every accepted connection is dispatched

  function Accepted(steps: seq<Step>): nat {
    if steps == [] then 0 else Accepted(steps[..|steps| - 1]) + if steps[|steps| - 1] == Accept then 1 else 0
  }

  /** No connection is lost: over a whole run the connections accepted are those dispatched and, while the
      forwarder is busy, the one it is busy with. */
  lemma {:induction false} AcceptedAreDispatched(backends: seq<string>, maxConns: int, steps: seq<Step>)
    requires Valid(Initial(backends, maxConns), steps)
    ensures Accepted(steps) ==
            Dispatches(steps) + if Run(Initial(backends, maxConns), steps).forwarder == Waiting then 0 else 1
  {
    if steps == [] {
    } else {
      AcceptedAreDispatched(backends, maxConns, steps[..|steps| - 1]);
    }
  }

  /** A named backend has room, and no unnamed one wins. */
  ghost predicate RoomLeft(s: State) {
    && (exists a :: a in s.pool && a != "" && Free(s.conns, s.maxConns, a))
    && !UnnamedWins(s.pool, s.conns, s.maxConns)
  }

  /** Then, whatever the order, one choice and one dial dispatch the connection the forwarder is busy with,
      to a least loaded backend, and the forwarder is ready for the next. */
  lemma DispatchNext(s: State, order: seq<string>, id: nat) returns (a: string)
    requires Inv(s) && s.forwarder == Choosing && RoomLeft(s) && Enumerates(order, s.pool) && id !in s.live
    ensures Valid(s, [Choose(order), DialOk(id)])
    ensures var s' := Run(s, [Choose(order), DialOk(id)]);
            s'.forwarder == Waiting && s'.live == s.live[id := a] && s'.pool == s.pool
    ensures a in s.pool && a != "" && Free(s.conns, s.maxConns, a)
    ensures forall b :: b in s.pool && b != "" && Free(s.conns, s.maxConns, b) ==>
              Count(s.conns, a) <= Count(s.conns, b)
  {
    PickIsBest(order, s.pool, s.conns, s.maxConns);
    a := Lowest(order, s.conns, s.maxConns);
    var s1 := Apply(s, Choose(order));
    RunMore(s, [], Choose(order));
    RunMore(s, [] + [Choose(order)], DialOk(id));
    assert [] + [Choose(order)] + [DialOk(id)] == [Choose(order), DialOk(id)];
  }

  /** A failed dial takes out the backend dialled, and the same connection goes to another one that has
      room. */
  lemma RetryAfterFailure(s: State, order: seq<string>, id: nat) returns (a: string)
    requires Inv(s) && s.forwarder.Chosen? && id !in s.live
    requires RoomLeft(Apply(s, DialFail)) && Enumerates(order, s.pool - {s.forwarder.addr})
    ensures Valid(s, [DialFail, Choose(order), DialOk(id)])
    ensures var s' := Run(s, [DialFail, Choose(order), DialOk(id)]);
            s'.forwarder == Waiting && s'.live == s.live[id := a] && s'.pool == s.pool - {s.forwarder.addr}
    ensures a in s.pool && a != s.forwarder.addr
  {
    StepInv(s, DialFail);
    var s1 := Apply(s, DialFail);
    a := DispatchNext(s1, order, id);
    RunMore(s, [], DialFail);
    assert [] + [DialFail] == [DialFail];
    RunConcat(s, [DialFail], [Choose(order), DialOk(id)]);
    assert [DialFail] + [Choose(order), DialOk(id)] == [DialFail, Choose(order), DialOk(id)];
  }

  // ----- saturation

  ghost function OnAny(live: map<nat, string>, pool: set<string>): set<nat> {
    set id | id in live && live[id] in pool
  }

  lemma OnAnySplit(live: map<nat, string>, pool: set<string>, a: string)
    requires a in pool
    ensures |OnAny(live, pool)| == |OnAny(live, pool - {a})| + |On(live, a)|
  {
    assert OnAny(live, pool) == OnAny(live, pool - {a}) + On(live, a);
    assert OnAny(live, pool - {a}) !! On(live, a);
  }

  lemma {:induction false} TotalOnPool(live: map<nat, string>, pool: set<string>, cap: nat)
    requires forall a :: a in pool ==> |On(live, a)| <= cap
    ensures |OnAny(live, pool)| <= |pool| * cap
    ensures |OnAny(live, pool)| == |pool| * cap <==> forall a :: a in pool ==> |On(live, a)| == cap
  {
    if pool == {} {
      assert OnAny(live, pool) == {};
    } else {
      var a :| a in pool;
      var rest := pool - {a};
      TotalOnPool(live, rest, cap);
      OnAnySplit(live, pool, a);
      var n := |rest|;
      assert |pool| == n + 1;
      assert (n + 1) * cap == n * cap + cap;
      assert forall b :: b in pool <==> b == a || b in rest;
    }
  }

  /** Every named backend has as many connections as it may have. */
  ghost predicate Full(s: State) {
    |OnAny(s.live, s.pool - {""})| == |s.pool - {""}| * Cap(s.maxConns)
  }

  lemma FullMeansNoneFree(s: State)
    requires Inv(s)
    ensures Full(s) <==> forall a :: a in s.pool && a != "" ==> !Free(s.conns, s.maxConns, a)
  {
    TotalOnPool(s.live, s.pool - {""}, Cap(s.maxConns));
    assert forall a :: a in s.pool - {""} <==> a in s.pool && a != "";
  }

  /** Whatever the order, the forwarder finds no backend exactly when the named ones are full to the last
      connection, if and only if no unnamed backend wins a tie. */
  lemma SaturatedIff(s: State)
    requires Inv(s)
    ensures !UnnamedWins(s.pool, s.conns, s.maxConns) <==>
            forall order :: Enumerates(order, s.pool) ==> (Lowest(order, s.conns, s.maxConns) == "" <==> Full(s))
  {
    FullMeansNoneFree(s);
    if UnnamedWins(s.pool, s.conns, s.maxConns) {
      var order := UnnamedLast(s.pool, s.conns, s.maxConns);
      assert !Full(s);
    } else {
      forall order | Enumerates(order, s.pool)
        ensures Lowest(order, s.conns, s.maxConns) == "" <==> Full(s)
      {
        PickIsBest(order, s.pool, s.conns, s.maxConns);
      }
    }
  }

  // ----- spread

  /** Counts differ by at most one, and a chosen backend has the least. */
  ghost predicate Balanced(s: State) {
    && s.conns.Keys == s.pool
    && (forall a, b :: a in s.pool && b in s.pool ==> s.conns[a] <= s.conns[b] + 1)
    && (s.forwarder.Chosen? ==> forall a :: a in s.pool ==> Count(s.conns, s.forwarder.addr) <= s.conns[a])
  }

  lemma StepBalanced(s: State, step: Step)
    requires Inv(s) && "" !in s.pool && Balanced(s) && Enabled(s, step) && !step.Close?
    ensures Balanced(Apply(s, step))
  {
    if step.Choose? {
      PickIsBest(step.order, s.pool, s.conns, s.maxConns);
    }
  }

  /** Dialling keeps a balanced pool balanced for as long as no connection closes. */
  lemma {:induction false} SpreadNamed(s: State, steps: seq<Step>)
    requires Inv(s) && "" !in s.pool && Balanced(s) && Valid(s, steps)
    requires NoClose(steps)
    ensures Balanced(Run(s, steps))
  {
    if steps == [] {
    } else {
      SpreadNamed(s, steps[..|steps| - 1]);
      DialFailureBound(s, steps[..|steps| - 1]);
      StepBalanced(Run(s, steps[..|steps| - 1]), steps[|steps| - 1]);
    }
  }

  /** The counts of named backends differ by at most one. */
  ghost predicate Even(s: State) {
    forall a, b :: a in s.pool && b in s.pool && a != "" && b != "" ==> Count(s.conns, a) <= Count(s.conns, b) + 1
  }

  ghost predicate NoClose(steps: seq<Step>) {
    forall k :: 0 <= k < |steps| ==> !steps[k].Close?
  }

  /** There is no unnamed backend, or at most one named one, or at most one connection to each. */
  ghost predicate Spreads(pool: set<string>, maxConns: int) {
    "" !in pool || |pool| <= 2 || maxConns <= 1
  }

  /** From any state with balanced counts, connections spread evenly over the named backends for as long as
      none closes, if there is no unnamed backend, or at most one named one, or at most one connection to
      each. */
  lemma Spread(s: State, steps: seq<Step>)
    requires Inv(s) && Valid(s, steps) && NoClose(steps)
    requires Spreads(s.pool, s.maxConns) && ("" !in s.pool ==> Balanced(s))
    ensures Even(Run(s, steps))
  {
    DialFailureBound(s, steps);
    if "" !in s.pool {
      SpreadNamed(s, steps);
    } else if s.maxConns > 1 {
      var pool := Run(s, steps).pool;
      forall a, b | a in pool && b in pool && a != "" && b != "" && a != b
        ensures false
      {
        AtLeastThree(s.pool, a, b);
      }
    }
  }

  lemma AtLeastThree(pool: set<string>, a: string, b: string)
    requires "" in pool && a in pool && b in pool && a != "" && b != "" && a != b
    ensures |pool| >= 3
  {
    var named := pool - {""};
    assert |named| == |pool| - 1;
    assert |named - {a}| == |named| - 1;
    assert b in named - {a};
  }

  /** Right after the unnamed backend, the last one visited is picked whatever its count. */
  lemma PickedAfterUnnamed(rest: seq<string>, a: string, conns: map<string, int>, maxConns: int)
    requires a != "" && Count(conns, "") == 0 && Free(conns, maxConns, a) && 0 < maxConns
    requires forall k :: 0 <= k < |rest| ==> Count(conns, rest[k]) >= 0
    ensures Lowest(rest + [""] + [a], conns, maxConns) == a
  {
    var order := rest + [""];
    assert order[..|order| - 1] == rest && (order + [a])[..|order + [a]| - 1] == order;
    ScanSound(rest, conns, maxConns);
    assert Scan(order, conns, maxConns).0 == "";
  }

  lemma RunMore(s: State, steps: seq<Step>, step: Step)
    requires Valid(s, steps) && Enabled(Run(s, steps), step)
    ensures Valid(s, steps + [step]) && Run(s, steps + [step]) == Apply(Run(s, steps), step)
  {
    assert (steps + [step])[..|steps + [step]| - 1] == steps;
  }

  lemma {:induction false} RunConcat(s: State, steps: seq<Step>, more: seq<Step>)
    requires Valid(s, steps) && Valid(Run(s, steps), more)
    ensures Valid(s, steps + more) && Run(s, steps + more) == Run(Run(s, steps), more)
  {
    if more == [] {
      assert steps + more == steps;
    } else {
      RunConcat(s, steps, more[..|more| - 1]);
      assert (steps + more)[..|steps + more| - 1] == steps + more[..|more| - 1];
    }
  }

  lemma DialOnce(s: State, order: seq<string>, a: string, id: nat) returns (steps: seq<Step>)
    requires Enumerates(order, s.pool) && Lowest(order, s.conns, s.maxConns) == a != ""
    requires s.forwarder == Waiting && id !in s.live
    ensures Valid(s, steps) && NoClose(steps)
    ensures Run(s, steps) == s.(conns := s.conns[a := Count(s.conns, a) + 1], live := s.live[id := a])
  {
    RunMore(s, [], Accept);
    RunMore(s, [] + [Accept], Choose(order));
    RunMore(s, [] + [Accept] + [Choose(order)], DialOk(id));
    steps := [] + [Accept] + [Choose(order)] + [DialOk(id)];
  }

  lemma TwoNamed(pool: set<string>) returns (a: string, b: string)
    requires "" in pool && |pool| > 2
    ensures a in pool && b in pool && a != "" && b != "" && a != b
  {
    var named := pool - {""};
    assert |named| == |pool| - 1;
    assert named != {};
    a :| a in named;
    assert |named - {a}| == |named| - 1;
    assert named - {a} != {};
    b :| b in named - {a};
  }

  lemma UnnamedBefore(pool: set<string>, a: string) returns (rest: seq<string>)
    requires "" in pool && a in pool && a != ""
    ensures Enumerates(rest + [""] + [a], pool) && forall k :: 0 <= k < |rest| ==> rest[k] in pool
  {
    rest := OrderOf(pool - {""} - {a});
    var order := rest + [""] + [a];
    assert forall x :: x in order <==> x in rest || x == "" || x == a;
    assert forall k :: 0 <= k < |order| ==> order[k] in order;
  }

  lemma DialAfterUnnamed(s: State, rest: seq<string>, a: string, id: nat) returns (steps: seq<Step>)
    requires Enumerates(rest + [""] + [a], s.pool) && s.forwarder == Waiting && id !in s.live && a != ""
    requires Count(s.conns, "") == 0 && Free(s.conns, s.maxConns, a) && 0 < s.maxConns
    requires forall k :: 0 <= k < |rest| ==> Count(s.conns, rest[k]) >= 0
    ensures Valid(s, steps) && NoClose(steps)
    ensures Run(s, steps) == s.(conns := s.conns[a := Count(s.conns, a) + 1], live := s.live[id := a])
  {
    PickedAfterUnnamed(rest, a, s.conns, s.maxConns);
    steps := DialOnce(s, rest + [""] + [a], a, id);
  }

  /** One backend is dialled twice while another one is idle. */
  lemma UnevenRun(backends: seq<string>, maxConns: int) returns (steps: seq<Step>)
    requires !Spreads(Initial(backends, maxConns).pool, maxConns)
    ensures Valid(Initial(backends, maxConns), steps) && NoClose(steps)
    ensures !Even(Run(Initial(backends, maxConns), steps))
  {
    var s := Initial(backends, maxConns);
    var a, b := TwoNamed(s.pool);
    var rest := UnnamedBefore(s.pool, a);
    steps := DialAfterUnnamed(s, rest, a, 0);
    var s1 := Run(s, steps);
    var more := DialAfterUnnamed(s1, rest, a, 1);
    RunConcat(s, steps, more);
    steps := steps + more;
    assert Count(Run(s, steps).conns, a) == 2 && Count(Run(s, steps).conns, b) == 0;
  }

  /** Until a connection closes, every run spreads connections evenly over the named backends if and only
      if there is no unnamed one, or at most one named one, or at most one connection to each. */
  lemma SpreadIff(backends: seq<string>, maxConns: int)
    ensures Spreads(Initial(backends, maxConns).pool, maxConns) <==>
            forall steps :: Valid(Initial(backends, maxConns), steps) && NoClose(steps) ==>
              Even(Run(Initial(backends, maxConns), steps))
  {
    if Spreads(Initial(backends, maxConns).pool, maxConns) {
      forall steps | Valid(Initial(backends, maxConns), steps) && NoClose(steps)
        ensures Even(Run(Initial(backends, maxConns), steps))
      {
        Accounting(backends, maxConns, []);
        Spread(Initial(backends, maxConns), steps);
      }
    } else {
      var steps := UnevenRun(backends, maxConns);
    }
  }

  // ----- the balancer object

  class Balancer {
    var backendAddresses: set<string>
    var backendConns: map<string, int>
    const maxConns: int
    var forwarder: Forwarder
    var live: map<nat, string>

    ghost function View(): State
      reads this
    {
      State(backendAddresses, backendConns, maxConns, forwarder, live)
    }

    constructor Init(backends: seq<string>, max: int)
      ensures View() == Initial(backends, max)
      ensures Inv(View()) && Balanced(View())
    {
      var conns: map<string, int>, addrs: set<string> := map[], {};
      for k := 0 to |backends|
        invariant addrs == set a | a in backends[..k]
        invariant conns == map a | a in addrs :: 0
      {
        assert backends[..k + 1] == backends[..k] + [backends[k]];
        conns := conns[backends[k] := 0];
        addrs := addrs + {backends[k]};
      }
      assert backends[..|backends|] == backends;
      backendAddresses, backendConns, maxConns, forwarder, live := addrs, conns, max, Waiting, map[];
      new;
      Accounting(backends, max, []);
    }

    method GetLowestBalancer(order: seq<string>) returns (lowestAddr: string)
      requires Enumerates(order, backendAddresses)
      ensures lowestAddr == Lowest(order, backendConns, maxConns)
      ensures !UnnamedWins(backendAddresses, backendConns, maxConns) ==>
                BestPick(order, backendConns, maxConns, lowestAddr)
    {
      lowestAddr := "";
      var lowestCount := 0;
      for k := 0 to |order|
        invariant (lowestAddr, lowestCount) == Scan(order[..k], backendConns, maxConns)
      {
        assert order[..k + 1][..k] == order[..k];
        var addr := order[k];
        var count := if addr in backendConns then backendConns[addr] else 0;
        if lowestAddr == "" && count < maxConns {
          lowestAddr, lowestCount := addr, count;
        } else if count < maxConns && count <= lowestCount {
          lowestAddr, lowestCount := addr, count;
        }
      }
      assert order[..|order|] == order;
      if !UnnamedWins(backendAddresses, backendConns, maxConns) {
        PickIsBest(order, backendAddresses, backendConns, maxConns);
      }
    }

    /** Under the write lock: count the connection, dial, and drop the backend if that fails. */
    method Dial(id: nat, ok: bool)
      requires Inv(View()) && Enabled(View(), if ok then DialOk(id) else DialFail)
      modifies this
      ensures View() == Apply(old(View()), if ok then DialOk(id) else DialFail)
      ensures Inv(View())
    {
      StepInv(View(), if ok then DialOk(id) else DialFail);
      var addr := forwarder.addr;
      backendConns := backendConns[addr := (if addr in backendConns then backendConns[addr] else 0) + 1];
      if !ok {
        backendAddresses := backendAddresses - {addr};
        backendConns := backendConns - {addr};
        forwarder := Choosing;
      } else {
        live := live[id := addr];
        forwarder := Waiting;
      }
    }

    method DecrementCount(id: nat)
      requires Inv(View()) && Enabled(View(), Close(id))
      modifies this
      ensures View() == Apply(old(View()), Close(id))
      ensures Inv(View())
    {
      StepInv(View(), Close(id));
      var addr := live[id];
      live := live - {id};
      if addr in backendConns {
        backendConns := backendConns[addr := backendConns[addr] - 1];
      }
    }

    /** The forwarder's loop, with the scheduler, the dials and the closing connections given by steps. */
    method Forward(steps: seq<Step>)
      requires Inv(View()) && Valid(View(), steps)
      modifies this
      ensures View() == Run(old(View()), steps)
      ensures Inv(View())
    {
      ghost var s0 := View();
      for k := 0 to |steps|
        invariant Valid(s0, steps[..k]) && View() == Run(s0, steps[..k]) && Inv(View())
      {
        PrefixValid(s0, steps, k + 1);
        assert steps[..k + 1][..k] == steps[..k];
        match steps[k] {
          case Accept => forwarder := Choosing;
          case Choose(order) =>
            StepInv(View(), steps[k]);
            var addr := GetLowestBalancer(order);
            if addr != "" {
              forwarder := Chosen(addr);
            }
          case DialOk(id) => Dial(id, true);
          case DialFail => Dial(0, false);
          case Close(id) => DecrementCount(id);
        }
      }
      assert steps[..|steps|] == steps;
    }
  }

  lemma {:induction false} PrefixValid(s: State, steps: seq<Step>, k: nat)
    requires Valid(s, steps) && k <= |steps|
    ensures Valid(s, steps[..k])
  {
    if k < |steps| {
      PrefixValid(s, steps[..|steps| - 1], k);
      assert steps[..|steps| - 1][..k] == steps[..k];
    } else {
      assert steps[..k] == steps;
    }
  }
}
