/** Whole runs of the health checker: any number of ticks, each with its own outcomes and schedule. */
module HealthRuns {
  import opened DnsConfig
  import opened CheckTrace
  import opened RunChecks

  datatype Tick = Tick(outcomes: seq<Outcome>, schedule: seq<nat>)

  predicate TickFits(acts: seq<Action>, t: Tick) {
    |t.outcomes| == |acts| && Schedule(acts, t.schedule)
  }

  predicate TicksFit(acts: seq<Action>, ts: seq<Tick>) {
    forall k :: 0 <= k < |ts| ==> TickFits(acts, ts[k])
  }

  /** A tick starts once all goroutines of the previous one have finished. */
  function Begin(s: State): State {
    s.(workers := seq(|s.workers|, _ => IDLE))
  }

  function RunTick(acts: seq<Action>, s: State, t: Tick): (s': State)
    requires Fits(acts, s) && TickFits(acts, t)
    ensures Fits(acts, s') && s'.addresses.Keys == s.addresses.Keys
  {
    Run(acts, t.outcomes, Begin(s), t.schedule)
  }

  function RunTicks(acts: seq<Action>, s: State, ts: seq<Tick>): (s': State)
    requires Fits(acts, s) && TicksFit(acts, ts)
    ensures Fits(acts, s') && s'.addresses.Keys == s.addresses.Keys
  {
    if ts == [] then s else RunTick(acts, RunTicks(acts, s, ts[..|ts| - 1]), ts[|ts| - 1])
  }

  ghost predicate Completes(acts: seq<Action>, s: State, ts: seq<Tick>)
    requires Fits(acts, s) && TicksFit(acts, ts)
  {
    ts != [] ==> Completes(acts, s, ts[..|ts| - 1]) && Complete(RunTicks(acts, s, ts))
  }

  /** The state the checker is built in. */
  function Start(acts: seq<Action>, configured: map<RecordId, seq<string>>): State {
    State(seq(|acts|, _ => FRESH), seq(|acts|, _ => IDLE), configured)
  }

  ghost predicate Known(acts: seq<Action>, configured: map<RecordId, seq<string>>) {
    forall i :: 0 <= i < |acts| ==> acts[i].record in configured
  }

  /** The outcomes check i has seen. */
  function History(acts: seq<Action>, ts: seq<Tick>, i: nat): (h: seq<Outcome>)
    requires TicksFit(acts, ts) && i < |acts|
    ensures |h| == |ts|
  {
    seq(|ts|, k requires 0 <= k < |ts| => ts[k].outcomes[i])
  }

  /** A run from the start whose every tick finished. */
  ghost predicate FullRun(acts: seq<Action>, configured: map<RecordId, seq<string>>, ts: seq<Tick>) {
    Known(acts, configured) && TicksFit(acts, ts) && Completes(acts, Start(acts, configured), ts)
  }

  function Reached(acts: seq<Action>, configured: map<RecordId, seq<string>>, ts: seq<Tick>): State
    requires Known(acts, configured) && TicksFit(acts, ts)
  {
    RunTicks(acts, Start(acts, configured), ts)
  }

  lemma FullRunPrefix(acts: seq<Action>, configured: map<RecordId, seq<string>>, ts: seq<Tick>)
    requires FullRun(acts, configured, ts) && ts != []
    ensures FullRun(acts, configured, ts[..|ts| - 1])
    ensures Complete(Reached(acts, configured, ts))
  {
  }

  lemma HistoryPush(acts: seq<Action>, ts: seq<Tick>, i: nat)
    requires TicksFit(acts, ts) && i < |acts| && ts != []
    ensures History(acts, ts, i) == History(acts, ts[..|ts| - 1], i) + [ts[|ts| - 1].outcomes[i]]
  {
  }

  /** After any run, under any schedules, each check's counter is its trailing failure streak and its
      flag says that the streak reached the limit. */
  lemma {:induction false} RunTraceForm(acts: seq<Action>, configured: map<RecordId, seq<string>>, ts: seq<Tick>,
                                        i: nat)
    requires FullRun(acts, configured, ts) && i < |acts|
    ensures var h := History(acts, ts, i);
            Reached(acts, configured, ts).locals[i] == Local(Streak(h), Streak(h) >= Limit(Threshold(acts[i])))
  {
    if ts == [] {
    } else {
      var init, t := ts[..|ts| - 1], ts[|ts| - 1];
      FullRunPrefix(acts, configured, ts);
      RunTraceForm(acts, configured, init, i);
      HistoryPush(acts, ts, i);
      TickLocals(acts, t.outcomes, Begin(Reached(acts, configured, init)), t.schedule);
      StreakOfPush(History(acts, init, i), t.outcomes[i]);
    }
  }

  // ----- no healthy address is lost, whatever the number of checks on it

  /** The check holds its address down: it is failed or has just pruned it, and has not just revived it. */
  ghost predicate Down(o: Outcome, w: Worker, l: Local) {
    if w.stage == Acted then o == Fail && (w.fire || l.failed) else l.failed
  }

  ghost predicate Covered(acts: seq<Action>, os: seq<Outcome>, s: State, id: RecordId, x: string)
    requires Fits(acts, s) && |os| == |acts| && id in s.addresses
  {
    x in s.addresses[id] ||
    exists i :: 0 <= i < |acts| && Aims(acts[i], id, x) && Down(os[i], s.workers[i], s.locals[i])
  }

  /** A failed check has a positive counter until it settles, so its next success revives. */
  ghost predicate Sound(s: State) {
    && |s.workers| == |s.locals|
    && forall i :: 0 <= i < |s.locals| && s.locals[i].failed ==> s.locals[i].count > 0
  }

  ghost predicate FireSound(os: seq<Outcome>, s: State)
    requires |os| == |s.workers| == |s.locals|
  {
    forall i :: 0 <= i < |os| && os[i] == Pass && s.workers[i].stage == Observed && s.locals[i].failed ==>
      s.workers[i].fire
  }

  lemma StepSound(acts: seq<Action>, os: seq<Outcome>, s: State, i: nat)
    requires Fits(acts, s) && |os| == |acts| && i < |acts|
    requires Sound(s) && FireSound(os, s)
    requires os[i] == Fail && s.workers[i].stage == Acted ==> s.locals[i].count > 0
    ensures Sound(Step(acts, os, s, i)) && FireSound(os, Step(acts, os, s, i))
  {
  }

  lemma StepCovered(acts: seq<Action>, os: seq<Outcome>, s: State, i: nat, id: RecordId, x: string)
    requires Fits(acts, s) && |os| == |acts| && i < |acts| && id in s.addresses
    requires FireSound(os, s) && Covered(acts, os, s, id, x)
    ensures Covered(acts, os, Step(acts, os, s, i), id, x)
  {
    var s' := Step(acts, os, s, i);
    StepCopies(acts, os, s, i, id, x);
    assert forall y :: y in s'.addresses[id] <==> y in multiset(s'.addresses[id]);
    assert forall y :: y in s.addresses[id] <==> y in multiset(s.addresses[id]);
    if x !in s.addresses[id] {
      var j :| 0 <= j < |acts| && Aims(acts[j], id, x) && Down(os[j], s.workers[j], s.locals[j]);
      if j == i {
        assert x in s'.addresses[id] || Down(os[i], s'.workers[i], s'.locals[i]);
      }
    } else if x !in s'.addresses[id] {
      assert Aims(acts[i], id, x) && Down(os[i], s'.workers[i], s'.locals[i]);
    }
  }

  lemma {:induction false} RunCovered(acts: seq<Action>, os: seq<Outcome>, s0: State, p: seq<nat>, id: RecordId,
                                      x: string)
    requires Begun(acts, s0) && |os| == |acts| && Schedule(acts, p) && id in s0.addresses
    requires Sound(s0) && Covered(acts, os, s0, id, x)
    ensures var s := Run(acts, os, s0, p); Sound(s) && FireSound(os, s) && Covered(acts, os, s, id, x)
  {
    if p == [] {
    } else {
      var q := p[..|p| - 1];
      RunCovered(acts, os, s0, q, id, x);
      RunProgress(acts, os, s0, q);
      StepSound(acts, os, Run(acts, os, s0, q), p[|p| - 1]);
      StepCovered(acts, os, Run(acts, os, s0, q), p[|p| - 1], id, x);
    }
  }

  /** In every reachable state, also in the middle of a tick, a configured address that is missing has
      a check that is failed or has just pruned it. */
  lemma {:induction false} NoHealthyAddressLost(acts: seq<Action>, configured: map<RecordId, seq<string>>,
                                                ts: seq<Tick>,
                                                os: seq<Outcome>, p: seq<nat>, id: RecordId, x: string)
    requires FullRun(acts, configured, ts) && |os| == |acts| && Schedule(acts, p)
    requires id in configured && x in configured[id]
    ensures var s := Run(acts, os, Begin(Reached(acts, configured, ts)), p);
            Sound(s) && Covered(acts, os, s, id, x)
    decreases |ts|
  {
    var s := Reached(acts, configured, ts);
    if ts == [] {
    } else {
      var t := ts[|ts| - 1];
      FullRunPrefix(acts, configured, ts);
      NoHealthyAddressLost(acts, configured, ts[..|ts| - 1], t.outcomes, t.schedule, id, x);
      assert Covered(acts, t.outcomes, s, id, x);
    }
    assert Covered(acts, os, Begin(s), id, x);
    RunCovered(acts, os, Begin(s), p, id, x);
  }

  /** Between ticks: a configured address all of whose checks are below their limit is served. */
  lemma HealthyAddressServed(acts: seq<Action>, configured: map<RecordId, seq<string>>, ts: seq<Tick>, id: RecordId,
                             x: string)
    requires FullRun(acts, configured, ts) && id in configured && x in configured[id]
    requires forall i: nat :: i < |acts| && Aims(acts[i], id, x) ==>
               Streak(History(acts, ts, i)) < Limit(Threshold(acts[i]))
    ensures x in Reached(acts, configured, ts).addresses[id]
  {
    var s := Reached(acts, configured, ts);
    var os := seq(|acts|, _ => Pass);
    NoHealthyAddressLost(acts, configured, ts, os, [], id, x);
    forall i: nat | i < |acts| && Aims(acts[i], id, x)
      ensures !Down(os[i], Begin(s).workers[i], s.locals[i])
    {
      RunTraceForm(acts, configured, ts, i);
    }
  }

  // ----- exact copies, with one check per address

  /** No other check aims at the address check i aims at. */
  ghost predicate SoleCheck(acts: seq<Action>, i: nat)
    requires i < |acts|
  {
    forall j :: 0 <= j < |acts| && j != i ==> !Aims(acts[j], acts[i].record, acts[i].check.target)
  }

  ghost predicate Recovery(h: seq<Outcome>, k: nat) {
    0 < k < |h| && h[k] == Pass && h[k - 1] == Fail
  }

  ghost predicate Soft(limit: nat, h: seq<Outcome>, k: nat) {
    k < |h| && Recovery(h, k) && Streak(h[..k]) < limit
  }

  ghost predicate Hard(limit: nat, h: seq<Outcome>, k: nat) {
    k < |h| && Recovery(h, k) && Streak(h[..k]) >= limit
  }

  /** A recovery from below the limit with no recovery from a failed state after it. */
  ghost predicate Counts(limit: nat, h: seq<Outcome>, k: nat) {
    Soft(limit, h, k) && forall j: nat :: k < j < |h| ==> !Hard(limit, h, j)
  }

  /** Recoveries from below the limit since the last recovery from a failed state, or since the start. */
  ghost function SoftRecoveries(limit: nat, h: seq<Outcome>): set<nat> {
    set k: nat | k < |h| && Counts(limit, h, k)
  }

  ghost function Copies(limit: nat, h: seq<Outcome>): nat {
    if Streak(h) >= limit then 0 else 1 + |SoftRecoveries(limit, h)|
  }

  lemma OlderRecoveries(limit: nat, h: seq<Outcome>, o: Outcome, k: nat)
    requires k < |h|
    ensures Soft(limit, h + [o], k) <==> Soft(limit, h, k)
    ensures Hard(limit, h + [o], k) <==> Hard(limit, h, k)
  {
    assert (h + [o])[..k] == h[..k];
  }

  lemma NewestRecovery(limit: nat, h: seq<Outcome>, o: Outcome)
    ensures var recovers := o == Pass && |h| > 0 && h[|h| - 1] == Fail;
            (Soft(limit, h + [o], |h|) <==> recovers && Streak(h) < limit) &&
            (Hard(limit, h + [o], |h|) <==> recovers && Streak(h) >= limit)
  {
    assert (h + [o])[..|h|] == h;
  }

  lemma CountsPush(limit: nat, h: seq<Outcome>, o: Outcome, k: nat)
    requires k < |h|
    ensures Counts(limit, h + [o], k) <==> Counts(limit, h, k) && !Hard(limit, h + [o], |h|)
  {
    forall j: nat | j < |h|
      ensures Soft(limit, h + [o], j) <==> Soft(limit, h, j)
      ensures Hard(limit, h + [o], j) <==> Hard(limit, h, j)
    {
      OlderRecoveries(limit, h, o, j);
    }
  }

  lemma SoftRecoveryPush(limit: nat, h: seq<Outcome>, o: Outcome, k: nat)
    ensures var recovers := o == Pass && |h| > 0 && h[|h| - 1] == Fail;
            k in SoftRecoveries(limit, h + [o]) <==>
            if recovers && Streak(h) >= limit then false
            else k in SoftRecoveries(limit, h) || (k == |h| && recovers)
  {
    NewestRecovery(limit, h, o);
    if k < |h| {
      CountsPush(limit, h, o, k);
    }
  }

  lemma SoftRecoveriesPush(limit: nat, h: seq<Outcome>, o: Outcome)
    ensures SoftRecoveries(limit, h + [o]) ==
            if o == Pass && |h| > 0 && h[|h| - 1] == Fail
            then if Streak(h) < limit then SoftRecoveries(limit, h) + {|h|} else {}
            else SoftRecoveries(limit, h)
    ensures |h| !in SoftRecoveries(limit, h)
  {
    var recovers := o == Pass && |h| > 0 && h[|h| - 1] == Fail;
    forall k: nat
      ensures k in SoftRecoveries(limit, h + [o]) <==>
              if recovers && Streak(h) >= limit then false
              else k in SoftRecoveries(limit, h) || (k == |h| && recovers)
    {
      SoftRecoveryPush(limit, h, o, k);
    }
  }

  lemma CopiesPush(threshold: int, h: seq<Outcome>, o: Outcome)
    ensures Copies(Limit(threshold), h + [o]) ==
            if !Fires(threshold, Replay(threshold, h), o) then Copies(Limit(threshold), h)
            else if o == Fail then 0 else Copies(Limit(threshold), h) + 1
  {
    var limit := Limit(threshold);
    SoftRecoveriesPush(limit, h, o);
    StreakOfPush(h, o);
    ActionTrace(threshold, h, o);
    TraceForm(threshold, h);
  }

  lemma OnlyToucher(acts: seq<Action>, os: seq<Outcome>, s0: State, i: nat, o: Outcome)
    requires Fits(acts, s0) && |os| == |acts| && i < |acts| && SoleCheck(acts, i)
    ensures var id, x := acts[i].record, acts[i].check.target;
            (set j: nat | j < |acts| && Touches(acts, os, s0, j, o, id, x)) ==
            if Touches(acts, os, s0, i, o, id, x) then {i} else {}
    ensures forall j: nat :: j < |acts| && Touches(acts, os, s0, j, o, acts[i].record, acts[i].check.target) ==> j == i
  {
  }

  /** One tick changes the copies of a check's target as that check alone decides. */
  lemma TickCopies(acts: seq<Action>, os: seq<Outcome>, s0: State, p: seq<nat>, i: nat)
    requires Begun(acts, s0) && |os| == |acts| && i < |acts| && SoleCheck(acts, i)
    requires Schedule(acts, p) && Complete(Run(acts, os, s0, p))
    ensures var id, x := acts[i].record, acts[i].check.target;
            multiset(Run(acts, os, s0, p).addresses[id])[x] ==
            if !Fires(Threshold(acts[i]), s0.locals[i], os[i]) then multiset(s0.addresses[id])[x]
            else if os[i] == Fail then 0 else multiset(s0.addresses[id])[x] + 1
  {
    var id, x := acts[i].record, acts[i].check.target;
    OnlyToucher(acts, os, s0, i, Pass);
    OnlyToucher(acts, os, s0, i, Fail);
    TickTally(acts, os, s0, p, id, x);
  }

  lemma {:induction false} ExactCopies(acts: seq<Action>, configured: map<RecordId, seq<string>>, ts: seq<Tick>, i: nat)
    requires FullRun(acts, configured, ts) && i < |acts| && SoleCheck(acts, i)
    requires multiset(configured[acts[i].record])[acts[i].check.target] == 1
    ensures multiset(Reached(acts, configured, ts).addresses[acts[i].record])[acts[i].check.target] ==
            Copies(Limit(Threshold(acts[i])), History(acts, ts, i))
  {
    if ts == [] {
      assert SoftRecoveries(Limit(Threshold(acts[i])), []) == {};
      assert History(acts, ts, i) == [];
    } else {
      var init, t := ts[..|ts| - 1], ts[|ts| - 1];
      FullRunPrefix(acts, configured, ts);
      ExactCopies(acts, configured, init, i);
      RunTraceForm(acts, configured, init, i);
      TraceForm(Threshold(acts[i]), History(acts, init, i));
      HistoryPush(acts, ts, i);
      CopiesPush(Threshold(acts[i]), History(acts, init, i), t.outcomes[i]);
      TickCopies(acts, t.outcomes, Begin(Reached(acts, configured, init)), t.schedule, i);
    }
  }

  /** After every run the addresses no check aims at are listed in the configured order. */
  lemma {:induction false} UncheckedKeepOrder(acts: seq<Action>, configured: map<RecordId, seq<string>>, ts: seq<Tick>,
                                              id: RecordId, keep: set<string>)
    requires FullRun(acts, configured, ts) && id in configured
    requires forall i :: 0 <= i < |acts| && acts[i].record == id ==> acts[i].check.target !in keep
    ensures Only(Reached(acts, configured, ts).addresses[id], keep) == Only(configured[id], keep)
  {
    if ts == [] {
    } else {
      var init, t := ts[..|ts| - 1], ts[|ts| - 1];
      FullRunPrefix(acts, configured, ts);
      UncheckedKeepOrder(acts, configured, init, id, keep);
      RunKeepsOrder(acts, t.outcomes, Begin(Reached(acts, configured, init)), t.schedule, id, keep);
    }
  }

  /** An address no check aims at keeps its copies. */
  lemma {:induction false} UncheckedCopies(acts: seq<Action>, configured: map<RecordId, seq<string>>, ts: seq<Tick>,
                                           id: RecordId, x: string)
    requires FullRun(acts, configured, ts) && id in configured
    requires forall i :: 0 <= i < |acts| ==> !Aims(acts[i], id, x)
    ensures multiset(Reached(acts, configured, ts).addresses[id])[x] == multiset(configured[id])[x]
  {
    if ts == [] {
    } else {
      var init, t := ts[..|ts| - 1], ts[|ts| - 1];
      FullRunPrefix(acts, configured, ts);
      UncheckedCopies(acts, configured, init, id, x);
      var s0 := Begin(Reached(acts, configured, init));
      TickTally(acts, t.outcomes, s0, t.schedule, id, x);
      assert (set j: nat | j < |acts| && Touches(acts, t.outcomes, s0, j, Pass, id, x)) == {};
    }
  }

  // ----- several checks on one address

  /** A run with given outcomes exists. */
  lemma {:induction false} BuildRun(acts: seq<Action>, configured: map<RecordId, seq<string>>, oss: seq<seq<Outcome>>)
    returns (ts: seq<Tick>)
    requires Known(acts, configured) && forall k :: 0 <= k < |oss| ==> |oss[k]| == |acts|
    ensures FullRun(acts, configured, ts) && |ts| == |oss|
    ensures forall k :: 0 <= k < |ts| ==> ts[k].outcomes == oss[k]
  {
    ts := [];
    if oss == [] {
    } else {
      var init := BuildRun(acts, configured, oss[..|oss| - 1]);
      var p := FinishTick(acts, oss[|oss| - 1], Begin(Reached(acts, configured, init)));
      ts := init + [Tick(oss[|oss| - 1], p)];
      assert ts[..|ts| - 1] == init;
    }
  }

  lemma {:induction false} AllFailStreak(h: seq<Outcome>)
    requires forall k :: 0 <= k < |h| ==> h[k] == Fail
    ensures Streak(h) == |h|
  {
    if h == [] {
    } else {
      AllFailStreak(h[..|h| - 1]);
    }
  }

  /** In this tick nobody prunes x and check j revives it, so x ends up listed. */
  lemma RevivedIsListed(acts: seq<Action>, os: seq<Outcome>, s0: State, p: seq<nat>, j: nat)
    requires Begun(acts, s0) && |os| == |acts| && Schedule(acts, p) && Complete(Run(acts, os, s0, p))
    requires j < |acts| && os[j] == Pass && s0.locals[j].count > 0
    requires forall i :: 0 <= i < |acts| && os[i] == Fail ==> s0.locals[i].failed
    ensures acts[j].check.target in Run(acts, os, s0, p).addresses[acts[j].record]
  {
    var id, x := acts[j].record, acts[j].check.target;
    assert forall i: nat :: i < |acts| ==> !Touches(acts, os, s0, i, Fail, id, x);
    TickTally(acts, os, s0, p, id, x);
    var revivers := set i: nat | i < |acts| && Touches(acts, os, s0, i, Pass, id, x);
    assert Touches(acts, os, s0, j, Pass, id, x) && j in revivers;
    assert |revivers| > 0;
    assert x in multiset(Run(acts, os, s0, p).addresses[id]);
  }

  /** Check i always fails, check j fails once just before the last tick, and everything else passes. */
  function Flapping(i: nat, j: nat, n: nat, k: int, m: int): Outcome {
    if m == i || (m == j && k + 2 == n) then Fail else Pass
  }

  lemma FlappingRelists(acts: seq<Action>, configured: map<RecordId, seq<string>>, ts: seq<Tick>, i: nat, j: nat)
    requires FullRun(acts, configured, ts) && i < |acts| && j < |acts| && i != j
    requires |ts| == Limit(Threshold(acts[i])) + 1
    requires forall k, m :: 0 <= k < |ts| && 0 <= m < |acts| ==> ts[k].outcomes[m] == Flapping(i, j, |ts|, k, m)
    ensures Streak(History(acts, ts, i)) >= Limit(Threshold(acts[i]))
    ensures acts[j].check.target in Reached(acts, configured, ts).addresses[acts[j].record]
  {
    var n := |ts|;
    var init, t := ts[..n - 1], ts[n - 1];
    FullRunPrefix(acts, configured, ts);
    RunTraceForm(acts, configured, init, i);
    RunTraceForm(acts, configured, init, j);
    AllFailStreak(History(acts, ts, i));
    AllFailStreak(History(acts, init, i));
    assert History(acts, init, j)[n - 2] == Fail;
    RevivedIsListed(acts, t.outcomes, Begin(Reached(acts, configured, init)), t.schedule, j);
  }

  /** With two checks on one address there is a run at whose end one of them is failed and the address
      is listed: the other check failed once and recovered meanwhile. */
  lemma RelistedWhileFailed(acts: seq<Action>, configured: map<RecordId, seq<string>>, i: nat, j: nat)
    returns (ts: seq<Tick>)
    requires Known(acts, configured) && i < |acts| && j < |acts| && i != j
    requires Aims(acts[j], acts[i].record, acts[i].check.target)
    ensures FullRun(acts, configured, ts)
    ensures Streak(History(acts, ts, i)) >= Limit(Threshold(acts[i]))
    ensures acts[i].check.target in Reached(acts, configured, ts).addresses[acts[i].record]
  {
    var n := Limit(Threshold(acts[i])) + 1;
    ts := BuildRun(acts, configured, seq(n, k => seq(|acts|, m => Flapping(i, j, n, k, m))));
    FlappingRelists(acts, configured, ts, i, j);
  }

  /** While the only check on an address is failed, the address is not listed. */
  lemma {:induction false} FailedIsUnlisted(acts: seq<Action>, configured: map<RecordId, seq<string>>, ts: seq<Tick>,
                                            i: nat)
    requires FullRun(acts, configured, ts) && i < |acts| && SoleCheck(acts, i)
    requires Streak(History(acts, ts, i)) >= Limit(Threshold(acts[i]))
    ensures acts[i].check.target !in Reached(acts, configured, ts).addresses[acts[i].record]
  {
    var init, t := ts[..|ts| - 1], ts[|ts| - 1];
    var h := History(acts, init, i);
    FullRunPrefix(acts, configured, ts);
    HistoryPush(acts, ts, i);
    StreakOfPush(h, t.outcomes[i]);
    RunTraceForm(acts, configured, init, i);
    TickCopies(acts, t.outcomes, Begin(Reached(acts, configured, init)), t.schedule, i);
    if Streak(h) >= Limit(Threshold(acts[i])) {
      FailedIsUnlisted(acts, configured, init, i);
    }
    assert acts[i].check.target !in multiset(Reached(acts, configured, ts).addresses[acts[i].record]);
  }

  /** A configured address whose checks, if any, have a trailing failure streak below the limit. */
  ghost predicate HealthyAt(acts: seq<Action>, configured: map<RecordId, seq<string>>, ts: seq<Tick>, id: RecordId,
                            x: string)
    requires TicksFit(acts, ts) && id in configured
  {
    x in configured[id] &&
    forall i: nat :: i < |acts| && Aims(acts[i], id, x) ==> Streak(History(acts, ts, i)) < Limit(Threshold(acts[i]))
  }

  ghost predicate AtMostOneCheck(acts: seq<Action>, id: RecordId, x: string) {
    forall i, j :: 0 <= i < |acts| && 0 <= j < |acts| && Aims(acts[i], id, x) && Aims(acts[j], id, x) ==> i == j
  }

  lemma OneCheckHeals(acts: seq<Action>, configured: map<RecordId, seq<string>>, ts: seq<Tick>, id: RecordId, x: string)
    requires FullRun(acts, configured, ts) && id in configured && AtMostOneCheck(acts, id, x)
    requires (exists i :: 0 <= i < |acts| && Aims(acts[i], id, x)) ==> x in configured[id]
    ensures x in Reached(acts, configured, ts).addresses[id] <==> HealthyAt(acts, configured, ts, id, x)
  {
    var list := Reached(acts, configured, ts).addresses[id];
    if HealthyAt(acts, configured, ts, id, x) {
      HealthyAddressServed(acts, configured, ts, id, x);
    } else if i: nat :| i < |acts| && Aims(acts[i], id, x) {
      FailedIsUnlisted(acts, configured, ts, i);
    } else {
      UncheckedCopies(acts, configured, ts, id, x);
      assert x in list <==> x in multiset(list);
      assert x in configured[id] <==> x in multiset(configured[id]);
    }
  }

  /** After every run exactly the healthy addresses are listed, if and only if no address has two checks. */
  lemma ListedIffHealthyIff(acts: seq<Action>, configured: map<RecordId, seq<string>>, id: RecordId, x: string)
    requires Known(acts, configured) && id in configured
    requires (exists i :: 0 <= i < |acts| && Aims(acts[i], id, x)) ==> x in configured[id]
    ensures AtMostOneCheck(acts, id, x) <==>
            forall ts :: FullRun(acts, configured, ts) ==>
              (x in Reached(acts, configured, ts).addresses[id] <==> HealthyAt(acts, configured, ts, id, x))
  {
    if AtMostOneCheck(acts, id, x) {
      forall ts | FullRun(acts, configured, ts)
        ensures x in Reached(acts, configured, ts).addresses[id] <==> HealthyAt(acts, configured, ts, id, x)
      {
        OneCheckHeals(acts, configured, ts, id, x);
      }
    } else {
      var i: nat, j: nat :| i < |acts| && j < |acts| && Aims(acts[i], id, x) && Aims(acts[j], id, x) && i != j;
      var ts := RelistedWhileFailed(acts, configured, i, j);
    }
  }

  // ----- two checks with threshold one on one address

  function TwinChecks(): seq<Action> {
    var action := Action(HealthCheck("", "", 0, 1, "10.0.0.1"), RecordId("z.", 0));
    [action, action]
  }

  function TwinAddresses(): map<RecordId, seq<string>> {
    map[RecordId("z.", 0) := ["10.0.0.1"]]
  }

  /** The address is listed while the first check is failed. */
  lemma RelistedExample() returns (ts: seq<Tick>)
    ensures FullRun(TwinChecks(), TwinAddresses(), ts)
    ensures Reached(TwinChecks(), TwinAddresses(), ts).locals[0].failed
    ensures "10.0.0.1" in Reached(TwinChecks(), TwinAddresses(), ts).addresses[RecordId("z.", 0)]
  {
    ts := RelistedWhileFailed(TwinChecks(), TwinAddresses(), 0, 1);
    RunTraceForm(TwinChecks(), TwinAddresses(), ts, 0);
  }

  /** A reachable state and a tick in which one check recovers while the other fails: one schedule ends
      with the address listed, another without. */
  lemma ConflictExample() returns (ts: seq<Tick>, p: seq<nat>, q: seq<nat>)
    ensures FullRun(TwinChecks(), TwinAddresses(), ts)
    ensures var s0 := Begin(Reached(TwinChecks(), TwinAddresses(), ts));
            && Schedule(TwinChecks(), p) && Complete(Run(TwinChecks(), [Pass, Fail], s0, p))
            && Schedule(TwinChecks(), q) && Complete(Run(TwinChecks(), [Pass, Fail], s0, q))
            && "10.0.0.1" in Run(TwinChecks(), [Pass, Fail], s0, p).addresses[RecordId("z.", 0)]
            && "10.0.0.1" !in Run(TwinChecks(), [Pass, Fail], s0, q).addresses[RecordId("z.", 0)]
  {
    var acts, os := TwinChecks(), [Pass, Fail];
    ts := BuildRun(acts, TwinAddresses(), [[Fail, Pass]]);
    var s0 := Begin(Reached(acts, TwinAddresses(), ts));
    RunTraceForm(acts, TwinAddresses(), ts, 0);
    RunTraceForm(acts, TwinAddresses(), ts, 1);
    assert History(acts, ts, 0) == [Fail] && History(acts, ts, 1) == [Pass];
    p := RunLast(acts, os, s0, 0);
    q := RunLast(acts, os, s0, 1);
    var l, m := Run(acts, os, s0, p).addresses[RecordId("z.", 0)], Run(acts, os, s0, q).addresses[RecordId("z.", 0)];
    assert "10.0.0.1" in multiset(l) && "10.0.0.1" !in multiset(m);
  }
}
