/** The health checker object and the two A record closures it runs. */
module HealthChecker {
  import opened DnsConfig
  import opened CheckTrace
  import opened RunChecks
  import opened HealthRuns

  class HealthChecker {
    const actions: seq<Action>
    var failures: seq<int>
    var failed: seq<bool>
    var workers: seq<Worker>
    var addresses: map<RecordId, seq<string>>

    ghost predicate Valid()
      reads this
    {
      && |failures| == |failed| == |workers| == |actions|
      && (forall i :: 0 <= i < |failures| ==> failures[i] >= 0)
      && Known(actions, addresses)
    }

    ghost function View(): (s: State)
      requires Valid()
      reads this
      ensures Fits(actions, s)
    {
      State(seq(|failures|, i requires 0 <= i < |failures| reads this requires Valid() =>
              Local(failures[i], failed[i])),
            workers, addresses)
    }

    constructor Init(checks: seq<Action>, configured: map<RecordId, seq<string>>)
      requires Known(checks, configured)
      ensures Valid() && actions == checks
      ensures View() == Start(checks, configured)
    {
      actions := checks;
      failures := seq(|checks|, _ => 0);
      failed := seq(|checks|, _ => false);
      workers := seq(|checks|, _ => IDLE);
      addresses := configured;
    }

    /** The probe returned: a failure is counted, and either way the need for an action is noted. */
    method ObserveOutcome(i: nat, o: Outcome)
      requires Valid() && i < |actions|
      modifies this`failures, this`workers
      ensures Valid()
      ensures View() == Observe(actions[i], old(View()), i, o)
    {
      var fire: bool;
      if o == Fail {
        failures := failures[i := failures[i] + 1];
        fire := failures[i] >= actions[i].check.failures && !failed[i];
      } else {
        fire := failures[i] > 0;
      }
      workers := workers[i := Worker(Observed, fire)];
    }

    /** The pruning closure: rebuild the record's list without the check's target. */
    method Prune(i: nat)
      requires Valid() && i < |actions|
      modifies this`addresses
      ensures Valid()
      ensures var a := actions[i];
              addresses == old(addresses)[a.record := Without(old(addresses)[a.record], a.check.target)]
    {
      var list, target := addresses[actions[i].record], actions[i].check.target;
      var ips := [];
      for k := 0 to |list|
        invariant ips + Without(list[k..], target) == Without(list, target)
      {
        assert list[k..] == [list[k]] + list[k + 1..];
        if list[k] != target {
          ips := ips + [list[k]];
        }
      }
      assert list[|list|..] == [] && ips + [] == ips;
      addresses := addresses[actions[i].record := ips];
    }

    /** The reviving closure: append the check's target. */
    method Revive(i: nat)
      requires Valid() && i < |actions|
      modifies this`addresses
      ensures Valid()
      ensures var a := actions[i];
              addresses == old(addresses)[a.record := old(addresses)[a.record] + [a.check.target]]
    {
      addresses := addresses[actions[i].record := addresses[actions[i].record] + [actions[i].check.target]];
    }

    method RunAction(i: nat, o: Outcome)
      requires Valid() && i < |actions|
      modifies this`addresses, this`workers
      ensures Valid()
      ensures View() == Act(actions[i], old(View()), i, o)
    {
      if workers[i].fire {
        if o == Fail {
          Prune(i);
        } else {
          Revive(i);
        }
      }
      workers := workers[i := workers[i].(stage := Acted)];
    }

    method SettleCheck(i: nat, o: Outcome)
      requires Valid() && i < |actions|
      modifies this`failures, this`failed, this`workers
      ensures Valid()
      ensures View() == Settle(old(View()), i, o)
    {
      if o == Pass {
        failures := failures[i := 0];
        failed := failed[i := false];
      } else if workers[i].fire {
        failed := failed[i := true];
      }
      workers := workers[i := workers[i].(stage := Settled)];
    }

    /** One tick under a given schedule of its goroutines. */
    method RunChecks(os: seq<Outcome>, schedule: seq<nat>)
      requires Valid() && TickFits(actions, Tick(os, schedule))
      modifies this
      ensures Valid()
      ensures View() == RunTick(actions, old(View()), Tick(os, schedule))
    {
      workers := seq(|actions|, _ => IDLE);
      ghost var s0 := View();
      assert s0 == Begin(old(View()));
      for k := 0 to |schedule|
        invariant Valid()
        invariant View() == Run(actions, os, s0, schedule[..k])
      {
        assert schedule[..k + 1][..k] == schedule[..k];
        var i := schedule[k];
        match workers[i].stage
        case Ready => ObserveOutcome(i, os[i]);
        case Observed => RunAction(i, os[i]);
        case Acted => SettleCheck(i, os[i]);
        case Settled =>
      }
      assert schedule[..|schedule|] == schedule;
    }
  }
}
