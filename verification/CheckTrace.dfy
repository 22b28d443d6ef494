/** One health check: its failure counter and failed flag, as a function of the outcomes seen. */
module CheckTrace {

  datatype Outcome = Pass | Fail

  datatype Local = Local(count: nat, failed: bool)

  const FRESH := Local(0, false)

  /** Whether this outcome runs the check's action: FailedAction on Fail, ReviveAction on Pass. */
  predicate Fires(threshold: int, l: Local, o: Outcome) {
    match o
    case Fail => l.count + 1 >= threshold && !l.failed
    case Pass => l.count > 0
  }

  function After(threshold: int, l: Local, o: Outcome): Local {
    match o
    case Fail => Local(l.count + 1, l.failed || Fires(threshold, l, o))
    case Pass => FRESH
  }

  /** The check's state after a whole history of outcomes. */
  function Replay(threshold: int, h: seq<Outcome>): Local {
    if h == [] then FRESH else After(threshold, Replay(threshold, h[..|h| - 1]), h[|h| - 1])
  }

  /** The streak at which a check counts as failed. A threshold below one behaves as one. */
  function Limit(threshold: int): nat {
    if threshold < 1 then 1 else threshold
  }

  /** The last k outcomes are failures, and no longer run of failures ends the history. */
  ghost predicate IsTrailingStreak(h: seq<Outcome>, k: nat) {
    && k <= |h|
    && (forall j :: |h| - k <= j < |h| ==> h[j] == Fail)
    && (k < |h| ==> h[|h| - k - 1] == Pass)
  }

  function Streak(h: seq<Outcome>): (k: nat)
    ensures IsTrailingStreak(h, k)
  {
    if h == [] || h[|h| - 1] == Pass then 0 else 1 + Streak(h[..|h| - 1])
  }

  lemma {:induction false} StreakOfPush(h: seq<Outcome>, o: Outcome)
    ensures Streak(h + [o]) == if o == Fail then Streak(h) + 1 else 0
    ensures forall threshold :: Replay(threshold, h + [o]) == After(threshold, Replay(threshold, h), o)
  {
    assert (h + [o])[..|h + [o]| - 1] == h;
  }

  /** Trace form: the counter is the trailing failure streak, and the flag says the streak reached the limit. */
  lemma {:induction false} TraceForm(threshold: int, h: seq<Outcome>)
    ensures Replay(threshold, h) == Local(Streak(h), Streak(h) >= 1 && Streak(h) >= threshold)
  {
    if h == [] {
    } else {
      TraceForm(threshold, h[..|h| - 1]);
    }
  }

  /** The failed action runs exactly when the streak reaches the limit, the revive action exactly on
      a success directly after a failure. */
  lemma {:induction false} ActionTrace(threshold: int, h: seq<Outcome>, o: Outcome)
    ensures Fires(threshold, Replay(threshold, h), o) <==>
            match o
            case Fail => Streak(h + [o]) == if threshold < 1 then 1 else threshold
            case Pass => |h| > 0 && h[|h| - 1] == Fail
  {
    TraceForm(threshold, h);
    StreakOfPush(h, o);
  }
}
