/** The nonce table of the control server and the sweeper that expires its entries.

    The write that issues a nonce, a validation's check and its later removal of the nonce, the sweeper's
    reading of an entry, its look at the clock and its deletion are each one atomic step. */
module Nonces {
  import opened Basics

  /** The entry the sweeper has read; doomed once it was found expired. */
  datatype Entry = Entry(nonce: string, issued: int, doomed: bool)

  /** removing are the nonces that validations have accepted and not removed yet. */
  datatype State = State(nonces: map<string, int>, now: int, held: Option<Entry>, removing: multiset<string>)

  datatype Step =
    | Wait(d: nat) | Issue(nonce: string) | Check(nonce: string) | Remove(nonce: string)
    | Read(nonce: string) | Look | Delete

  predicate Expired(expireTime: int, issued: int, now: int) {
    issued < now - expireTime
  }

  predicate Accepts(expireTime: int, s: State, nonce: string) {
    nonce in s.nonces && !Expired(expireTime, s.nonces[nonce], s.now)
  }

  predicate Enabled(s: State, step: Step) {
    match step
    case Remove(n) => n in s.removing
    case Read(n) => n in s.nonces && s.held.None?
    case Look => s.held.Some? && !s.held.value.doomed
    case Delete => s.held.Some? && s.held.value.doomed
    case _ => true
  }

  function Apply(expireTime: int, s: State, step: Step): State
    requires Enabled(s, step)
  {
    match step
    case Wait(d) => s.(now := s.now + d)
    case Issue(n) => s.(nonces := s.nonces[n := s.now])
    case Check(n) => if Accepts(expireTime, s, n) then s.(removing := s.removing + multiset{n}) else s
    case Remove(n) => s.(nonces := s.nonces - {n}, removing := s.removing - multiset{n})
    case Read(n) => s.(held := Some(Entry(n, s.nonces[n], false)))
    case Look =>
      s.(held := if Expired(expireTime, s.held.value.issued, s.now) then Some(s.held.value.(doomed := true)) else None)
    case Delete => s.(nonces := s.nonces - {s.held.value.nonce}, held := None)
  }

  ghost predicate Valid(expireTime: int, start: int, steps: seq<Step>)
    decreases |steps|, 0
  {
    steps != [] ==>
      Valid(expireTime, start, steps[..|steps| - 1]) &&
      Enabled(Run(expireTime, start, steps[..|steps| - 1]), steps[|steps| - 1])
  }

  function Run(expireTime: int, start: int, steps: seq<Step>): State
    requires Valid(expireTime, start, steps)
    decreases |steps|, 1
  {
    if steps == [] then State(map[], start, None, multiset{})
    else Apply(expireTime, Run(expireTime, start, steps[..|steps| - 1]), steps[|steps| - 1])
  }

  // ----- a server that never sweeps

  function PlainStep(expireTime: int, s: State, step: Step): State {
    match step
    case Wait(d) => s.(now := s.now + d)
    case Issue(n) => s.(nonces := s.nonces[n := s.now])
    case Remove(n) => s.(nonces := s.nonces - {n})
    case _ => s
  }

  function PlainRun(expireTime: int, start: int, steps: seq<Step>): State {
    if steps == [] then State(map[], start, None, multiset{})
    else PlainStep(expireTime, PlainRun(expireTime, start, steps[..|steps| - 1]), steps[|steps| - 1])
  }

  /** The swept table is part of the other one, and what the sweeper holds was issued in the past. */
  ghost predicate Within(expireTime: int, swept: State, plain: State) {
    && swept.now == plain.now
    && (forall n :: n in swept.nonces ==> n in plain.nonces && swept.nonces[n] == plain.nonces[n])
    && (forall n :: n in plain.nonces ==> plain.nonces[n] <= plain.now)
    && (swept.held.Some? ==> swept.held.value.issued <= swept.now)
    && (swept.held.Some? && swept.held.value.doomed ==> Expired(expireTime, swept.held.value.issued, swept.now))
  }

  lemma StepWithin(expireTime: int, swept: State, plain: State, step: Step)
    requires Within(expireTime, swept, plain) && Enabled(swept, step)
    ensures Within(expireTime, Apply(expireTime, swept, step), PlainStep(expireTime, plain, step))
  {
  }

  lemma {:induction false} RunsWithin(expireTime: int, start: int, steps: seq<Step>)
    requires Valid(expireTime, start, steps)
    ensures Within(expireTime, Run(expireTime, start, steps), PlainRun(expireTime, start, steps))
  {
    if steps == [] {
    } else {
      var init, last := steps[..|steps| - 1], steps[|steps| - 1];
      RunsWithin(expireTime, start, init);
      StepWithin(expireTime, Run(expireTime, start, init), PlainRun(expireTime, start, init), last);
    }
  }

  /** The nonce is issued while the sweeper holds an older entry of the same nonce. */
  ghost predicate Careless(s: State, nonce: string) {
    s.held.Some? && s.held.value.nonce == nonce && s.held.value.issued < s.now
  }

  /** No nonce is issued again while the sweeper holds an older entry of it. */
  ghost predicate Careful(expireTime: int, start: int, steps: seq<Step>)
    requires Valid(expireTime, start, steps)
  {
    steps != [] ==>
      && Careful(expireTime, start, steps[..|steps| - 1])
      && var last := steps[|steps| - 1];
         last.Issue? ==> !Careless(Run(expireTime, start, steps[..|steps| - 1]), last.nonce)
  }

  /** The swept table lacks only expired entries, and the sweeper holds no outdated one. */
  ghost predicate Matches(expireTime: int, swept: State, plain: State) {
    && (forall n :: n in plain.nonces && !Expired(expireTime, plain.nonces[n], plain.now) ==> n in swept.nonces)
    && (swept.held.Some? && swept.held.value.nonce in swept.nonces ==>
          swept.nonces[swept.held.value.nonce] == swept.held.value.issued)
  }

  lemma StepMatches(expireTime: int, swept: State, plain: State, step: Step)
    requires Within(expireTime, swept, plain) && Matches(expireTime, swept, plain) && Enabled(swept, step)
    requires step.Issue? ==> !Careless(swept, step.nonce)
    ensures Matches(expireTime, Apply(expireTime, swept, step), PlainStep(expireTime, plain, step))
  {
  }

  lemma {:induction false} RunsMatch(expireTime: int, start: int, steps: seq<Step>)
    requires Valid(expireTime, start, steps) && Careful(expireTime, start, steps)
    ensures Matches(expireTime, Run(expireTime, start, steps), PlainRun(expireTime, start, steps))
  {
    if steps == [] {
    } else {
      var init, last := steps[..|steps| - 1], steps[|steps| - 1];
      RunsMatch(expireTime, start, init);
      RunsWithin(expireTime, start, init);
      StepMatches(expireTime, Run(expireTime, start, init), PlainRun(expireTime, start, init), last);
    }
  }

  ghost predicate Transparent(expireTime: int, start: int, steps: seq<Step>)
    requires Valid(expireTime, start, steps)
  {
    forall nonce :: Accepts(expireTime, Run(expireTime, start, steps), nonce) <==>
                    Accepts(expireTime, PlainRun(expireTime, start, steps), nonce)
  }

  /** Sweeping is invisible: after every careful run, each nonce is accepted exactly when a server that
      never swept would accept it. */
  lemma SweeperIsTransparent(expireTime: int, start: int, steps: seq<Step>)
    requires Valid(expireTime, start, steps) && Careful(expireTime, start, steps)
    ensures Transparent(expireTime, start, steps)
  {
    RunsWithin(expireTime, start, steps);
    RunsMatch(expireTime, start, steps);
  }

  // ----- when carelessness shows

  lemma RunMore(expireTime: int, start: int, steps: seq<Step>, step: Step)
    requires Valid(expireTime, start, steps) && Enabled(Run(expireTime, start, steps), step)
    ensures Valid(expireTime, start, steps + [step])
    ensures Run(expireTime, start, steps + [step]) == Apply(expireTime, Run(expireTime, start, steps), step)
    ensures PlainRun(expireTime, start, steps + [step]) ==
              PlainStep(expireTime, PlainRun(expireTime, start, steps), step)
  {
    assert (steps + [step])[..|steps + [step]| - 1] == steps;
  }

  ghost predicate NoIssue(more: seq<Step>) {
    forall k :: 0 <= k < |more| ==> !more[k].Issue?
  }

  lemma {:induction false} CarefulMore(expireTime: int, start: int, steps: seq<Step>, more: seq<Step>)
    requires Valid(expireTime, start, steps) && Careful(expireTime, start, steps)
    requires Valid(expireTime, start, steps + more) && NoIssue(more)
    ensures Careful(expireTime, start, steps + more)
  {
    if more == [] {
      assert steps + more == steps;
    } else {
      assert (steps + more)[..|steps + more| - 1] == steps + more[..|more| - 1];
      CarefulMore(expireTime, start, steps, more[..|more| - 1]);
    }
  }

  /** The sweeper is about to delete an entry that was issued anew. */
  lemma DeleteIssued(expireTime: int, start: int, steps: seq<Step>, nonce: string)
    requires Valid(expireTime, start, steps)
    requires var s := Run(expireTime, start, steps);
             s.held.Some? && s.held.value.nonce == nonce && s.held.value.doomed
    requires Accepts(expireTime, PlainRun(expireTime, start, steps), nonce)
    ensures Valid(expireTime, start, steps + [Delete]) && !Transparent(expireTime, start, steps + [Delete])
  {
    RunMore(expireTime, start, steps, Delete);
    assert !Accepts(expireTime, Run(expireTime, start, steps + [Delete]), nonce);
  }

  lemma WaitAndLook(expireTime: int, start: int, steps: seq<Step>, nonce: string)
    requires Valid(expireTime, start, steps) && expireTime >= 0
    requires var s := Run(expireTime, start, steps);
             Careless(s, nonce) && !s.held.value.doomed && nonce in s.nonces && s.nonces[nonce] == s.now
    ensures var more := steps + [Wait(expireTime)] + [Look];
            && Valid(expireTime, start, more)
            && Run(expireTime, start, more).held == Some(Run(expireTime, start, steps).held.value.(doomed := true))
            && Accepts(expireTime, PlainRun(expireTime, start, more), nonce)
  {
    RunsWithin(expireTime, start, steps);
    RunMore(expireTime, start, steps, Wait(expireTime));
    RunMore(expireTime, start, steps + [Wait(expireTime)], Look);
  }

  /** The old entry expires just before the new one does. */
  lemma Outdate(expireTime: int, start: int, steps: seq<Step>, nonce: string) returns (more: seq<Step>)
    requires Valid(expireTime, start, steps) && expireTime >= 0
    requires var s := Run(expireTime, start, steps);
             Careless(s, nonce) && nonce in s.nonces && s.nonces[nonce] == s.now
    ensures NoIssue(more) && Valid(expireTime, start, steps + more)
    ensures var s := Run(expireTime, start, steps + more);
            s.held.Some? && s.held.value.nonce == nonce && s.held.value.doomed
    ensures Accepts(expireTime, PlainRun(expireTime, start, steps + more), nonce)
  {
    RunsWithin(expireTime, start, steps);
    more := [];
    assert steps + more == steps;
    if !Run(expireTime, start, steps).held.value.doomed {
      WaitAndLook(expireTime, start, steps, nonce);
      more := [Wait(expireTime), Look];
      assert steps + more == steps + [Wait(expireTime)] + [Look];
    }
  }

  lemma CarelessShows(expireTime: int, start: int, steps: seq<Step>, nonce: string) returns (more: seq<Step>)
    requires Valid(expireTime, start, steps) && expireTime >= 0
    requires Careless(Run(expireTime, start, steps), nonce)
    ensures NoIssue(more)
    ensures var all := steps + [Issue(nonce)] + more;
            Valid(expireTime, start, all) && !Transparent(expireTime, start, all)
  {
    RunMore(expireTime, start, steps, Issue(nonce));
    var issued := steps + [Issue(nonce)];
    more := Outdate(expireTime, start, issued, nonce);
    DeleteIssued(expireTime, start, issued + more, nonce);
    assert issued + (more + [Delete]) == issued + more + [Delete];
    more := more + [Delete];
  }

  /** With a negative expiry time nothing is ever accepted. */
  lemma NothingAccepted(expireTime: int, start: int, steps: seq<Step>)
    requires Valid(expireTime, start, steps) && expireTime < 0
    ensures Transparent(expireTime, start, steps)
  {
    RunsWithin(expireTime, start, steps);
  }

  /** Issuing a nonce leaves the sweeper invisible, however the run goes on without further issues, if and
      only if the sweeper does not hold an older entry of that nonce. */
  lemma TransparentAfterIssueIff(expireTime: int, start: int, steps: seq<Step>, nonce: string)
    requires Valid(expireTime, start, steps) && Careful(expireTime, start, steps)
    ensures (expireTime < 0 || !Careless(Run(expireTime, start, steps), nonce)) <==>
            forall more :: NoIssue(more) && Valid(expireTime, start, steps + [Issue(nonce)] + more) ==>
              Transparent(expireTime, start, steps + [Issue(nonce)] + more)
  {
    var issued := steps + [Issue(nonce)];
    RunMore(expireTime, start, steps, Issue(nonce));
    if expireTime >= 0 && Careless(Run(expireTime, start, steps), nonce) {
      var more := CarelessShows(expireTime, start, steps, nonce);
    } else {
      forall more | NoIssue(more) && Valid(expireTime, start, issued + more)
        ensures Transparent(expireTime, start, issued + more)
      {
        if expireTime < 0 {
          NothingAccepted(expireTime, start, issued + more);
        } else {
          assert issued[..|issued| - 1] == steps;
          CarefulMore(expireTime, start, issued, more);
          SweeperIsTransparent(expireTime, start, issued + more);
        }
      }
    }
  }

  lemma IssueFirst(expireTime: int, start: int, nonce: string) returns (steps: seq<Step>)
    ensures steps == [Issue(nonce)] && Valid(expireTime, start, steps) && Careful(expireTime, start, steps)
    ensures Run(expireTime, start, steps) == State(map[nonce := start], start, None, multiset{})
  {
    RunMore(expireTime, start, [], Issue(nonce));
    steps := [] + [Issue(nonce)];
    assert steps[..0] == [] && Careful(expireTime, start, []);
  }

  lemma CheckIssued(expireTime: int, start: int, steps: seq<Step>, nonce: string)
    requires Valid(expireTime, start, steps) && Accepts(expireTime, Run(expireTime, start, steps), nonce)
    ensures Valid(expireTime, start, steps + [Check(nonce)])
    ensures var s := Run(expireTime, start, steps);
            Run(expireTime, start, steps + [Check(nonce)]) == s.(removing := s.removing + multiset{nonce})
  {
    RunMore(expireTime, start, steps, Check(nonce));
  }

  lemma ReadAndWait(expireTime: int, start: int, nonce: string) returns (steps: seq<Step>)
    ensures steps == [Issue(nonce), Read(nonce), Wait(1)] && Valid(expireTime, start, steps)
    ensures Run(expireTime, start, steps) ==
            State(map[nonce := start], start + 1, Some(Entry(nonce, start, false)), multiset{})
  {
    steps := IssueFirst(expireTime, start, nonce);
    RunMore(expireTime, start, steps, Read(nonce));
    steps := steps + [Read(nonce)];
    RunMore(expireTime, start, steps, Wait(1));
    steps := steps + [Wait(1)];
  }

  /** A nonce accepted and removed after the sweeper has read its entry, ready to be issued again. */
  lemma CarelessExample(expireTime: int, start: int, nonce: string) returns (steps: seq<Step>)
    requires expireTime >= 1
    ensures Valid(expireTime, start, steps) && Careful(expireTime, start, steps)
    ensures var s := Run(expireTime, start, steps); Careless(s, nonce) && nonce !in s.nonces
  {
    steps := ReadAndWait(expireTime, start, nonce);
    CheckIssued(expireTime, start, steps, nonce);
    RunMore(expireTime, start, steps + [Check(nonce)], Remove(nonce));
    steps := steps + [Check(nonce)] + [Remove(nonce)];
    var first := IssueFirst(expireTime, start, nonce);
    assert steps == first + [Read(nonce), Wait(1), Check(nonce), Remove(nonce)];
    CarefulMore(expireTime, start, first, [Read(nonce), Wait(1), Check(nonce), Remove(nonce)]);
  }

  // ----- acceptance in terms of the history alone

  /** Time passed in the run. */
  function Elapsed(steps: seq<Step>): nat {
    if steps == [] then 0
    else Elapsed(steps[..|steps| - 1]) + if steps[|steps| - 1].Wait? then steps[|steps| - 1].d else 0
  }

  /** Step j issued the nonce, and since then it was neither issued again nor removed. */
  ghost predicate Outstanding(steps: seq<Step>, j: nat, nonce: string) {
    && j < |steps| && steps[j] == Issue(nonce)
    && forall k :: j < k < |steps| ==> steps[k] != Issue(nonce) && steps[k] != Remove(nonce)
  }

  lemma {:induction false} TableIsOutstanding(expireTime: int, start: int, steps: seq<Step>, nonce: string)
    ensures var s := PlainRun(expireTime, start, steps);
            && s.now == start + Elapsed(steps)
            && (forall j: nat :: Outstanding(steps, j, nonce) ==>
                  nonce in s.nonces && s.nonces[nonce] == start + Elapsed(steps[..j]))
            && (nonce in s.nonces ==> exists j: nat :: Outstanding(steps, j, nonce))
  {
    if steps == [] {
    } else {
      var init, last := steps[..|steps| - 1], steps[|steps| - 1];
      var s := PlainRun(expireTime, start, steps);
      TableIsOutstanding(expireTime, start, init, nonce);
      forall j: nat | Outstanding(steps, j, nonce)
        ensures nonce in s.nonces && s.nonces[nonce] == start + Elapsed(steps[..j])
      {
        if j < |init| {
          assert Outstanding(init, j, nonce) && init[..j] == steps[..j];
        }
      }
      if nonce in s.nonces {
        if last == Issue(nonce) {
          assert Outstanding(steps, |init|, nonce);
        } else {
          var j: nat :| Outstanding(init, j, nonce);
          assert Outstanding(steps, j, nonce);
        }
      }
    }
  }

  /** The nonce was issued, not removed or issued again since, and its age is at most the expiry time. */
  ghost predicate Current(expireTime: int, steps: seq<Step>, j: nat, nonce: string) {
    Outstanding(steps, j, nonce) && Elapsed(steps) - Elapsed(steps[..j]) <= expireTime
  }

  /** A check succeeds only if the nonce is current, and in careful runs exactly then. */
  lemma AcceptedIff(expireTime: int, start: int, steps: seq<Step>, nonce: string)
    requires Valid(expireTime, start, steps)
    ensures Accepts(expireTime, Run(expireTime, start, steps), nonce) ==>
              exists j: nat :: Current(expireTime, steps, j, nonce)
    ensures Careful(expireTime, start, steps) ==>
              (Accepts(expireTime, Run(expireTime, start, steps), nonce) <==>
               exists j: nat :: Current(expireTime, steps, j, nonce))
  {
    RunsWithin(expireTime, start, steps);
    if Careful(expireTime, start, steps) {
      SweeperIsTransparent(expireTime, start, steps);
    }
    TableIsOutstanding(expireTime, start, steps, nonce);
    if Accepts(expireTime, Run(expireTime, start, steps), nonce) {
      var j: nat :| Outstanding(steps, j, nonce);
      assert Current(expireTime, steps, j, nonce);
    }
  }

  lemma {:induction false} PrefixValid(expireTime: int, start: int, steps: seq<Step>, k: nat)
    requires Valid(expireTime, start, steps) && k <= |steps|
    ensures Valid(expireTime, start, steps[..k])
  {
    if k < |steps| {
      PrefixValid(expireTime, start, steps[..|steps| - 1], k);
      assert steps[..|steps| - 1][..k] == steps[..k];
    } else {
      assert steps[..k] == steps;
    }
  }

  /** The nonce is removed after step k. */
  ghost predicate RemovedAfter(steps: seq<Step>, k: nat, nonce: string) {
    exists m :: k < m < |steps| && steps[m] == Remove(nonce)
  }

  /** In every run, once an accepted nonce has been removed it is accepted again only if it was issued
      again after the removal. */
  lemma AcceptedOncePerIssue(expireTime: int, start: int, steps: seq<Step>, k: nat, nonce: string) returns (j: nat)
    requires Valid(expireTime, start, steps) && RemovedAfter(steps, k, nonce)
    requires Accepts(expireTime, Run(expireTime, start, steps), nonce)
    ensures k < j < |steps| && steps[j] == Issue(nonce) && Elapsed(steps) - Elapsed(steps[..j]) <= expireTime
  {
    AcceptedIff(expireTime, start, steps, nonce);
    j :| Current(expireTime, steps, j, nonce);
    var m :| k < m < |steps| && steps[m] == Remove(nonce);
    assert m < j;
  }

  /** Step k of the run is a check that accepts the nonce. */
  ghost predicate AcceptedAt(expireTime: int, start: int, steps: seq<Step>, k: nat, nonce: string)
    requires Valid(expireTime, start, steps)
  {
    k < |steps| && steps[k] == Check(nonce) && Valid(expireTime, start, steps[..k]) &&
    Accepts(expireTime, Run(expireTime, start, steps[..k]), nonce)
  }

  /** In every run, between two accepted checks of a nonce with a removal of it in between, the nonce was
      issued again: after the removal, and no longer than the expiry time before the second check. */
  lemma AcceptedTwiceNeedsIssue(expireTime: int, start: int, steps: seq<Step>, k: nat, r: nat, m: nat, nonce: string)
    returns (j: nat)
    requires Valid(expireTime, start, steps) && k < r < m && m < |steps| && steps[r] == Remove(nonce)
    requires AcceptedAt(expireTime, start, steps, k, nonce) && AcceptedAt(expireTime, start, steps, m, nonce)
    ensures r < j < m && steps[j] == Issue(nonce)
    ensures Elapsed(steps[..m]) - Elapsed(steps[..j]) <= expireTime
  {
    PrefixValid(expireTime, start, steps, m);
    var past := steps[..m];
    assert past[r] == Remove(nonce) && RemovedAfter(past, k, nonce);
    AcceptedIff(expireTime, start, past, nonce);
    j :| Current(expireTime, past, j, nonce);
    assert past[..j] == steps[..j] && past[j] == steps[j];
  }

  /** After an accepted check at step k, and without a new issue, the nonce is accepted again before it
      expires if and only if no validation has removed it yet: overlapping validations all succeed. */
  lemma AcceptedAgainIff(expireTime: int, start: int, steps: seq<Step>, j: nat, k: nat, nonce: string)
    requires Valid(expireTime, start, steps) && Careful(expireTime, start, steps)
    requires k < |steps| && steps[k] == Check(nonce) && Current(expireTime, steps[..k], j, nonce)
    requires forall m :: k < m < |steps| ==> steps[m] != Issue(nonce)
    requires Elapsed(steps) - Elapsed(steps[..j]) <= expireTime
    ensures Accepts(expireTime, Run(expireTime, start, steps), nonce) <==> !RemovedAfter(steps, k, nonce)
  {
    AcceptedIff(expireTime, start, steps, nonce);
    assert forall m :: 0 <= m < k ==> steps[..k][m] == steps[m];
    if RemovedAfter(steps, k, nonce) {
      if Accepts(expireTime, Run(expireTime, start, steps), nonce) {
        var i := AcceptedOncePerIssue(expireTime, start, steps, k, nonce);
        assert false;
      }
    } else {
      assert Outstanding(steps, j, nonce);
      assert Current(expireTime, steps, j, nonce);
    }
  }

  /** One issue, accepted twice. */
  lemma OverlapExample(expireTime: int, start: int, nonce: string) returns (steps: seq<Step>)
    requires expireTime >= 0
    ensures steps == [Issue(nonce), Check(nonce), Check(nonce)] && Valid(expireTime, start, steps)
    ensures Run(expireTime, start, steps).removing == multiset{nonce, nonce}
  {
    steps := IssueFirst(expireTime, start, nonce);
    CheckIssued(expireTime, start, steps, nonce);
    steps := steps + [Check(nonce)];
    CheckIssued(expireTime, start, steps, nonce);
    steps := steps + [Check(nonce)];
  }

  // ----- the server object

  datatype Verdict = Ok | NoSuchNonce | NonceExpired

  /** One read of the random source. */
  datatype Entropy = Bytes(text: string) | ReadError

  datatype Issued = Fresh(nonce: string) | Failed | StillLooking

  /** All these values are nonces already handed out. */
  ghost predicate Taken(entropy: seq<Entropy>, nonces: map<string, int>) {
    forall k :: 0 <= k < |entropy| ==> entropy[k].Bytes? && entropy[k].text in nonces
  }

  /** The source delivers e after values that are all taken. */
  ghost predicate FirstRead(entropy: seq<Entropy>, e: Entropy, nonces: map<string, int>) {
    exists k :: 0 <= k < |entropy| && entropy[k] == e && Taken(entropy[..k], nonces)
  }

  class Server {
    var nonces: map<string, int>
    var held: Option<Entry>
    var removing: multiset<string>
    const expireTime: int

    ghost function View(now: int): State
      reads this
    {
      State(nonces, now, held, removing)
    }

    constructor (expire: int)
      ensures View(0) == State(map[], 0, None, multiset{}) && expireTime == expire
    {
      nonces, held, removing, expireTime := map[], None, multiset{}, expire;
    }

    /** Reads until a value not in the table turns up; given the finite sequence the source delivers. */
    method HandleNonce(entropy: seq<Entropy>, now: int) returns (r: Issued)
      modifies this`nonces
      ensures r.Fresh? ==> r.nonce !in old(nonces)
      ensures View(now) == if r.Fresh? then Apply(expireTime, old(View(now)), Issue(r.nonce)) else old(View(now))
      ensures match r
              case Fresh(n) => FirstRead(entropy, Bytes(n), old(nonces))
              case Failed => FirstRead(entropy, ReadError, old(nonces))
              case StillLooking => Taken(entropy, old(nonces))
    {
      for k := 0 to |entropy|
        invariant nonces == old(nonces)
        invariant Taken(entropy[..k], nonces)
      {
        match entropy[k]
        case ReadError => return Failed;
        case Bytes(text) =>
          if text !in nonces {
            nonces := nonces[text := now];
            return Fresh(text);
          }
      }
      assert entropy[..|entropy|] == entropy;
      return StillLooking;
    }

    /** Under the read lock, and then against the clock. */
    method CheckNonce(nonce: string, now: int) returns (v: Verdict)
      modifies this`removing
      ensures v == Ok <==> Accepts(expireTime, old(View(now)), nonce)
      ensures v == NoSuchNonce <==> nonce !in nonces
      ensures View(now) == Apply(expireTime, old(View(now)), Check(nonce))
    {
      if nonce !in nonces {
        return NoSuchNonce;
      }
      if nonces[nonce] < now - expireTime {
        return NonceExpired;
      }
      removing := removing + multiset{nonce};
      return Ok;
    }

    /** Under the write lock. */
    method RemoveNonce(nonce: string, ghost now: int)
      requires Enabled(View(now), Remove(nonce))
      modifies this`nonces, this`removing
      ensures View(now) == Apply(expireTime, old(View(now)), Remove(nonce))
    {
      nonces := nonces - {nonce};
      removing := removing - multiset{nonce};
    }

    /** Undisturbed, a validation removes the nonce exactly if it accepts it. */
    method ValidateNonce(nonce: string, now: int) returns (v: Verdict)
      modifies this`nonces, this`removing
      ensures v == Ok <==> Accepts(expireTime, old(View(now)), nonce)
      ensures v == NoSuchNonce <==> nonce !in old(nonces)
      ensures nonces == if v == Ok then old(nonces) - {nonce} else old(nonces)
      ensures removing == old(removing)
    {
      v := CheckNonce(nonce, now);
      if v == Ok {
        RemoveNonce(nonce, now);
      }
    }

    /** The sweeper's loop takes up the next entry. */
    method ReadEntry(nonce: string, ghost now: int)
      requires Enabled(View(now), Read(nonce))
      modifies this`held
      ensures View(now) == Apply(expireTime, old(View(now)), Read(nonce))
    {
      held := Some(Entry(nonce, nonces[nonce], false));
    }

    /** Under the read lock. */
    method LookAtClock(now: int)
      requires Enabled(View(now), Look)
      modifies this`held
      ensures View(now) == Apply(expireTime, old(View(now)), Look)
    {
      if held.value.issued < now - expireTime {
        held := Some(held.value.(doomed := true));
      } else {
        held := None;
      }
    }

    /** Under the write lock. */
    method DeleteEntry(ghost now: int)
      requires Enabled(View(now), Delete)
      modifies this`nonces, this`held
      ensures View(now) == Apply(expireTime, old(View(now)), Delete)
    {
      nonces := nonces - {held.value.nonce};
      held := None;
    }

    /** One undisturbed pass of the sweeper over the entries in some order, looking at the clock for each. */
    method ExpireNonces(order: seq<string>, clock: seq<int>)
      requires held.None? && |clock| == |order| && Enumerates(order, nonces.Keys)
      modifies this`nonces, this`held
      ensures held.None?
      ensures nonces.Keys <= old(nonces.Keys) && forall n :: n in nonces ==> nonces[n] == old(nonces)[n]
      ensures forall k :: 0 <= k < |order| ==>
                (order[k] in nonces <==> !Expired(expireTime, old(nonces)[order[k]], clock[k]))
    {
      for k := 0 to |order|
        invariant held.None?
        invariant nonces.Keys <= old(nonces.Keys) && forall n :: n in nonces ==> nonces[n] == old(nonces)[n]
        invariant forall j :: 0 <= j < k ==>
                    (order[j] in nonces <==> !Expired(expireTime, old(nonces)[order[j]], clock[j]))
        invariant forall j :: k <= j < |order| ==> order[j] in nonces
      {
        SweepEntry(order[k], clock[k]);
      }
    }

    /** The three steps for one entry. */
    method SweepEntry(nonce: string, now: int)
      requires held.None? && nonce in nonces
      modifies this`nonces, this`held
      ensures held.None?
      ensures nonces == if Expired(expireTime, old(nonces)[nonce], now) then old(nonces) - {nonce} else old(nonces)
    {
      ReadEntry(nonce, now);
      LookAtClock(now);
      if held.Some? {
        DeleteEntry(now);
      }
    }
  }
}
