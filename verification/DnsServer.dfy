/** Answering queries from the zones. */
module DnsServer {
  import opened DnsConfig
  import opened Basics
  import opened Names

  // ----- names and labels (names without escaped dots)

  function Split(s: string): (labels: seq<string>)
    ensures |labels| > 0
  {
    if s == "" then [""]
    else if s[0] == '.' then [""] + Split(s[1..])
    else var rest := Split(s[1..]); [[s[0]] + rest[0]] + rest[1..]
  }

  function SplitDomainName(name: string): seq<string> {
    if name == "" || name == "." then [] else Split(TrimDot(name))
  }

  function Join(labels: seq<string>): string {
    if labels == [] then "" else if |labels| == 1 then labels[0] else labels[0] + "." + Join(labels[1..])
  }

  /** The longest suffix of the labels, dropping at least k of them, that is the key of a zone. */
  function Nearest(zones: map<string, Zone>, labels: seq<string>, k: nat): Option<string>
    requires k <= |labels|
    decreases |labels| - k
  {
    if k == |labels| then None
    else if Join(labels[k..]) + "." in zones then Some(Join(labels[k..]) + ".")
    else Nearest(zones, labels, k + 1)
  }

  function ZoneKey(zones: map<string, Zone>, name: string): (key: Option<string>)
  {
    Nearest(zones, SplitDomainName(name), 0)
  }

  method FindZone(zones: map<string, Zone>, name: string) returns (zone: Option<Zone>)
    ensures var key := ZoneKey(zones, name);
            if key.Some? then key.value in zones && zone == Some(zones[key.value]) else zone == None
  {
    var names := SplitDomainName(name);
    var i := |names|;
    while i > 0
      invariant 0 <= i <= |names|
      invariant ZoneKey(zones, name) == Nearest(zones, names, |names| - i)
    {
      var potential := Join(names[|names| - i..]) + ".";
      if potential in zones {
        return Some(zones[potential]);
      }
      i := i - 1;
    }
    return None;
  }

  // ----- the zone found is the nearest ancestor

  /** An offset in s where a label begins. */
  ghost predicate Boundary(s: string, j: nat) {
    j <= |s| && (j == 0 || s[j - 1] == '.')
  }

  /** The key names the qualified name or a domain below the root that encloses it. */
  ghost predicate EnclosesBelowRoot(key: string, name: string) {
    name != "" && name != "." &&
    exists j: nat :: j < |AddDot(name)| && Boundary(AddDot(name), j) && key == AddDot(name)[j..]
  }

  function FoldChar(c: char): char {
    if 'A' <= c <= 'Z' then (c as int + 32) as char else c
  }

  /** Names are compared without regard to the case of letters (section 3.1 of RFC 1034). */
  function Fold(s: string): (r: string)
    ensures |r| == |s|
  {
    seq(|s|, i requires 0 <= i < |s| => FoldChar(s[i]))
  }

  /** The key names the qualified name or a domain that encloses it, in any case; the root encloses every
      name. */
  ghost predicate Encloses(key: string, name: string) {
    key == "." ||
    (name != "" && name != "." &&
     exists j: nat :: j < |AddDot(name)| && Boundary(AddDot(name), j) && Fold(key) == Fold(AddDot(name)[j..]))
  }

  lemma {:induction false} SplitSuffix(s: string, k: nat) returns (j: nat)
    requires k < |Split(s)|
    ensures Boundary(s, j) && Join(Split(s)[k..]) == s[j..] && (k == 0 <==> j == 0)
  {
    if s == "" {
      j := 0;
    } else if s[0] == '.' {
      j := SplitSuffix(s[1..], if k == 0 then 0 else k - 1);
      assert Split(s)[1..] == Split(s[1..]);
      if k == 0 {
        j := 0;
      } else {
        j := j + 1;
        assert Split(s)[k..] == Split(s[1..])[k - 1..];
      }
    } else {
      j := SplitSuffix(s[1..], k);
      if k == 0 {
        var rest := Split(s[1..]);
        assert rest[0..] == rest && Split(s)[0..] == Split(s);
        assert Split(s)[1..] == rest[1..];
      } else {
        j := j + 1;
        assert Split(s)[k..] == Split(s[1..])[k..];
      }
    }
  }

  lemma {:induction false} SuffixSplit(s: string, j: nat) returns (k: nat)
    requires Boundary(s, j)
    ensures k < |Split(s)| && Join(Split(s)[k..]) == s[j..] && (k == 0 <==> j == 0)
  {
    if j == 0 {
      k := 0;
      var i := SplitSuffix(s, 0);
    } else {
      k := SuffixSplit(s[1..], j - 1);
      if s[0] == '.' {
        k := k + 1;
        assert Split(s)[k..] == Split(s[1..])[k - 1..];
      } else {
        assert Split(s)[k..] == Split(s[1..])[k..];
      }
    }
  }

  lemma {:induction false} JoinShrinks(labels: seq<string>, k: nat, l: nat)
    requires k < l < |labels|
    ensures |Join(labels[k..])| > |Join(labels[l..])|
    decreases l - k
  {
    assert labels[k..][1..] == labels[k + 1..];
    if k + 1 < l {
      JoinShrinks(labels, k + 1, l);
    }
  }

  /** The search stops at the first suffix that is a key. */
  lemma {:induction false} NearestIsFirst(zones: map<string, Zone>, labels: seq<string>, k: nat) returns (l: nat)
    requires k <= |labels|
    ensures k <= l <= |labels| && forall m :: k <= m < l ==> Join(labels[m..]) + "." !in zones
    ensures l < |labels| ==> Join(labels[l..]) + "." in zones
    ensures Nearest(zones, labels, k) == if l == |labels| then None else Some(Join(labels[l..]) + ".")
    decreases |labels| - k
  {
    l := k;
    if k < |labels| && Join(labels[k..]) + "." !in zones {
      l := NearestIsFirst(zones, labels, k + 1);
    }
  }

  lemma EnclosingKeys(name: string, key: string)
    ensures EnclosesBelowRoot(key, name) <==>
            exists l: nat :: l < |SplitDomainName(name)| && key == Join(SplitDomainName(name)[l..]) + "."
  {
    if name != "" && name != "." {
      var s := TrimDot(name);
      var q := AddDot(name);
      assert q == s + ".";
      assert SplitDomainName(name) == Split(s);
      if EnclosesBelowRoot(key, name) {
        var j: nat :| j < |q| && Boundary(q, j) && key == q[j..];
        var l := SuffixSplit(s, j);
        assert key == s[j..] + ".";
        assert key == Join(SplitDomainName(name)[l..]) + ".";
      }
      if l: nat :| l < |SplitDomainName(name)| && key == Join(SplitDomainName(name)[l..]) + "." {
        var j := SplitSuffix(s, l);
        assert j < |q| && Boundary(q, j) && key == q[j..];
      }
    }
  }

  /** The zone that answers is keyed by the longest enclosing domain below the root that has a zone, and
      there is none exactly when no such domain has one. */
  lemma SearchBelowRoot(zones: map<string, Zone>, name: string)
    ensures match ZoneKey(zones, name)
            case None => forall key :: key in zones ==> !EnclosesBelowRoot(key, name)
            case Some(key) =>
              && key in zones && EnclosesBelowRoot(key, name)
              && forall other :: other in zones && EnclosesBelowRoot(other, name) ==> |other| <= |key|
  {
    var labels := SplitDomainName(name);
    var l := NearestIsFirst(zones, labels, 0);
    if l < |labels| {
      EnclosingKeys(name, Join(labels[l..]) + ".");
    }
    forall other | other in zones && EnclosesBelowRoot(other, name)
      ensures l < |labels| && |other| <= |Join(labels[l..]) + "."|
    {
      EnclosingKeys(name, other);
      var m: nat :| m < |labels| && other == Join(labels[m..]) + ".";
      if m > l {
        JoinShrinks(labels, l, m);
      }
    }
  }

  /** The nearest ancestor of a name among the zones, as section 4.3.2, step 2, of RFC 1034 asks for. */
  ghost predicate IsNearestAncestor(zones: map<string, Zone>, name: string, found: Option<string>) {
    match found
    case None => forall key :: key in zones ==> !Encloses(key, name)
    case Some(key) =>
      && key in zones && Encloses(key, name)
      && forall other :: other in zones && Encloses(other, name) ==> |other| <= |key|
  }

  /** The search compares keys letter by letter and never looks for the root. It finds the nearest ancestor
      if and only if every zone that encloses the name has one below the root that encloses it as spelled
      and is no shorter. */
  lemma NearestAncestorIff(zones: map<string, Zone>, name: string)
    ensures IsNearestAncestor(zones, name, ZoneKey(zones, name)) <==>
            forall key :: key in zones && Encloses(key, name) ==>
              exists spelled :: spelled in zones && EnclosesBelowRoot(spelled, name) && |key| <= |spelled|
  {
    SearchBelowRoot(zones, name);
    var found := ZoneKey(zones, name);
    if found.Some? {
      SpelledEncloses(found.value, name);
    }
  }

  lemma SpelledEncloses(key: string, name: string)
    requires EnclosesBelowRoot(key, name)
    ensures Encloses(key, name)
  {
    var j: nat :| j < |AddDot(name)| && Boundary(AddDot(name), j) && key == AddDot(name)[j..];
    assert Fold(key) == Fold(AddDot(name)[j..]);
  }

  /** A root zone answers for no name below it. */
  lemma RootZoneExample(root: Zone)
    ensures ZoneKey(map["." := root], "a.") == None
    ensures !IsNearestAncestor(map["." := root], "a.", None)
  {
    var zones := map["." := root];
    SearchBelowRoot(zones, "a.");
    assert AddDot("a.") == "a." && !EnclosesBelowRoot(".", "a.");
    assert "." in zones && Encloses(".", "a.");
  }

  /** A zone does not answer for its own name spelled in another case. */
  lemma CaseExample(z: Zone)
    ensures ZoneKey(map["a." := z], "A.") == None
    ensures !IsNearestAncestor(map["a." := z], "A.", None)
  {
    var zones := map["a." := z];
    SearchBelowRoot(zones, "A.");
    assert AddDot("A.") == "A." && !EnclosesBelowRoot("a.", "A.");
    assert Boundary("A.", 0) && "A."[0..] == "A.";
    assert Fold("a.") == Fold("A.") by {
      assert FoldChar('A') == 'a' && FoldChar('a') == 'a' && FoldChar('.') == '.';
    }
    assert "a." in zones && Encloses("a.", "A.");
  }

  // ----- replies

  datatype QueryType = QA | QAaaa | QNs | QSoa | QOther

  datatype Query = Query(name: string, kind: QueryType)

  datatype Reply = Reply(nameError: bool, authoritative: bool, recursionAvailable: bool, answers: seq<ResourceRecord>)

  predicate OfKind(rr: ResourceRecord, kind: QueryType) {
    match rr
    case RrA(_, _, _) => kind == QA
    case RrAaaa(_, _, _) => kind == QAaaa
    case _ => false
  }

  function Select(rrs: seq<ResourceRecord>, kind: QueryType): seq<ResourceRecord> {
    if rrs == [] then []
    else if OfKind(rrs[0], kind) then [rrs[0]] + Select(rrs[1..], kind)
    else Select(rrs[1..], kind)
  }

  lemma {:induction false} SelectKeepsKind(rrs: seq<ResourceRecord>, kind: QueryType, rr: ResourceRecord)
    ensures multiset(Select(rrs, kind))[rr] == if OfKind(rr, kind) then multiset(rrs)[rr] else 0
  {
    if rrs == [] {
    } else {
      SelectKeepsKind(rrs[1..], kind, rr);
      assert rrs == [rrs[0]] + rrs[1..];
    }
  }

  /** The first record of that name, or the number of records if there is none. */
  function FirstNamed(records: seq<Record>, name: string): (k: nat)
    ensures k <= |records|
    ensures k < |records| ==> records[k].name == name
    ensures forall j :: 0 <= j < k ==> records[j].name != name
  {
    if records == [] || records[0].name == name then 0 else 1 + FirstNamed(records[1..], name)
  }

  /** The first record of that name answers a type A query with all its addresses, a balancer record
      answers with those of its addresses that have the type asked for, and nothing else answers. */
  ghost predicate RecordAnswers(z: Zone, q: Query, answers: seq<ResourceRecord>)
    requires WellTyped(z)
  {
    var k := FirstNamed(z.records, q.name);
    if k < |z.records| && z.records[k].kind == TYPE_A && q.kind == QA then
      |answers| == |z.records[k].value.addresses| &&
      forall j :: 0 <= j < |answers| ==>
        answers[j] == RrA(q.name, z.records[k].value.ttl, z.records[k].value.addresses[j])
    else if k < |z.records| && z.records[k].kind == TYPE_LB then
      answers == Select(ConvertLb(z.records[k].value, q.name), q.kind)
    else answers == []
  }

  /** The answers that a query deserves. */
  ghost predicate Answers(zones: map<string, Zone>, q: Query, answers: seq<ResourceRecord>)
    requires forall key :: key in zones ==> WellTyped(zones[key])
  {
    match ZoneKey(zones, q.name)
    case None => answers == []
    case Some(key) =>
      key in zones &&
      var z := zones[key];
      match q.kind
      case QSoa => answers == [RrSoa(q.name, z.soa.minTtl, z.soa)]
      case QNs => |answers| == |z.ns.servers| &&
        forall j :: 0 <= j < |answers| ==> answers[j] == RrNs(q.name, z.ns.ttl, z.ns.servers[j])
      case _ => RecordAnswers(z, q, answers)
  }

  /** The IPv4 addresses among the listeners, in order. */
  function V4s(listeners: seq<Ip>): seq<string> {
    if listeners == [] then []
    else
      match listeners[0]
      case V4(text) => [text] + V4s(listeners[1..])
      case V6(_) => V4s(listeners[1..])
  }

  /** The IPv6 addresses among the listeners, in order. */
  function V6s(listeners: seq<Ip>): seq<string> {
    if listeners == [] then []
    else
      match listeners[0]
      case V4(_) => V6s(listeners[1..])
      case V6(text) => [text] + V6s(listeners[1..])
  }

  ghost predicate AreA(rrs: seq<ResourceRecord>, name: string, ttl: nat, ips: seq<string>) {
    |rrs| == |ips| && forall j :: 0 <= j < |rrs| ==> rrs[j] == RrA(name, ttl, ips[j])
  }

  ghost predicate AreAaaa(rrs: seq<ResourceRecord>, name: string, ttl: nat, ips: seq<string>) {
    |rrs| == |ips| && forall j :: 0 <= j < |rrs| ==> rrs[j] == RrAaaa(name, ttl, ips[j])
  }

  lemma {:induction false} SelectedListeners(lb: Value, name: string, kind: QueryType)
    requires lb.Lb?
    ensures var selected := Select(ConvertLb(lb, name), kind);
            match kind
            case QA => AreA(selected, name, lb.ttl, V4s(lb.listeners))
            case QAaaa => AreAaaa(selected, name, lb.ttl, V6s(lb.listeners))
            case _ => selected == []
    decreases |lb.listeners|
  {
    var rrs := ConvertLb(lb, name);
    if lb.listeners == [] {
    } else {
      var rest := lb.(listeners := lb.listeners[1..]);
      SelectedListeners(rest, name, kind);
      assert rrs[1..] == ConvertLb(rest, name);
    }
  }

  /** A balancer record that a query reaches answers a type A query with one A record for each IPv4 listener,
      in order, with the name asked for and the record's TTL, a type AAAA query likewise for each IPv6
      listener, and no other type but the zone's own SOA and NS. */
  lemma BalancerAnswers(zones: map<string, Zone>, q: Query, answers: seq<ResourceRecord>, key: string, k: nat)
    requires (forall x :: x in zones ==> WellTyped(zones[x])) && Answers(zones, q, answers)
    requires ZoneKey(zones, q.name) == Some(key) && key in zones && k < |zones[key].records|
    requires FirstNamed(zones[key].records, q.name) == k && zones[key].records[k].kind == TYPE_LB
    ensures var lb := zones[key].records[k].value;
            && lb.Lb?
            && match q.kind
               case QA => AreA(answers, q.name, lb.ttl, V4s(lb.listeners))
               case QAaaa => AreAaaa(answers, q.name, lb.ttl, V6s(lb.listeners))
               case QOther => answers == []
               case _ => true
  {
    SelectedListeners(zones[key].records[k].value, q.name, q.kind);
  }

  /** Every answer has the name and the type asked for; nothing answers a type other than A, AAAA, NS and
      SOA. */
  lemma AnswersMatchQuestion(zones: map<string, Zone>, q: Query, answers: seq<ResourceRecord>, rr: ResourceRecord)
    requires (forall key :: key in zones ==> WellTyped(zones[key])) && Answers(zones, q, answers) && rr in answers
    ensures rr.name == q.name
    ensures match q.kind
            case QA => rr.RrA?
            case QAaaa => rr.RrAaaa?
            case QNs => rr.RrNs?
            case QSoa => rr.RrSoa?
            case QOther => false
  {
    var key := ZoneKey(zones, q.name).value;
    var k := FirstNamed(zones[key].records, q.name);
    if q.kind !in {QSoa, QNs} && zones[key].records[k].kind == TYPE_LB {
      BalancerAnswers(zones, q, answers, key, k);
    }
  }

  method SelectKind(values: seq<ResourceRecord>, kind: QueryType) returns (answers: seq<ResourceRecord>)
    ensures answers == Select(values, kind)
  {
    answers := [];
    for j := 0 to |values|
      invariant answers + Select(values[j..], kind) == Select(values, kind)
    {
      assert values[j..] == [values[j]] + values[j + 1..];
      if OfKind(values[j], kind) {
        answers := answers + [values[j]];
      }
    }
    assert values[|values|..] == [] && answers + [] == answers;
  }

  method FindAnswers(z: Zone, q: Query) returns (answers: seq<ResourceRecord>)
    requires WellTyped(z)
    ensures RecordAnswers(z, q, answers)
  {
    answers := [];
    for k := 0 to |z.records|
      invariant answers == []
      invariant FirstNamed(z.records, q.name) >= k
    {
      var rec := z.records[k];
      if rec.name == q.name {
        if rec.kind == TYPE_A {
          if q.kind == QA {
            answers := ConvertA(rec.value, q.name);
          }
        } else if rec.kind == TYPE_LB {
          answers := SelectKind(ConvertLb(rec.value, q.name), q.kind);
        }
        break;
      }
    }
  }

  /** The reply to a question: its answers, and a name error exactly when there are none. */
  ghost predicate Replies(zones: map<string, Zone>, question: Option<Query>, reply: Reply)
    requires forall key :: key in zones ==> WellTyped(zones[key])
  {
    && (if question.Some? then Answers(zones, question.value, reply.answers) else reply.answers == [])
    && (reply.nameError <==> reply.answers == [])
    && reply.authoritative == reply.recursionAvailable == !reply.nameError
  }

  /** A missing question, zone or record, and a record without answers, all give a name error. */
  method ServeDns(zones: map<string, Zone>, question: Option<Query>) returns (reply: Reply)
    requires forall key :: key in zones ==> WellTyped(zones[key])
    ensures Replies(zones, question, reply)
  {
    var answers := [];
    if question.Some? {
      var q := question.value;
      SearchBelowRoot(zones, q.name);
      var zone := FindZone(zones, q.name);
      if zone.Some? {
        match q.kind {
          case QSoa => answers := [RrSoa(q.name, zone.value.soa.minTtl, zone.value.soa)];
          case QNs => answers := ConvertNs(zone.value.ns, q.name);
          case _ => answers := FindAnswers(zone.value, q);
        }
      }
    }
    if |answers| == 0 {
      return Reply(true, false, false, []);
    }
    return Reply(false, true, true, answers);
  }
}
