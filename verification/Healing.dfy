/** From check outcomes to DNS answers: health checks, closures, conversion and query taken together. */
module Healing {
  import opened Basics
  import opened DnsConfig
  import opened CheckTrace
  import opened RunChecks
  import opened HealthRuns
  import opened Launcher
  import opened DnsServer
  import opened Names
  import opened Zones

  /** The zones as the DNS server sees them: it shares the A records the closures change. */
  function LiveRecord(key: string, z: Zone, addresses: map<RecordId, seq<string>>, k: nat): Record
    requires k < |z.records|
  {
    var rec, id := z.records[k], RecordId(key, k);
    if rec.value.A? && id in addresses then rec.(value := rec.value.(addresses := addresses[id])) else rec
  }

  function LiveZone(key: string, z: Zone, addresses: map<RecordId, seq<string>>): (live: Zone)
    requires WellTyped(z)
    ensures WellTyped(live)
  {
    z.(records := seq(|z.records|, k requires 0 <= k < |z.records| => LiveRecord(key, z, addresses, k)))
  }

  function Live(zones: map<string, Zone>, addresses: map<RecordId, seq<string>>): (live: map<string, Zone>)
    requires forall key :: key in zones ==> WellTyped(zones[key])
    ensures forall key :: key in live ==> WellTyped(live[key])
  {
    map key | key in zones :: LiveZone(key, zones[key], addresses)
  }

  lemma {:induction false} SameNearest(zones: map<string, Zone>, live: map<string, Zone>, labels: seq<string>, k: nat)
    requires zones.Keys == live.Keys && k <= |labels|
    ensures Nearest(zones, labels, k) == Nearest(live, labels, k)
    decreases |labels| - k
  {
    if k == |labels| {
    } else {
      SameNearest(zones, live, labels, k + 1);
    }
  }

  /** Record id is the one a query for its name reaches. */
  ghost predicate Reachable(zones: map<string, Zone>, id: RecordId) {
    && IsARecord(zones, id)
    && var name := zones[id.zone].records[id.index].name;
       ZoneKey(zones, name) == Some(id.zone) && FirstNamed(zones[id.zone].records, name) == id.index
  }

  /** Zones as a load leaves them, and an order in which they were ranged over. */
  ghost predicate Ready(zones: map<string, Zone>, order: seq<string>) {
    Enumerates(order, zones.Keys) && forall key :: key in zones ==> WellTyped(zones[key])
  }

  function Name(zones: map<string, Zone>, id: RecordId): string
    requires IsARecord(zones, id)
  {
    zones[id.zone].records[id.index].name
  }

  function Checks(zones: map<string, Zone>, order: seq<string>): seq<Action>
    requires Ready(zones, order)
  {
    OfZones(zones, order, |order|)
  }

  /** A type A query for the record's name returns the record's current list, one answer per entry. */
  lemma AnswersAreAddresses(zones: map<string, Zone>, order: seq<string>, addresses: map<RecordId, seq<string>>,
                            id: RecordId,
                            answers: seq<ResourceRecord>)
    requires Ready(zones, order) && Reachable(zones, id) && id in addresses
    requires Answers(Live(zones, addresses), Query(Name(zones, id), QA), answers)
    ensures |answers| == |addresses[id]|
    ensures forall j :: 0 <= j < |answers| ==>
              answers[j] == RrA(Name(zones, id), ARecord(zones, id).ttl, addresses[id][j])
  {
    var live := Live(zones, addresses);
    assert live.Keys == zones.Keys;
    SameNearest(zones, live, SplitDomainName(Name(zones, id)), 0);
    var records := live[id.zone].records;
    assert forall k :: 0 <= k < |records| ==> records[k].name == zones[id.zone].records[k].name;
    assert FirstNamed(records, Name(zones, id)) == id.index;
    assert RecordAnswers(live[id.zone], Query(Name(zones, id), QA), answers);
  }

  lemma {:induction false} AnswerCopies(name: string, ttl: nat, list: seq<string>, answers: seq<ResourceRecord>,
                                        x: string)
    requires |answers| == |list| && forall j :: 0 <= j < |answers| ==> answers[j] == RrA(name, ttl, list[j])
    ensures multiset(answers)[RrA(name, ttl, x)] == multiset(list)[x]
  {
    if list == [] {
    } else {
      var n := |list| - 1;
      AnswerCopies(name, ttl, list[..n], answers[..n], x);
      assert list == list[..n] + [list[n]] && answers == answers[..n] + [answers[n]];
      assert multiset(list) == multiset(list[..n]) + multiset{list[n]};
      assert multiset(answers) == multiset(answers[..n]) + multiset{RrA(name, ttl, list[n])};
    }
  }

  lemma BuiltChecksAreKnown(zones: map<string, Zone>, order: seq<string>)
    requires Ready(zones, order)
    ensures Known(Checks(zones, order), Configured(zones))
  {
    var acts := Checks(zones, order);
    forall i | 0 <= i < |acts|
      ensures acts[i].record in Configured(zones)
    {
      BuiltChecks(zones, order, acts[i]);
    }
  }

  /** The checks built from these zones ran these ticks, each to its end. */
  ghost predicate Ran(zones: map<string, Zone>, order: seq<string>, ts: seq<Tick>) {
    Ready(zones, order) && TicksFit(Checks(zones, order), ts) &&
    (BuiltChecksAreKnown(zones, order);
     Completes(Checks(zones, order), Start(Checks(zones, order), Configured(zones)), ts))
  }

  lemma RanIsFullRun(zones: map<string, Zone>, order: seq<string>, ts: seq<Tick>)
    requires Ready(zones, order)
    ensures Ran(zones, order, ts) <==> FullRun(Checks(zones, order), Configured(zones), ts)
  {
    BuiltChecksAreKnown(zones, order);
  }

  /** The A records' lists after the run. */
  function Lists(zones: map<string, Zone>, order: seq<string>, ts: seq<Tick>): (m: map<RecordId, seq<string>>)
    requires Ran(zones, order, ts)
    ensures m.Keys == Configured(zones).Keys
  {
    RanIsFullRun(zones, order, ts);
    Reached(Checks(zones, order), Configured(zones), ts).addresses
  }

  /** A configured address whose checks, if any, have a trailing failure streak below the limit. */
  ghost predicate Healthy(zones: map<string, Zone>, order: seq<string>, ts: seq<Tick>, id: RecordId, x: string)
    requires Ran(zones, order, ts) && IsARecord(zones, id)
  {
    HealthyAt(Checks(zones, order), Configured(zones), ts, id, x)
  }

  lemma DistinctCount(s: seq<string>, x: string)
    requires Distinct(s) && x in s
    ensures multiset(s)[x] == 1
  {
    var k :| 0 <= k < |s| && s[k] == x;
    assert s == s[..k] + [x] + s[k + 1..];
    assert x !in s[..k] && x !in s[k + 1..];
    assert x !in multiset(s[..k]) && x !in multiset(s[k + 1..]);
  }

  /** Checks aim only at configured addresses. */
  lemma AimedIsConfigured(zones: map<string, Zone>, order: seq<string>, id: RecordId, x: string)
    requires Ready(zones, order) && IsARecord(zones, id)
    ensures id in Configured(zones) && Configured(zones)[id] == ARecord(zones, id).addresses
    ensures (exists i :: 0 <= i < |Checks(zones, order)| && Aims(Checks(zones, order)[i], id, x)) ==>
              x in Configured(zones)[id]
  {
    if i :| 0 <= i < |Checks(zones, order)| && Aims(Checks(zones, order)[i], id, x) {
      BuiltChecks(zones, order, Checks(zones, order)[i]);
    }
  }

  /** The list of a record with no two checks on one address holds exactly the healthy addresses. */
  lemma ListIsHealthy(zones: map<string, Zone>, order: seq<string>, ts: seq<Tick>, id: RecordId, x: string)
    requires Ran(zones, order, ts) && IsARecord(zones, id) && OneCheckEach(ARecord(zones, id))
    ensures x in Lists(zones, order, ts)[id] <==> Healthy(zones, order, ts, id, x)
  {
    RanIsFullRun(zones, order, ts);
    AimedIsConfigured(zones, order, id, x);
    BuiltChecksAreSole(zones, order, id, x);
    OneCheckHeals(Checks(zones, order), Configured(zones), ts, id, x);
  }

  /** Over all runs, a record's list holds exactly its healthy addresses if and only if the record has no
      template, no address, or one template and distinct addresses. */
  lemma HealingIff(zones: map<string, Zone>, order: seq<string>, id: RecordId)
    requires Ready(zones, order) && IsARecord(zones, id)
    ensures OneCheckEach(ARecord(zones, id)) <==>
            forall ts, x :: Ran(zones, order, ts) ==>
              (x in Lists(zones, order, ts)[id] <==> Healthy(zones, order, ts, id, x))
  {
    if OneCheckEach(ARecord(zones, id)) {
      forall ts, x | Ran(zones, order, ts)
        ensures x in Lists(zones, order, ts)[id] <==> Healthy(zones, order, ts, id, x)
      {
        ListIsHealthy(zones, order, ts, id, x);
      }
    } else {
      var ts, x := UnhealthyRun(zones, order, id);
    }
  }

  lemma UnhealthyRun(zones: map<string, Zone>, order: seq<string>, id: RecordId) returns (ts: seq<Tick>, x: string)
    requires Ready(zones, order) && IsARecord(zones, id) && !OneCheckEach(ARecord(zones, id))
    ensures Ran(zones, order, ts) && x in Lists(zones, order, ts)[id] && !Healthy(zones, order, ts, id, x)
  {
    var acts := Checks(zones, order);
    BuiltChecksAreKnown(zones, order);
    var i, j := TwinBuiltChecks(zones, order, id);
    x := acts[i].check.target;
    ts := RelistedWhileFailed(acts, Configured(zones), i, j);
    RanIsFullRun(zones, order, ts);
  }

  /** A check on a record with no two checks on one address has the threshold of the record's only
      template, and its target is configured once. */
  lemma CheckOfRecord(zones: map<string, Zone>, order: seq<string>, id: RecordId, i: nat)
    requires Ready(zones, order) && IsARecord(zones, id) && OneCheckEach(ARecord(zones, id))
    requires i < |Checks(zones, order)| && Checks(zones, order)[i].record == id
    ensures |ARecord(zones, id).checks| == 1 &&
              Threshold(Checks(zones, order)[i]) == ARecord(zones, id).checks[0].failures
    ensures multiset(ARecord(zones, id).addresses)[Checks(zones, order)[i].check.target] == 1
    ensures SoleCheck(Checks(zones, order), i)
  {
    var a := Checks(zones, order)[i];
    BuiltChecks(zones, order, a);
    assert Built(zones, a);
    DistinctCount(ARecord(zones, id).addresses, a.check.target);
    BuiltChecksAreSole(zones, order, id, a.check.target);
  }

  /** Copies of a checked address left by a run. */
  lemma CheckedCopies(zones: map<string, Zone>, order: seq<string>, ts: seq<Tick>, id: RecordId, i: nat)
    requires Ran(zones, order, ts) && IsARecord(zones, id) && OneCheckEach(ARecord(zones, id))
    requires i < |Checks(zones, order)| && Checks(zones, order)[i].record == id
    ensures multiset(Lists(zones, order, ts)[id])[Checks(zones, order)[i].check.target] ==
            Copies(Limit(Threshold(Checks(zones, order)[i])), History(Checks(zones, order), ts, i))
  {
    RanIsFullRun(zones, order, ts);
    CheckOfRecord(zones, order, id, i);
    AimedIsConfigured(zones, order, id, Checks(zones, order)[i].check.target);
    ExactCopies(Checks(zones, order), Configured(zones), ts, i);
  }

  /** End to end healing. After every run, under all schedules, a type A query for a record with no two
      checks on one address returns as a set exactly its healthy addresses, and nothing exactly when none is
      healthy. */
  lemma HealedAnswer(zones: map<string, Zone>, order: seq<string>, ts: seq<Tick>, id: RecordId,
                     answers: seq<ResourceRecord>)
    requires Ran(zones, order, ts) && Reachable(zones, id) && OneCheckEach(ARecord(zones, id))
    requires Answers(Live(zones, Lists(zones, order, ts)), Query(Name(zones, id), QA), answers)
    ensures forall rr :: rr in answers ==> rr.RrA? && rr.name == Name(zones, id) && rr.ttl == ARecord(zones, id).ttl
    ensures forall x :: RrA(Name(zones, id), ARecord(zones, id).ttl, x) in answers <==> Healthy(zones, order, ts, id, x)
    ensures answers == [] <==> forall x :: !Healthy(zones, order, ts, id, x)
  {
    var list := Lists(zones, order, ts)[id];
    var name, ttl := Name(zones, id), ARecord(zones, id).ttl;
    AnswersAreAddresses(zones, order, Lists(zones, order, ts), id, answers);
    forall x
      ensures RrA(name, ttl, x) in answers <==> Healthy(zones, order, ts, id, x)
    {
      ListIsHealthy(zones, order, ts, id, x);
      AnswerCopies(name, ttl, list, answers, x);
      assert x in list <==> x in multiset(list);
      assert RrA(name, ttl, x) in answers <==> RrA(name, ttl, x) in multiset(answers);
    }
    if answers != [] {
      assert answers[0] == RrA(name, ttl, list[0]) && answers[0] in answers;
    }
  }

  /** The reply of the DNS server is a name error exactly when no address of the record is healthy, and
      otherwise holds exactly the healthy ones. */
  lemma HealedReply(zones: map<string, Zone>, order: seq<string>, ts: seq<Tick>, id: RecordId, reply: Reply)
    requires Ran(zones, order, ts) && Reachable(zones, id) && OneCheckEach(ARecord(zones, id))
    requires Replies(Live(zones, Lists(zones, order, ts)), Some(Query(Name(zones, id), QA)), reply)
    ensures reply.nameError <==> forall x :: !Healthy(zones, order, ts, id, x)
    ensures reply.authoritative <==> exists x :: Healthy(zones, order, ts, id, x)
    ensures forall x :: RrA(Name(zones, id), ARecord(zones, id).ttl, x) in reply.answers <==>
                        Healthy(zones, order, ts, id, x)
  {
    HealedAnswer(zones, order, ts, id, reply.answers);
  }

  /** The exact number of times a checked address is answered. */
  lemma HealedAnswerCopies(zones: map<string, Zone>, order: seq<string>, ts: seq<Tick>, id: RecordId,
                           answers: seq<ResourceRecord>, i: nat)
    requires Ran(zones, order, ts) && Reachable(zones, id) && OneCheckEach(ARecord(zones, id))
    requires Answers(Live(zones, Lists(zones, order, ts)), Query(Name(zones, id), QA), answers)
    requires i < |Checks(zones, order)| && Checks(zones, order)[i].record == id
    ensures |ARecord(zones, id).checks| == 1
    ensures multiset(answers)[RrA(Name(zones, id), ARecord(zones, id).ttl, Checks(zones, order)[i].check.target)] ==
            Copies(Limit(ARecord(zones, id).checks[0].failures), History(Checks(zones, order), ts, i))
  {
    var list := Lists(zones, order, ts)[id];
    AnswersAreAddresses(zones, order, Lists(zones, order, ts), id, answers);
    AnswerCopies(Name(zones, id), ARecord(zones, id).ttl, list, answers, Checks(zones, order)[i].check.target);
    CheckOfRecord(zones, order, id, i);
    CheckedCopies(zones, order, ts, id, i);
  }

  /** The state in the middle of a tick that follows the run. */
  function Midway(zones: map<string, Zone>, order: seq<string>, ts: seq<Tick>, t: Tick): (s: State)
    requires Ran(zones, order, ts) && TickFits(Checks(zones, order), t)
    ensures Fits(Checks(zones, order), s) && s.addresses.Keys == Configured(zones).Keys
  {
    RanIsFullRun(zones, order, ts);
    RunTick(Checks(zones, order), Reached(Checks(zones, order), Configured(zones), ts), t)
  }

  /** With any number of checks, and also while a tick is under way, a query's answer holds every
      configured address unless one of its checks is failed or has just pruned it. */
  lemma AnswerKeepsHealthy(zones: map<string, Zone>, order: seq<string>, ts: seq<Tick>, t: Tick,
                           id: RecordId, x: string, answers: seq<ResourceRecord>)
    requires Ran(zones, order, ts) && TickFits(Checks(zones, order), t)
    requires Reachable(zones, id) && x in ARecord(zones, id).addresses
    requires Answers(Live(zones, Midway(zones, order, ts, t).addresses), Query(Name(zones, id), QA), answers)
    requires var s := Midway(zones, order, ts, t);
             forall i :: 0 <= i < |s.locals| && Aims(Checks(zones, order)[i], id, x) ==>
               !Down(t.outcomes[i], s.workers[i], s.locals[i])
    ensures RrA(Name(zones, id), ARecord(zones, id).ttl, x) in answers
  {
    var s := Midway(zones, order, ts, t);
    RanIsFullRun(zones, order, ts);
    NoHealthyAddressLost(Checks(zones, order), Configured(zones), ts, t.outcomes, t.schedule, id, x);
    AnswersAreAddresses(zones, order, s.addresses, id, answers);
    var j :| 0 <= j < |s.addresses[id]| && s.addresses[id][j] == x;
    assert answers[j] in answers;
  }

  // ----- healing and the configuration on disk

  /** Loaded zones are what the health checker and the DNS server expect. */
  lemma LoadedIsReady(parse: Parser, zones: map<string, Zone>, order: seq<string>)
    requires TypedParser(parse) && Loaded(parse, zones) && Enumerates(order, zones.Keys)
    ensures Ready(zones, order)
  {
    forall key | key in zones
      ensures WellTyped(zones[key])
    {
      ConsistentIsWellTyped(parse, zones[key]);
    }
  }

  /** Prunes and revivals leave the text of the zones alone. */
  lemma LiveSameText(zones: map<string, Zone>, addresses: map<RecordId, seq<string>>)
    requires forall key :: key in zones ==> WellTyped(zones[key])
    ensures SameText(Live(zones, addresses), zones)
  {
    forall key | key in zones
      ensures Raw(LiveZone(key, zones[key], addresses)) == Raw(zones[key])
    {
      assert Raw(LiveZone(key, zones[key], addresses)).records == Raw(zones[key]).records;
    }
  }

  /** After every run of the health checker a save and a load bring back the zones with their configured
      addresses, if and only if no name ends in two dots. */
  lemma ReloadUndoesHealingIff(parse: Parser, zones: map<string, Zone>, order: seq<string>, ts: seq<Tick>,
                               saveOrder: seq<string>, loadOrder: seq<string>)
    requires TypedParser(parse) && Loaded(parse, zones) && Ran(zones, order, ts)
    requires var live := Live(zones, Lists(zones, order, ts));
             Enumerates(saveOrder, live.Keys) && Enumerates(loadOrder, RawZones(Rekey(TrimDot, live, saveOrder)).Keys)
    ensures Reloaded(parse, Live(zones, Lists(zones, order, ts)), saveOrder, loadOrder) == Some(zones) <==>
            NoDoubleDotsIn(zones)
  {
    LiveSameText(zones, Lists(zones, order, ts));
    SaveLoadRestoresIff(parse, zones, Live(zones, Lists(zones, order, ts)), saveOrder, loadOrder);
  }

  /** From file to reply: after a load, a query answered by the zone of one entry of the file gets for NS its
      servers, qualified, with their TTL or else the minimum TTL, and for SOA the zone's data with the minimum
      TTL. */
  lemma LoadedZoneAnswers(parse: Parser, raws: map<string, RawZone>, order: seq<string>, key: string, q: Query,
                          answers: seq<ResourceRecord>)
    requires TypedParser(parse) && Enumerates(order, raws.Keys) && Load(parse, raws, order).Some? && key in raws
    requires forall other :: other in raws && AddDot(other) == AddDot(key) ==> other == key
    requires var zones := Load(parse, raws, order).value;
             && (forall x :: x in zones ==> WellTyped(zones[x]))
             && ZoneKey(zones, q.name) == Some(AddDot(key)) && Answers(zones, q, answers)
    ensures q.kind == QNs ==>
              |answers| == |raws[key].ns.servers| &&
              forall j :: 0 <= j < |answers| ==>
                answers[j] == RrNs(q.name, if raws[key].ns.ttl == 0 then raws[key].soa.minTtl else raws[key].ns.ttl,
                                   AddDot(raws[key].ns.servers[j]))
    ensures q.kind == QSoa ==>
              answers == [RrSoa(q.name, raws[key].soa.minTtl,
                                raws[key].soa.(domain := AddDot(raws[key].soa.domain),
                                               admin := AddDot(raws[key].soa.admin)))]
  {
    LoadGivesOwn(parse, raws, order, key);
  }

  /** And a type A query whose first record by that name is an A record gets the addresses and the TTL that its
      literal parses to. */
  lemma LoadedRecordAnswers(parse: Parser, raws: map<string, RawZone>, order: seq<string>, key: string, k: nat,
                            name: string, answers: seq<ResourceRecord>)
    requires TypedParser(parse) && Enumerates(order, raws.Keys) && Load(parse, raws, order).Some? && key in raws
    requires forall other :: other in raws && AddDot(other) == AddDot(key) ==> other == key
    requires k < |raws[key].records| && raws[key].records[k].kind == "A" && AddDot(raws[key].records[k].name) == name
    requires forall j :: 0 <= j < k ==> AddDot(raws[key].records[j].name) != name
    requires var zones := Load(parse, raws, order).value;
             && (forall x :: x in zones ==> WellTyped(zones[x]))
             && ZoneKey(zones, name) == Some(AddDot(key)) && Answers(zones, Query(name, QA), answers)
    ensures var v := parse("A", raws[key].soa.minTtl, raws[key].records[k].literal);
            && v.Some? && v.value.A? && |answers| == |v.value.addresses|
            && forall j :: 0 <= j < |answers| ==> answers[j] == RrA(name, v.value.ttl, v.value.addresses[j])
  {
    LoadGivesOwn(parse, raws, order, key);
    var z := Load(parse, raws, order).value[AddDot(key)];
    assert FirstNamed(z.records, name) == k;
    assert RecordAnswers(z, Query(name, QA), answers);
  }

  function TrimmedZone(z: Zone): (t: Zone)
    requires WellTyped(z)
    ensures WellTyped(t) && |t.records| == |z.records|
    ensures forall k :: 0 <= k < |z.records| ==> t.records[k].name == TrimDot(z.records[k].name)
  {
    var t := Rename(TrimDot, z);
    assert forall k :: 0 <= k < |z.records| ==> t.records[k] == z.records[k].(name := TrimDot(z.records[k].name));
    t
  }

  /** The zones a running DNS server sees once a save has trimmed them: it shares the zone objects but
      keeps its own map, so the names change under the old keys. */
  function TrimmedInPlace(zones: map<string, Zone>): (r: map<string, Zone>)
    requires forall key :: key in zones ==> WellTyped(zones[key])
    ensures forall key :: key in r ==> WellTyped(r[key])
  {
    map key | key in zones :: TrimmedZone(zones[key])
  }

  /** The record has something to answer a query of this kind with. */
  ghost predicate Delivers(rec: Record, q: Query)
    requires rec.kind == TYPE_A ==> rec.value.A?
    requires rec.kind == TYPE_LB ==> rec.value.Lb?
  {
    (rec.kind == TYPE_A && q.kind == QA && rec.value.addresses != []) ||
    (rec.kind == TYPE_LB && Select(ConvertLb(rec.value, q.name), q.kind) != [])
  }

  /** The zone that the query reaches holds a record named like the query with one more dot, and the first
      of these has something to answer. */
  ghost predicate OneDotMore(zones: map<string, Zone>, q: Query)
    requires forall key :: key in zones ==> WellTyped(zones[key])
  {
    var key := ZoneKey(zones, q.name);
    key.Some? && key.value in zones && WellTyped(zones[key.value]) &&
    var records := zones[key.value].records;
    var k := FirstNamed(records, q.name + ".");
    k < |records| && Delivers(records[k], q)
  }

  lemma FirstTrimmed(records: seq<Record>, trimmed: seq<Record>, name: string)
    requires |trimmed| == |records|
    requires forall k :: 0 <= k < |records| ==> Dotted(records[k].name) && trimmed[k].name == TrimDot(records[k].name)
    ensures FirstNamed(trimmed, name) == FirstNamed(records, name + ".")
  {
    forall k | 0 <= k < |records|
      ensures trimmed[k].name == name <==> records[k].name == name + "."
    {
      TrimmedToIff(records[k].name, name);
    }
  }

  lemma AnsweredIfDelivers(z: Zone, q: Query, answers: seq<ResourceRecord>)
    requires WellTyped(z) && RecordAnswers(z, q, answers)
    ensures var k := FirstNamed(z.records, q.name);
            answers != [] <==> k < |z.records| && Delivers(z.records[k], q)
  {
  }

  /** From the first trim of a save until a relaunch, a query that does not ask for SOA or NS is answered if
      and only if it reaches a zone with a record named like the query and one more dot. */
  lemma TrimmedServerAnswersIff(zones: map<string, Zone>, q: Query, reply: Reply)
    requires (forall key :: key in zones ==> WellTyped(zones[key])) && AllDotted(zones)
    requires q.kind != QSoa && q.kind != QNs && Replies(TrimmedInPlace(zones), Some(q), reply)
    ensures reply.nameError <==> !OneDotMore(zones, q)
  {
    var trimmed := TrimmedInPlace(zones);
    SameNearest(zones, trimmed, SplitDomainName(q.name), 0);
    var key := ZoneKey(zones, q.name);
    if key.Some? && key.value in zones {
      AnsweredIfDelivers(trimmed[key.value], q, reply.answers);
      FirstTrimmed(zones[key.value].records, trimmed[key.value].records, q.name);
    }
  }

  /** When no name ends in two dots, dotted or not, every query for a qualified name gets a name error. */
  lemma TrimmedServerAnswersNothing(zones: map<string, Zone>, q: Query, reply: Reply)
    requires (forall key :: key in zones ==> WellTyped(zones[key])) && NoDoubleDotsIn(zones)
    requires Dotted(q.name) && q.kind != QSoa && q.kind != QNs
    requires Replies(TrimmedInPlace(zones), Some(q), reply)
    ensures reply.answers == [] && reply.nameError
  {
    var trimmed := TrimmedInPlace(zones);
    var key := ZoneKey(trimmed, q.name);
    if key.Some? {
      var records := trimmed[key.value].records;
      forall k | 0 <= k < |records|
        ensures records[k].name != q.name
      {
        var name := zones[key.value].records[k].name;
        assert records[k].name == TrimDot(name) && !DoubleDotted(name);
      }
      assert FirstNamed(records, q.name) == |records|;
    }
  }

  /** Every A record with addresses that a query for its name reached is lost that way. */
  lemma TrimmedLosesRecord(zones: map<string, Zone>, id: RecordId, before: Reply, after: Reply)
    requires (forall key :: key in zones ==> WellTyped(zones[key])) && AllDotted(zones) && NoDoubleDotsIn(zones)
    requires Reachable(zones, id)
    requires Replies(zones, Some(Query(Name(zones, id), QA)), before)
    requires Replies(TrimmedInPlace(zones), Some(Query(Name(zones, id), QA)), after)
    ensures before.nameError <==> ARecord(zones, id).addresses == []
    ensures after.nameError
  {
    assert RecordAnswers(zones[id.zone], Query(Name(zones, id), QA), before.answers);
    TrimmedServerAnswersNothing(zones, Query(Name(zones, id), QA), after);
  }
}
