/** Building the health checks of every A record of every zone. */
module Launcher {
  import opened Basics
  import opened DnsConfig
  import opened RunChecks
  import opened HealthRuns

  const TYPE_PING := "ping"

  /** A copy of the template aimed at one address, with the two defaults filled in. */
  function MakeCheck(record: string, template: HealthCheck, ip: string): (c: HealthCheck)
    ensures c.failures == template.failures && c.timeout == template.timeout && c.target == ip
    ensures c.kind == if template.kind == "" then "ping" else template.kind
    ensures c.name == if template.name == "" then record else template.name
  {
    HealthCheck(if template.name == "" then record else template.name,
                if template.kind == "" then TYPE_PING else template.kind,
                template.timeout, template.failures, ip)
  }

  function OfTemplate(id: RecordId, rec: Record, template: HealthCheck): (acts: seq<Action>)
    requires rec.value.A?
    ensures |acts| == |rec.value.addresses|
  {
    seq(|rec.value.addresses|, k requires 0 <= k < |rec.value.addresses| =>
      Action(MakeCheck(rec.name, template, rec.value.addresses[k]), id))
  }

  function OfRecord(id: RecordId, rec: Record, n: nat): seq<Action>
    requires rec.value.A? && n <= |rec.value.checks|
  {
    if n == 0 then [] else OfRecord(id, rec, n - 1) + OfTemplate(id, rec, rec.value.checks[n - 1])
  }

  function OfZone(key: string, z: Zone, n: nat): seq<Action>
    requires WellTyped(z) && n <= |z.records|
  {
    if n == 0 then []
    else
      var rec := z.records[n - 1];
      OfZone(key, z, n - 1) +
      if rec.kind == TYPE_A then OfRecord(RecordId(key, n - 1), rec, |rec.value.checks|) else []
  }

  /** The zones in the order the map happened to be ranged over. */
  function OfZones(zones: map<string, Zone>, order: seq<string>, n: nat): seq<Action>
    requires n <= |order| && forall k :: 0 <= k < |order| ==> order[k] in zones && WellTyped(zones[order[k]])
  {
    if n == 0 then []
    else OfZones(zones, order, n - 1) + OfZone(order[n - 1], zones[order[n - 1]], |zones[order[n - 1]].records|)
  }

  /** The checks of one A record: for each template, one per address. */
  method BuildRecordChecks(id: RecordId, rec: Record) returns (checks: seq<Action>)
    requires rec.value.A?
    ensures checks == OfRecord(id, rec, |rec.value.checks|)
  {
    checks := [];
    for t := 0 to |rec.value.checks|
      invariant checks == OfRecord(id, rec, t)
    {
      ghost var before := checks;
      ghost var all := OfTemplate(id, rec, rec.value.checks[t]);
      for a := 0 to |rec.value.addresses|
        invariant checks == before + all[..a]
      {
        checks := checks + [Action(MakeCheck(rec.name, rec.value.checks[t], rec.value.addresses[a]), id)];
      }
      assert all[..|all|] == all;
    }
  }

  method BuildHealthChecks(zones: map<string, Zone>, order: seq<string>) returns (checks: seq<Action>)
    requires Enumerates(order, zones.Keys) && forall key :: key in zones ==> WellTyped(zones[key])
    ensures checks == OfZones(zones, order, |order|)
  {
    checks := [];
    for n := 0 to |order|
      invariant checks == OfZones(zones, order, n)
    {
      var key, z := order[n], zones[order[n]];
      ghost var before := checks;
      for r := 0 to |z.records|
        invariant checks == before + OfZone(key, z, r)
      {
        if z.records[r].kind == TYPE_A {
          var more := BuildRecordChecks(RecordId(key, r), z.records[r]);
          checks := checks + more;
        }
      }
    }
  }

  /** The address lists the built checks start from. */
  function Configured(zones: map<string, Zone>): (m: map<RecordId, seq<string>>)
    ensures forall key, k: nat :: key in zones && k < |zones[key].records| && zones[key].records[k].value.A? ==>
              RecordId(key, k) in m && m[RecordId(key, k)] == zones[key].records[k].value.addresses
  {
    map key, k: nat | key in zones && k < |zones[key].records| && zones[key].records[k].value.A? ::
      RecordId(key, k) := zones[key].records[k].value.addresses
  }

  ghost predicate IsARecord(zones: map<string, Zone>, id: RecordId) {
    id.zone in zones && id.index < |zones[id.zone].records| && zones[id.zone].records[id.index].value.A?
  }

  function ARecord(zones: map<string, Zone>, id: RecordId): Value
    requires IsARecord(zones, id)
  {
    zones[id.zone].records[id.index].value
  }

  // ----- which checks get built

  ghost predicate Built(zones: map<string, Zone>, a: Action) {
    && IsARecord(zones, a.record)
    && var v := ARecord(zones, a.record);
       a.check.target in v.addresses &&
       exists t ::
         0 <= t < |v.checks| &&
         a.check == MakeCheck(zones[a.record.zone].records[a.record.index].name, v.checks[t], a.check.target)
  }

  lemma {:induction false} InRecord(id: RecordId, rec: Record, n: nat, a: Action)
    requires rec.value.A? && n <= |rec.value.checks|
    ensures a in OfRecord(id, rec, n) <==>
            a.record == id && a.check.target in rec.value.addresses &&
            exists t :: 0 <= t < n && a.check == MakeCheck(rec.name, rec.value.checks[t], a.check.target)
  {
    if n == 0 {
    } else {
      InRecord(id, rec, n - 1, a);
      var last := OfTemplate(id, rec, rec.value.checks[n - 1]);
      if a.record == id && a.check.target in rec.value.addresses &&
         a.check == MakeCheck(rec.name, rec.value.checks[n - 1], a.check.target) {
        var k :| 0 <= k < |rec.value.addresses| && rec.value.addresses[k] == a.check.target;
        assert last[k] == a;
      }
    }
  }

  /** What the last of n records adds. */
  ghost function LastOf(key: string, z: Zone, n: nat): seq<Action>
    requires WellTyped(z) && 0 < n <= |z.records|
  {
    var rec := z.records[n - 1];
    if rec.kind == TYPE_A then OfRecord(RecordId(key, n - 1), rec, |rec.value.checks|) else []
  }

  lemma OfZoneSplits(key: string, z: Zone, n: nat)
    requires WellTyped(z) && 0 < n <= |z.records|
    ensures OfZone(key, z, n) == OfZone(key, z, n - 1) + LastOf(key, z, n)
  {
  }

  lemma {:induction false} InZone(key: string, z: Zone, n: nat, a: Action)
    requires WellTyped(z) && n <= |z.records|
    ensures a in OfZone(key, z, n) <==>
            a.record.zone == key && a.record.index < n && z.records[a.record.index].value.A? &&
            a in OfRecord(a.record, z.records[a.record.index], |z.records[a.record.index].value.checks|)
  {
    if n == 0 {
    } else {
      var rec := z.records[n - 1];
      InZone(key, z, n - 1, a);
      OfZoneSplits(key, z, n);
      assert a in OfZone(key, z, n) <==> a in OfZone(key, z, n - 1) || a in LastOf(key, z, n);
      if rec.value.A? {
        InRecord(RecordId(key, n - 1), rec, |rec.value.checks|, a);
      }
    }
  }

  lemma {:induction false} InZones(zones: map<string, Zone>, order: seq<string>, n: nat, a: Action)
    requires Enumerates(order, zones.Keys) && forall key :: key in zones ==> WellTyped(zones[key])
    requires n <= |order|
    ensures a in OfZones(zones, order, n) <==> a.record.zone in order[..n] && Built(zones, a)
  {
    if n == 0 {
    } else {
      InZones(zones, order, n - 1, a);
      var key := order[n - 1];
      InZone(key, zones[key], |zones[key].records|, a);
      if a.record.zone == key && IsARecord(zones, a.record) {
        var rec := zones[key].records[a.record.index];
        InRecord(a.record, rec, |rec.value.checks|, a);
      }
      assert order[..n] == order[..n - 1] + [key];
    }
  }

  /** Exactly the checks of every template against every address of every A record are built. */
  lemma BuiltChecks(zones: map<string, Zone>, order: seq<string>, a: Action)
    requires Enumerates(order, zones.Keys) && forall key :: key in zones ==> WellTyped(zones[key])
    ensures a in OfZones(zones, order, |order|) <==> Built(zones, a)
  {
    InZones(zones, order, |order|, a);
    assert order[..|order|] == order;
  }

  // ----- one check per address

  ghost predicate Distinct(s: seq<string>) {
    forall j, k :: 0 <= j < k < |s| ==> s[j] != s[k]
  }

  /** The checks on record id aim at distinct addresses. */
  ghost predicate UniqueAt(acts: seq<Action>, id: RecordId) {
    forall i, j :: 0 <= i < j < |acts| && acts[i].record == id == acts[j].record ==>
      acts[i].check.target != acts[j].check.target
  }

  lemma UniqueParts(s: seq<Action>, t: seq<Action>, id: RecordId)
    requires UniqueAt(s + t, id)
    ensures UniqueAt(s, id) && UniqueAt(t, id)
  {
    forall i, j | 0 <= i < j < |t| && t[i].record == id == t[j].record
      ensures t[i].check.target != t[j].check.target
    {
      assert (s + t)[|s| + i] == t[i] && (s + t)[|s| + j] == t[j];
    }
    assert forall k :: 0 <= k < |s| ==> (s + t)[k] == s[k];
  }

  ghost predicate Absent(acts: seq<Action>, id: RecordId) {
    forall a :: a in acts ==> a.record != id
  }

  /** Checks on other records make no difference. */
  lemma UniqueBeforeAbsent(s: seq<Action>, t: seq<Action>, id: RecordId)
    requires Absent(t, id)
    ensures UniqueAt(s + t, id) <==> UniqueAt(s, id)
  {
    if UniqueAt(s + t, id) {
      UniqueParts(s, t, id);
    }
    assert forall k :: |s| <= k < |s + t| ==> (s + t)[k] in t;
  }

  lemma UniqueAfterAbsent(s: seq<Action>, t: seq<Action>, id: RecordId)
    requires Absent(s, id)
    ensures UniqueAt(s + t, id) <==> UniqueAt(t, id)
  {
    if UniqueAt(s + t, id) {
      UniqueParts(s, t, id);
    }
    assert forall k :: 0 <= k < |s| ==> (s + t)[k] in s;
  }

  /** No template, or no address, or one template and no address listed twice. */
  ghost predicate OneCheckEach(v: Value) {
    v.A? && (v.checks == [] || v.addresses == [] || (|v.checks| == 1 && Distinct(v.addresses)))
  }

  lemma UniqueTemplateIff(id: RecordId, rec: Record, template: HealthCheck)
    requires rec.value.A?
    ensures UniqueAt(OfTemplate(id, rec, template), id) <==> Distinct(rec.value.addresses)
  {
    var acts := OfTemplate(id, rec, template);
    assert forall k :: 0 <= k < |acts| ==> acts[k].record == id && acts[k].check.target == rec.value.addresses[k];
  }

  lemma {:induction false} NoAddressesNoChecks(id: RecordId, rec: Record, n: nat)
    requires rec.value.A? && n <= |rec.value.checks| && rec.value.addresses == []
    ensures OfRecord(id, rec, n) == []
  {
    if n == 0 {
    } else {
      NoAddressesNoChecks(id, rec, n - 1);
    }
  }

  /** Two templates put two checks on each address. */
  lemma {:induction false} TwoTemplatesClash(id: RecordId, rec: Record, n: nat)
    requires rec.value.A? && 2 <= n <= |rec.value.checks| && rec.value.addresses != []
    ensures !UniqueAt(OfRecord(id, rec, n), id)
  {
    var s, t := OfRecord(id, rec, n - 1), OfTemplate(id, rec, rec.value.checks[n - 1]);
    if UniqueAt(s + t, id) {
      UniqueParts(s, t, id);
      if n == 2 {
        assert OfRecord(id, rec, 1) == OfRecord(id, rec, 0) + OfTemplate(id, rec, rec.value.checks[0]);
        assert s == OfTemplate(id, rec, rec.value.checks[0]);
        var acts: seq<Action> := s + t;
        assert acts[0].check.target == acts[|s|].check.target;
      } else {
        TwoTemplatesClash(id, rec, n - 1);
      }
    }
  }

  lemma UniqueRecordIff(id: RecordId, rec: Record)
    requires rec.value.A?
    ensures UniqueAt(OfRecord(id, rec, |rec.value.checks|), id) <==> OneCheckEach(rec.value)
  {
    var n := |rec.value.checks|;
    if n > 0 && rec.value.addresses == [] {
      NoAddressesNoChecks(id, rec, n);
    } else if n == 1 {
      var acts := OfTemplate(id, rec, rec.value.checks[0]);
      UniqueTemplateIff(id, rec, rec.value.checks[0]);
      assert OfRecord(id, rec, 1) == OfRecord(id, rec, 0) + acts == acts;
    } else if n >= 2 {
      TwoTemplatesClash(id, rec, n);
    }
  }

  lemma AbsentFromZone(id: RecordId, key: string, z: Zone, n: nat)
    requires WellTyped(z) && n <= |z.records| && (id.zone != key || id.index >= n)
    ensures Absent(OfZone(key, z, n), id)
  {
    forall a | a in OfZone(key, z, n)
      ensures a.record != id
    {
      InZone(key, z, n, a);
    }
  }

  lemma AbsentFromRecord(id: RecordId, rid: RecordId, rec: Record)
    requires rec.value.A? && id != rid
    ensures Absent(OfRecord(rid, rec, |rec.value.checks|), id)
  {
    forall a | a in OfRecord(rid, rec, |rec.value.checks|)
      ensures a.record != id
    {
      InRecord(rid, rec, |rec.value.checks|, a);
    }
  }

  lemma {:induction false} UniqueZoneIff(id: RecordId, z: Zone, n: nat)
    requires WellTyped(z) && id.index < n <= |z.records| && z.records[id.index].value.A?
    ensures UniqueAt(OfZone(id.zone, z, n), id) <==> OneCheckEach(z.records[id.index].value)
  {
    var s, t := OfZone(id.zone, z, n - 1), LastOf(id.zone, z, n);
    OfZoneSplits(id.zone, z, n);
    if id.index == n - 1 {
      AbsentFromZone(id, id.zone, z, n - 1);
      UniqueAfterAbsent(s, t, id);
      UniqueRecordIff(id, z.records[n - 1]);
    } else {
      UniqueZoneIff(id, z, n - 1);
      if z.records[n - 1].kind == TYPE_A {
        AbsentFromRecord(id, RecordId(id.zone, n - 1), z.records[n - 1]);
      }
      UniqueBeforeAbsent(s, t, id);
    }
  }

  lemma {:induction false} AbsentFromZones(zones: map<string, Zone>, order: seq<string>, n: nat, id: RecordId)
    requires Enumerates(order, zones.Keys) && n <= |order| && (forall key :: key in zones ==> WellTyped(zones[key]))
    requires id.zone !in order[..n]
    ensures Absent(OfZones(zones, order, n), id)
  {
    forall a | a in OfZones(zones, order, n)
      ensures a.record != id
    {
      InZones(zones, order, n, a);
    }
  }

  lemma {:induction false} UniqueZonesIff(zones: map<string, Zone>, order: seq<string>, n: nat, id: RecordId)
    requires Enumerates(order, zones.Keys) && n <= |order| && (forall key :: key in zones ==> WellTyped(zones[key]))
    requires IsARecord(zones, id) && id.zone in order[..n]
    ensures UniqueAt(OfZones(zones, order, n), id) <==> OneCheckEach(ARecord(zones, id))
  {
    var key := order[n - 1];
    var z := zones[key];
    var s, t := OfZones(zones, order, n - 1), OfZone(key, z, |z.records|);
    if id.zone == key {
      AbsentFromZones(zones, order, n - 1, id);
      UniqueAfterAbsent(s, t, id);
      UniqueZoneIff(id, z, |z.records|);
    } else {
      UniqueZonesIff(zones, order, n - 1, id);
      AbsentFromZone(id, key, z, |z.records|);
      UniqueBeforeAbsent(s, t, id);
    }
  }

  lemma BuiltChecksAreSole(zones: map<string, Zone>, order: seq<string>, id: RecordId, x: string)
    requires Enumerates(order, zones.Keys) && (forall key :: key in zones ==> WellTyped(zones[key]))
    requires IsARecord(zones, id) && OneCheckEach(ARecord(zones, id))
    ensures AtMostOneCheck(OfZones(zones, order, |order|), id, x)
  {
    assert order[..|order|] == order;
    UniqueZonesIff(zones, order, |order|, id);
  }

  lemma TwinBuiltChecks(zones: map<string, Zone>, order: seq<string>, id: RecordId) returns (i: nat, j: nat)
    requires Enumerates(order, zones.Keys) && (forall key :: key in zones ==> WellTyped(zones[key]))
    requires IsARecord(zones, id) && !OneCheckEach(ARecord(zones, id))
    ensures var acts := OfZones(zones, order, |order|);
            i < j < |acts| && acts[i].record == id && Aims(acts[j], id, acts[i].check.target)
  {
    var acts := OfZones(zones, order, |order|);
    assert order[..|order|] == order;
    UniqueZonesIff(zones, order, |order|, id);
    i, j :| 0 <= i < j < |acts| && acts[i].record == id == acts[j].record &&
      acts[i].check.target == acts[j].check.target;
  }

  /** No two checks are built for one address of a record, if and only if the record has no template, no
      address, or one template and distinct addresses. */
  lemma BuiltChecksAreSoleIff(zones: map<string, Zone>, order: seq<string>, id: RecordId)
    requires Enumerates(order, zones.Keys) && (forall key :: key in zones ==> WellTyped(zones[key]))
    requires IsARecord(zones, id)
    ensures OneCheckEach(ARecord(zones, id)) <==> forall x :: AtMostOneCheck(OfZones(zones, order, |order|), id, x)
  {
    if OneCheckEach(ARecord(zones, id)) {
      forall x
        ensures AtMostOneCheck(OfZones(zones, order, |order|), id, x)
      {
        BuiltChecksAreSole(zones, order, id, x);
      }
    } else {
      var i, j := TwinBuiltChecks(zones, order, id);
      assert !AtMostOneCheck(OfZones(zones, order, |order|), id, OfZones(zones, order, |order|)[i].check.target);
    }
  }

  // ----- how many checks, and in which order

  /** The checks that change the record, in order. */
  function OnRecord(acts: seq<Action>, id: RecordId): seq<Action> {
    if acts == [] then []
    else
      var init, last := acts[..|acts| - 1], acts[|acts| - 1];
      if last.record == id then OnRecord(init, id) + [last] else OnRecord(init, id)
  }

  lemma {:induction false} OnRecordConcat(s: seq<Action>, t: seq<Action>, id: RecordId)
    ensures OnRecord(s + t, id) == OnRecord(s, id) + OnRecord(t, id)
  {
    if t == [] {
      assert s + t == s;
    } else {
      var init, last := t[..|t| - 1], t[|t| - 1];
      OnRecordConcat(s, init, id);
      assert (s + t)[..|s + t| - 1] == s + init;
    }
  }

  lemma {:induction false} OnRecordAbsent(acts: seq<Action>, id: RecordId)
    requires Absent(acts, id)
    ensures OnRecord(acts, id) == []
  {
    if acts == [] {
    } else {
      OnRecordAbsent(acts[..|acts| - 1], id);
    }
  }

  lemma {:induction false} OnRecordAll(acts: seq<Action>, id: RecordId)
    requires forall a :: a in acts ==> a.record == id
    ensures OnRecord(acts, id) == acts
  {
    if acts == [] {
    } else {
      OnRecordAll(acts[..|acts| - 1], id);
      assert acts == acts[..|acts| - 1] + [acts[|acts| - 1]];
    }
  }

  lemma OnRecordBefore(s: seq<Action>, t: seq<Action>, id: RecordId)
    requires Absent(t, id)
    ensures OnRecord(s + t, id) == OnRecord(s, id)
  {
    OnRecordConcat(s, t, id);
    OnRecordAbsent(t, id);
  }

  lemma OnRecordAfter(s: seq<Action>, t: seq<Action>, id: RecordId)
    requires Absent(s, id)
    ensures OnRecord(s + t, id) == OnRecord(t, id)
  {
    OnRecordConcat(s, t, id);
    OnRecordAbsent(s, id);
  }

  lemma OnLast(id: RecordId, z: Zone, n: nat)
    requires WellTyped(z) && id.index == n - 1 < |z.records| && z.records[id.index].value.A?
    ensures OnRecord(LastOf(id.zone, z, n), id) == OfRecord(id, z.records[n - 1], |z.records[n - 1].value.checks|)
  {
    var last := z.records[n - 1];
    forall a | a in OfRecord(id, last, |last.value.checks|)
      ensures a.record == id
    {
      InRecord(id, last, |last.value.checks|, a);
    }
    OnRecordAll(OfRecord(id, last, |last.value.checks|), id);
  }

  lemma {:induction false} OnZone(id: RecordId, z: Zone, n: nat)
    requires WellTyped(z) && id.index < n <= |z.records| && z.records[id.index].value.A?
    ensures var rec := z.records[id.index];
            OnRecord(OfZone(id.zone, z, n), id) == OfRecord(id, rec, |rec.value.checks|)
  {
    var s, t := OfZone(id.zone, z, n - 1), LastOf(id.zone, z, n);
    OfZoneSplits(id.zone, z, n);
    if id.index == n - 1 {
      AbsentFromZone(id, id.zone, z, n - 1);
      OnRecordAfter(s, t, id);
      OnLast(id, z, n);
    } else {
      OnZone(id, z, n - 1);
      if z.records[n - 1].kind == TYPE_A {
        AbsentFromRecord(id, RecordId(id.zone, n - 1), z.records[n - 1]);
      }
      OnRecordBefore(s, t, id);
    }
  }

  lemma {:induction false} OnZones(zones: map<string, Zone>, order: seq<string>, n: nat, id: RecordId)
    requires Enumerates(order, zones.Keys) && n <= |order| && (forall key :: key in zones ==> WellTyped(zones[key]))
    requires IsARecord(zones, id) && id.zone in order[..n]
    ensures var rec := zones[id.zone].records[id.index];
            OnRecord(OfZones(zones, order, n), id) == OfRecord(id, rec, |rec.value.checks|)
  {
    var key := order[n - 1];
    var records := |zones[key].records|;
    var s, t := OfZones(zones, order, n - 1), OfZone(key, zones[key], records);
    if id.zone == key {
      AbsentFromZones(zones, order, n - 1, id);
      OnRecordAfter(s, t, id);
      OnZone(id, zones[key], records);
    } else {
      OnZones(zones, order, n - 1, id);
      AbsentFromZone(id, key, zones[key], records);
      OnRecordBefore(s, t, id);
    }
  }

  /** Where entry k of row t is when rows of this width follow each other. */
  function Position(t: nat, width: nat, k: nat): nat {
    t * width + k
  }

  /** Entry k of the checks of template t. */
  lemma {:induction false} RecordCheckAt(id: RecordId, rec: Record, n: nat, t: nat, k: nat)
    requires rec.value.A? && t < n <= |rec.value.checks| && k < |rec.value.addresses|
    ensures var acts, width := OfRecord(id, rec, n), |rec.value.addresses|;
            && |acts| == n * width && Position(t, width, k) < |acts|
            && acts[Position(t, width, k)] == Action(MakeCheck(rec.name, rec.value.checks[t], rec.value.addresses[k]), id)
  {
    var width := |rec.value.addresses|;
    RecordCheckCount(id, rec, n);
    RecordCheckCount(id, rec, n - 1);
    assert n * width == (n - 1) * width + width;
    if t < n - 1 {
      RecordCheckAt(id, rec, n - 1, t, k);
    }
  }

  lemma {:induction false} RecordCheckCount(id: RecordId, rec: Record, n: nat)
    requires rec.value.A? && n <= |rec.value.checks|
    ensures |OfRecord(id, rec, n)| == n * |rec.value.addresses|
  {
    if n == 0 {
    } else {
      RecordCheckCount(id, rec, n - 1);
      assert n * |rec.value.addresses| == (n - 1) * |rec.value.addresses| + |rec.value.addresses|;
    }
  }

  /** Among the built checks those of an A record are as many as it has templates times addresses. */
  lemma BuiltCheckCount(zones: map<string, Zone>, order: seq<string>, id: RecordId)
    requires Enumerates(order, zones.Keys) && (forall key :: key in zones ==> WellTyped(zones[key]))
    requires IsARecord(zones, id)
    ensures |OnRecord(OfZones(zones, order, |order|), id)| ==
            |ARecord(zones, id).checks| * |ARecord(zones, id).addresses|
  {
    var rec := zones[id.zone].records[id.index];
    assert order[..|order|] == order;
    OnZones(zones, order, |order|, id);
    RecordCheckCount(id, rec, |rec.value.checks|);
  }

  /** They are ordered by template and then by address: entry k of row t is made from template t and aimed at
      address k. */
  lemma BuiltCheckAt(zones: map<string, Zone>, order: seq<string>, id: RecordId, t: nat, k: nat)
    requires Enumerates(order, zones.Keys) && (forall key :: key in zones ==> WellTyped(zones[key]))
    requires IsARecord(zones, id) && t < |ARecord(zones, id).checks| && k < |ARecord(zones, id).addresses|
    ensures var v, name := ARecord(zones, id), zones[id.zone].records[id.index].name;
            var acts, at := OnRecord(OfZones(zones, order, |order|), id), Position(t, |v.addresses|, k);
            at < |acts| && acts[at] == Action(MakeCheck(name, v.checks[t], v.addresses[k]), id)
  {
    var rec := zones[id.zone].records[id.index];
    assert order[..|order|] == order;
    OnZones(zones, order, |order|, id);
    RecordCheckAt(id, rec, |rec.value.checks|, t, k);
  }
}
