/** Zones on their way to disk and back: names lose and regain their trailing dot, record values are
    dropped and rebuilt from their literals. */
module Zones {
  import opened Basics
  import opened DnsConfig
  import opened Names

  // ----- renaming

  function RenameAll(f: string -> string, names: seq<string>): (r: seq<string>)
    ensures |r| == |names|
  {
    seq(|names|, k requires 0 <= k < |names| => f(names[k]))
  }

  function RenameRecords(f: string -> string, records: seq<Record>): (r: seq<Record>)
    ensures |r| == |records|
  {
    seq(|records|, k requires 0 <= k < |records| => records[k].(name := f(records[k].name)))
  }

  /** Every domain name in the zone passed through f. */
  function Rename(f: string -> string, z: Zone): Zone {
    Zone(z.soa.(domain := f(z.soa.domain), admin := f(z.soa.admin)),
         z.ns.(servers := RenameAll(f, z.ns.servers)),
         RenameRecords(f, z.records))
  }

  /** The zones renamed one after the other in the given order; a later zone replaces an earlier one
      that ends up under the same key. */
  function Rekey(f: string -> string, zones: map<string, Zone>, order: seq<string>): map<string, Zone>
    requires forall k :: 0 <= k < |order| ==> order[k] in zones
  {
    if order == [] then map[]
    else
      var last := order[|order| - 1];
      Rekey(f, zones, order[..|order| - 1])[f(last) := Rename(f, zones[last])]
  }

  ghost predicate InjectiveOn(f: string -> string, zones: map<string, Zone>) {
    forall a, b :: a in zones && b in zones && f(a) == f(b) ==> a == b
  }

  /** Every key of the result comes from some key. */
  lemma {:induction false} RekeySource(f: string -> string, zones: map<string, Zone>, order: seq<string>, x: string)
    returns (key: string)
    requires (forall k :: 0 <= k < |order| ==> order[k] in zones) && x in Rekey(f, zones, order)
    ensures key in zones && f(key) == x && Rekey(f, zones, order)[x] == Rename(f, zones[key])
  {
    key := order[|order| - 1];
    if f(key) != x {
      key := RekeySource(f, zones, order[..|order| - 1], x);
    }
  }

  /** Every key leads to some key of the result. */
  lemma {:induction false} RekeyHas(f: string -> string, zones: map<string, Zone>, order: seq<string>, key: string)
    requires (forall k :: 0 <= k < |order| ==> order[k] in zones) && key in order
    ensures f(key) in Rekey(f, zones, order)
  {
    var init, last := order[..|order| - 1], order[|order| - 1];
    assert order == init + [last];
    if key != last {
      RekeyHas(f, zones, init, key);
    }
  }

  /** When f keeps the keys apart, each zone is found under its new key, whatever the order. */
  lemma {:induction false} RekeyAt(f: string -> string, zones: map<string, Zone>, order: seq<string>, key: string)
    requires (forall k :: 0 <= k < |order| ==> order[k] in zones) && InjectiveOn(f, zones) && key in order
    ensures f(key) in Rekey(f, zones, order) && Rekey(f, zones, order)[f(key)] == Rename(f, zones[key])
  {
    var init, last := order[..|order| - 1], order[|order| - 1];
    assert order == init + [last];
    if key != last {
      RekeyAt(f, zones, init, key);
      assert f(key) != f(last);
    }
  }

  // ----- which names a renaming leaves alone

  ghost predicate Fixes(f: string -> string, z: Zone) {
    && f(z.soa.domain) == z.soa.domain && f(z.soa.admin) == z.soa.admin
    && (forall k :: 0 <= k < |z.ns.servers| ==> f(z.ns.servers[k]) == z.ns.servers[k])
    && (forall k :: 0 <= k < |z.records| ==> f(z.records[k].name) == z.records[k].name)
  }

  ghost predicate DottedZone(z: Zone) {
    && Dotted(z.soa.domain) && Dotted(z.soa.admin)
    && (forall k :: 0 <= k < |z.ns.servers| ==> Dotted(z.ns.servers[k]))
    && (forall k :: 0 <= k < |z.records| ==> Dotted(z.records[k].name))
  }

  ghost predicate NoDoubleDots(z: Zone) {
    && !DoubleDotted(z.soa.domain) && !DoubleDotted(z.soa.admin)
    && (forall k :: 0 <= k < |z.ns.servers| ==> !DoubleDotted(z.ns.servers[k]))
    && (forall k :: 0 <= k < |z.records| ==> !DoubleDotted(z.records[k].name))
  }

  lemma RenameFixes(f: string -> string, z: Zone)
    ensures Rename(f, z) == z <==> Fixes(f, z)
    ensures Raw(Rename(f, z)) == Raw(z) <==> Fixes(f, z)
  {
    var r := Rename(f, z);
    if Fixes(f, z) {
      assert r.ns.servers == z.ns.servers;
      assert r.records == z.records;
    }
    if Raw(r) == Raw(z) {
      assert r.ns.servers == z.ns.servers;
      forall k | 0 <= k < |z.records|
        ensures f(z.records[k].name) == z.records[k].name
      {
        assert Raw(r).records[k] == Raw(z).records[k];
      }
    }
  }

  lemma RestoreFixes(z: Zone)
    requires DottedZone(z)
    ensures Rename(AddDot, Rename(TrimDot, z)) == z <==> NoDoubleDots(z)
  {
    forall x | Dotted(x)
      ensures Restore(x) == x <==> !DoubleDotted(x)
    {
      RestoreIff(x);
    }
    RenameFixes(Restore, z);
    var r := Rename(AddDot, Rename(TrimDot, z));
    assert r.ns.servers == Rename(Restore, z).ns.servers;
    assert r.records == Rename(Restore, z).records;
  }

  lemma TrimTwiceFixes(z: Zone)
    requires DottedZone(z)
    ensures Fixes(TrimDot, Rename(TrimDot, z)) <==> NoDoubleDots(z)
  {
    var t := Rename(TrimDot, z);
    forall x | Dotted(x)
      ensures TrimDot(TrimDot(x)) == TrimDot(x) <==> !DoubleDotted(x)
    {
      TrimTwiceIff(x);
    }
    assert forall k :: 0 <= k < |z.ns.servers| ==> t.ns.servers[k] == TrimDot(z.ns.servers[k]);
    assert forall k :: 0 <= k < |z.records| ==> t.records[k].name == TrimDot(z.records[k].name);
  }

  lemma {:induction false} KeyNotMoved(f: string -> string, zones: map<string, Zone>, order: seq<string>,
                                       key: string, bound: nat)
    requires Enumerates(order, zones.Keys) && Rekey(f, zones, order).Keys == zones.Keys
    requires forall x :: x in zones ==> |x| <= bound && (f(x) == x || |f(x)| < |x|)
    requires key in zones
    ensures f(key) == key
    decreases bound - |key|
  {
    assert key in Rekey(f, zones, order).Keys;
    var source := RekeySource(f, zones, order, key);
    if f(key) != key {
      KeyNotMoved(f, zones, order, source, bound);
    }
  }

  /** A renaming that only ever shortens keys, and yet leaves the set of keys as it was, changes none. */
  lemma NoKeyMoved(f: string -> string, zones: map<string, Zone>, order: seq<string>)
    requires Enumerates(order, zones.Keys) && Rekey(f, zones, order).Keys == zones.Keys
    requires forall x :: x in zones ==> f(x) == x || |f(x)| < |x|
    ensures forall x :: x in zones ==> f(x) == x
  {
    var bound := LengthBound(order);
    forall x | x in zones
      ensures f(x) == x
    {
      KeyNotMoved(f, zones, order, x, bound);
    }
  }

  lemma {:induction false} LengthBound(order: seq<string>) returns (bound: nat)
    ensures forall x :: x in order ==> |x| <= bound
  {
    bound := 0;
    if order == [] {
    } else {
      bound := LengthBound(order[..|order| - 1]);
      assert order == order[..|order| - 1] + [order[|order| - 1]];
      if bound < |order[|order| - 1]| {
        bound := |order[|order| - 1]|;
      }
    }
  }

  // ----- what is written and how it is read

  datatype RawRecord = RawRecord(kind: string, name: string, literal: Literal)

  datatype RawZone = RawZone(soa: Soa, ns: Ns, records: seq<RawRecord>)

  /** The zone as the file has it: record values are not written. */
  function Raw(z: Zone): RawZone {
    RawZone(z.soa, z.ns, seq(|z.records|, k requires 0 <= k < |z.records| =>
      RawRecord(z.records[k].kind, z.records[k].name, z.records[k].literal)))
  }

  function RawZones(zones: map<string, Zone>): (r: map<string, RawZone>)
    ensures r.Keys == zones.Keys
  {
    map key | key in zones :: Raw(zones[key])
  }

  /** Turns a literal of a given kind into a value, with the default TTL; None is a parse error. */
  type Parser = (string, nat, Literal) -> Option<Value>

  /** Values have the kind that was asked for. */
  ghost predicate TypedParser(parse: Parser) {
    forall kind, ttl, literal :: parse(kind, ttl, literal).Some? ==>
      (kind == TYPE_A ==> parse(kind, ttl, literal).value.A?) &&
      (kind == TYPE_LB ==> parse(kind, ttl, literal).value.Lb?)
  }

  function ValueOf(parse: Parser, soa: Soa, r: RawRecord): Option<Value> {
    if r.kind == TYPE_A || r.kind == TYPE_LB then parse(r.kind, soa.minTtl, r.literal) else None
  }

  predicate Convertible(parse: Parser, r: RawZone) {
    forall k :: 0 <= k < |r.records| ==> ValueOf(parse, r.soa, r.records[k]).Some?
  }

  function Convert(parse: Parser, r: RawZone): Zone
    requires Convertible(parse, r)
  {
    Zone(r.soa,
         r.ns.(ttl := if r.ns.ttl == 0 then r.soa.minTtl else r.ns.ttl),
         seq(|r.records|, k requires 0 <= k < |r.records| =>
           Record(r.records[k].kind, r.records[k].name, r.records[k].literal,
             ValueOf(parse, r.soa, r.records[k]).value)))
  }

  function ConvertAll(parse: Parser, raws: map<string, RawZone>): (r: map<string, Zone>)
    requires forall key :: key in raws ==> Convertible(parse, raws[key])
    ensures r.Keys == raws.Keys
  {
    map key | key in raws :: Convert(parse, raws[key])
  }

  /** The zone is what its own text converts to. */
  ghost predicate Consistent(parse: Parser, z: Zone) {
    Convertible(parse, Raw(z)) && Convert(parse, Raw(z)) == z
  }

  lemma ConsistentIsWellTyped(parse: Parser, z: Zone)
    requires TypedParser(parse) && Consistent(parse, z)
    ensures WellTyped(z)
  {
    forall k | 0 <= k < |z.records|
      ensures (z.records[k].kind == TYPE_A <==> z.records[k].value.A?) &&
              (z.records[k].kind == TYPE_LB ==> z.records[k].value.Lb?)
    {
      assert Convert(parse, Raw(z)).records[k] == z.records[k];
      assert ValueOf(parse, z.soa, Raw(z).records[k]) == Some(z.records[k].value);
    }
  }

  /** What every load establishes. */
  ghost predicate Loaded(parse: Parser, zones: map<string, Zone>) {
    forall key :: key in zones ==> Dotted(key) && DottedZone(zones[key]) && Consistent(parse, zones[key])
  }

  lemma ConvertRenamed(f: string -> string, parse: Parser, live: Zone, z: Zone)
    requires Consistent(parse, z) && Raw(live) == Raw(z)
    ensures Convertible(parse, Raw(Rename(f, live)))
    ensures Convert(parse, Raw(Rename(f, live))) == Rename(f, z)
  {
    var r := Raw(Rename(f, live));
    assert |live.records| == |Raw(live).records| == |z.records|;
    forall k | 0 <= k < |r.records|
      ensures ValueOf(parse, r.soa, r.records[k]) == Some(z.records[k].value)
      ensures r.records[k] == RawRecord(z.records[k].kind, f(z.records[k].name), z.records[k].literal)
    {
      assert Raw(live).records[k] == Raw(z).records[k];
      assert Convert(parse, Raw(z)).records[k] == z.records[k];
    }
    assert Convert(parse, r).records == Rename(f, z).records;
  }

  lemma ConvertIsConsistent(parse: Parser, r: RawZone)
    requires Convertible(parse, r)
    ensures Consistent(parse, Convert(parse, r))
  {
    var z := Convert(parse, r);
    assert forall k :: 0 <= k < |r.records| ==> Raw(z).records[k] == r.records[k];
    assert Convert(parse, Raw(z)).records == z.records;
  }

  /** The zones of a file after a load. */
  function Load(parse: Parser, raws: map<string, RawZone>, order: seq<string>): Option<map<string, Zone>>
    requires Enumerates(order, raws.Keys)
  {
    if forall key :: key in raws ==> Convertible(parse, raws[key])
    then Some(Rekey(AddDot, ConvertAll(parse, raws), order))
    else None
  }

  lemma AddDotDots(z: Zone)
    ensures DottedZone(Rename(AddDot, z))
  {
    var r := Rename(AddDot, z);
    assert forall k :: 0 <= k < |z.ns.servers| ==> r.ns.servers[k] == AddDot(z.ns.servers[k]);
    assert forall k :: 0 <= k < |z.records| ==> r.records[k].name == AddDot(z.records[k].name);
  }

  lemma {:induction false} RekeyLoaded(parse: Parser, zones: map<string, Zone>, order: seq<string>)
    requires forall k :: 0 <= k < |order| ==> order[k] in zones
    requires forall key :: key in zones ==> Consistent(parse, zones[key])
    ensures Loaded(parse, Rekey(AddDot, zones, order))
  {
    if order == [] {
    } else {
      RekeyLoaded(parse, zones, order[..|order| - 1]);
      var z := zones[order[|order| - 1]];
      ConvertRenamed(AddDot, parse, z, z);
      AddDotDots(z);
    }
  }

  lemma LoadEstablishes(parse: Parser, raws: map<string, RawZone>, order: seq<string>)
    requires Enumerates(order, raws.Keys) && Load(parse, raws, order).Some?
    ensures Loaded(parse, Load(parse, raws, order).value)
  {
    var zones := ConvertAll(parse, raws);
    forall key | key in zones
      ensures Consistent(parse, zones[key])
    {
      ConvertIsConsistent(parse, raws[key]);
    }
    RekeyLoaded(parse, zones, order);
  }

  /** A record of a file of kind A or LB whose literal parses. */
  ghost predicate Readable(parse: Parser, raw: RawZone, k: nat)
    requires k < |raw.records|
  {
    raw.records[k].kind in {"A", "LB"} && parse(raw.records[k].kind, raw.soa.minTtl, raw.records[k].literal).Some?
  }

  /** A load succeeds exactly when every record of every zone is of kind A or LB and parses. */
  lemma LoadSucceedsIff(parse: Parser, raws: map<string, RawZone>, order: seq<string>)
    requires Enumerates(order, raws.Keys)
    ensures Load(parse, raws, order).Some? <==>
            forall key, k :: key in raws && 0 <= k < |raws[key].records| ==> Readable(parse, raws[key], k)
  {
    forall key | key in raws
      ensures Convertible(parse, raws[key]) <==>
              forall k :: 0 <= k < |raws[key].records| ==> Readable(parse, raws[key], k)
    {
      assert forall k :: 0 <= k < |raws[key].records| ==>
        (ValueOf(parse, raws[key].soa, raws[key].records[k]).Some? <==> Readable(parse, raws[key], k));
    }
  }

  /** What a zone of the file has become: its names are dotted, the TTL of its name servers defaults to the
      minimum TTL, and each record has the value its literal parses to with that TTL as default. */
  ghost predicate LoadedFrom(parse: Parser, raw: RawZone, z: Zone) {
    && z.soa == raw.soa.(domain := AddDot(raw.soa.domain), admin := AddDot(raw.soa.admin))
    && z.ns.ttl == (if raw.ns.ttl != 0 then raw.ns.ttl else raw.soa.minTtl)
    && |z.ns.servers| == |raw.ns.servers|
    && (forall k :: 0 <= k < |z.ns.servers| ==> z.ns.servers[k] == AddDot(raw.ns.servers[k]))
    && |z.records| == |raw.records|
    && forall k :: 0 <= k < |z.records| ==>
         && z.records[k].kind == raw.records[k].kind && z.records[k].literal == raw.records[k].literal
         && z.records[k].name == AddDot(raw.records[k].name)
         && Some(z.records[k].value) == parse(raw.records[k].kind, raw.soa.minTtl, raw.records[k].literal)
  }

  lemma ConvertedAndDotted(parse: Parser, raw: RawZone)
    requires Convertible(parse, raw)
    ensures LoadedFrom(parse, raw, Rename(AddDot, Convert(parse, raw)))
  {
  }

  /** A load leaves a zone under the dotted key of each zone of the file and under no other key, made from a
      zone of the file with that dotted key; there is just one unless two keys differ in their dot only. */
  lemma LoadGives(parse: Parser, raws: map<string, RawZone>, order: seq<string>)
    requires Enumerates(order, raws.Keys) && Load(parse, raws, order).Some?
    ensures var zones := Load(parse, raws, order).value;
            && (forall key :: key in raws ==> AddDot(key) in zones)
            && (forall x :: x in zones ==>
                  exists key :: key in raws && AddDot(key) == x && LoadedFrom(parse, raws[key], zones[x]))
  {
    var converted := ConvertAll(parse, raws);
    var zones := Load(parse, raws, order).value;
    forall key | key in raws
      ensures AddDot(key) in zones
    {
      RekeyHas(AddDot, converted, order, key);
    }
    forall x | x in zones
      ensures exists key :: key in raws && AddDot(key) == x && LoadedFrom(parse, raws[key], zones[x])
    {
      var key := RekeySource(AddDot, converted, order, x);
      ConvertedAndDotted(parse, raws[key]);
    }
  }

  /** A zone whose dotted key no other zone of the file has is found under it. */
  lemma LoadGivesOwn(parse: Parser, raws: map<string, RawZone>, order: seq<string>, key: string)
    requires Enumerates(order, raws.Keys) && Load(parse, raws, order).Some? && key in raws
    requires forall other :: other in raws && AddDot(other) == AddDot(key) ==> other == key
    ensures var zones := Load(parse, raws, order).value;
            AddDot(key) in zones && LoadedFrom(parse, raws[key], zones[AddDot(key)])
  {
    LoadGives(parse, raws, order);
  }

  // ----- saving and loading

  /** The live zones differ from the loaded ones in record values only, as prunes and revivals leave them. */
  ghost predicate SameText(live: map<string, Zone>, loaded: map<string, Zone>) {
    live.Keys == loaded.Keys && forall key :: key in live ==> Raw(live[key]) == Raw(loaded[key])
  }

  ghost predicate NoDoubleDotsIn(zones: map<string, Zone>) {
    forall key :: key in zones ==> !DoubleDotted(key) && NoDoubleDots(zones[key])
  }

  ghost predicate AllDotted(zones: map<string, Zone>) {
    forall key :: key in zones ==> Dotted(key) && DottedZone(zones[key])
  }

  /** The zones with every dot taken off. */
  ghost predicate TrimmedOf(zones: map<string, Zone>, trimmed: map<string, Zone>) {
    && (forall key :: key in zones ==> TrimDot(key) in trimmed && trimmed[TrimDot(key)] == Rename(TrimDot, zones[key]))
    && (forall x :: x in trimmed ==> exists key :: key in zones && TrimDot(key) == x)
  }

  ghost predicate Trimming(zones: map<string, Zone>, trimmed: map<string, Zone>, order: seq<string>) {
    AllDotted(zones) && TrimmedOf(zones, trimmed) && Enumerates(order, trimmed.Keys)
  }

  lemma TrimKeepsApart(zones: map<string, Zone>)
    requires AllDotted(zones)
    ensures InjectiveOn(TrimDot, zones)
  {
    forall a, b | a in zones && b in zones && TrimDot(a) == TrimDot(b)
      ensures a == b
    {
      TrimInjective(a, b);
    }
  }

  lemma TrimGivesTrimmed(zones: map<string, Zone>, order: seq<string>)
    requires AllDotted(zones) && Enumerates(order, zones.Keys)
    ensures TrimmedOf(zones, Rekey(TrimDot, zones, order))
  {
    var trimmed := Rekey(TrimDot, zones, order);
    forall key | key in zones
      ensures TrimDot(key) in trimmed && trimmed[TrimDot(key)] == Rename(TrimDot, zones[key])
    {
      TrimKeepsApart(zones);
      RekeyAt(TrimDot, zones, order, key);
    }
    forall x | x in trimmed
      ensures exists key :: key in zones && TrimDot(key) == x
    {
      var key := RekeySource(TrimDot, zones, order, x);
    }
  }

  /** The key a key of the decorated zones goes back to. */
  lemma DecorateSource(zones: map<string, Zone>, trimmed: map<string, Zone>, order: seq<string>, x: string)
    returns (key: string)
    requires Trimming(zones, trimmed, order) && x in Rekey(AddDot, trimmed, order)
    ensures key in zones && Restore(key) == x
  {
    var t := RekeySource(AddDot, trimmed, order, x);
    key :| key in zones && TrimDot(key) == t;
  }

  lemma {:induction false} KeyRestored(zones: map<string, Zone>, trimmed: map<string, Zone>, order: seq<string>,
                                       key: string, bound: nat)
    requires Trimming(zones, trimmed, order)
    requires Rekey(AddDot, trimmed, order).Keys == zones.Keys
    requires forall x :: x in zones ==> |x| <= bound
    requires key in zones
    ensures !DoubleDotted(key)
    decreases bound - |key|
  {
    assert key in Rekey(AddDot, trimmed, order).Keys;
    var source := DecorateSource(zones, trimmed, order, key);
    RestoreIff(key);
    RestoreIff(source);
    if DoubleDotted(key) {
      KeyRestored(zones, trimmed, order, source, bound);
    }
  }

  lemma KeyBound(zones: map<string, Zone>, trimmed: map<string, Zone>, order: seq<string>) returns (bound: nat)
    requires Trimming(zones, trimmed, order)
    ensures forall x :: x in zones ==> |x| <= bound
  {
    bound := LengthBound(order);
    bound := bound + 1;
    forall x | x in zones
      ensures |x| <= bound
    {
      assert TrimDot(x) in order;
    }
  }

  lemma AddDotKeepsApart(zones: map<string, Zone>, trimmed: map<string, Zone>)
    requires AllDotted(zones) && TrimmedOf(zones, trimmed) && forall key :: key in zones ==> !DoubleDotted(key)
    ensures InjectiveOn(AddDot, trimmed)
  {
    forall a, b | a in trimmed && b in trimmed && AddDot(a) == AddDot(b)
      ensures a == b
    {
      var ka :| ka in zones && TrimDot(ka) == a;
      var kb :| kb in zones && TrimDot(kb) == b;
      RestoreIff(ka);
      RestoreIff(kb);
    }
  }

  lemma DecorateAt(zones: map<string, Zone>, trimmed: map<string, Zone>, order: seq<string>, key: string)
    requires Trimming(zones, trimmed, order)
    requires (forall k :: k in zones ==> !DoubleDotted(k)) && key in zones
    ensures key in Rekey(AddDot, trimmed, order)
    ensures Rekey(AddDot, trimmed, order)[key] == zones[key] <==> NoDoubleDots(zones[key])
  {
    AddDotKeepsApart(zones, trimmed);
    RekeyAt(AddDot, trimmed, order, TrimDot(key));
    RestoreIff(key);
    RestoreFixes(zones[key]);
  }

  lemma NoKeyAdded(zones: map<string, Zone>, trimmed: map<string, Zone>, order: seq<string>, x: string)
    requires Trimming(zones, trimmed, order) && NoDoubleDotsIn(zones) && x in Rekey(AddDot, trimmed, order)
    ensures x in zones
  {
    var key := DecorateSource(zones, trimmed, order, x);
    RestoreIff(key);
  }

  lemma SameMap<T>(a: map<string, T>, b: map<string, T>)
    requires forall k :: k in b ==> k in a && a[k] == b[k]
    requires forall k :: k in a ==> k in b
    ensures a == b
  {
  }

  lemma RestoredHasNoDoubleDots(zones: map<string, Zone>, trimmed: map<string, Zone>, order: seq<string>)
    requires Trimming(zones, trimmed, order)
    requires Rekey(AddDot, trimmed, order) == zones
    ensures NoDoubleDotsIn(zones)
  {
    var bound := KeyBound(zones, trimmed, order);
    forall key | key in zones
      ensures !DoubleDotted(key)
    {
      KeyRestored(zones, trimmed, order, key, bound);
    }
    forall key | key in zones
      ensures NoDoubleDots(zones[key])
    {
      DecorateAt(zones, trimmed, order, key);
    }
  }

  lemma NoDoubleDotsAreRestored(zones: map<string, Zone>, trimmed: map<string, Zone>, order: seq<string>)
    requires Trimming(zones, trimmed, order)
    requires NoDoubleDotsIn(zones)
    ensures Rekey(AddDot, trimmed, order) == zones
  {
    var r := Rekey(AddDot, trimmed, order);
    forall key | key in zones
      ensures key in r && r[key] == zones[key]
    {
      DecorateAt(zones, trimmed, order, key);
    }
    forall x | x in r
      ensures x in zones
    {
      NoKeyAdded(zones, trimmed, order, x);
    }
    SameMap(r, zones);
  }

  /** Decorating trimmed zones gives the original ones back if and only if no name ends in two dots. */
  lemma DecorateRestoresIff(zones: map<string, Zone>, trimmed: map<string, Zone>, order: seq<string>)
    requires Trimming(zones, trimmed, order)
    ensures Rekey(AddDot, trimmed, order) == zones <==> NoDoubleDotsIn(zones)
  {
    if NoDoubleDotsIn(zones) {
      NoDoubleDotsAreRestored(zones, trimmed, order);
    } else if Rekey(AddDot, trimmed, order) == zones {
      RestoredHasNoDoubleDots(zones, trimmed, order);
    }
  }

  /** The zones after a save has trimmed them and a load has converted and decorated them. */
  ghost function Reloaded(parse: Parser, live: map<string, Zone>, saveOrder: seq<string>, loadOrder: seq<string>)
    : Option<map<string, Zone>>
    requires Enumerates(saveOrder, live.Keys) && Enumerates(loadOrder, RawZones(Rekey(TrimDot, live, saveOrder)).Keys)
  {
    Load(parse, RawZones(Rekey(TrimDot, live, saveOrder)), loadOrder)
  }

  lemma SameTextDotted(parse: Parser, loaded: map<string, Zone>, live: map<string, Zone>)
    requires Loaded(parse, loaded) && SameText(live, loaded)
    ensures AllDotted(live)
    ensures NoDoubleDotsIn(live) <==> NoDoubleDotsIn(loaded)
  {
    forall key | key in live
      ensures DottedZone(live[key]) && (NoDoubleDots(live[key]) <==> NoDoubleDots(loaded[key]))
    {
      var a, b := live[key], loaded[key];
      assert |a.records| == |Raw(a).records| == |b.records|;
      forall k | 0 <= k < |a.records|
        ensures a.records[k].name == b.records[k].name
      {
        assert Raw(a).records[k] == Raw(b).records[k];
      }
    }
  }

  lemma ReadBackAt(parse: Parser, loaded: map<string, Zone>, live: map<string, Zone>, order: seq<string>, key: string)
    requires Loaded(parse, loaded) && SameText(live, loaded) && Enumerates(order, live.Keys) && key in loaded
    ensures var trimmed := Rekey(TrimDot, live, order);
            TrimDot(key) in trimmed && Convertible(parse, Raw(trimmed[TrimDot(key)])) &&
            Convert(parse, Raw(trimmed[TrimDot(key)])) == Rename(TrimDot, loaded[key])
  {
    SameTextDotted(parse, loaded, live);
    TrimKeepsApart(live);
    RekeyAt(TrimDot, live, order, key);
    ConvertRenamed(TrimDot, parse, live[key], loaded[key]);
  }

  /** Whatever happened to the record values, what is read back is the loaded zones, trimmed. */
  lemma ReadBackIsTrimmed(parse: Parser, loaded: map<string, Zone>, live: map<string, Zone>, order: seq<string>)
    requires Loaded(parse, loaded) && SameText(live, loaded) && Enumerates(order, live.Keys)
    ensures var raws := RawZones(Rekey(TrimDot, live, order));
            (forall key :: key in raws ==> Convertible(parse, raws[key])) && TrimmedOf(loaded, ConvertAll(parse, raws))
  {
    var trimmed := Rekey(TrimDot, live, order);
    forall x | x in trimmed
      ensures Convertible(parse, Raw(trimmed[x])) && exists key :: key in loaded && TrimDot(key) == x
    {
      var key := RekeySource(TrimDot, live, order, x);
      ReadBackAt(parse, loaded, live, order, key);
    }
    forall key | key in loaded
      ensures TrimDot(key) in trimmed && Convertible(parse, Raw(trimmed[TrimDot(key)])) &&
              Convert(parse, Raw(trimmed[TrimDot(key)])) == Rename(TrimDot, loaded[key])
    {
      ReadBackAt(parse, loaded, live, order, key);
    }
  }

  lemma ReloadedIs(parse: Parser, loaded: map<string, Zone>, live: map<string, Zone>, saveOrder: seq<string>,
                   loadOrder: seq<string>)
    returns (trimmed: map<string, Zone>)
    requires Loaded(parse, loaded) && SameText(live, loaded) && Enumerates(saveOrder, live.Keys)
    requires Enumerates(loadOrder, RawZones(Rekey(TrimDot, live, saveOrder)).Keys)
    ensures Trimming(loaded, trimmed, loadOrder)
    ensures Reloaded(parse, live, saveOrder, loadOrder) == Some(Rekey(AddDot, trimmed, loadOrder))
  {
    ReadBackIsTrimmed(parse, loaded, live, saveOrder);
    trimmed := ConvertAll(parse, RawZones(Rekey(TrimDot, live, saveOrder)));
  }

  /** A save and a load, in any order of the maps and after any prunes and revivals, always succeed in
      reading the zones back, and bring back exactly the loaded zones, with their configured values, if and
      only if no name among them ends in two dots. */
  lemma SaveLoadRestoresIff(parse: Parser, loaded: map<string, Zone>, live: map<string, Zone>, saveOrder: seq<string>,
                            loadOrder: seq<string>)
    requires Loaded(parse, loaded) && SameText(live, loaded) && Enumerates(saveOrder, live.Keys)
    requires Enumerates(loadOrder, RawZones(Rekey(TrimDot, live, saveOrder)).Keys)
    ensures Reloaded(parse, live, saveOrder, loadOrder).Some?
    ensures Reloaded(parse, live, saveOrder, loadOrder) == Some(loaded) <==> NoDoubleDotsIn(loaded)
  {
    var trimmed := ReloadedIs(parse, loaded, live, saveOrder, loadOrder);
    DecorateRestoresIff(loaded, trimmed, loadOrder);
  }

  lemma TrimAgainAt(zones: map<string, Zone>, trimmed: map<string, Zone>, order: seq<string>, key: string)
    requires Trimming(zones, trimmed, order)
    requires (forall t :: t in trimmed ==> TrimDot(t) == t) && key in zones
    ensures TrimDot(key) in Rekey(TrimDot, trimmed, order)
    ensures Raw(Rekey(TrimDot, trimmed, order)[TrimDot(key)]) == Raw(trimmed[TrimDot(key)]) <==>
              NoDoubleDots(zones[key])
    ensures !DoubleDotted(key)
  {
    assert InjectiveOn(TrimDot, trimmed);
    RekeyAt(TrimDot, trimmed, order, TrimDot(key));
    RenameFixes(TrimDot, trimmed[TrimDot(key)]);
    TrimTwiceFixes(zones[key]);
    TrimTwiceIff(key);
  }

  lemma SameRaw(a: map<string, Zone>, b: map<string, Zone>, key: string)
    requires RawZones(a) == RawZones(b) && key in b
    ensures key in a && Raw(a[key]) == Raw(b[key])
  {
    assert key in RawZones(b) && RawZones(a)[key] == RawZones(b)[key];
  }

  lemma SameTwiceAt(zones: map<string, Zone>, trimmed: map<string, Zone>, order: seq<string>, key: string)
    requires Trimming(zones, trimmed, order) && key in zones
    requires RawZones(Rekey(TrimDot, trimmed, order)) == RawZones(trimmed)
    requires forall t :: t in trimmed ==> TrimDot(t) == t
    ensures !DoubleDotted(key) && NoDoubleDots(zones[key])
  {
    TrimAgainAt(zones, trimmed, order, key);
    SameRaw(Rekey(TrimDot, trimmed, order), trimmed, TrimDot(key));
  }

  lemma TrimmedKeysStay(trimmed: map<string, Zone>, order: seq<string>)
    requires Enumerates(order, trimmed.Keys) && RawZones(Rekey(TrimDot, trimmed, order)) == RawZones(trimmed)
    ensures forall t :: t in trimmed ==> TrimDot(t) == t
  {
    assert RawZones(Rekey(TrimDot, trimmed, order)).Keys == trimmed.Keys;
    NoKeyMoved(TrimDot, trimmed, order);
  }

  lemma SameTwiceHasNoDoubleDots(zones: map<string, Zone>, trimmed: map<string, Zone>, order: seq<string>)
    requires Trimming(zones, trimmed, order)
    requires RawZones(Rekey(TrimDot, trimmed, order)) == RawZones(trimmed)
    ensures NoDoubleDotsIn(zones)
  {
    TrimmedKeysStay(trimmed, order);
    forall key | key in zones
      ensures !DoubleDotted(key) && NoDoubleDots(zones[key])
    {
      SameTwiceAt(zones, trimmed, order, key);
    }
  }

  lemma RawStays(zones: map<string, Zone>, trimmed: map<string, Zone>, order: seq<string>, t: string)
    requires Trimming(zones, trimmed, order) && NoDoubleDotsIn(zones) && t in trimmed
    requires forall u :: u in trimmed ==> TrimDot(u) == u
    ensures t in Rekey(TrimDot, trimmed, order) && Raw(Rekey(TrimDot, trimmed, order)[t]) == Raw(trimmed[t])
  {
    var key :| key in zones && TrimDot(key) == t;
    TrimAgainAt(zones, trimmed, order, key);
  }

  lemma TrimmedStays(zones: map<string, Zone>, trimmed: map<string, Zone>, t: string)
    requires AllDotted(zones) && TrimmedOf(zones, trimmed) && NoDoubleDotsIn(zones) && t in trimmed
    ensures TrimDot(t) == t
  {
    var key :| key in zones && TrimDot(key) == t;
    TrimTwiceIff(key);
  }

  lemma NoDoubleDotsAreSameTwice(zones: map<string, Zone>, trimmed: map<string, Zone>, order: seq<string>)
    requires Trimming(zones, trimmed, order)
    requires NoDoubleDotsIn(zones)
    ensures RawZones(Rekey(TrimDot, trimmed, order)) == RawZones(trimmed)
  {
    var again := Rekey(TrimDot, trimmed, order);
    forall t | t in trimmed
      ensures TrimDot(t) == t
    {
      TrimmedStays(zones, trimmed, t);
    }
    forall t | t in trimmed
      ensures t in again && Raw(again[t]) == Raw(trimmed[t])
    {
      RawStays(zones, trimmed, order, t);
    }
    forall x | x in again
      ensures x in trimmed
    {
      var t := RekeySource(TrimDot, trimmed, order, x);
    }
    SameMap(RawZones(again), RawZones(trimmed));
  }

  /** The second trim of a save, before the YAML file, leaves the text of the zones as the first one
      did, if and only if no name ended in two dots. */
  lemma TrimTwiceSameIff(zones: map<string, Zone>, trimmed: map<string, Zone>, order: seq<string>)
    requires Trimming(zones, trimmed, order)
    ensures RawZones(Rekey(TrimDot, trimmed, order)) == RawZones(trimmed) <==> NoDoubleDotsIn(zones)
  {
    if NoDoubleDotsIn(zones) {
      NoDoubleDotsAreSameTwice(zones, trimmed, order);
    } else if RawZones(Rekey(TrimDot, trimmed, order)) == RawZones(trimmed) {
      SameTwiceHasNoDoubleDots(zones, trimmed, order);
    }
  }

  /** A loaded configuration that no save and load brings back. */
  lemma RestoreExample(parse: Parser, saveOrder: seq<string>, loadOrder: seq<string>)
    requires Enumerates(saveOrder, {"a."})
    requires var zones := map["a." := Zone(Soa("a..", "a.", 0, 0, 0, 0, 0), Ns([], 0), [])];
             Enumerates(loadOrder, RawZones(Rekey(TrimDot, zones, saveOrder)).Keys)
    ensures var zones := map["a." := Zone(Soa("a..", "a.", 0, 0, 0, 0, 0), Ns([], 0), [])];
            Loaded(parse, zones) && Reloaded(parse, zones, saveOrder, loadOrder) != Some(zones)
  {
    var z := Zone(Soa("a..", "a.", 0, 0, 0, 0, 0), Ns([], 0), []);
    var zones := map["a." := z];
    assert zones.Keys == {"a."};
    assert Dotted("a.") && Dotted("a..") && DoubleDotted("a..");
    assert Convert(parse, Raw(z)).records == z.records;
    assert Consistent(parse, z) && DottedZone(z) && !NoDoubleDots(zones["a."]);
    SaveLoadRestoresIff(parse, zones, zones, saveOrder, loadOrder);
  }
}
