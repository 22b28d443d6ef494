/** The records a zone holds and the resource records they turn into.

    An IP address is its canonical text, the form in which the code compares addresses. */
module DnsConfig {

  const TYPE_A := "A"
  const TYPE_LB := "LB"

  /** The configured part of a health check; its counter and failed flag live in the checker. */
  datatype HealthCheck = HealthCheck(name: string, kind: string, timeout: int, failures: int, target: string)

  datatype Soa = Soa(domain: string, admin: string, minTtl: nat, serial: nat, refresh: nat, retry: nat, expire: nat)

  datatype Ns = Ns(servers: seq<string>, ttl: nat)

  datatype Ip = V4(text: string) | V6(text: string)

  /** A load balancer record is kept as the addresses its listeners resolve to. */
  datatype Value =
    | A(addresses: seq<string>, ttl: nat, checks: seq<HealthCheck>)
    | Lb(listeners: seq<Ip>, ttl: nat)

  /** The literal is the record's text in the configuration file; the value is rebuilt from it. */
  type Literal = map<string, string>

  datatype Record = Record(kind: string, name: string, literal: Literal, value: Value)

  datatype Zone = Zone(soa: Soa, ns: Ns, records: seq<Record>)

  /** Kinds and values agree, as they do in every loaded zone. */
  predicate WellTyped(z: Zone) {
    forall k :: 0 <= k < |z.records| ==>
      (z.records[k].kind == TYPE_A <==> z.records[k].value.A?) &&
      (z.records[k].kind == TYPE_LB ==> z.records[k].value.Lb?)
  }

  /** A record's place: its zone's key and its position in that zone. */
  datatype RecordId = RecordId(zone: string, index: nat)

  datatype ResourceRecord =
    | RrA(name: string, ttl: nat, ip: string)
    | RrAaaa(name: string, ttl: nat, ip: string)
    | RrNs(name: string, ttl: nat, server: string)
    | RrSoa(name: string, ttl: nat, soa: Soa)

  method ConvertA(a: Value, name: string) returns (rrs: seq<ResourceRecord>)
    requires a.A?
    ensures |rrs| == |a.addresses|
    ensures forall k :: 0 <= k < |rrs| ==> rrs[k] == RrA(name, a.ttl, a.addresses[k])
  {
    rrs := [];
    for k := 0 to |a.addresses|
      invariant |rrs| == k
      invariant forall j :: 0 <= j < k ==> rrs[j] == RrA(name, a.ttl, a.addresses[j])
    {
      rrs := rrs + [RrA(name, a.ttl, a.addresses[k])];
    }
  }

  method ConvertNs(ns: Ns, name: string) returns (rrs: seq<ResourceRecord>)
    ensures |rrs| == |ns.servers|
    ensures forall k :: 0 <= k < |rrs| ==> rrs[k] == RrNs(name, ns.ttl, ns.servers[k])
  {
    rrs := [];
    for k := 0 to |ns.servers|
      invariant |rrs| == k
      invariant forall j :: 0 <= j < k ==> rrs[j] == RrNs(name, ns.ttl, ns.servers[j])
    {
      rrs := rrs + [RrNs(name, ns.ttl, ns.servers[k])];
    }
  }

  /** The records a load balancer converts to, one per listener address. */
  function ConvertLb(lb: Value, name: string): (rrs: seq<ResourceRecord>)
    requires lb.Lb?
  {
    seq(|lb.listeners|, k requires 0 <= k < |lb.listeners| =>
      match lb.listeners[k]
      case V4(text) => RrA(name, lb.ttl, text)
      case V6(text) => RrAaaa(name, lb.ttl, text))
  }
}
