/** The configuration object: its peer list, its zones, and their way to disk and back. */
module Configuration {
  import opened Basics
  import opened DnsConfig
  import opened Names
  import opened Peers
  import opened Zones

  datatype Settings = Settings(shutdownWait: int, authKey: string, listenDns: string, listenControl: string)

  /** The exported part of a configuration, which is what the JSON and YAML files hold. */
  datatype File = File(settings: Settings, peers: seq<Peer>, zones: map<string, RawZone>)

  /** Files under their final names. */
  class Disk {
    var files: map<string, File>
  }

  /** What the file system answers during a save. */
  datatype SaveIo = SaveIo(prefixTaken: bool, jsonCreated: bool, jsonWritten: bool, jsonMoved: bool,
                           yamlCreated: bool, yamlWritten: bool, yamlMoved: bool) {
    predicate JsonDone() {
      !prefixTaken && jsonCreated && jsonWritten && jsonMoved
    }

    predicate AllDone() {
      JsonDone() && yamlCreated && yamlWritten && yamlMoved
    }
  }

  // ----- the passes over all zones

  method TrimNames(z: Zone) returns (t: Zone)
    ensures t == Rename(TrimDot, z)
  {
    var servers := [];
    for k := 0 to |z.ns.servers|
      invariant servers == RenameAll(TrimDot, z.ns.servers)[..k]
    {
      servers := servers + [TrimDot(z.ns.servers[k])];
    }
    var records := z.records;
    for k := 0 to |records|
      invariant |records| == |z.records|
      invariant records == RenameRecords(TrimDot, z.records)[..k] + z.records[k..]
    {
      records := records[k := records[k].(name := TrimDot(records[k].name))];
    }
    var soa := z.soa.(domain := TrimDot(z.soa.domain), admin := TrimDot(z.soa.admin));
    t := Zone(soa, z.ns.(servers := servers), records);
  }

  method AddDots(z: Zone) returns (t: Zone)
    ensures t == Rename(AddDot, z)
  {
    var servers := [];
    for k := 0 to |z.ns.servers|
      invariant servers == RenameAll(AddDot, z.ns.servers)[..k]
    {
      servers := servers + [AddDot(z.ns.servers[k])];
    }
    var records := z.records;
    for k := 0 to |records|
      invariant |records| == |z.records|
      invariant records == RenameRecords(AddDot, z.records)[..k] + z.records[k..]
    {
      records := records[k := records[k].(name := AddDot(records[k].name))];
    }
    var soa := z.soa.(domain := AddDot(z.soa.domain), admin := AddDot(z.soa.admin));
    t := Zone(soa, z.ns.(servers := servers), records);
  }

  method DecorateZones(zones: map<string, Zone>, order: seq<string>) returns (r: map<string, Zone>)
    requires Enumerates(order, zones.Keys)
    ensures r == Rekey(AddDot, zones, order)
  {
    r := map[];
    for k := 0 to |order|
      invariant r == Rekey(AddDot, zones, order[..k])
    {
      assert order[..k + 1][..k] == order[..k];
      var z := AddDots(zones[order[k]]);
      r := r[AddDot(order[k]) := z];
    }
    assert order[..|order|] == order;
  }

  /** One zone's TTL default and record values; None is an invalid record type or a literal that does
      not parse. */
  method ConvertZone(parse: Parser, raw: RawZone) returns (r: Option<Zone>)
    ensures r == if Convertible(parse, raw) then Some(Convert(parse, raw)) else None
  {
    var ns := if raw.ns.ttl == 0 then raw.ns.(ttl := raw.soa.minTtl) else raw.ns;
    var records := [];
    for k := 0 to |raw.records|
      invariant |records| == k
      invariant forall j :: 0 <= j < k ==> ValueOf(parse, raw.soa, raw.records[j]).Some?
      invariant forall j :: 0 <= j < k ==>
                  var rec := raw.records[j];
                  records[j] == Record(rec.kind, rec.name, rec.literal, ValueOf(parse, raw.soa, rec).value)
    {
      var rec := raw.records[k];
      if rec.kind != TYPE_A && rec.kind != TYPE_LB {
        return None;
      }
      var value := parse(rec.kind, raw.soa.minTtl, rec.literal);
      if value.None? {
        return None;
      }
      records := records + [Record(rec.kind, rec.name, rec.literal, value.value)];
    }
    assert records == Convert(parse, raw).records;
    return Some(Zone(raw.soa, ns, records));
  }

  method ConvertLiterals(parse: Parser, raws: map<string, RawZone>, order: seq<string>)
    returns (r: Option<map<string, Zone>>)
    requires Enumerates(order, raws.Keys)
    ensures r.Some? <==> forall key :: key in raws ==> Convertible(parse, raws[key])
    ensures r.Some? ==> r.value == ConvertAll(parse, raws)
  {
    var zones: map<string, Zone> := map[];
    for k := 0 to |order|
      invariant forall j :: 0 <= j < k ==> Convertible(parse, raws[order[j]])
      invariant forall key :: key in zones <==> key in order[..k]
      invariant forall j :: 0 <= j < k ==> order[j] in zones && zones[order[j]] == Convert(parse, raws[order[j]])
    {
      var zone := ConvertZone(parse, raws[order[k]]);
      if zone.None? {
        return None;
      }
      assert order[..k + 1] == order[..k] + [order[k]];
      zones := zones[order[k] := zone.value];
    }
    assert order[..|order|] == order;
    SameMap(zones, ConvertAll(parse, raws));
    return Some(zones);
  }

  /** A configuration needs a peer, and zones whose records all parse. */
  method PostLoad(parse: Parser, file: File, order: seq<string>) returns (r: Option<map<string, Zone>>)
    requires Enumerates(order, file.zones.Keys)
    ensures r == if file.peers == [] then None else Load(parse, file.zones, order)
    ensures r.Some? ==> Zones.Loaded(parse, r.value)
  {
    if |file.peers| == 0 {
      return None;
    }
    var zones := ConvertLiterals(parse, file.zones, order);
    if zones.None? {
      return None;
    }
    var decorated := DecorateZones(zones.value, order);
    LoadEstablishes(parse, file.zones, order);
    return Some(decorated);
  }

  /** The JSON and YAML files of a save hold the same zones exactly when no name ends in two dots. */
  lemma SameFilesIff(parse: Parser, loaded: map<string, Zone>, live: map<string, Zone>, order: seq<string>,
                     again: seq<string>)
    requires Zones.Loaded(parse, loaded) && SameText(live, loaded) && Enumerates(order, live.Keys)
    requires Enumerates(again, Rekey(TrimDot, live, order).Keys)
    ensures var once := Rekey(TrimDot, live, order);
            RawZones(once) == RawZones(Rekey(TrimDot, once, again)) <==> NoDoubleDotsIn(loaded)
  {
    SameTextDotted(parse, loaded, live);
    TrimGivesTrimmed(live, order);
    TrimTwiceSameIff(live, Rekey(TrimDot, live, order), again);
  }

  /** The live zones still have the text of zones that were loaded. */
  ghost predicate SavedFrom(parse: Parser, loaded: map<string, Zone>, live: map<string, Zone>) {
    Zones.Loaded(parse, loaded) && SameText(live, loaded)
  }

  lemma SavedZones(parse: Parser, loaded: map<string, Zone>, live: map<string, Zone>, order: seq<string>,
                   again: seq<string>, load: seq<string>)
    requires Enumerates(order, live.Keys) && Enumerates(again, Rekey(TrimDot, live, order).Keys)
    requires Enumerates(load, RawZones(Rekey(TrimDot, live, order)).Keys)
    ensures SavedFrom(parse, loaded, live) ==>
              var once := Rekey(TrimDot, live, order);
              && Reloaded(parse, live, order, load).Some?
              && (Reloaded(parse, live, order, load) == Some(loaded) <==> NoDoubleDotsIn(loaded))
              && (RawZones(once) == RawZones(Rekey(TrimDot, once, again)) <==> NoDoubleDotsIn(loaded))
  {
    if SavedFrom(parse, loaded, live) {
      SaveLoadRestoresIff(parse, loaded, live, order, load);
      SameFilesIff(parse, loaded, live, order, again);
    }
  }

  lemma FileNamesDiffer(prefix: string)
    ensures prefix + ".json" != prefix + ".yaml"
  {
    assert (prefix + ".json")[|prefix| + 1] != (prefix + ".yaml")[|prefix| + 1];
  }

  // ----- the object

  class Config {
    const parse: Parser
    var prefix: string
    var publisher: Option<Peer>
    var settings: Settings
    var peers: seq<Peer>
    var zones: map<string, Zone>
    var chain: int
    var reload: int

    function Text(): File
      reads this
    {
      File(settings, peers, RawZones(zones))
    }

    method FindPeer(name: string) returns (r: Option<Peer>)
      ensures r == Find(peers, name)
    {
      for k := 0 to |peers|
        invariant Find(peers, name) == Find(peers[k..], name)
      {
        if peers[k].name == name {
          return Some(peers[k]);
        }
        assert peers[k..][1..] == peers[k + 1..];
      }
      return None;
    }

    /** The read half of a removal. */
    method PeersWithout(name: string) returns (kept: seq<Peer>)
      ensures kept == Without(peers, name)
    {
      kept := [];
      for k := 0 to |peers|
        invariant kept == Without(peers[..k], name)
      {
        assert peers[..k + 1][..k] == peers[..k];
        if name != peers[k].name {
          kept := kept + [peers[k]];
        }
      }
      assert peers[..|peers|] == peers;
    }

    method SetPeers(newPeers: seq<Peer>)
      modifies this`peers
      ensures peers == newPeers
    {
      peers := newPeers;
    }

    /** Undisturbed, a removal takes out exactly the peers of that name. */
    method RemovePeer(peer: Peer)
      modifies this`peers
      ensures peers == Without(old(peers), peer.name)
      ensures Find(peers, peer.name) == None
    {
      var kept := PeersWithout(peer.name);
      SetPeers(kept);
    }

    method AddPeer(peer: Peer)
      modifies this`peers
      ensures peers == old(peers) + [peer]
      ensures Find(peers, peer.name).Some?
    {
      peers := peers + [peer];
      assert peers[|peers| - 1] == peer;
    }

    method SetPublisher(peer: Peer)
      modifies this`publisher
      ensures publisher == Some(peer)
    {
      publisher := Some(peer);
    }

    /** Takes over what a file holds and nothing else. */
    method CopyFrom(newSettings: Settings, newPeers: seq<Peer>, newZones: map<string, Zone>)
      modifies this`settings, this`peers, this`zones
      ensures settings == newSettings && peers == newPeers && zones == newZones
    {
      settings, peers, zones := newSettings, newPeers, newZones;
    }

    method TrimZones(order: seq<string>)
      requires Enumerates(order, zones.Keys)
      modifies this`zones
      ensures zones == Rekey(TrimDot, old(zones), order)
    {
      var newZones: map<string, Zone> := map[];
      for k := 0 to |order|
        invariant zones == old(zones)
        invariant newZones == Rekey(TrimDot, zones, order[..k])
      {
        assert order[..k + 1][..k] == order[..k];
        var z := TrimNames(zones[order[k]]);
        newZones := newZones[TrimDot(order[k]) := z];
      }
      assert order[..|order|] == order;
      zones := newZones;
    }

    /** Each file is replaced as a whole and only once it has been written. The live zones are trimmed
        once the first file has been created, and again once the second has. */
    method Save(disk: Disk, io: SaveIo, order: seq<string>, again: seq<string>) returns (ok: bool)
      requires Enumerates(order, zones.Keys) && Enumerates(again, Rekey(TrimDot, zones, order).Keys)
      modifies this`zones, disk
      ensures ok <==> prefix != "" && io.AllDone()
      ensures var once := Rekey(TrimDot, old(zones), order);
              zones == if prefix == "" || io.prefixTaken || !io.jsonCreated then old(zones)
                       else if !io.JsonDone() || !io.yamlCreated then once
                       else Rekey(TrimDot, once, again)
      ensures var once := RawZones(Rekey(TrimDot, old(zones), order));
              var json := old(disk.files)[prefix + ".json" := File(settings, peers, once)];
              disk.files == if prefix == "" || !io.JsonDone() then old(disk.files)
                            else if !ok then json
                            else json[prefix + ".yaml" := File(settings, peers, RawZones(zones))]
    {
      if prefix == "" || io.prefixTaken || !io.jsonCreated {
        return false;
      }
      TrimZones(order);
      if !io.jsonWritten || !io.jsonMoved {
        return false;
      }
      disk.files := disk.files[prefix + ".json" := Text()];
      if !io.yamlCreated {
        return false;
      }
      TrimZones(again);
      if !io.yamlWritten || !io.yamlMoved {
        return false;
      }
      disk.files := disk.files[prefix + ".yaml" := Text()];
      return true;
    }

    /** Publisher, chain and reload channel survive; a reload that fails changes nothing. */
    method Reload(disk: Disk, order: seq<string>) returns (ok: bool)
      requires prefix + ".json" in disk.files ==> Enumerates(order, disk.files[prefix + ".json"].zones.Keys)
      modifies this`settings, this`peers, this`zones
      ensures ok <==> prefix + ".json" in disk.files && disk.files[prefix + ".json"].peers != [] &&
                      Load(parse, disk.files[prefix + ".json"].zones, order).Some?
      ensures ok ==> var file := disk.files[prefix + ".json"];
                     settings == file.settings && peers == file.peers && Some(zones) == Load(parse, file.zones, order)
      ensures ok ==> Zones.Loaded(parse, zones)
      ensures !ok ==> settings == old(settings) && peers == old(peers) && zones == old(zones)
    {
      if prefix + ".json" !in disk.files {
        return false;
      }
      var file := disk.files[prefix + ".json"];
      var loaded := PostLoad(parse, file, order);
      if loaded.None? {
        return false;
      }
      CopyFrom(file.settings, file.peers, loaded.value);
      return true;
    }

    /** A save and a reload of whatever the zones are; they fail only if the save does or the file that was
        written does not load. Peers, settings, publisher, chain and reload channel stay. */
    method SaveAndReload(disk: Disk, io: SaveIo, order: seq<string>, again: seq<string>, load: seq<string>)
      returns (ok: bool)
      requires Enumerates(order, zones.Keys) && Enumerates(again, Rekey(TrimDot, zones, order).Keys)
      requires Enumerates(load, RawZones(Rekey(TrimDot, zones, order)).Keys)
      modifies this`settings, this`peers, this`zones, disk
      ensures ok <==> peers != [] && prefix != "" && io.AllDone() && Reloaded(parse, old(zones), order, load).Some?
      ensures settings == old(settings) && peers == old(peers)
      ensures ok ==> Some(zones) == Reloaded(parse, old(zones), order, load) && Zones.Loaded(parse, zones)
      ensures var once := Rekey(TrimDot, old(zones), order);
              ok ==>
                && prefix + ".json" in disk.files && prefix + ".yaml" in disk.files
                && disk.files[prefix + ".json"] == File(settings, peers, RawZones(once))
                && disk.files[prefix + ".yaml"] == File(settings, peers, RawZones(Rekey(TrimDot, once, again)))
    {
      ok := Save(disk, io, order, again);
      if ok {
        FileNamesDiffer(prefix);
        ok := Reload(disk, load);
      }
    }

    /** When the live zones still have the text of zones that were loaded, a save and a reload bring those
        back, with all prunes and revivals of record values undone, exactly when no name ends in two dots;
        under the same condition the two files hold the same zones. */
    method SaveConfig(disk: Disk, io: SaveIo, order: seq<string>, again: seq<string>, load: seq<string>,
                      ghost loaded: map<string, Zone>) returns (ok: bool)
      requires Enumerates(order, zones.Keys) && Enumerates(again, Rekey(TrimDot, zones, order).Keys)
      requires Enumerates(load, RawZones(Rekey(TrimDot, zones, order)).Keys)
      modifies this`settings, this`peers, this`zones, disk
      ensures ok <==> peers != [] && prefix != "" && io.AllDone() && Reloaded(parse, old(zones), order, load).Some?
      ensures settings == old(settings) && peers == old(peers)
      ensures ok ==> Some(zones) == Reloaded(parse, old(zones), order, load) && Zones.Loaded(parse, zones)
      ensures SavedFrom(parse, loaded, old(zones)) ==> Reloaded(parse, old(zones), order, load).Some?
      ensures ok && SavedFrom(parse, loaded, old(zones)) ==> (zones == loaded <==> NoDoubleDotsIn(loaded))
      ensures ok ==> prefix + ".json" in disk.files && prefix + ".yaml" in disk.files
      ensures ok && SavedFrom(parse, loaded, old(zones)) ==>
                (disk.files[prefix + ".json"] == disk.files[prefix + ".yaml"] <==> NoDoubleDotsIn(loaded))
    {
      SavedZones(parse, loaded, zones, order, again, load);
      ok := SaveAndReload(disk, io, order, again, load);
    }
  }
}
