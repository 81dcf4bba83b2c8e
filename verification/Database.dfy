/**
 The database handle: its tables as mutable fields, one method per operation.
 Every method is specified by the value-level operations of `Store`.
 */
module Database {
  import opened Text
  import opened Types
  import opened Store
  import opened Names
  import opened Serial
  import ZoneIndex

  class Db {
    var zones: map<string, Zone>
    var nameIndex: map<string, string>
    var records: map<string, Record>
    var byZone: map<string, string>
    var health: map<string, PersistedHealth>

    constructor ()
      ensures View() == EMPTY && zones == map[] && nameIndex == map[] && health == map[]
      ensures Valid()
    {
      zones, nameIndex, records, byZone, health := map[], map[], map[], map[], map[];
    }

    ghost function View(): Tables
      reads this`records, this`byZone
    {
      Tables(records, byZone)
    }

    ghost function ZoneView(): ZoneIndex.ZoneTables
      reads this`zones, this`nameIndex
    {
      ZoneIndex.ZoneTables(zones, nameIndex)
    }

    /** The index agrees with the record table. */
    ghost predicate Valid()
      reads this`records, this`byZone
    {
      Indexed(View())
    }

    /** Zones are stored under their own ids. */
    ghost predicate ZonesKeyed()
      reads this`zones
    {
      forall id :: id in zones ==> zones[id].id == id
    }

    // --- Records ---

    /** Stores a record.  The index stays exact precisely when the id was new. */
    method CreateRecord(r: Record)
      requires Valid()
      modifies this`records, this`byZone
      ensures View() == old(Apply(View(), Create(r)))
      ensures Valid() <==> r.id !in old(records)
    {
      ghost var t := View();
      records := records[r.id := r];
      var key := KeyOf(r);
      var ids := if key in byZone then byZone[key] + "," + r.id else r.id;
      byZone := byZone[key := ids];
      StepKeepsIndex(t, Create(r));
    }

    /** Overwrites a record but never moves its index entry. */
    method UpdateRecord(r: Record) returns (res: Outcome)
      requires Valid()
      modifies this`records
      ensures res == if r.id in old(records) then Ok else Err(RecordNotFound(r.id))
      ensures View() == old(Apply(View(), Update(r)))
      ensures Valid() <==> (r.id in old(records) ==> KeyOf(r) == KeyOf(old(records)[r.id]))
    {
      ghost var t := View();
      StepKeepsIndex(t, Update(r));
      if r.id !in records {
        return Err(RecordNotFound(r.id));
      }
      records := records[r.id := r];
      res := Ok;
    }

    method DeleteRecord(id: Uuid) returns (res: Outcome)
      requires Valid()
      modifies this`records, this`byZone, this`health
      ensures res == if id in old(records) then Ok else Err(RecordNotFound(id))
      ensures View() == old(Apply(View(), Delete(id)))
      ensures records == old(records) - {id}
      ensures health == if res.Ok? then old(health) - {id} else old(health)
      ensures Valid()
    {
      ghost var t := View();
      StepKeepsIndex(t, Delete(id));
      if id !in records {
        return Err(RecordNotFound(id));
      }
      var key := KeyOf(records[id]);
      records := records - {id};
      if key in byZone {
        var ids := Without(Split(byZone[key], ','), id);
        if ids == [] {
          byZone := byZone - {key};
        } else {
          byZone := byZone[key := Join(ids, ',')];
        }
      }
      health := health - {id};
      res := Ok;
    }

    /** The index entries of a zone, with the ids they list. */
    method ZoneEntries(zoneId: Uuid) returns (entries: seq<(string, seq<string>)>)
      ensures forall e :: e in entries <==> e.0 in byZone && InZone(e.0, zoneId) && e.1 == Ids(View(), e.0)
      ensures DistinctKeys(entries)
    {
      var keys := InOrder(byZone.Keys);
      entries := [];
      for i := 0 to |keys|
        invariant entries == EntriesIn(View(), zoneId, keys[..i])
      {
        if InZone(keys[i], zoneId) {
          entries := entries + [(keys[i], Split(byZone[keys[i]], ','))];
        }
        assert keys[..i + 1][..i] == keys[..i];
      }
      assert keys[..|keys|] == keys;
      forall e
        ensures e in entries <==> e.0 in byZone && InZone(e.0, zoneId) && e.1 == Ids(View(), e.0)
      {
        EntriesMembers(View(), zoneId, keys, e);
      }
      EntriesDistinct(View(), zoneId, keys);
    }

    method DeleteEntries(entries: seq<(string, seq<string>)>)
      modifies this`records, this`byZone
      ensures records == old(records) - ListedIds(entries)
      ensures byZone == old(byZone) - ListedKeys(entries)
    {
      for i := 0 to |entries|
        invariant records == old(records) - ListedIds(entries[..i])
        invariant byZone == old(byZone) - ListedKeys(entries[..i])
      {
        var (key, ids) := entries[i];
        ListedSnoc(entries, i);
        MinusTwice(byZone, old(byZone), ListedKeys(entries[..i]), {key});
        byZone := byZone - {key};
        MinusTwice(records, old(records), ListedIds(entries[..i]), set id | id in ids);
        records := records - (set id | id in ids);
      }
      assert entries[..|entries|] == entries;
    }

    /** Removes, through the index, everything stored under a zone. */
    method DropZoneRecords(zoneId: Uuid)
      requires Valid()
      modifies this`records, this`byZone
      ensures View() == old(DropZone(View(), zoneId))
      ensures records == OutsideZone(old(records), zoneId)
      ensures Valid()
    {
      var entries := ZoneEntries(zoneId);
      DeleteEntries(entries);
      ListedIsZone(old(View()), zoneId, entries);
      DropZoneIndexed(old(View()), zoneId);
    }

    /** The same, with the number of records that went. */
    method DeleteZoneRecords(zoneId: Uuid) returns (count: nat)
      requires Valid()
      modifies this`records, this`byZone
      ensures View() == old(DropZone(View(), zoneId))
      ensures count == |old(records).Keys - records.Keys|
      ensures Valid()
    {
      var entries := ZoneEntries(zoneId);
      count := CountIds(entries);
      DeleteEntries(entries);
      ListedIsZone(old(View()), zoneId, entries);
      DropZoneIndexed(old(View()), zoneId);
      IndexIsTidy(old(View()), entries);
      TotalIsListed(entries);
      ListedAreStored(old(View()), entries);
      assert old(records).Keys - records.Keys == ListedIds(entries);
    }

    /** Deletes the zone and, atomically, every record it holds. */
    method DeleteZone(id: Uuid) returns (res: Outcome)
      requires Valid()
      modifies this
      ensures health == old(health)
      ensures Valid()
      ensures ZoneView() == old(ZoneIndex.Apply(ZoneView(), ZoneIndex.Delete(id)))
      ensures id !in old(zones) ==>
                && res == Err(ZoneNotFound(id)) && View() == old(View())
                && zones == old(zones) && nameIndex == old(nameIndex)
      ensures id in old(zones) ==>
                && res == Ok
                && zones == old(zones) - {id}
                && nameIndex == old(nameIndex) - {old(zones)[id].name}
                && View() == old(Apply(View(), Drop(id)))
                && records == OutsideZone(old(records), id)
    {
      if id !in zones {
        return Err(ZoneNotFound(id));
      }
      var zone := zones[id];
      zones := zones - {id};
      nameIndex := nameIndex - {zone.name};
      DropZoneRecords(id);
      res := Ok;
    }

    /** Swaps a zone's contents.  The index stays exact precisely when the ids are new. */
    method ReplaceZoneRecords(zoneId: Uuid, rs: seq<Record>)
      requires Valid()
      modifies this`records, this`byZone
      ensures View() == old(Apply(View(), Replace(zoneId, rs)))
      ensures records == Stores(OutsideZone(old(records), zoneId), rs)
      ensures Valid() <==> FreshIds(OutsideZone(old(records), zoneId), rs)
    {
      ghost var t := View();
      StepKeepsIndex(t, Replace(zoneId, rs));
      DropZoneRecords(zoneId);
      ghost var dropped := View();
      for i := 0 to |rs|
        invariant InsertAll(View(), rs[i..]) == InsertAll(dropped, rs)
      {
        var r := rs[i];
        var key := KeyOf(r);
        records := records[r.id := r];
        var ids := if key in byZone then byZone[key] + "," + r.id else r.id;
        byZone := byZone[key := ids];
        assert rs[i..][1..] == rs[i + 1..];
      }
      assert rs[|rs|..] == [];
    }

    method GetRecord(id: Uuid) returns (r: Option<Record>)
      ensures r == if id in records then Some(records[id]) else None
    {
      r := if id in records then Some(records[id]) else None;
    }

    // --- Queries ---

    method FetchRecords(ids: seq<string>, onlyEnabled: bool) returns (result: seq<Record>)
      ensures result == Fetch(records, ids, onlyEnabled)
    {
      result := [];
      for i := 0 to |ids|
        invariant result == Fetch(records, ids[..i], onlyEnabled)
      {
        if ids[i] in records && (onlyEnabled ==> records[ids[i]].enabled) {
          result := result + [records[ids[i]]];
        }
        assert ids[..i + 1][..i] == ids[..i];
      }
      assert ids[..|ids|] == ids;
    }

    method QueryRecords(zoneId: Uuid, name: string, rtype: RecordType) returns (result: seq<Record>)
      requires Valid()
      ensures result == Lookup(View(), zoneId, name, rtype)
      ensures NoDup(result)
      ensures forall r :: r in result <==> Owns(View(), r, zoneId, name, rtype) && r.enabled
    {
      var key := IndexKey(zoneId, name, rtype);
      if key in byZone {
        result := FetchRecords(Split(byZone[key], ','), true);
      } else {
        result := [];
      }
      LookupIsFilter(View(), zoneId, name, rtype);
    }

    method ListRecords(zoneId: Uuid) returns (result: seq<Record>)
      requires Valid()
      ensures result == ListZone(View(), zoneId)
      ensures NoDup(result)
      ensures forall r :: r in result <==> Stored(View(), r) && r.zoneId == zoneId
    {
      var keys := InOrder(byZone.Keys);
      result := [];
      for i := 0 to |keys|
        invariant result == Collect(View(), zoneId, keys[..i])
      {
        if InZone(keys[i], zoneId) {
          var found := FetchRecords(Split(byZone[keys[i]], ','), false);
          result := result + found;
        }
        assert keys[..i + 1][..i] == keys[..i];
      }
      assert keys[..|keys|] == keys;
      ListIsFilter(View(), zoneId);
    }

    // --- Zones ---

    method GetZoneByName(name: string) returns (z: Option<Zone>)
      ensures z == if name in nameIndex && nameIndex[name] in zones then Some(zones[nameIndex[name]]) else None
    {
      if name in nameIndex && nameIndex[name] in zones {
        z := Some(zones[nameIndex[name]]);
      } else {
        z := None;
      }
    }

    method CreateZone(name: string, zone: Zone) returns (res: Outcome)
      modifies this`zones, this`nameIndex
      ensures ZoneView() == old(ZoneIndex.Apply(ZoneView(), ZoneIndex.Create(name, zone)))
      ensures name in old(nameIndex) ==>
                res == Err(DuplicateZone(name)) && zones == old(zones) && nameIndex == old(nameIndex)
      ensures name !in old(nameIndex) ==>
                res == Ok && zones == old(zones)[zone.id := zone] && nameIndex == old(nameIndex)[name := zone.id]
    {
      if name in nameIndex {
        return Err(DuplicateZone(name));
      }
      zones := zones[zone.id := zone];
      nameIndex := nameIndex[name := zone.id];
      res := Ok;
    }

    /** Stores a zone under its id and name; an older name of the same zone is forgotten. */
    method UpsertZone(zone: Zone)
      modifies this`zones, this`nameIndex
      ensures ZoneView() == old(ZoneIndex.Apply(ZoneView(), ZoneIndex.Upsert(zone)))
      ensures zones == old(zones)[zone.id := zone]
      ensures nameIndex ==
              (if zone.id in old(zones) && old(zones)[zone.id].name != zone.name
               then old(nameIndex) - {old(zones)[zone.id].name} else old(nameIndex))[zone.name := zone.id]
    {
      if zone.id in zones && zones[zone.id].name != zone.name {
        nameIndex := nameIndex - {zones[zone.id].name};
      }
      zones := zones[zone.id := zone];
      nameIndex := nameIndex[zone.name := zone.id];
    }

    ghost function ZoneList(): seq<Zone>
      reads this`zones
    {
      ZonesAt(zones, InOrder(zones.Keys))
    }

    method ListZones() returns (result: seq<Zone>)
      ensures result == ZoneList()
      ensures forall z :: z in result <==> exists id :: id in zones && zones[id] == z
    {
      var keys := InOrder(zones.Keys);
      result := [];
      for i := 0 to |keys|
        invariant result == ZonesAt(zones, keys[..i])
      {
        result := result + [zones[keys[i]]];
        assert keys[..i + 1][..i] == keys[..i];
      }
      assert keys[..|keys|] == keys;
      forall z
        ensures z in result <==> exists id :: id in zones && zones[id] == z
      {
        ListedZones(zones, z);
      }
    }

    // --- Resolving a name ---

    /** The zone with the most labels among those that cover the name. */
    method FindZoneForFqdn(fqdn: string) returns (best: Option<Zone>)
      ensures best == Best(ZoneList(), fqdn)
      ensures best.Some? ==> IsStoredAuthority(zones, fqdn, best.value)
      ensures best.None? ==> forall z :: !IsStoredAuthority(zones, fqdn, z)
    {
      var list := ListZones();
      best := MostSpecificZone(list, fqdn);
      BestIsAuthority(list, fqdn);
      forall z
        ensures IsAuthority(list, fqdn, z) <==> IsStoredAuthority(zones, fqdn, z)
      {
        ListedAuthority(zones, fqdn, z);
      }
    }

    method QueryFqdn(name: string, rtype: RecordType) returns (result: seq<Record>)
      requires Valid()
      ensures result == Answer(View(), ZoneList(), name, rtype)
      ensures var best := Best(ZoneList(), TrimDots(name));
              result == if best.None? then [] else LabelAnswer(View(), best.value, TrimDots(name), rtype)
    {
      AnswerRefinesLabels(View(), ZoneList(), name, rtype);
      var fqdn := TrimDots(name);
      var best := FindZoneForFqdn(fqdn);
      if best.None? {
        return [];
      }
      var zone := TrimDots(best.value.name);
      if fqdn == zone {
        result := QueryRecords(best.value.id, "@", rtype);
        return;
      }
      var prefix := StripSuffix(fqdn, "." + zone);
      if prefix.None? {
        return [];
      }
      result := QueryRecords(best.value.id, prefix.value, rtype);
      if result == [] {
        result := QueryWildcards(best.value.id, prefix.value, rtype);
      }
    }

    /** `*` in place of ever more leading labels, down to `*` alone. */
    method QueryWildcards(zoneId: Uuid, prefix: string, rtype: RecordType) returns (result: seq<Record>)
      requires Valid()
      ensures result == Wild(View(), zoneId, prefix, rtype)
    {
      var remaining := prefix;
      while true
        invariant Wild(View(), zoneId, remaining, rtype) == Wild(View(), zoneId, prefix, rtype)
        decreases |remaining|
      {
        var wildcard := "*";
        if '.' in remaining {
          wildcard := "*" + remaining[IndexOf(remaining, '.')..];
        }
        result := QueryRecords(zoneId, wildcard, rtype);
        if result != [] || '.' !in remaining {
          return;
        }
        remaining := remaining[IndexOf(remaining, '.') + 1..];
      }
    }

    /** One ordered range probe decides whether a name holds records of any type. */
    method NameExistsInZone(zoneId: Uuid, name: string) returns (b: bool)
      requires Valid()
      ensures b <==> Held(View(), zoneId, name)
    {
      var prefix := zoneId + ":" + name + ":";
      var range := From(byZone.Keys, prefix);
      b := range != {} && prefix <= LexLeast(range);
      RangeProbe(byZone.Keys, prefix);
      HeldIsAKeyPrefix(View(), zoneId, name);
    }

    method FqdnExists(name: string) returns (b: bool)
      requires Valid()
      ensures b <==> Exists(View(), ZoneList(), name)
    {
      var fqdn := TrimDots(name);
      var best := FindZoneForFqdn(fqdn);
      if best.None? {
        return false;
      }
      var zone := TrimDots(best.value.name);
      if fqdn == zone {
        b := NameExistsInZone(best.value.id, "@");
        return;
      }
      var prefix := StripSuffix(fqdn, "." + zone);
      if prefix.None? {
        return false;
      }
      b := NameExistsInZone(best.value.id, prefix.value);
    }

    /** Bumps the zone's serial and nothing else. */
    method IncrementSoaSerial(zoneId: Uuid, stamp: nat) returns (res: Outcome)
      modifies this`zones
      ensures res == if zoneId in old(zones) then Ok else Err(ZoneNotFound(zoneId))
      ensures res.Err? ==> zones == old(zones)
      ensures res.Ok? ==> exists soa :: ZoneView() == old(ZoneIndex.Apply(ZoneView(), ZoneIndex.SetSoa(zoneId, soa)))
      ensures res.Ok? ==>
                var zone := old(zones)[zoneId];
                zones == old(zones)[zoneId := zone.(soa := zone.soa.(serial := Bump(zone.soa.serial, stamp)))]
    {
      if zoneId !in zones {
        return Err(ZoneNotFound(zoneId));
      }
      var zone := zones[zoneId];
      var base: u32 := if stamp <= U32_MAX then stamp else WrappingInc(zone.soa.serial);
      var serial := zone.soa.serial;
      if serial >= base {
        serial := WrappingInc(serial);
      } else {
        serial := base;
      }
      ghost var soa := zone.soa.(serial := serial);
      ghost var bumped := ZoneIndex.Apply(ZoneView(), ZoneIndex.SetSoa(zoneId, soa));
      zones := zones[zoneId := zone.(soa := zone.soa.(serial := serial))];
      assert ZoneView() == bumped;
      res := Ok;
    }
  }

  ghost function ZonesAt(zones: map<string, Zone>, ids: seq<string>): seq<Zone>
    requires forall id :: id in ids ==> id in zones
  {
    if ids == [] then [] else ZonesAt(zones, ids[..|ids| - 1]) + [zones[ids[|ids| - 1]]]
  }

  lemma {:induction false} ZonesAtMembers(zones: map<string, Zone>, ids: seq<string>, z: Zone)
    requires forall id :: id in ids ==> id in zones
    ensures z in ZonesAt(zones, ids) <==> exists id :: id in ids && zones[id] == z
    decreases |ids|
  {
    if ids != [] {
      var init, last := ids[..|ids| - 1], ids[|ids| - 1];
      ZonesAtMembers(zones, init, z);
      assert forall id :: id in ids <==> id in init || id == last;
    }
  }

  /** The zones listed are the zones stored. */
  lemma ListedZones(zones: map<string, Zone>, z: Zone)
    ensures z in ZonesAt(zones, InOrder(zones.Keys)) <==> exists id :: id in zones && zones[id] == z
  {
    ZonesAtMembers(zones, InOrder(zones.Keys), z);
  }

  /** The stored zone covers the name, and no stored zone covers it with more labels. */
  ghost predicate IsStoredAuthority(zones: map<string, Zone>, fqdn: string, zone: Zone) {
    && (exists id :: id in zones && zones[id] == zone)
    && SeqSuffix(Labels(Normal(zone.name)), Labels(Normal(fqdn)))
    && forall id :: id in zones && SeqSuffix(Labels(Normal(zones[id].name)), Labels(Normal(fqdn)))
         ==> |Labels(Normal(zones[id].name))| <= |Labels(Normal(zone.name))|
  }

  /** The authority among the zones listed is the authority among the zones stored. */
  lemma ListedAuthority(zones: map<string, Zone>, fqdn: string, z: Zone)
    ensures IsAuthority(ZonesAt(zones, InOrder(zones.Keys)), fqdn, z) <==> IsStoredAuthority(zones, fqdn, z)
  {
    var list := ZonesAt(zones, InOrder(zones.Keys));
    ListedZones(zones, z);
    forall x
      ensures x in list <==> exists id :: id in zones && zones[id] == x
    {
      ListedZones(zones, x);
    }
    assert forall id :: id in zones ==> zones[id] in list;
  }

  /** The scan for the longest covering zone, keeping the best so far. */
  method MostSpecificZone(zones: seq<Zone>, name: string) returns (best: Option<Zone>)
    ensures best == Best(zones, name)
  {
    var fqdn := Normal(name);
    best := None;
    for i := 0 to |zones|
      invariant best == Best(zones[..i], name)
    {
      assert zones[..i + 1][..i] == zones[..i];
      assert Best(zones[..i + 1], name) == Better(Best(zones[..i], name), zones[i], name);
      var zone := zones[i];
      var zoneName := Normal(zone.name);
      if !Covers(zoneName, fqdn) {
        continue;
      }
      if best.None? || |zoneName| > |TrimDots(best.value.name)| {
        best := Some(zone);
      }
    }
    assert zones[..|zones|] == zones;
  }

  ghost function EntriesIn(t: Tables, zoneId: string, keys: seq<string>): seq<(string, seq<string>)> {
    if keys == [] then []
    else
      var rest, last := EntriesIn(t, zoneId, keys[..|keys| - 1]), keys[|keys| - 1];
      if InZone(last, zoneId) then rest + [(last, Ids(t, last))] else rest
  }

  lemma {:induction false} EntriesMembers(t: Tables, zoneId: string, keys: seq<string>, e: (string, seq<string>))
    ensures e in EntriesIn(t, zoneId, keys) <==> e.0 in keys && InZone(e.0, zoneId) && e.1 == Ids(t, e.0)
    decreases |keys|
  {
    if keys != [] {
      EntriesMembers(t, zoneId, keys[..|keys| - 1], e);
      assert e.0 in keys <==> e.0 in keys[..|keys| - 1] || e.0 == keys[|keys| - 1];
    }
  }

  lemma {:induction false} EntriesDistinct(t: Tables, zoneId: string, keys: seq<string>)
    requires NoDup(keys)
    ensures DistinctKeys(EntriesIn(t, zoneId, keys))
    decreases |keys|
  {
    if keys != [] {
      var init, last := keys[..|keys| - 1], keys[|keys| - 1];
      EntriesDistinct(t, zoneId, init);
      assert last !in init;
      forall e | e in EntriesIn(t, zoneId, init)
        ensures e.0 != last
      {
        EntriesMembers(t, zoneId, init, e);
      }
    }
  }

  ghost predicate DistinctKeys(entries: seq<(string, seq<string>)>) {
    forall i, j :: 0 <= i < j < |entries| ==> entries[i].0 != entries[j].0
  }

  ghost function Total(entries: seq<(string, seq<string>)>): nat {
    if entries == [] then 0 else Total(entries[..|entries| - 1]) + |entries[|entries| - 1].1|
  }

  method CountIds(entries: seq<(string, seq<string>)>) returns (count: nat)
    ensures count == Total(entries)
  {
    count := 0;
    for i := 0 to |entries|
      invariant count == Total(entries[..i])
    {
      count := count + |entries[i].1|;
      assert entries[..i + 1][..i] == entries[..i];
    }
    assert entries[..|entries|] == entries;
  }

  lemma {:induction false} NoDupCard(ids: seq<string>)
    requires NoDup(ids)
    ensures |set id | id in ids| == |ids|
    decreases |ids|
  {
    if ids != [] {
      var init, last := ids[..|ids| - 1], ids[|ids| - 1];
      NoDupCard(init);
      assert last !in init;
      assert (set id | id in ids) == (set id | id in init) + {last};
    }
  }

  /** The entries are some of the index's own. */
  ghost predicate EntriesOf(t: Tables, entries: seq<(string, seq<string>)>) {
    forall e :: e in entries ==> e.0 in t.byZone && e.1 == Ids(t, e.0)
  }

  lemma ListedAreStored(t: Tables, entries: seq<(string, seq<string>)>)
    requires Indexed(t) && EntriesOf(t, entries)
    ensures ListedIds(entries) <= t.records.Keys
  {
    forall id | id in ListedIds(entries)
      ensures id in t.records
    {
      var e :| e in entries && id in e.1;
      assert Accurate(t, e.0);
    }
  }

  /** No id is listed twice, in one list or in two. */
  ghost predicate Tidy(entries: seq<(string, seq<string>)>) {
    && (forall i :: 0 <= i < |entries| ==> NoDup(entries[i].1))
    && forall i, j, id :: 0 <= i < j < |entries| && id in entries[i].1 ==> id !in entries[j].1
  }

  lemma IndexIsTidy(t: Tables, entries: seq<(string, seq<string>)>)
    requires Indexed(t) && EntriesOf(t, entries) && DistinctKeys(entries)
    ensures Tidy(entries)
  {
    forall i | 0 <= i < |entries|
      ensures Accurate(t, entries[i].0) && entries[i].1 == Ids(t, entries[i].0)
    {
      assert entries[i] in entries;
    }
  }

  lemma TidyApart(entries: seq<(string, seq<string>)>, i: nat)
    requires Tidy(entries) && i < |entries|
    ensures ListedIds(entries[..i]) !! (set id | id in entries[i].1)
  {
    forall id | id in ListedIds(entries[..i])
      ensures id !in entries[i].1
    {
      var e :| e in entries[..i] && id in e.1;
      var k :| 0 <= k < i && entries[..i][k] == e;
      assert id in entries[k].1;
    }
  }

  lemma TidyLast(entries: seq<(string, seq<string>)>, i: nat)
    requires Tidy(entries) && i < |entries|
    ensures |ListedIds(entries[..i + 1])| == |ListedIds(entries[..i])| + |entries[i].1|
  {
    ListedSnoc(entries, i);
    NoDupCard(entries[i].1);
    TidyApart(entries, i);
  }

  /** Without repetition the lengths of the lists add up to the number of ids listed. */
  lemma {:induction false} TotalIsListed(entries: seq<(string, seq<string>)>)
    requires Tidy(entries)
    ensures Total(entries) == |ListedIds(entries)|
    decreases |entries|
  {
    if entries == [] {
      assert ListedIds(entries) == {};
    } else {
      var i := |entries| - 1;
      TidyLast(entries, i);
      TotalIsListed(entries[..i]);
      assert entries[..i + 1] == entries;
    }
  }

  ghost function ListedKeys(entries: seq<(string, seq<string>)>): set<string> {
    set e | e in entries :: e.0
  }

  ghost function ListedIds(entries: seq<(string, seq<string>)>): set<string> {
    set e, id | e in entries && id in e.1 :: id
  }

  lemma MinusTwice<K, V>(m: map<K, V>, full: map<K, V>, a: set<K>, b: set<K>)
    requires m == full - a
    ensures m - b == full - (a + b)
  {
  }

  lemma ListedSnoc(entries: seq<(string, seq<string>)>, i: nat)
    requires i < |entries|
    ensures ListedKeys(entries[..i + 1]) == ListedKeys(entries[..i]) + {entries[i].0}
    ensures ListedIds(entries[..i + 1]) == ListedIds(entries[..i]) + (set id | id in entries[i].1)
  {
  }

  lemma ListedIsZone(t: Tables, zoneId: Uuid, entries: seq<(string, seq<string>)>)
    requires forall e :: e in entries <==> e.0 in t.byZone && InZone(e.0, zoneId) && e.1 == Ids(t, e.0)
    ensures Tables(t.records - ListedIds(entries), t.byZone - ListedKeys(entries)) == DropZone(t, zoneId)
  {
    forall id | id in ZoneIds(t, zoneId)
      ensures id in ListedIds(entries)
    {
      var k :| k in t.byZone && InZone(k, zoneId) && id in Ids(t, k);
      assert (k, Ids(t, k)) in entries;
    }
    forall k | k in t.byZone && InZone(k, zoneId)
      ensures k in ListedKeys(entries)
    {
      assert (k, Ids(t, k)) in entries;
    }
    assert ListedIds(entries) == ZoneIds(t, zoneId);
  }
}
