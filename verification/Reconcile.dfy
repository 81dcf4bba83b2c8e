/**
 Keeping a cluster zone and its reverse zones in step with a desired set.  The
 forward zone is swapped whole; every address in it gets one PTR record, and the
 reconciler remembers which, so that it can take back those that left.
 */
module Reconcile {
  import opened Text
  import opened Types
  import opened Store
  import opened Database
  import opened Transfer
  import opened ZoneIndex
  import opened Reverse

  // --- The PTR records of an address ---

  /** The record is a PTR record under the address's reverse name. */
  ghost predicate At(records: map<string, Record>, index: map<string, string>, ip: Ip, id: string) {
    && id in records && ZoneName(ip) in index
    && records[id].zoneId == index[ZoneName(ip)] && records[id].name == PtrName(ip) && records[id].data.Ptr?
  }

  ghost predicate OnlyAt(records: map<string, Record>, index: map<string, string>, ip: Ip, id: string) {
    At(records, index, ip, id) && forall x :: At(records, index, ip, x) ==> x == id
  }

  ghost predicate NamesOwner(r: Record, domain: string, owner: string) {
    r.enabled && r.data == Ptr(PtrTarget(owner, domain))
  }

  /** The address has exactly one PTR record, and it names the owner. */
  ghost predicate Points(records: map<string, Record>, index: map<string, string>, domain: string, ip: Ip,
                         owner: string) {
    exists id :: OnlyAt(records, index, ip, id) && NamesOwner(records[id], domain, owner)
  }

  ghost predicate Bare(records: map<string, Record>, index: map<string, string>, ip: Ip) {
    forall id :: !At(records, index, ip, id)
  }

  ghost predicate PtrIs(records: map<string, Record>, index: map<string, string>, domain: string,
                        owners: map<Ip, string>, ip: Ip) {
    if ip in owners then Points(records, index, domain, ip, owners[ip]) else Bare(records, index, ip)
  }

  /** Exactly the owned addresses have a PTR record, each one naming its owner. */
  ghost predicate PtrsAre(records: map<string, Record>, index: map<string, string>, domain: string,
                          owners: map<Ip, string>) {
    forall ip :: PtrIs(records, index, domain, owners, ip)
  }

  /** The cluster zone is not itself one of the reverse zones. */
  ghost predicate Forward(domain: string) {
    forall ip :: ZoneName(ip) != domain
  }

  /** No record is under two addresses' names. */
  lemma OneAddressEach(zones: map<string, Zone>, index: map<string, string>, records: map<string, Record>, x: Ip,
                       y: Ip, id: string)
    requires Leads(zones, index) && At(records, index, x, id) && At(records, index, y, id)
    ensures x == y
  {
    assert zones[index[ZoneName(x)]].name == zones[index[ZoneName(y)]].name;
    ReverseInjective(x, y);
  }

  // --- What happens to the others ---

  /** The PTR records of an address are the same before and after. */
  ghost predicate SameAt(before: map<string, Record>, after: map<string, Record>, index: map<string, string>, ip: Ip) {
    forall id :: (At(before, index, ip, id) <==> At(after, index, ip, id))
      && (At(before, index, ip, id) ==> after[id] == before[id])
  }

  lemma SameAtKeeps(before: map<string, Record>, after: map<string, Record>, index: map<string, string>,
                    domain: string, ip: Ip)
    requires SameAt(before, after, index, ip)
    ensures Bare(before, index, ip) ==> Bare(after, index, ip)
    ensures forall owner :: Points(before, index, domain, ip, owner) ==> Points(after, index, domain, ip, owner)
  {
  }

  lemma OthersSame(zones: map<string, Zone>, index: map<string, string>, before: map<string, Record>,
                   after: map<string, Record>,
                   ip: Ip, other: Ip)
    requires Leads(zones, index) && ip != other
    requires forall id :: (id in before && !At(before, index, ip, id)) ==> id in after && after[id] == before[id]
    requires forall id :: (id in after && !At(after, index, ip, id)) ==> id in before && after[id] == before[id]
    ensures SameAt(before, after, index, other)
  {
    forall id
      ensures At(before, index, other, id) ==> At(after, index, other, id) && after[id] == before[id]
      ensures At(after, index, other, id) ==> At(before, index, other, id)
    {
      if At(before, index, other, id) && At(before, index, ip, id) {
        OneAddressEach(zones, index, before, ip, other, id);
      }
      if At(after, index, other, id) && At(after, index, ip, id) {
        OneAddressEach(zones, index, after, ip, other, id);
      }
    }
  }

  /** Only the address's own PTR records differ. */
  ghost predicate OnlyTouches(before: map<string, Record>, after: map<string, Record>, index: map<string, string>,
                              ip: Ip) {
    && (forall id :: id in before && !At(before, index, ip, id) ==> id in after && after[id] == before[id])
    && (forall id :: id in after && !At(after, index, ip, id) ==> id in before && after[id] == before[id])
  }

  lemma OthersKept(zones: map<string, Zone>, index: map<string, string>, before: map<string, Record>,
                   after: map<string, Record>,
                   domain: string, owners: map<Ip, string>, ip: Ip, other: Ip)
    requires Leads(zones, index) && OnlyTouches(before, after, index, ip) && PtrIs(before, index, domain, owners, other)
    requires other != ip
    ensures PtrIs(after, index, domain, owners, other)
  {
    OthersSame(zones, index, before, after, ip, other);
    SameAtKeeps(before, after, index, domain, other);
  }

  /** An address given a new owner. */
  lemma SyncSets(zones: map<string, Zone>, index: map<string, string>, before: map<string, Record>,
                 after: map<string, Record>,
                 domain: string, owners: map<Ip, string>, ip: Ip, owner: string)
    requires Leads(zones, index) && OnlyTouches(before, after, index, ip) && PtrsAre(before, index, domain, owners)
    requires Points(after, index, domain, ip, owner)
    ensures PtrsAre(after, index, domain, owners[ip := owner])
  {
    var more := owners[ip := owner];
    forall other
      ensures PtrIs(after, index, domain, more, other)
    {
      if other != ip {
        assert PtrIs(before, index, domain, owners, other);
        OthersKept(zones, index, before, after, domain, owners, ip, other);
      }
    }
  }

  /** An address that lost its PTR record. */
  lemma DeleteUnsets(zones: map<string, Zone>, index: map<string, string>, before: map<string, Record>,
                     after: map<string, Record>,
                     domain: string, owners: map<Ip, string>, ip: Ip)
    requires Leads(zones, index) && OnlyTouches(before, after, index, ip) && PtrsAre(before, index, domain, owners)
    requires Bare(after, index, ip)
    ensures PtrsAre(after, index, domain, owners - {ip})
  {
    forall other
      ensures PtrIs(after, index, domain, owners - {ip}, other)
    {
      if other != ip {
        assert PtrIs(before, index, domain, owners, other);
        OthersKept(zones, index, before, after, domain, owners, ip, other);
      }
    }
  }

  /** A new zone, holding nothing yet, changes no address's PTR records. */
  lemma NewZoneKeeps(index: map<string, string>, records: map<string, Record>, domain: string, owners: map<Ip, string>,
                     name: string, id: string)
    requires PtrsAre(records, index, domain, owners) && name !in index
    requires forall x :: x in records ==> records[x].zoneId != id
    ensures PtrsAre(records, index[name := id], domain, owners)
  {
    var more := index[name := id];
    forall ip
      ensures PtrIs(records, more, domain, owners, ip)
    {
      assert PtrIs(records, index, domain, owners, ip);
      NewZoneKeepsOne(index, records, domain, owners, name, id, ip);
    }
  }

  lemma NewZoneKeepsOne(index: map<string, string>, records: map<string, Record>, domain: string,
                        owners: map<Ip, string>,
                        name: string, id: string, ip: Ip)
    requires PtrIs(records, index, domain, owners, ip) && name !in index
    requires forall x :: x in records ==> records[x].zoneId != id
    ensures PtrIs(records, index[name := id], domain, owners, ip)
  {
    var more := index[name := id];
    assert forall x :: At(records, index, ip, x) <==> At(records, more, ip, x);
    if ip in owners {
      var x :| OnlyAt(records, index, ip, x) && NamesOwner(records[x], domain, owners[ip]);
      assert OnlyAt(records, more, ip, x);
    }
  }

  // --- The forward zone ---

  /** The records of a zone are the same before and after. */
  ghost predicate SameZone(before: map<string, Record>, after: map<string, Record>, zoneId: string) {
    && (forall id :: id in before && before[id].zoneId == zoneId ==> id in after && after[id] == before[id])
    && (forall id :: id in after && after[id].zoneId == zoneId ==> id in before && after[id] == before[id])
  }

  /** Replacing the forward zone leaves the reverse zones alone. */
  lemma ForwardKeepsPtrs(zones: map<string, Zone>, index: map<string, string>, before: map<string, Record>,
                         after: map<string, Record>, domain: string, owners: map<Ip, string>, zoneId: string)
    requires Leads(zones, index) && Forward(domain) && domain in index && index[domain] == zoneId
    requires OutsideZone(before, zoneId) == OutsideZone(after, zoneId) && PtrsAre(before, index, domain, owners)
    ensures PtrsAre(after, index, domain, owners)
  {
    forall ip
      ensures PtrIs(after, index, domain, owners, ip)
    {
      assert PtrIs(before, index, domain, owners, ip);
      ForwardKeepsAt(zones, index, before, after, domain, zoneId, ip);
      SameAtKeeps(before, after, index, domain, ip);
    }
  }

  lemma ForwardKeepsAt(zones: map<string, Zone>, index: map<string, string>, before: map<string, Record>,
                       after: map<string, Record>, domain: string, zoneId: string, ip: Ip)
    requires Leads(zones, index) && Forward(domain) && domain in index && index[domain] == zoneId
    requires OutsideZone(before, zoneId) == OutsideZone(after, zoneId)
    ensures SameAt(before, after, index, ip)
  {
    if ZoneName(ip) in index {
      assert zones[index[ZoneName(ip)]].name == ZoneName(ip) != domain == zones[zoneId].name;
      assert index[ZoneName(ip)] != zoneId;
      forall id
        ensures At(before, index, ip, id) ==> id in OutsideZone(before, zoneId)
        ensures At(after, index, ip, id) ==> id in OutsideZone(after, zoneId)
      {
      }
    }
  }

  // --- Who owns an address ---

  function IpOf(d: DesiredRecord): Option<Ip> {
    match d.data
    case Addr4(a) => Some(V4(a))
    case Addr6(a) => Some(V6(a))
    case _ => None
  }

  /** The first wanted record with the address. */
  ghost predicate FirstWith(desired: seq<DesiredRecord>, ip: Ip, i: int) {
    0 <= i < |desired| && IpOf(desired[i]) == Some(ip) && forall k :: 0 <= k < i ==> IpOf(desired[k]) != Some(ip)
  }

  /** Every address of the set goes to its first owner. */
  ghost predicate FirstOwners(desired: seq<DesiredRecord>, owners: map<Ip, string>) {
    && (forall ip :: ip in owners ==> exists i :: FirstWith(desired, ip, i) && owners[ip] == desired[i].name)
    && (forall i :: 0 <= i < |desired| && IpOf(desired[i]).Some? ==> IpOf(desired[i]).value in owners)
  }

  lemma FirstOwnersOneMore(desired: seq<DesiredRecord>, i: nat, owners: map<Ip, string>)
    requires i < |desired| && FirstOwners(desired[..i], owners)
    ensures FirstOwners(desired[..i + 1],
                        if IpOf(desired[i]).Some? && IpOf(desired[i]).value !in owners
                        then owners[IpOf(desired[i]).value := desired[i].name] else owners)
  {
    var before, after := desired[..i], desired[..i + 1];
    forall ip, k | FirstWith(before, ip, k)
      ensures FirstWith(after, ip, k) && before[k] == after[k]
    {
      assert forall j :: 0 <= j < k ==> before[j] == after[j];
    }
    var ip := IpOf(desired[i]);
    if ip.Some? && ip.value !in owners {
      assert forall k :: 0 <= k < i ==> after[k] == before[k] && IpOf(before[k]) != ip;
      assert FirstWith(after, ip.value, i);
    }
    assert forall k :: 0 <= k < i ==> after[k] == before[k];
  }

  method Owners(desired: seq<DesiredRecord>) returns (want: map<Ip, string>)
    ensures FirstOwners(desired, want)
  {
    want := map[];
    for i := 0 to |desired|
      invariant FirstOwners(desired[..i], want)
    {
      FirstOwnersOneMore(desired, i, want);
      var ip := IpOf(desired[i]);
      if ip.None? {
        continue;
      }
      if ip.value !in want {
        want := want[ip.value := desired[i].name];
      }
    }
    assert desired[..|desired|] == desired;
  }

  // --- Changing the database ---

  ghost function IdsOf(rs: seq<Record>): set<string> {
    set r | r in rs :: r.id
  }

  lemma IdsSnoc(rs: seq<Record>, i: nat)
    requires i < |rs|
    ensures IdsOf(rs[..i + 1]) == IdsOf(rs[..i]) + {rs[i].id}
  {
  }

  method DeleteAll(db: Db, rs: seq<Record>)
    requires db.Valid()
    modifies db`records, db`byZone, db`health
    ensures db.Valid()
    ensures db.records == old(db.records) - IdsOf(rs)
  {
    for i := 0 to |rs|
      invariant db.Valid()
      invariant db.records == old(db.records) - IdsOf(rs[..i])
    {
      IdsSnoc(rs, i);
      MinusTwice(old(db.records) - IdsOf(rs[..i]), old(db.records), IdsOf(rs[..i]), {rs[i].id});
      var res := db.DeleteRecord(rs[i].id);
    }
    assert rs[..|rs|] == rs;
  }

  /** The zones after a serial moved: same ids, same names. */
  lemma BumpKeepsZones(before: map<string, Zone>, after: map<string, Zone>, index: map<string, string>, id: string,
                       soa: SoaData)
    requires Leads(before, index) && id in before && after == before[id := before[id].(soa := soa)]
    ensures Leads(after, index)
  {
  }

  method BumpSerial(db: Db, id: Uuid, stamp: nat)
    requires Leads(db.zones, db.nameIndex)
    modifies db`zones
    ensures Leads(db.zones, db.nameIndex)
  {
    ghost var before := db.zones;
    var res := db.IncrementSoaSerial(id, stamp);
    if res.Ok? {
      BumpKeepsZones(before, db.zones, db.nameIndex, id, db.zones[id].soa);
    }
  }

  function ReverseZone(id: Uuid, name: string, serial: u32): Zone {
    Zone(id, name, SoaData("ns1." + name, "admin." + name, serial, 3600, 900, 604800, 300), 300)
  }

  /** Finds the zone of that name or adds an empty one. */
  method EnsureReverseZone(db: Db, name: string, serial: u32, ghost domain: string, ghost owners: map<Ip, string>)
    returns (id: Uuid)
    requires Leads(db.zones, db.nameIndex) && PtrsAre(db.records, db.nameIndex, domain, owners)
    modifies db`zones, db`nameIndex
    ensures Leads(db.zones, db.nameIndex) && PtrsAre(db.records, db.nameIndex, domain, owners)
    ensures name in db.nameIndex && db.nameIndex[name] == id
    ensures forall n :: n in old(db.nameIndex) ==> n in db.nameIndex && db.nameIndex[n] == old(db.nameIndex)[n]
  {
    var zone := db.GetZoneByName(name);
    if zone.Some? {
      return zone.value.id;
    }
    id := NewUuid(db.zones.Keys + set x | x in db.records :: db.records[x].zoneId);
    NewZoneKeeps(db.nameIndex, db.records, domain, owners, name, id);
    var res := db.CreateZone(name, ReverseZone(id, name, serial));
  }

  lemma PtrIsEnabled(records: map<string, Record>, index: map<string, string>, domain: string, owners: map<Ip, string>,
                     ip: Ip, id: string)
    requires PtrsAre(records, index, domain, owners) && At(records, index, ip, id)
    ensures ip in owners && NamesOwner(records[id], domain, owners[ip])
  {
    assert PtrIs(records, index, domain, owners, ip);
    var x :| OnlyAt(records, index, ip, x) && NamesOwner(records[x], domain, owners[ip]);
    assert x == id;
  }

  /** What a query for the address's PTR records finds is all of them. */
  lemma QueryFindsAll(t: Tables, index: map<string, string>, domain: string, owners: map<Ip, string>, ip: Ip,
                      rs: seq<Record>)
    requires PtrsAre(t.records, index, domain, owners) && ZoneName(ip) in index
    requires forall id :: id in t.records ==> t.records[id].id == id
    requires forall r :: r in rs <==> Owns(t, r, index[ZoneName(ip)], PtrName(ip), PTR) && r.enabled
    ensures forall id :: At(t.records, index, ip, id) <==> id in IdsOf(rs)
  {
    forall id | At(t.records, index, ip, id)
      ensures id in IdsOf(rs)
    {
      PtrIsEnabled(t.records, index, domain, owners, ip, id);
      QueryFinds(t, index[ZoneName(ip)], ip, rs, id);
    }
    forall id | id in IdsOf(rs)
      ensures At(t.records, index, ip, id)
    {
      var r :| r in rs && r.id == id;
      PtrTyped(r);
    }
  }

  lemma QueryFinds(t: Tables, zoneId: string, ip: Ip, rs: seq<Record>, id: string)
    requires id in t.records && t.records[id].id == id && t.records[id].enabled
    requires t.records[id].zoneId == zoneId && t.records[id].name == PtrName(ip) && t.records[id].data.Ptr?
    requires forall r :: r in rs <==> Owns(t, r, zoneId, PtrName(ip), PTR) && r.enabled
    ensures id in IdsOf(rs)
  {
  }

  lemma PtrTyped(r: Record)
    ensures r.data.Type() == PTR <==> r.data.Ptr?
  {
  }

  /** An enabled PTR record under the address, pointing at the owner, kept for Kubernetes. */
  predicate PtrFor(r: Record, ip: Ip, owner: string, domain: string, ttl: u32) {
    && r.name == PtrName(ip) && r.data == Ptr(PtrTarget(owner, domain)) && r.ttl == ttl
    && r.enabled && r.healthCheck.None? && r.source == K8s && r.origin.None?
  }

  /** Replacing all PTR records of an address by one. */
  lemma SwapPoints(index: map<string, string>, before: map<string, Record>, gone: set<string>, ip: Ip, r: Record,
                   domain: string, owner: string)
    requires PtrFor(r, ip, owner, domain, r.ttl)
    requires ZoneName(ip) in index && r.zoneId == index[ZoneName(ip)]
    requires r.id !in before && forall id :: At(before, index, ip, id) <==> id in gone
    ensures var after := (before - gone)[r.id := r];
            OnlyTouches(before, after, index, ip) && Points(after, index, domain, ip, owner)
  {
    var after := (before - gone)[r.id := r];
    assert OnlyAt(after, index, ip, r.id);
  }

  lemma DropBares(index: map<string, string>, before: map<string, Record>, gone: set<string>, ip: Ip)
    requires forall id :: At(before, index, ip, id) <==> id in gone
    ensures OnlyTouches(before, before - gone, index, ip) && Bare(before - gone, index, ip)
  {
  }

  lemma TouchesElsewhere(zones: map<string, Zone>, index: map<string, string>, before: map<string, Record>,
                         after: map<string, Record>, ip: Ip, domain: string)
    requires Leads(zones, index) && OnlyTouches(before, after, index, ip) && domain in index && ZoneName(ip) != domain
    ensures SameZone(before, after, index[domain])
  {
  }

  class Reconciler {
    const db: Db
    const zoneId: Uuid
    const domain: string
    const defaultTtl: u32
    const managePtr: bool
    var synced: map<Ip, string>
    ghost var held: map<Ip, string>

    /** The zones are in order, and the PTR records are exactly those of `owners`. */
    ghost predicate Ready(owners: map<Ip, string>)
      reads db
    {
      && db.Valid() && Leads(db.zones, db.nameIndex)
      && Forward(domain) && domain in db.nameIndex && db.nameIndex[domain] == zoneId
      && PtrsAre(db.records, db.nameIndex, domain, owners)
    }

    /** The PTR records are those of `held`: the remembered ones, and what an earlier life left behind. */
    ghost predicate Inv()
      reads this, db
    {
      Ready(held) && Remembered(synced, held)
    }

    /** A reconciler remembers nothing of the PTR records its predecessor may have left. */
    constructor (db: Db, zoneId: Uuid, domain: string, defaultTtl: u32, managePtr: bool, ghost held: map<Ip, string>)
      requires db.Valid() && Leads(db.zones, db.nameIndex)
      requires Forward(domain) && domain in db.nameIndex && db.nameIndex[domain] == zoneId
      requires PtrsAre(db.records, db.nameIndex, domain, held)
      ensures Inv() && synced == map[] && this.held == held
      ensures this.db == db && this.zoneId == zoneId && this.domain == domain && this.managePtr == managePtr
    {
      this.db, this.zoneId, this.domain, this.defaultTtl, this.managePtr := db, zoneId, domain, defaultTtl, managePtr;
      synced, this.held := map[], held;
    }

    /** Swaps the PTR records found for one that names the owner. */
    method Repoint(ip: Ip, owner: string, id: Uuid, existing: seq<Record>, stamp: nat)
      requires db.Valid() && Leads(db.zones, db.nameIndex)
      requires ZoneName(ip) in db.nameIndex && db.nameIndex[ZoneName(ip)] == id
      requires forall x :: At(db.records, db.nameIndex, ip, x) <==> x in IdsOf(existing)
      modifies db
      ensures db.Valid() && Leads(db.zones, db.nameIndex) && db.nameIndex == old(db.nameIndex)
      ensures OnlyTouches(old(db.records), db.records, db.nameIndex, ip)
      ensures Points(db.records, db.nameIndex, domain, ip, owner)
      ensures exists x :: && x in db.records && x !in old(db.records)
                          && PtrFor(db.records[x], ip, owner, domain, defaultTtl)
    {
      ghost var before := db.records;
      var x := NewUuid(db.records.Keys);
      DeleteAll(db, existing);
      var r := Record(x, id, PtrName(ip), defaultTtl, Ptr(PtrTarget(owner, domain)), true, None, K8s, None);
      db.CreateRecord(r);
      SwapPoints(db.nameIndex, before, IdsOf(existing), ip, r, domain, owner);
      BumpSerial(db, id, stamp);
    }

    /** The PTR records of an address, as a query finds them. */
    method FindPtrs(ip: Ip, id: Uuid, ghost owners: map<Ip, string>) returns (existing: seq<Record>)
      requires Ready(owners) && ZoneName(ip) in db.nameIndex && db.nameIndex[ZoneName(ip)] == id
      ensures forall x :: At(db.records, db.nameIndex, ip, x) <==> x in IdsOf(existing)
      ensures forall r :: r in existing ==> r.id in db.records && db.records[r.id] == r
    {
      existing := db.QueryRecords(id, PtrName(ip), PTR);
      QueryFindsAll(db.View(), db.nameIndex, domain, owners, ip, existing);
    }

    method EnsureZone(ip: Ip, stamp: nat, ghost owners: map<Ip, string>) returns (id: Uuid)
      requires Ready(owners)
      modifies db`zones, db`nameIndex
      ensures Ready(owners) && ZoneName(ip) in db.nameIndex && db.nameIndex[ZoneName(ip)] == id
    {
      id := EnsureReverseZone(db, ZoneName(ip), if stamp < 0x1_0000_0000 then stamp else 1, domain, owners);
    }

    /** Leaves the address exactly one PTR record, naming the owner. */
    method SyncPtr(ip: Ip, owner: string, stamp: nat, ghost owners: map<Ip, string>)
      requires Ready(owners)
      modifies db
      ensures Ready(owners[ip := owner])
      ensures SameZone(old(db.records), db.records, zoneId)
    {
      var id := EnsureZone(ip, stamp, owners);
      ghost var before := db.records;
      var existing := FindPtrs(ip, id, owners);
      if exists r :: r in existing && r.data == Ptr(PtrTarget(owner, domain)) {
        FoundPoints(db.records, db.nameIndex, domain, owners, ip, owner, existing);
      } else {
        Repoint(ip, owner, id, existing, stamp);
        TouchesElsewhere(db.zones, db.nameIndex, before, db.records, ip, domain);
      }
      SyncSets(db.zones, db.nameIndex, before, db.records, domain, owners, ip, owner);
    }

    method DeleteMatching(existing: seq<Record>, data: RecordData, id: Uuid, stamp: nat)
      requires db.Valid() && Leads(db.zones, db.nameIndex)
      modifies db`records, db`byZone, db`health, db`zones
      ensures db.Valid() && Leads(db.zones, db.nameIndex)
      ensures db.records == old(db.records) - Matching(existing, data)
    {
      for i := 0 to |existing|
        invariant db.Valid() && Leads(db.zones, db.nameIndex)
        invariant db.records == old(db.records) - Matching(existing[..i], data)
      {
        MatchingSnoc(existing, data, i);
        if existing[i].data == data {
          MinusTwice(old(db.records) - Matching(existing[..i], data), old(db.records), Matching(existing[..i], data),
                     {existing[i].id});
          var res := db.DeleteRecord(existing[i].id);
          BumpSerial(db, id, stamp);
        }
      }
      assert existing[..|existing|] == existing;
    }

    /** Takes back the PTR record of an address. */
    method DeletePtr(ip: Ip, owner: string, stamp: nat, ghost owners: map<Ip, string>)
      requires Ready(owners) && ip in owners && owners[ip] == owner
      modifies db
      ensures Ready(owners - {ip})
      ensures SameZone(old(db.records), db.records, zoneId)
    {
      assert PtrIs(db.records, db.nameIndex, domain, owners, ip);
      var zone := db.GetZoneByName(ZoneName(ip));
      if zone.None? {
        return;
      }
      ghost var before := db.records;
      var existing := FindPtrs(ip, zone.value.id, owners);
      AllMatch(before, db.nameIndex, domain, owners, ip, existing);
      DropBares(db.nameIndex, before, IdsOf(existing), ip);
      DeleteMatching(existing, Ptr(PtrTarget(owner, domain)), zone.value.id, stamp);
      TouchesElsewhere(db.zones, db.nameIndex, before, db.records, ip, domain);
      DeleteUnsets(db.zones, db.nameIndex, before, db.records, domain, owners, ip);
    }

    method SyncNext(ip: Ip, want: map<Ip, string>, stamp: nat, ghost todo: set<Ip>, ghost start: map<string, Record>)
      requires Ready(Merged(held, want, todo)) && SameZone(start, db.records, zoneId)
      requires ip in todo && ip in want
      modifies db
      ensures Ready(Merged(held, want, todo - {ip})) && SameZone(start, db.records, zoneId)
    {
      ghost var before := db.records;
      SyncPtr(ip, want[ip], stamp, Merged(held, want, todo));
      MergedOneMore(held, want, todo, ip);
      SameZoneChains(start, before, db.records, zoneId);
    }

    method DeleteNext(ip: Ip, want: map<Ip, string>, stamp: nat, ghost todo: set<Ip>, ghost start: map<string, Record>)
      requires Ready(Pruned(held, synced, want, todo)) && SameZone(start, db.records, zoneId)
      requires ip in todo && ip in synced && Remembered(synced, held)
      modifies db
      ensures Ready(Pruned(held, synced, want, todo - {ip})) && SameZone(start, db.records, zoneId)
    {
      PrunedOneMore(held, synced, want, todo, ip);
      if ip !in want {
        ghost var before := db.records;
        DeletePtr(ip, synced[ip], stamp, Pruned(held, synced, want, todo));
        SameZoneChains(start, before, db.records, zoneId);
      }
    }

    /** Every wanted address, in any order, ends with its one PTR record. */
    method SyncAll(want: map<Ip, string>, stamp: nat)
      requires Ready(Merged(held, want, want.Keys))
      modifies db
      ensures Ready(Merged(held, want, {}))
      ensures SameZone(old(db.records), db.records, zoneId)
    {
      var todo := want.Keys;
      ghost var before := db.records;
      while todo != {}
        invariant todo <= want.Keys
        invariant Ready(Merged(held, want, todo)) && SameZone(before, db.records, zoneId)
        decreases |todo|
      {
        var ip :| ip in todo;
        SyncNext(ip, want, stamp, todo, before);
        todo := todo - {ip};
      }
    }

    /** Addresses that left the set lose their PTR record. */
    method PruneAll(want: map<Ip, string>, stamp: nat)
      requires Ready(Pruned(held, synced, want, synced.Keys)) && Remembered(synced, held)
      modifies db
      ensures Ready(Pruned(held, synced, want, {}))
      ensures SameZone(old(db.records), db.records, zoneId)
    {
      var todo := synced.Keys;
      ghost var before := db.records;
      while todo != {}
        invariant todo <= synced.Keys
        invariant Ready(Pruned(held, synced, want, todo)) && SameZone(before, db.records, zoneId)
        decreases |todo|
      {
        var ip :| ip in todo;
        DeleteNext(ip, want, stamp, todo, before);
        todo := todo - {ip};
      }
    }

    method ReconcilePtrs(desired: seq<DesiredRecord>, stamp: nat)
      requires Inv()
      modifies this, db
      ensures Inv() && FirstOwners(desired, synced)
      ensures held == Taken(old(held), old(synced), synced)
      ensures SameZone(old(db.records), db.records, zoneId)
    {
      var want := Owners(desired);
      MergedEnds(held, want);
      PrunedEnds(held, synced, want);
      SyncAll(want, stamp);
      PruneAll(want, stamp);
      held := Taken(held, synced, want);
      synced := want;
    }

    method NewRecords(desired: seq<DesiredRecord>) returns (rs: seq<Record>)
      ensures RecordsFor(rs, desired, zoneId) && FreshIds(db.records, rs)
    {
      rs := [];
      var used := db.records.Keys;
      for i := 0 to |desired|
        invariant RecordsFor(rs, desired[..i], zoneId) && FreshIds(db.records, rs)
        invariant db.records.Keys <= used && forall k :: 0 <= k < |rs| ==> rs[k].id in used
      {
        var id := NewUuid(used);
        var d := desired[i];
        rs := rs + [Record(id, zoneId, d.name, d.ttl, d.data, true, None, K8s, None)];
        used := used + {id};
      }
      assert desired[..|desired|] == desired;
    }

    /** Swaps the forward zone for the desired records, under new ids. */
    method ReplaceForward(desired: seq<DesiredRecord>) returns (rs: seq<Record>)
      requires Inv()
      modifies db`records, db`byZone
      ensures Inv()
      ensures RecordsFor(rs, desired, zoneId) && ZoneHolds(db.records, zoneId, rs)
    {
      rs := NewRecords(desired);
      ghost var before := db.records;
      db.ReplaceZoneRecords(zoneId, rs);
      ReplacedHolds(OutsideZone(before, zoneId), zoneId, rs);
      ForwardKeepsPtrs(db.zones, db.nameIndex, before, db.records, domain, held, zoneId);
    }

    /**
     After every reconcile the forward zone holds exactly the desired records,
     each address in it has exactly one PTR record, naming its first owner, and
     the only other addresses with one are those an earlier life left behind.
     */
    method Apply(desired: seq<DesiredRecord>, stamp: nat) returns (ghost rs: seq<Record>)
      requires Inv()
      modifies this, db
      ensures Inv()
      ensures RecordsFor(rs, desired, zoneId) && ZoneHolds(db.records, zoneId, rs)
      ensures managePtr ==> FirstOwners(desired, synced) && held == Taken(old(held), old(synced), synced)
      ensures !managePtr ==> synced == old(synced) && held == old(held)
    {
      rs := ReplaceForward(desired);
      BumpSerial(db, zoneId, stamp);
      if managePtr {
        ghost var before := db.records;
        ReconcilePtrs(desired, stamp);
        HeldStill(before, db.records, zoneId, rs);
      }
    }
  }

  /** What is remembered is held. */
  ghost predicate Remembered(synced: map<Ip, string>, held: map<Ip, string>) {
    forall ip :: ip in synced ==> ip in held && held[ip] == synced[ip]
  }

  /** What is held once the remembered addresses have given way to the wanted ones. */
  ghost function Taken(held: map<Ip, string>, synced: map<Ip, string>, want: map<Ip, string>): map<Ip, string> {
    held - synced.Keys + want
  }

  /** The owners once all wanted addresses but `todo` are synced. */
  ghost function Merged(held: map<Ip, string>, want: map<Ip, string>, todo: set<Ip>): map<Ip, string> {
    held + (want - todo)
  }

  lemma MergedOneMore(held: map<Ip, string>, want: map<Ip, string>, todo: set<Ip>, ip: Ip)
    requires ip in todo && ip in want
    ensures Merged(held, want, todo)[ip := want[ip]] == Merged(held, want, todo - {ip})
  {
  }

  lemma MergedEnds(held: map<Ip, string>, want: map<Ip, string>)
    ensures Merged(held, want, want.Keys) == held
    ensures Merged(held, want, {}) == held + want
  {
  }

  /** The owners once all departed addresses but `todo` are pruned. */
  ghost function Pruned(held: map<Ip, string>, synced: map<Ip, string>, want: map<Ip, string>,
                        todo: set<Ip>): map<Ip, string> {
    held - (synced.Keys - todo) + want
  }

  lemma PrunedOneMore(held: map<Ip, string>, synced: map<Ip, string>, want: map<Ip, string>, todo: set<Ip>, ip: Ip)
    requires ip in todo && ip in synced && Remembered(synced, held)
    ensures var owners := Pruned(held, synced, want, todo);
            && Pruned(held, synced, want, todo - {ip}) == (if ip in want then owners else owners - {ip})
            && ip in owners && (ip !in want ==> owners[ip] == synced[ip])
  {
  }

  lemma PrunedEnds(held: map<Ip, string>, synced: map<Ip, string>, want: map<Ip, string>)
    ensures Pruned(held, synced, want, synced.Keys) == held + want
    ensures Pruned(held, synced, want, {}) == Taken(held, synced, want)
  {
  }

  /** What is held after a sequence of reconciles with these owners. */
  ghost function TakenAll(held: map<Ip, string>, synced: map<Ip, string>, wants: seq<map<Ip, string>>): map<Ip, string>
    decreases |wants|
  {
    if wants == [] then held else TakenAll(Taken(held, synced, wants[0]), wants[0], wants[1..])
  }

  /** Not wanted in any of the reconciles. */
  ghost predicate NeverWanted(ip: Ip, wants: seq<map<Ip, string>>) {
    forall k :: 0 <= k < |wants| ==> ip !in wants[k]
  }

  /**
   Over every run since the start, the addresses with a PTR record are those of
   the last set, and of what was held before exactly those never wanted since.
   */
  lemma {:induction false} StaleSurvivesUntilWanted(held: map<Ip, string>, synced: map<Ip, string>,
                                                    wants: seq<map<Ip, string>>, ip: Ip)
    requires wants != []
    ensures var last, now := wants[|wants| - 1], TakenAll(held, synced, wants);
            if ip in last then ip in now && now[ip] == last[ip]
            else if ip in held && ip !in synced && NeverWanted(ip, wants) then ip in now && now[ip] == held[ip]
            else ip !in now
    decreases |wants|
  {
    var next := Taken(held, synced, wants[0]);
    if |wants| == 1 {
      assert wants[1..] == [];
    } else {
      StaleSurvivesUntilWanted(next, wants[0], wants[1..], ip);
      NeverWantedCons(ip, wants);
    }
  }

  lemma NeverWantedCons(ip: Ip, wants: seq<map<Ip, string>>)
    requires wants != []
    ensures NeverWanted(ip, wants) <==> ip !in wants[0] && NeverWanted(ip, wants[1..])
  {
    assert forall k :: 0 < k < |wants| ==> wants[k] == wants[1..][k - 1];
  }

  lemma SameZoneChains(a: map<string, Record>, b: map<string, Record>, c: map<string, Record>, zoneId: string)
    requires SameZone(a, b, zoneId) && SameZone(b, c, zoneId)
    ensures SameZone(a, c, zoneId)
  {
  }

  /** An enabled record of the zone with the entry's name, TTL and data, kept for Kubernetes. */
  predicate StoredFor(r: Record, d: DesiredRecord, zoneId: Uuid) {
    && r.zoneId == zoneId && r.name == d.name && r.ttl == d.ttl && r.data == d.data
    && r.enabled && r.healthCheck.None? && r.source == K8s && r.origin.None?
  }

  /** One record for each desired entry, in order. */
  ghost predicate RecordsFor(rs: seq<Record>, desired: seq<DesiredRecord>, zoneId: Uuid) {
    |rs| == |desired| && forall i :: 0 <= i < |rs| ==> StoredFor(rs[i], desired[i], zoneId)
  }

  lemma HeldStill(before: map<string, Record>, after: map<string, Record>, zoneId: Uuid, rs: seq<Record>)
    requires ZoneHolds(before, zoneId, rs) && SameZone(before, after, zoneId)
    requires forall i :: 0 <= i < |rs| ==> rs[i].zoneId == zoneId
    ensures ZoneHolds(after, zoneId, rs)
  {
  }

  lemma FoundPoints(records: map<string, Record>, index: map<string, string>, domain: string, owners: map<Ip, string>,
                    ip: Ip, owner: string, existing: seq<Record>)
    requires PtrsAre(records, index, domain, owners)
    requires forall x :: At(records, index, ip, x) <==> x in IdsOf(existing)
    requires forall r :: r in existing ==> r.id in records && records[r.id] == r
    requires exists r :: r in existing && r.data == Ptr(PtrTarget(owner, domain))
    ensures Points(records, index, domain, ip, owner)
  {
    var r :| r in existing && r.data == Ptr(PtrTarget(owner, domain));
    assert r.id in IdsOf(existing);
    PtrIsEnabled(records, index, domain, owners, ip, r.id);
    assert PtrIs(records, index, domain, owners, ip);
    var x :| OnlyAt(records, index, ip, x) && NamesOwner(records[x], domain, owners[ip]);
    assert x == r.id;
  }

  ghost function Matching(rs: seq<Record>, data: RecordData): set<string> {
    set r | r in rs && r.data == data :: r.id
  }

  lemma MatchingSnoc(rs: seq<Record>, data: RecordData, i: nat)
    requires i < |rs|
    ensures Matching(rs[..i + 1], data) ==
              if rs[i].data == data then Matching(rs[..i], data) + {rs[i].id} else Matching(rs[..i], data)
  {
  }

  /** Every PTR record of an owned address is the one written for its owner. */
  lemma AllMatch(records: map<string, Record>, index: map<string, string>, domain: string, owners: map<Ip, string>,
                 ip: Ip,
                 existing: seq<Record>)
    requires PtrsAre(records, index, domain, owners) && ip in owners
    requires forall x :: At(records, index, ip, x) <==> x in IdsOf(existing)
    requires forall r :: r in existing ==> r.id in records && records[r.id] == r
    ensures Matching(existing, Ptr(PtrTarget(owners[ip], domain))) == IdsOf(existing)
  {
    forall r | r in existing
      ensures r.data == Ptr(PtrTarget(owners[ip], domain))
    {
      assert r.id in IdsOf(existing);
      PtrIsEnabled(records, index, domain, owners, ip, r.id);
    }
  }
}
