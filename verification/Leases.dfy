/**
 DHCP leases: the lease table with a MAC index and an IP index beside it, written
 together.  Older versions left leases behind that no index entry points at.
 */
module Leases {
  import opened Text
  import opened Types

  datatype LeaseState = Active | Expired | Released

  datatype Lease = Lease(id: Uuid, ip: string, mac: string, start: nat, end: int, state: LeaseState)

  datatype Tables = Tables(leases: map<string, Lease>, macIndex: map<string, string>, ipIndex: map<string, string>)

  // --- Invariants ---

  /** All that holds of an inherited table: no MAC entry points at a lease of another MAC. */
  ghost predicate Legacy(t: Tables) {
    && (forall id :: id in t.leases ==> t.leases[id].id == id)
    && forall mac :: mac in t.macIndex && t.macIndex[mac] in t.leases ==> t.leases[t.macIndex[mac]].mac == mac
  }

  predicate Indexed(t: Tables, id: string)
    requires id in t.leases
  {
    t.leases[id].mac in t.macIndex && t.macIndex[t.leases[id].mac] == id
  }

  /** Every lease is the one its MAC's entry points at. */
  ghost predicate Clean(t: Tables) {
    Legacy(t) && forall id :: id in t.leases ==> Indexed(t, id)
  }

  lemma CleanIsOnePerMac(t: Tables, id: string, id': string)
    requires Clean(t) && id in t.leases && id' in t.leases && t.leases[id].mac == t.leases[id'].mac
    ensures id == id'
  {
  }

  ghost predicate IpPointsBack(t: Tables, id: string)
    requires id in t.leases
  {
    t.leases[id].ip in t.ipIndex && t.ipIndex[t.leases[id].ip] == id
  }

  /** The IP index and the leases name each other. */
  ghost predicate IpRight(t: Tables) {
    && (forall ip :: ip in t.ipIndex ==> t.ipIndex[ip] in t.leases && t.leases[t.ipIndex[ip]].ip == ip)
    && forall id :: id in t.leases ==> IpPointsBack(t, id)
  }

  // --- Operations on values ---

  function NewLease(id: Uuid, ip: string, mac: string, now: nat, secs: u32): Lease {
    Lease(id, ip, mac, now, now + secs, Active)
  }

  /** The lease a MAC's entry leads to, if it is there. */
  function Existing(t: Tables, mac: string): Option<Lease> {
    if mac in t.macIndex && t.macIndex[mac] in t.leases then Some(t.leases[t.macIndex[mac]]) else None
  }

  /** Renews the MAC's lease in place, or adds one under the new id. */
  function Create(t: Tables, newId: Uuid, ip: string, mac: string, now: nat, secs: u32): Tables {
    var held := Existing(t, mac);
    if held.Some? then
      var id := t.macIndex[mac];
      Tables(t.leases[id := NewLease(held.value.id, ip, mac, now, secs)], t.macIndex,
             if held.value.ip != ip then (t.ipIndex - {held.value.ip})[ip := id] else t.ipIndex)
    else
      Tables(t.leases[newId := NewLease(newId, ip, mac, now, secs)], t.macIndex[mac := newId], t.ipIndex[ip := newId])
  }

  function Release(t: Tables, mac: string): Tables {
    if Existing(t, mac).Some? then
      t.(leases := t.leases[t.macIndex[mac] := Existing(t, mac).value.(state := Released)])
    else t
  }

  predicate IsExpired(l: Lease, cutoff: int) {
    l.end < cutoff && (l.state == Released || l.state == Active)
  }

  function ExpiredIds(t: Tables, cutoff: int): set<string> {
    set id | id in t.leases && IsExpired(t.leases[id], cutoff)
  }

  function MacsOf(t: Tables, ids: set<string>): set<string>
    requires ids <= t.leases.Keys
  {
    set id | id in ids :: t.leases[id].mac
  }

  function IpsOf(t: Tables, ids: set<string>): set<string>
    requires ids <= t.leases.Keys
  {
    set id | id in ids :: t.leases[id].ip
  }

  /** Removes the leases and whatever the indexes hold under their MACs and IPs. */
  function Purge(t: Tables, dead: set<string>): Tables
    requires dead <= t.leases.Keys
  {
    Tables(t.leases - dead, t.macIndex - MacsOf(t, dead), t.ipIndex - IpsOf(t, dead))
  }

  function Orphans(t: Tables): set<string> {
    set id | id in t.leases && id !in t.macIndex.Values
  }

  /** The IP entries that point at one of the leases they name. */
  function StaleIps(t: Tables, dead: set<string>): set<string> {
    set ip | ip in t.ipIndex && t.ipIndex[ip] in dead && t.ipIndex[ip] in t.leases && t.leases[t.ipIndex[ip]].ip == ip
  }

  function PurgeOrphans(t: Tables): Tables {
    var dead := Orphans(t);
    Tables(t.leases - dead, t.macIndex, t.ipIndex - StaleIps(t, dead))
  }

  // --- What every operation keeps ---

  /** A new id is in no table. */
  predicate FreshId(t: Tables, id: string) {
    id !in t.leases && id !in t.macIndex.Values
  }

  lemma CreateKeeps(t: Tables, newId: Uuid, ip: string, mac: string, now: nat, secs: u32)
    requires Legacy(t) && FreshId(t, newId)
    ensures Legacy(Create(t, newId, ip, mac, now, secs))
    ensures Clean(t) ==> Clean(Create(t, newId, ip, mac, now, secs))
  {
    var t' := Create(t, newId, ip, mac, now, secs);
    forall m | m in t'.macIndex && t'.macIndex[m] in t'.leases
      ensures t'.leases[t'.macIndex[m]].mac == m
    {
      if Existing(t, mac).None? && m != mac {
        assert t.macIndex[m] in t.macIndex.Values;
      }
    }
    if Clean(t) {
      forall id | id in t'.leases
        ensures Indexed(t', id)
      {
        if id in t.leases {
          assert Indexed(t, id);
        }
      }
    }
  }

  lemma ReleaseKeeps(t: Tables, mac: string)
    requires Legacy(t)
    ensures Legacy(Release(t, mac))
    ensures Clean(t) ==> Clean(Release(t, mac))
  {
  }

  lemma PurgeKeeps(t: Tables, dead: set<string>)
    requires Legacy(t) && dead <= t.leases.Keys
    ensures Legacy(Purge(t, dead))
    ensures Clean(t) ==> Clean(Purge(t, dead))
  {
  }

  /** On an inherited table an expiry purge orphans a lease exactly when an expired lease shares its MAC. */
  lemma PurgeOrphansLiveLeases(t: Tables, dead: set<string>, id: string)
    requires dead <= t.leases.Keys && id in t.leases && id !in dead && Indexed(t, id)
    ensures Indexed(Purge(t, dead), id) <==> forall d :: d in dead ==> t.leases[d].mac != t.leases[id].mac
  {
  }

  /** One orphan purge turns any inherited table into a clean one, keeping exactly the leases an entry points at. */
  lemma PurgeOrphansCleans(t: Tables)
    requires Legacy(t)
    ensures Clean(PurgeOrphans(t))
    ensures forall id :: id in PurgeOrphans(t).leases <==> id in t.leases && Indexed(t, id)
  {
  }

  // --- Whole runs ---

  datatype Op =
    | DoCreate(newId: Uuid, ip: string, mac: string, now: nat, secs: u32)
    | DoRelease(mac: string)
    | DoPurge(cutoff: int)
    | DoPurgeOrphans

  function Apply(t: Tables, op: Op): Tables {
    match op
    case DoCreate(newId, ip, mac, now, secs) => Create(t, newId, ip, mac, now, secs)
    case DoRelease(mac) => Release(t, mac)
    case DoPurge(cutoff) => Purge(t, ExpiredIds(t, cutoff))
    case DoPurgeOrphans => PurgeOrphans(t)
  }

  function Run(t: Tables, ops: seq<Op>): Tables
    decreases |ops|
  {
    if ops == [] then t else Run(Apply(t, ops[0]), ops[1..])
  }

  /** Every id a run creates is new when it does. */
  predicate FreshRun(t: Tables, ops: seq<Op>)
    decreases |ops|
  {
    ops == [] || ((ops[0].DoCreate? ==> FreshId(t, ops[0].newId)) && FreshRun(Apply(t, ops[0]), ops[1..]))
  }

  lemma StepKeeps(t: Tables, op: Op)
    requires Legacy(t) && (op.DoCreate? ==> FreshId(t, op.newId))
    ensures Legacy(Apply(t, op))
    ensures Clean(t) || op.DoPurgeOrphans? ==> Clean(Apply(t, op))
  {
    match op
    case DoCreate(newId, ip, mac, now, secs) => CreateKeeps(t, newId, ip, mac, now, secs);
    case DoRelease(mac) => ReleaseKeeps(t, mac);
    case DoPurge(cutoff) => PurgeKeeps(t, ExpiredIds(t, cutoff));
    case DoPurgeOrphans => PurgeOrphansCleans(t);
  }

  /** From any inherited table: once an orphan purge has run, there is one indexed lease per MAC ever after. */
  lemma {:induction false} CleanEverAfter(t: Tables, ops: seq<Op>, i: nat)
    requires Legacy(t) && FreshRun(t, ops)
    requires Clean(t) || (i < |ops| && ops[i].DoPurgeOrphans?)
    ensures Clean(Run(t, ops))
    decreases |ops|
  {
    if ops != [] {
      StepKeeps(t, ops[0]);
      if i == 0 || Clean(Apply(t, ops[0])) {
        CleanEverAfter(Apply(t, ops[0]), ops[1..], 0);
      } else {
        CleanEverAfter(Apply(t, ops[0]), ops[1..], i - 1);
      }
    }
  }

  // --- The IP index ---

  /** The address is in no one's hands, or in those of the MAC itself. */
  predicate IpFree(t: Tables, ip: string, mac: string) {
    ip in t.ipIndex ==> Existing(t, mac).Some? && t.ipIndex[ip] == t.macIndex[mac]
  }

  lemma RenewIpRight(t: Tables, newId: Uuid, ip: string, mac: string, now: nat, secs: u32)
    requires Legacy(t) && IpRight(t) && Existing(t, mac).Some?
    ensures IpRight(Create(t, newId, ip, mac, now, secs)) <==> IpFree(t, ip, mac)
  {
    var t', mine := Create(t, newId, ip, mac, now, secs), t.macIndex[mac];
    if ip in t.ipIndex && t.ipIndex[ip] != mine {
      assert !IpPointsBack(t', t.ipIndex[ip]);
    } else {
      forall id | id in t'.leases
        ensures IpPointsBack(t', id)
      {
        assert IpPointsBack(t, id);
      }
    }
  }

  lemma AddIpRight(t: Tables, newId: Uuid, ip: string, mac: string, now: nat, secs: u32)
    requires Legacy(t) && IpRight(t) && FreshId(t, newId) && Existing(t, mac).None?
    ensures IpRight(Create(t, newId, ip, mac, now, secs)) <==> IpFree(t, ip, mac)
  {
    var t' := Create(t, newId, ip, mac, now, secs);
    if ip in t.ipIndex {
      assert !IpPointsBack(t', t.ipIndex[ip]);
    } else {
      forall id | id in t'.leases
        ensures IpPointsBack(t', id)
      {
        assert id != newId ==> IpPointsBack(t, id);
      }
    }
  }

  /** The IP index survives a create exactly when no other MAC's lease holds the address. */
  lemma CreateIpRight(t: Tables, newId: Uuid, ip: string, mac: string, now: nat, secs: u32)
    requires Legacy(t) && IpRight(t) && FreshId(t, newId)
    ensures IpRight(Create(t, newId, ip, mac, now, secs)) <==> IpFree(t, ip, mac)
  {
    if Existing(t, mac).Some? {
      RenewIpRight(t, newId, ip, mac, now, secs);
    } else {
      AddIpRight(t, newId, ip, mac, now, secs);
    }
  }

  const NONE := Tables(map[], map[], map[])

  /** Two MACs leased one address: the index forgets the first. */
  lemma SharedIpBreaksIndex(ip: string, now: nat, secs: u32)
    ensures var one := Create(NONE, "a", ip, "m", now, secs);
            var two := Create(one, "b", ip, "n", now, secs);
            Clean(two) && IpRight(one) && !IpRight(two) && !IpPointsBack(two, "a")
  {
    var one := Create(NONE, "a", ip, "m", now, secs);
    CreateIpRight(NONE, "a", ip, "m", now, secs);
    CreateIpRight(one, "b", ip, "n", now, secs);
  }

  lemma PurgeIpRight(t: Tables, dead: set<string>)
    requires IpRight(t) && dead <= t.leases.Keys
    ensures IpRight(Purge(t, dead))
  {
  }

  lemma PurgeOrphansIpRight(t: Tables)
    requires IpRight(t)
    ensures IpRight(PurgeOrphans(t))
  {
  }

  // --- Reading ---

  /** An inherited table with an expired and a live lease of one MAC. */
  const DOUBLED := Tables(map["a" := Lease("a", "1", "m", 0, 5, Active), "b" := Lease("b", "2", "m", 0, 90, Active)],
                          map["m" := "b"], map["1" := "a", "2" := "b"])

  /** Purging the expired lease takes the live one's entry with it: the MAC is not found any more. */
  lemma PurgeHidesLiveLease()
    ensures Legacy(DOUBLED) && FindByMac(DOUBLED, "m", 20) == Some(DOUBLED.leases["b"])
    ensures var t := Purge(DOUBLED, ExpiredIds(DOUBLED, 10));
            && "b" in t.leases && IsLive(t.leases["b"], 20) && FindByMac(t, "m", 20) == None
  {
    var dead := ExpiredIds(DOUBLED, 10);
    assert "a" in dead && "b" !in dead;
    assert DOUBLED.leases["a"].mac == "m";
  }

  predicate IsLive(l: Lease, now: nat) {
    l.state == Active && l.end > now
  }

  function LiveIn(leases: map<string, Lease>, ids: seq<string>, now: nat): seq<Lease>
    requires forall id :: id in ids ==> id in leases
  {
    if ids == [] then []
    else
      var rest, last := LiveIn(leases, ids[..|ids| - 1], now), leases[ids[|ids| - 1]];
      if IsLive(last, now) then rest + [last] else rest
  }

  method ScanLive(leases: map<string, Lease>, ids: seq<string>, now: nat) returns (result: seq<Lease>)
    requires forall id :: id in ids ==> id in leases
    ensures result == LiveIn(leases, ids, now)
  {
    result := [];
    for i := 0 to |ids|
      invariant result == LiveIn(leases, ids[..i], now)
    {
      var l := leases[ids[i]];
      if l.state == Active && l.end > now {
        result := result + [l];
      }
      assert ids[..i + 1][..i] == ids[..i];
    }
    assert ids[..|ids|] == ids;
  }

  lemma {:induction false} LiveInIsScan(t: Tables, ids: seq<string>, now: nat)
    requires Legacy(t) && forall id :: id in ids ==> id in t.leases
    requires NoDup(ids)
    ensures forall l :: l in LiveIn(t.leases, ids, now) <==> l.id in ids && t.leases[l.id] == l && IsLive(l, now)
    ensures NoDup(LiveIn(t.leases, ids, now))
    decreases |ids|
  {
    if ids != [] {
      var init, last := ids[..|ids| - 1], ids[|ids| - 1];
      LiveInIsScan(t, init, now);
      assert last !in init && t.leases[last].id == last;
      assert forall id :: id in ids <==> id in init || id == last;
      assert t.leases[last] !in LiveIn(t.leases, init, now);
    }
  }

  function FindByMac(t: Tables, mac: string, now: nat): Option<Lease> {
    var l := Existing(t, mac);
    if l.Some? && IsLive(l.value, now) then l else None
  }

  /** On a clean table the index finds a MAC's lease exactly if the scan lists it. */
  lemma FindAgreesWithScan(t: Tables, mac: string, now: nat)
    requires Clean(t)
    ensures forall l :: FindByMac(t, mac, now) == Some(l) <==>
                        l.id in t.leases && t.leases[l.id] == l && IsLive(l, now) && l.mac == mac
  {
  }

  // --- How long a lease is found ---

  predicate IsFor(op: Op, mac: string) {
    (op.DoCreate? || op.DoRelease?) && op.mac == mac
  }

  predicate Purges(op: Op, l: Lease) {
    op.DoPurge? && IsExpired(l, op.cutoff)
  }

  lemma PurgeLeavesLease(t: Tables, mac: string, cutoff: int)
    requires Clean(t)
    ensures var held := Existing(t, mac);
            Existing(Purge(t, ExpiredIds(t, cutoff)), mac) ==
            if held.Some? && IsExpired(held.value, cutoff) then None else held
  {
    var dead := ExpiredIds(t, cutoff);
    if Existing(t, mac).Some? && t.macIndex[mac] !in dead {
      forall d | d in dead
        ensures t.leases[d].mac != mac
      {
        assert Indexed(t, d);
      }
    }
  }

  lemma PurgeOrphansLeavesLease(t: Tables, mac: string)
    requires Clean(t)
    ensures Existing(PurgeOrphans(t), mac) == Existing(t, mac)
  {
    if Existing(t, mac).Some? {
      assert t.macIndex[mac] in t.macIndex.Values;
    }
  }

  lemma CreateLeavesLease(t: Tables, newId: Uuid, ip: string, other: string, now: nat, secs: u32, mac: string)
    requires Clean(t) && FreshId(t, newId) && other != mac
    ensures Existing(Create(t, newId, ip, other, now, secs), mac) == Existing(t, mac)
  {
    if mac in t.macIndex {
      assert t.macIndex[mac] in t.macIndex.Values;
    }
  }

  /** What is not for a MAC leaves its lease alone, unless it is a purge after the lease's end. */
  lemma StepLeavesLease(t: Tables, op: Op, mac: string)
    requires Clean(t) && (op.DoCreate? ==> FreshId(t, op.newId)) && !IsFor(op, mac)
    ensures var held := Existing(t, mac);
            Existing(Apply(t, op), mac) == if held.Some? && Purges(op, held.value) then None else held
  {
    match op
    case DoCreate(newId, ip, other, now, secs) => CreateLeavesLease(t, newId, ip, other, now, secs, mac);
    case DoRelease(other) =>
    case DoPurge(cutoff) => PurgeLeavesLease(t, mac, cutoff);
    case DoPurgeOrphans => PurgeOrphansLeavesLease(t, mac);
  }

  /** Over a whole run for other MACs a lease stays as it is, or goes with the first purge after its end. */
  lemma {:induction false} OthersLeaveLease(t: Tables, ops: seq<Op>, mac: string)
    requires Clean(t) && FreshRun(t, ops) && forall i :: 0 <= i < |ops| ==> !IsFor(ops[i], mac)
    ensures var held := Existing(t, mac);
            Existing(Run(t, ops), mac) ==
            if held.Some? && exists i :: 0 <= i < |ops| && Purges(ops[i], held.value) then None else held
    decreases |ops|
  {
    if ops != [] {
      var rest := ops[1..];
      StepKeeps(t, ops[0]);
      StepLeavesLease(t, ops[0], mac);
      OthersLeaveLease(Apply(t, ops[0]), rest, mac);
      assert forall i :: 0 < i < |ops| ==> ops[i] == rest[i - 1];
      assert forall i :: 0 <= i < |rest| ==> rest[i] == ops[i + 1];
    }
  }

  lemma CreatedExists(t: Tables, newId: Uuid, ip: string, mac: string, now: nat, secs: u32)
    ensures var held := Existing(Create(t, newId, ip, mac, now, secs), mac);
            && held.Some? && held.value.ip == ip && held.value.mac == mac
            && held.value.end == now + secs && held.value.state == Active
  {
  }

  /**
   A lease is found by its MAC, with its address, at exactly the instants before its
   time is over, however other leases come and go, until a purge past its end.
   */
  lemma LeaseLives(t: Tables, newId: Uuid, ip: string, mac: string, now: nat, secs: u32, ops: seq<Op>, at: nat)
    requires Clean(t) && FreshId(t, newId) && FreshRun(Create(t, newId, ip, mac, now, secs), ops)
    requires forall i :: 0 <= i < |ops| ==> !IsFor(ops[i], mac)
    ensures var found := FindByMac(Run(Create(t, newId, ip, mac, now, secs), ops), mac, at);
            && (found.Some? <==>
                  at < now + secs && forall i :: 0 <= i < |ops| && ops[i].DoPurge? ==> ops[i].cutoff <= now + secs)
            && (found.Some? ==> found.value.ip == ip && found.value.mac == mac && found.value.end == now + secs)
  {
    var made := Create(t, newId, ip, mac, now, secs);
    CreatedExists(t, newId, ip, mac, now, secs);
    CreateKeeps(t, newId, ip, mac, now, secs);
    OthersLeaveLease(made, ops, mac);
    var l := Existing(made, mac).value;
    assert forall i :: 0 <= i < |ops| ==> (Purges(ops[i], l) <==> ops[i].DoPurge? && ops[i].cutoff > now + secs);
  }

  /** A released MAC is found at no instant until it is leased again. */
  lemma ReleasedIsGone(t: Tables, mac: string, ops: seq<Op>, at: nat)
    requires Clean(t) && FreshRun(Release(t, mac), ops) && forall i :: 0 <= i < |ops| ==> !IsFor(ops[i], mac)
    ensures FindByMac(Run(Release(t, mac), ops), mac, at).None?
  {
    ReleaseKeeps(t, mac);
    OthersLeaveLease(Release(t, mac), ops, mac);
  }

  // --- The manager ---

  class LeaseManager {
    var leases: map<string, Lease>
    var macIndex: map<string, string>
    var ipIndex: map<string, string>

    constructor ()
      ensures View() == Tables(map[], map[], map[]) && Clean(View()) && IpRight(View())
    {
      leases, macIndex, ipIndex := map[], map[], map[];
    }

    ghost function View(): Tables
      reads this
    {
      Tables(leases, macIndex, ipIndex)
    }

    /** Upserts by MAC; the inherited or clean state is kept. */
    method CreateLease(ip: string, mac: string, secs: u32, now: nat) returns (lease: Lease)
      requires Legacy(View())
      modifies this
      ensures exists newId: Uuid ::
                FreshId(old(View()), newId) && View() == old(Create(View(), newId, ip, mac, now, secs))
      ensures Legacy(View()) && (old(Clean(View())) ==> Clean(View()))
      ensures Existing(View(), mac) == Some(lease) && lease.ip == ip && lease.mac == mac
      ensures lease.start == now && lease.end == now + secs && lease.state == Active
      ensures old(Existing(View(), mac)).Some? ==> lease.id == old(Existing(View(), mac)).value.id
    {
      var newId := NewUuid(leases.Keys + macIndex.Values);
      CreateKeeps(View(), newId, ip, mac, now, secs);
      if mac in macIndex && macIndex[mac] in leases {
        var id := macIndex[mac];
        var held := leases[id];
        lease := NewLease(held.id, ip, mac, now, secs);
        leases := leases[id := lease];
        if held.ip != ip {
          ipIndex := ipIndex - {held.ip};
          ipIndex := ipIndex[ip := id];
        }
      } else {
        lease := NewLease(newId, ip, mac, now, secs);
        leases := leases[newId := lease];
        macIndex := macIndex[mac := newId];
        ipIndex := ipIndex[ip := newId];
      }
    }

    method FindLeaseByMac(mac: string, now: nat) returns (lease: Option<Lease>)
      ensures lease == FindByMac(View(), mac, now)
    {
      if mac !in macIndex || macIndex[mac] !in leases {
        return None;
      }
      var l := leases[macIndex[mac]];
      lease := if l.state == Active && l.end > now then Some(l) else None;
    }

    method ReleaseLeaseByMac(mac: string)
      requires Legacy(View())
      modifies this`leases
      ensures View() == old(Release(View(), mac))
      ensures Legacy(View()) && (old(Clean(View())) ==> Clean(View()))
    {
      ReleaseKeeps(View(), mac);
      if mac in macIndex && macIndex[mac] in leases {
        leases := leases[macIndex[mac] := leases[macIndex[mac]].(state := Released)];
      }
    }

    method ListActiveLeases(now: nat) returns (result: seq<Lease>)
      requires Legacy(View())
      ensures forall l :: l in result <==> l.id in leases && leases[l.id] == l && IsLive(l, now)
      ensures NoDup(result)
    {
      var ids := InOrder(leases.Keys);
      result := ScanLive(leases, ids, now);
      LiveInIsScan(View(), ids, now);
    }

    /** Deletes what ended before the cutoff, and the index entries under its MAC and IP. */
    method PurgeExpiredLeases(cutoff: int) returns (count: nat)
      requires Legacy(View())
      modifies this
      ensures View() == old(Purge(View(), ExpiredIds(View(), cutoff)))
      ensures forall id :: id in leases <==>
                           id in old(leases) && (old(leases)[id].end >= cutoff || old(leases)[id].state == Expired)
      ensures count == |ExpiredIds(old(View()), cutoff)|
      ensures Legacy(View()) && (old(Clean(View())) ==> Clean(View()))
    {
      var dead := set id | id in leases && IsExpired(leases[id], cutoff);
      PurgeKeeps(View(), dead);
      StaysOnTime(View(), cutoff);
      count := |dead|;
      var todo := dead;
      while todo != {}
        invariant todo <= dead
        invariant PurgedBut(old(View()), View(), dead, todo)
      {
        var id :| id in todo;
        PurgeOneMore(old(View()), View(), dead, todo, id);
        var l := leases[id];
        leases := leases - {id};
        macIndex := macIndex - {l.mac};
        ipIndex := ipIndex - {l.ip};
        todo := todo - {id};
      }
      assert dead - {} == dead;
    }

    /** Deletes the leases no MAC entry points at. */
    method PurgeOrphanedLeases() returns (count: nat)
      requires Legacy(View())
      modifies this`leases, this`ipIndex
      ensures View() == old(PurgeOrphans(View()))
      ensures count == |Orphans(old(View()))|
      ensures Clean(View())
    {
      PurgeOrphansCleans(View());
      var indexed := macIndex.Values;
      var orphans := set id | id in leases && id !in indexed;
      count := |orphans|;
      var todo := orphans;
      while todo != {}
        invariant todo <= orphans
        invariant OrphansPurgedBut(old(View()), View(), orphans, todo)
      {
        var id :| id in todo;
        OrphanOneMore(old(View()), View(), orphans, todo, id);
        var ip := leases[id].ip;
        leases := leases - {id};
        if ip in ipIndex && ipIndex[ip] == id {
          ipIndex := ipIndex - {ip};
        }
        todo := todo - {id};
      }
      assert orphans - {} == orphans;
    }
  }

  lemma StaysOnTime(t: Tables, cutoff: int)
    ensures var kept := Purge(t, ExpiredIds(t, cutoff)).leases;
            forall id :: id in kept <==> id in t.leases && (t.leases[id].end >= cutoff || t.leases[id].state == Expired)
  {
  }

  ghost predicate PurgedBut(before: Tables, t: Tables, dead: set<string>, todo: set<string>) {
    dead <= before.leases.Keys && todo <= dead && t == Purge(before, dead - todo)
  }

  lemma PurgeOneMore(before: Tables, t: Tables, dead: set<string>, todo: set<string>, id: string)
    requires PurgedBut(before, t, dead, todo) && id in todo
    ensures id in t.leases && t.leases[id] == before.leases[id]
    ensures var l := before.leases[id];
            PurgedBut(before, Tables(t.leases - {id}, t.macIndex - {l.mac}, t.ipIndex - {l.ip}), dead, todo - {id})
  {
  }

  ghost predicate OrphansPurgedBut(before: Tables, t: Tables, orphans: set<string>, todo: set<string>) {
    && orphans <= before.leases.Keys && todo <= orphans
    && t == Tables(before.leases - (orphans - todo), before.macIndex, before.ipIndex - StaleIps(before, orphans - todo))
  }

  lemma OrphanOneMore(before: Tables, t: Tables, orphans: set<string>, todo: set<string>, id: string)
    requires OrphansPurgedBut(before, t, orphans, todo) && id in todo
    ensures id in t.leases && t.leases[id] == before.leases[id]
    ensures var ip := before.leases[id].ip;
            OrphansPurgedBut(before, Tables(t.leases - {id}, t.macIndex,
                                            if ip in t.ipIndex && t.ipIndex[ip] == id then t.ipIndex - {ip}
                                            else t.ipIndex),
                             orphans, todo - {id})
  {
  }
}
