/**
 The load balancer's probe cycle: collect the monitored records, apply the probe
 results, keep the last-alive member of a group that is down, write the enabled
 flags back and persist a snapshot that a restart can continue from.
 */
module Monitor {
  import opened Text
  import opened Types
  import opened Store
  import opened Database
  import opened Health

  function GroupOf(r: Record): Group {
    Group(r.zoneId, r.name, r.data.Type())
  }

  /** Two records stand in for each other exactly if they have the same zone, name and type. */
  lemma SameGroup(r: Record, s: Record)
    ensures GroupOf(r) == GroupOf(s) <==> r.zoneId == s.zoneId && r.name == s.name && r.data.Type() == s.data.Type()
  {
  }

  /** An address record with a health check. */
  predicate Checked(r: Record)
    ensures Checked(r) <==> r.healthCheck.Some? && r.data.Type() in {A, AAAA}
  {
    r.healthCheck.Some? && (r.data.Addr4? || r.data.Addr6?)
  }

  predicate Monitored(records: map<string, Record>, zones: map<string, Zone>, id: string) {
    id in records && Checked(records[id]) && records[id].zoneId in zones
  }

  // --- The state a cycle works on ---

  /** Live records keep their health; new ones are registered with thresholds of at least one. */
  function Enrol(m: map<string, RecordHealth>, records: map<string, Record>,
                 live: set<string>): map<string, RecordHealth>
    requires forall id :: id in live ==> id in records && records[id].healthCheck.Some?
  {
    map id | id in live :: if id in m then m[id] else Fresh(records[id])
  }

  function Fresh(r: Record): RecordHealth
    requires r.healthCheck.Some?
  {
    var hc := r.healthCheck.value;
    NewHealth(AtLeastOne(hc.healthyThreshold), AtLeastOne(hc.unhealthyThreshold), GroupOf(r))
  }

  /** The health of a record goes with its group and its health-check settings. */
  predicate Matches(h: RecordHealth, r: Record) {
    r.healthCheck.Some? ==>
      && h.group == GroupOf(r)
      && AtLeastOne(h.healthyThreshold) == AtLeastOne(r.healthCheck.value.healthyThreshold)
      && AtLeastOne(h.unhealthyThreshold) == AtLeastOne(r.healthCheck.value.unhealthyThreshold)
  }

  ghost predicate Faithful(m: map<string, RecordHealth>, records: map<string, Record>) {
    forall id :: id in m ==> Unprobed(m[id]) && (id in records ==> Matches(m[id], records[id]))
  }

  lemma {:induction false} ObservedFaithful(m: map<string, RecordHealth>, records: map<string, Record>,
                                            events: seq<Event>)
    requires Faithful(m, records)
    ensures Faithful(Observed(m, events), records)
    ensures Observed(m, events).Keys == m.Keys
    decreases |events|
  {
    if events != [] {
      ObservedFaithful(m, records, events[..|events| - 1]);
    }
  }

  // --- A restart between cycles ---

  /** The rows persisted for a state. */
  ghost predicate Snapshot(m: map<string, RecordHealth>, rows: map<string, PersistedHealth>) {
    && (forall id :: id in rows <==> id in m && m[id].lastCheckedAt.Some?)
    && forall id :: id in rows ==> IsUuid(id) && ToPersisted(id, m[id]) == Some(rows[id])
  }

  predicate Loadable(records: map<string, Record>, id: string) {
    id in records && records[id].healthCheck.Some?
  }

  function Loaded(row: PersistedHealth, r: Record): RecordHealth
    requires r.healthCheck.Some?
  {
    FromPersisted(row, r.healthCheck.value.healthyThreshold, r.healthCheck.value.unhealthyThreshold, GroupOf(r))
  }

  /** What is loaded from the rows: those whose record is still there and still checked. */
  function Hydrated(rows: map<string, PersistedHealth>, records: map<string, Record>): map<string, RecordHealth> {
    map id | id in rows && Loadable(records, id) :: Loaded(rows[id], records[id])
  }

  lemma RestartIsAlike(m: map<string, RecordHealth>, rows: map<string, PersistedHealth>, records: map<string, Record>,
                       live: set<string>)
    requires Snapshot(m, rows) && Faithful(m, records)
    requires forall id :: id in live ==> id in records && records[id].healthCheck.Some?
    ensures AllAlike(Enrol(Hydrated(rows, records), records, live), Enrol(m, records, live))
  {
    forall id | id in live
      ensures Alike(Enrol(Hydrated(rows, records), records, live)[id], Enrol(m, records, live)[id])
    {
      if id in m {
        assert Matches(m[id], records[id]) && Unprobed(m[id]);
      }
    }
  }

  /**
   A restart is invisible: whatever is probed afterwards, and whichever records are
   live, every record has the same status and enabled decision and the failsafe has
   the same candidates as without it.
   */
  lemma RestartIsInvisible(m: map<string, RecordHealth>, rows: map<string, PersistedHealth>,
                           records: map<string, Record>,
                           live: set<string>, events: seq<Event>, id: string)
    requires Snapshot(m, rows) && Faithful(m, records)
    requires forall x :: x in live ==> x in records && records[x].healthCheck.Some?
    requires id in live
    ensures var with := Observed(Enrol(Hydrated(rows, records), records, live), events);
            var without := Observed(Enrol(m, records, live), events);
            && id in with && id in without
            && with[id].status == without[id].status
            && ShouldBeEnabled(with[id]) == ShouldBeEnabled(without[id])
            && (Candidate(with, id) <==> Candidate(without, id))
  {
    var m1, m2 := Enrol(Hydrated(rows, records), records, live), Enrol(m, records, live);
    RestartIsAlike(m, rows, records, live);
    AlikeForever(m1, m2, events);
    AlikeCandidates(Observed(m1, events), Observed(m2, events), id);
    ObservedKeys(m2, events);
  }

  lemma {:induction false} ObservedKeys(m: map<string, RecordHealth>, events: seq<Event>)
    ensures Observed(m, events).Keys == m.Keys
    decreases |events|
  {
    if events != [] {
      ObservedKeys(m, events[..|events| - 1]);
    }
  }

  // --- What a cycle leaves in the database ---

  /** A record ends up enabled if its health says so or the failsafe picked it. */
  predicate Decided(m: map<string, RecordHealth>, picks: seq<string>, id: string)
    requires id in m
  {
    ShouldBeEnabled(m[id]) || id in picks
  }

  ghost predicate IsFailsafe(m: map<string, RecordHealth>, picks: seq<string>) {
    && (forall id :: id in picks ==> Candidate(m, id))
    && (forall g :: GroupDown(m, g) && EverAlive(m, g) ==> PickedFor(m, picks, g))
    && OnePerGroup(m, picks)
  }

  ghost predicate Serving(m: map<string, RecordHealth>, picks: seq<string>, g: Group) {
    exists id :: id in m && m[id].group == g && Decided(m, picks, id)
  }

  /** A group keeps an enabled record exactly when some member is not Unhealthy, or it is down and was ever alive. */
  lemma GroupKeepsServing(m: map<string, RecordHealth>, picks: seq<string>, g: Group)
    requires IsFailsafe(m, picks)
    ensures Serving(m, picks, g) <==>
              || (exists id :: id in m && m[id].group == g && m[id].status != Unhealthy)
              || (GroupDown(m, g) && EverAlive(m, g))
  {
  }

  /**
   In a group whose probes left every member down after at least one success, exactly
   one record is enabled, and no member's last success is later than its.
   */
  lemma DownGroupKeepsItsLastAlive(m: map<string, RecordHealth>, past: map<string, seq<Probe>>, picks: seq<string>,
                                   g: Group) returns (id: string)
    requires IsFailsafe(m, picks) && Recalls(m, past) && AllDown(m, past, g) && EverUp(m, past, g)
    ensures id in m && m[id].group == g && Decided(m, picks, id) && UpLast(m, past, id)
    ensures forall x :: x in m && m[x].group == g && Decided(m, picks, x) ==> x == id
  {
    AllDownIsGroupDown(m, past, g);
    assert PickedFor(m, picks, g);
    id :| id in picks && id in m && m[id].group == g;
    assert Candidate(m, id);
    LastAliveIsUpLast(m, past, id);
    forall x | x in m && m[x].group == g && Decided(m, picks, x)
      ensures x == id
    {
      OnePick(m, picks, g, id, x);
    }
  }

  lemma OnePick(m: map<string, RecordHealth>, picks: seq<string>, g: Group, id: string, x: string)
    requires OnePerGroup(m, picks) && id in picks && id in m && x in m && m[id].group == g && m[x].group == g
    requires GroupDown(m, g) && Decided(m, picks, x)
    ensures x == id
  {
    var i :| 0 <= i < |picks| && picks[i] == id;
    var j :| 0 <= j < |picks| && picks[j] == x;
    assert i == j;
  }

  // --- The cycle ---

  datatype Arrival = Arrival(id: string, success: bool)

  /** Every monitored record is probed once; results arrive in any order. */
  ghost predicate Completes(arrivals: seq<Arrival>, records: map<string, Record>, zones: map<string, Zone>) {
    && (forall i, j :: 0 <= i < j < |arrivals| ==> arrivals[i].id != arrivals[j].id)
    && (forall i :: 0 <= i < |arrivals| ==> Monitored(records, zones, arrivals[i].id))
    && forall id :: Monitored(records, zones, id) ==> exists i :: 0 <= i < |arrivals| && arrivals[i].id == id
  }

  ghost function ProbedBy(arrivals: seq<Arrival>, n: nat): set<string>
    requires n <= |arrivals|
  {
    set k | 0 <= k < n :: arrivals[k].id
  }

  lemma ProbedOneMore(arrivals: seq<Arrival>, records: map<string, Record>, zones: map<string, Zone>, n: nat)
    requires Completes(arrivals, records, zones) && n < |arrivals|
    ensures arrivals[n].id in records && arrivals[n].id !in ProbedBy(arrivals, n)
    ensures ProbedBy(arrivals, n + 1) == ProbedBy(arrivals, n) + {arrivals[n].id}
  {
  }

  lemma ProbedAll(arrivals: seq<Arrival>, records: map<string, Record>, zones: map<string, Zone>)
    requires Completes(arrivals, records, zones)
    ensures ProbedBy(arrivals, |arrivals|) == LiveIds(records, zones)
  {
  }

  function Events(arrivals: seq<Arrival>, now: nat): (events: seq<Event>)
    ensures |events| == |arrivals|
  {
    seq(|arrivals|, i requires 0 <= i < |arrivals| => Event(arrivals[i].id, arrivals[i].success, now))
  }

  function LiveIds(records: map<string, Record>, zones: map<string, Zone>): set<string> {
    set id | id in records && Monitored(records, zones, id)
  }

  /** The health of all monitored records at the end of the cycle. */
  function CycleState(m: map<string, RecordHealth>, records: map<string, Record>, zones: map<string, Zone>,
                      arrivals: seq<Arrival>, now: nat): map<string, RecordHealth> {
    Observed(Enrol(m, records, LiveIds(records, zones)), Events(arrivals, now))
  }

  // --- Each phase on values ---

  /** The checked records of the given zones, each once. */
  ghost predicate TargetsOf(t: Tables, zoneIds: set<string>, targets: seq<Record>) {
    DistinctIds(targets) && forall r :: r in targets <==> Stored(t, r) && Checked(r) && r.zoneId in zoneIds
  }

  function CheckedOnly(rs: seq<Record>): (out: seq<Record>)
    ensures forall r :: r in out <==> r in rs && Checked(r)
  {
    if rs == [] then []
    else CheckedOnly(rs[..|rs| - 1]) + if Checked(rs[|rs| - 1]) then [rs[|rs| - 1]] else []
  }

  lemma {:induction false} CheckedOnlyDistinct(rs: seq<Record>)
    requires DistinctIds(rs)
    ensures DistinctIds(CheckedOnly(rs))
    decreases |rs|
  {
    if rs != [] {
      var init, last := rs[..|rs| - 1], rs[|rs| - 1];
      CheckedOnlyDistinct(init);
      forall r | r in CheckedOnly(init)
        ensures r.id != last.id
      {
        assert r in init;
      }
    }
  }

  lemma TargetsOneMore(t: Tables, done: set<string>, zoneId: string, targets: seq<Record>, rs: seq<Record>)
    requires TargetsOf(t, done, targets) && zoneId !in done
    requires NoDup(rs) && forall r :: r in rs <==> Stored(t, r) && r.zoneId == zoneId
    ensures TargetsOf(t, done + {zoneId}, targets + CheckedOnly(rs))
  {
    assert DistinctIds(rs) by {
      forall i, j | 0 <= i < j < |rs|
        ensures rs[i].id != rs[j].id
      {
        assert rs[i] in rs && rs[j] in rs;
      }
    }
    CheckedOnlyDistinct(rs);
    var all := targets + CheckedOnly(rs);
    forall i, j | 0 <= i < j < |all|
      ensures all[i].id != all[j].id
    {
      if i < |targets| <= j {
        assert all[i] in targets && all[j] in CheckedOnly(rs);
      }
    }
  }

  /** `m` holds what `before` held, and a fresh entry for each of the other targets. */
  ghost predicate EnrolledAll(before: map<string, RecordHealth>, m: map<string, RecordHealth>, targets: seq<Record>) {
    && (forall id :: id in m <==> id in before || exists r :: r in targets && r.id == id)
    && (forall id :: id in before ==> id in m && m[id] == before[id])
    && forall r :: r in targets && r.id !in before ==> r.healthCheck.Some? && r.id in m && m[r.id] == Fresh(r)
  }

  lemma EnrolOneMore(before: map<string, RecordHealth>, m: map<string, RecordHealth>, targets: seq<Record>, i: nat)
    requires i < |targets| && targets[i].healthCheck.Some? && DistinctIds(targets)
    requires EnrolledAll(before, m, targets[..i])
    ensures EnrolledAll(before, if targets[i].id in m then m else m[targets[i].id := Fresh(targets[i])],
                        targets[..i + 1])
  {
    var r := targets[i];
    assert targets[..i + 1] == targets[..i] + [r];
    assert r in targets[..i + 1];
    forall x | x in targets[..i]
      ensures x.id != r.id && x in targets[..i + 1]
    {
    }
  }

  lemma TargetsAreLive(t: Tables, zones: map<string, Zone>, targets: seq<Record>)
    requires Indexed(t) && TargetsOf(t, zones.Keys, targets)
    ensures (set r | r in targets :: r.id) == LiveIds(t.records, zones)
    ensures forall id :: id in LiveIds(t.records, zones) ==> t.records[id] in targets && t.records[id].id == id
  {
  }

  lemma EnrolledIsEnrol(records: map<string, Record>, live: set<string>, before: map<string, RecordHealth>,
                        m: map<string, RecordHealth>, targets: seq<Record>)
    requires live == set r | r in targets :: r.id
    requires forall id :: id in live ==>
              id in records && records[id].healthCheck.Some? && records[id] in targets && records[id].id == id
    requires EnrolledAll(before, m, targets)
    ensures (map id | id in m && id in live :: m[id]) == Enrol(before, records, live)
    ensures m.Keys - live == before.Keys - live
  {
  }

  /** The flags to change, given the health of the records probed so far. */
  ghost predicate UpdatesFor(updates: map<string, bool>, m: map<string, RecordHealth>, records: map<string, Record>,
                             probed: set<string>) {
    && probed <= m.Keys && probed <= records.Keys && updates.Keys <= probed
    && forall id :: id in probed ==>
         && (id in updates <==> ShouldBeEnabled(m[id]) != records[id].enabled)
         && (id in updates ==> updates[id] == ShouldBeEnabled(m[id]))
  }

  lemma DecideOneMore(updates: map<string, bool>, m: map<string, RecordHealth>, records: map<string, Record>,
                      probed: set<string>, id: string, h: RecordHealth)
    requires UpdatesFor(updates, m, records, probed) && id in m && id in records && id !in probed
    ensures UpdatesFor(if ShouldBeEnabled(h) != records[id].enabled then updates[id := ShouldBeEnabled(h)] else updates,
                       m[id := h], records, probed + {id})
  {
  }

  /** The picks are switched on, the rest stays. */
  ghost predicate PicksSwitchedOn(updates: map<string, bool>, all: map<string, bool>, picks: seq<string>) {
    && (forall id :: id in all <==> id in updates || id in picks)
    && forall id :: id in all ==> all[id] == (id in picks || updates[id])
  }

  /** The enabled flags of the given ids are written. */
  ghost predicate Written(before: map<string, Record>, after: map<string, Record>, updates: map<string, bool>,
                          ids: seq<string>) {
    && after.Keys == before.Keys
    && forall id :: id in before ==>
         after[id] == if id in ids && id in updates then before[id].(enabled := updates[id]) else before[id]
  }

  /** Every monitored record is enabled as decided, and nothing else changed. */
  ghost predicate EnabledAs(before: map<string, Record>, after: map<string, Record>, zones: map<string, Zone>,
                            m: map<string, RecordHealth>, picks: seq<string>) {
    && after.Keys == before.Keys
    && forall id :: id in before ==>
         after[id] == if Monitored(before, zones, id) && id in m
                      then before[id].(enabled := Decided(m, picks, id)) else before[id]
  }

  lemma WrittenIsDecided(before: map<string, Record>, after: map<string, Record>, zones: map<string, Zone>,
                         updates: map<string, bool>, all: map<string, bool>, m: map<string, RecordHealth>,
                         picks: seq<string>, ids: seq<string>)
    requires UpdatesFor(updates, m, before, LiveIds(before, zones))
    requires forall id :: id in m <==> Monitored(before, zones, id)
    requires IsFailsafe(m, picks) && PicksSwitchedOn(updates, all, picks)
    requires Written(before, after, all, ids) && forall id :: id in ids <==> id in all
    ensures EnabledAs(before, after, zones, m, picks)
  {
  }

  class HealthMonitor {
    const db: Db
    const state: HealthState

    constructor (db: Db, state: HealthState)
      ensures this.db == db && this.state == state
    {
      this.db := db;
      this.state := state;
    }

    /** Loads one row, or reports it orphaned. */
    method LoadRow(id: Uuid) returns (ok: bool)
      requires id in db.health
      modifies state
      ensures ok == Loadable(db.records, id)
      ensures state.records ==
                if ok then old(state.records)[id := Loaded(db.health[id], db.records[id])] else old(state.records)
    {
      var record := db.GetRecord(id);
      ok := record.Some? && record.value.healthCheck.Some?;
      if ok {
        var hc := record.value.healthCheck.value;
        state.Hydrate(id,
                      FromPersisted(db.health[id], hc.healthyThreshold, hc.unhealthyThreshold, GroupOf(record.value)));
      }
    }

    method LoadRows(ids: seq<string>) returns (orphaned: set<string>, ghost loaded: map<string, RecordHealth>)
      requires forall id :: id in ids ==> id in db.health && IsUuid(id)
      modifies state
      ensures state.records == old(state.records) + loaded
      ensures LoadedFrom(loaded, db.health, db.records, ids) && OrphanedFrom(orphaned, db.records, ids)
    {
      orphaned, loaded := {}, map[];
      for i := 0 to |ids|
        invariant state.records == old(state.records) + loaded
        invariant LoadedFrom(loaded, db.health, db.records, ids[..i]) && OrphanedFrom(orphaned, db.records, ids[..i])
      {
        LoadStep(loaded, orphaned, db.health, db.records, ids, i);
        var ok := LoadRow(ids[i]);
        if ok {
          loaded := loaded[ids[i] := Loaded(db.health[ids[i]], db.records[ids[i]])];
        } else {
          orphaned := orphaned + {ids[i]};
        }
      }
      assert ids[..|ids|] == ids;
    }

    /** Loads what was persisted and forgets the rows that no longer belong to a checked record. */
    method Hydrate()
      requires forall id :: id in db.health ==> IsUuid(id)
      modifies state, db`health
      ensures state.records == old(state.records) + Hydrated(old(db.health), db.records)
      ensures db.health == map id | id in old(db.health) && Loadable(db.records, id) :: old(db.health)[id]
    {
      var ids := InOrder(db.health.Keys);
      ghost var loaded;
      var orphaned;
      orphaned, loaded := LoadRows(ids);
      LoadedAll(loaded, orphaned, db.health, db.records, ids);
      db.health := db.health - orphaned;
    }

    method AddZone(zoneId: Uuid, before: seq<Record>, ghost done: set<string>) returns (targets: seq<Record>)
      requires db.Valid() && TargetsOf(db.View(), done, before) && zoneId !in done
      ensures TargetsOf(db.View(), done + {zoneId}, targets)
    {
      var rs := db.ListRecords(zoneId);
      TargetsOneMore(db.View(), done, zoneId, before, rs);
      targets := before + CheckedOnly(rs);
    }

    /** The checked records of all zones. */
    method CollectTargets() returns (targets: seq<Record>)
      requires db.Valid() && db.ZonesKeyed()
      ensures TargetsOf(db.View(), db.zones.Keys, targets)
    {
      targets := [];
      var ids := InOrder(db.zones.Keys);
      ghost var done: set<string> := {};
      for i := 0 to |ids|
        invariant done == set id | id in ids[..i]
        invariant TargetsOf(db.View(), done, targets)
      {
        assert ids[..i + 1] == ids[..i] + [ids[i]] && ids[i] !in ids[..i];
        assert db.zones[ids[i]].id == ids[i];
        targets := AddZone(db.zones[ids[i]].id, targets, done);
        done := done + {ids[i]};
      }
      assert ids[..|ids|] == ids;
      assert done == db.zones.Keys;
    }

    method RegisterAll(targets: seq<Record>)
      requires DistinctIds(targets) && forall r :: r in targets ==> r.healthCheck.Some?
      modifies state
      ensures EnrolledAll(old(state.records), state.records, targets)
    {
      for i := 0 to |targets|
        invariant EnrolledAll(old(state.records), state.records, targets[..i])
      {
        var r := targets[i];
        EnrolOneMore(old(state.records), state.records, targets, i);
        var hc := r.healthCheck.value;
        state.Register(r.id, AtLeastOne(hc.healthyThreshold), AtLeastOne(hc.unhealthyThreshold), GroupOf(r));
      }
      assert targets[..|targets|] == targets;
    }

    /** Registers the targets, drops everything else and its persisted row. */
    method Enrolment(targets: seq<Record>)
      requires db.Valid() && TargetsOf(db.View(), db.zones.Keys, targets)
      modifies state, db`health
      ensures state.records == Enrol(old(state.records), db.records, LiveIds(db.records, db.zones))
      ensures db.health == old(db.health) - (old(state.records).Keys - LiveIds(db.records, db.zones))
    {
      TargetsAreLive(db.View(), db.zones, targets);
      RegisterAll(targets);
      EnrolledIsEnrol(db.records, LiveIds(db.records, db.zones), old(state.records), state.records, targets);
      var dropped := state.RetainOnly(set r | r in targets :: r.id);
      db.health := db.health - dropped;
    }

    /** Applies one probe result and notes whether the record's flag has to change. */
    method DecideOne(a: Arrival, before: map<string, bool>, now: nat, ghost probed: set<string>)
      returns (updates: map<string, bool>)
      requires UpdatesFor(before, state.records, db.records, probed)
      requires a.id in state.records && a.id in db.records && a.id !in probed
      modifies state
      ensures state.records == old(state.records)[a.id := Observe(old(state.records)[a.id], a.success, now)]
      ensures UpdatesFor(updates, state.records, db.records, probed + {a.id})
    {
      DecideOneMore(before, state.records, db.records, probed, a.id, Observe(state.records[a.id], a.success, now));
      updates := before;
      var change := state.RecordResult(a.id, a.success, now);
      var on := ShouldBeEnabled(state.records[a.id]);
      if on != db.records[a.id].enabled {
        updates := updates[a.id := on];
      }
    }

    /** Applies the probe results as they arrived and notes which flags have to change. */
    method Decide(arrivals: seq<Arrival>, now: nat) returns (updates: map<string, bool>)
      requires Completes(arrivals, db.records, db.zones)
      requires forall i :: 0 <= i < |arrivals| ==> arrivals[i].id in state.records
      modifies state
      ensures state.records == Observed(old(state.records), Events(arrivals, now))
      ensures UpdatesFor(updates, state.records, db.records, LiveIds(db.records, db.zones))
    {
      updates := map[];
      ghost var events := Events(arrivals, now);
      for i := 0 to |arrivals|
        invariant state.records == Observed(old(state.records), events[..i])
        invariant state.records.Keys == old(state.records).Keys
        invariant UpdatesFor(updates, state.records, db.records, ProbedBy(arrivals, i))
      {
        assert events[..i + 1][..i] == events[..i];
        ProbedOneMore(arrivals, db.records, db.zones, i);
        updates := DecideOne(arrivals[i], updates, now, ProbedBy(arrivals, i));
      }
      assert events[..|arrivals|] == events;
      ProbedAll(arrivals, db.records, db.zones);
    }

    method SwitchOn(updates: map<string, bool>, picks: seq<string>) returns (all: map<string, bool>)
      ensures PicksSwitchedOn(updates, all, picks)
    {
      all := updates;
      for i := 0 to |picks|
        invariant PicksSwitchedOn(updates, all, picks[..i])
      {
        all := all[picks[i] := true];
        assert picks[..i + 1] == picks[..i] + [picks[i]];
      }
      assert picks[..|picks|] == picks;
    }

    method WriteFlag(id: string, on: bool)
      requires db.Valid()
      modifies db`records
      ensures db.Valid()
      ensures db.records ==
                if id in old(db.records) then old(db.records)[id := old(db.records)[id].(enabled := on)]
                else old(db.records)
    {
      if id in db.records && db.records[id].enabled != on {
        var r := db.records[id].(enabled := on);
        var res := db.UpdateRecord(r);
      }
    }

    /** Writes the flags that differ, one record at a time. */
    method WriteFlags(updates: map<string, bool>) returns (ids: seq<string>)
      requires db.Valid()
      modifies db`records
      ensures db.Valid()
      ensures forall id :: id in ids <==> id in updates
      ensures Written(old(db.records), db.records, updates, ids)
    {
      ids := InOrder(updates.Keys);
      for i := 0 to |ids|
        invariant db.Valid()
        invariant Written(old(db.records), db.records, updates, ids[..i])
      {
        WriteOneMore(old(db.records), db.records, updates, ids, i);
        WriteFlag(ids[i], updates[ids[i]]);
      }
      assert ids[..|ids|] == ids;
    }

    /** Upserts a row for every record that has been probed. */
    method PersistSnapshot()
      requires forall id :: id in state.records ==> IsUuid(id)
      modifies db`health
      ensures Upserted(old(db.health), db.health, state.records, state.records.Keys)
    {
      var ids := InOrder(state.records.Keys);
      ghost var done: set<string> := {};
      for i := 0 to |ids|
        invariant done == set id | id in ids[..i]
        invariant Upserted(old(db.health), db.health, state.records, done)
      {
        assert ids[..i + 1] == ids[..i] + [ids[i]];
        var row := ToPersisted(ids[i], state.records[ids[i]]);
        if row.Some? {
          db.health := db.health[ids[i] := row.value];
        }
        done := done + {ids[i]};
      }
      assert ids[..|ids|] == ids;
      assert done == state.records.Keys;
    }

    /** Decision, failsafe and write-back, on an enrolled state. */
    method Settle(arrivals: seq<Arrival>, now: nat, ghost m0: map<string, RecordHealth>) returns (picks: seq<string>)
      requires db.Valid() && Completes(arrivals, db.records, db.zones) && Faithful(m0, db.records)
      requires state.records == Enrol(m0, db.records, LiveIds(db.records, db.zones))
      modifies state, db`records
      ensures db.Valid()
      ensures state.records == CycleState(m0, old(db.records), db.zones, arrivals, now)
      ensures Faithful(state.records, db.records)
      ensures IsFailsafe(state.records, picks)
      ensures EnabledAs(old(db.records), db.records, db.zones, state.records, picks)
    {
      ghost var enrolled := state.records;
      var updates := Decide(arrivals, now);
      picks := state.FailsafeRecords();
      var all := SwitchOn(updates, picks);
      var ids := WriteFlags(all);
      CycleIsDecided(m0, enrolled, old(db.records), db.records, db.zones, arrivals, now, updates, all, picks, ids);
    }

    /**
     One probe cycle.  Whatever the order of arrival, every monitored record ends up
     enabled as its health and the failsafe decide, nothing else in the record table
     changes, and the persisted rows are a snapshot of the new state.
     */
    method RunCheckCycle(arrivals: seq<Arrival>, now: nat) returns (picks: seq<string>)
      requires db.Valid() && db.ZonesKeyed()
      requires Completes(arrivals, db.records, db.zones)
      requires Faithful(state.records, db.records)
      modifies state, db`records, db`health
      ensures db.Valid()
      ensures state.records == CycleState(old(state.records), old(db.records), db.zones, arrivals, now)
      ensures Faithful(state.records, db.records)
      ensures IsFailsafe(state.records, picks)
      ensures EnabledAs(old(db.records), db.records, db.zones, state.records, picks)
      ensures old(db.health).Keys <= old(state.records).Keys ==> Snapshot(state.records, db.health)
    {
      var targets := CollectTargets();
      Enrolment(targets);
      ghost var rows := db.health;
      picks := Settle(arrivals, now, old(state.records));
      CycleIds(old(db.View()), db.zones, old(state.records), arrivals, now);
      PersistSnapshot();
      SnapshotAfter(old(state.records), old(db.health), rows, db.health, old(db.records), db.zones, arrivals, now,
                    state.records);
    }
  }

  lemma CycleIds(t: Tables, zones: map<string, Zone>, m0: map<string, RecordHealth>, arrivals: seq<Arrival>, now: nat)
    requires Indexed(t)
    ensures forall id :: id in CycleState(m0, t.records, zones, arrivals, now) ==> IsUuid(id)
  {
    ObservedKeys(Enrol(m0, t.records, LiveIds(t.records, zones)), Events(arrivals, now));
    forall id | id in LiveIds(t.records, zones)
      ensures IsUuid(id)
    {
      assert t.records[id].id == id;
    }
  }

  /** The rows of the given records are written over what was there. */
  ghost predicate Upserted(before: map<string, PersistedHealth>, after: map<string, PersistedHealth>,
                           m: map<string, RecordHealth>, ids: set<string>) {
    && ids <= m.Keys && (forall id :: id in ids ==> IsUuid(id))
    && (forall id :: id in after <==> id in before || (id in ids && m[id].lastCheckedAt.Some?))
    && (forall id :: id in ids && m[id].lastCheckedAt.Some? ==> ToPersisted(id, m[id]) == Some(after[id]))
    && forall id :: id in before && (id in ids ==> m[id].lastCheckedAt.None?) ==> after[id] == before[id]
  }

  lemma EnrolFaithful(m: map<string, RecordHealth>, records: map<string, Record>, live: set<string>)
    requires Faithful(m, records) && forall id :: id in live ==> id in records && records[id].healthCheck.Some?
    ensures Faithful(Enrol(m, records, live), records)
  {
  }

  lemma EnabledKeepsFaithful(m: map<string, RecordHealth>, before: map<string, Record>, after: map<string, Record>,
                             zones: map<string, Zone>, picks: seq<string>)
    requires Faithful(m, before) && EnabledAs(before, after, zones, m, picks)
    ensures Faithful(m, after)
  {
  }

  lemma CycleIsDecided(m0: map<string, RecordHealth>, enrolled: map<string, RecordHealth>,
                       before: map<string, Record>, after: map<string, Record>,
                       zones: map<string, Zone>, arrivals: seq<Arrival>, now: nat, updates: map<string, bool>,
                       all: map<string, bool>,
                       picks: seq<string>, ids: seq<string>)
    requires Faithful(m0, before) && enrolled == Enrol(m0, before, LiveIds(before, zones))
    requires UpdatesFor(updates, Observed(enrolled, Events(arrivals, now)), before, LiveIds(before, zones))
    requires IsFailsafe(Observed(enrolled, Events(arrivals, now)), picks) && PicksSwitchedOn(updates, all, picks)
    requires Written(before, after, all, ids) && forall id :: id in ids <==> id in all
    ensures var m := CycleState(m0, before, zones, arrivals, now);
            EnabledAs(before, after, zones, m, picks) && Faithful(m, after)
  {
    var m := Observed(enrolled, Events(arrivals, now));
    EnrolFaithful(m0, before, LiveIds(before, zones));
    ObservedFaithful(enrolled, before, Events(arrivals, now));
    WrittenIsDecided(before, after, zones, updates, all, m, picks, ids);
    EnabledKeepsFaithful(m, before, after, zones, picks);
  }

  lemma {:induction false} ProbedIsChecked(m: map<string, RecordHealth>, events: seq<Event>, id: string, i: nat)
    requires id in m && i < |events| && events[i].id == id
    ensures id in Observed(m, events) && Observed(m, events)[id].lastCheckedAt.Some?
    decreases |events|
  {
    var init := events[..|events| - 1];
    ObservedKeys(m, init);
    if i < |init| {
      assert init[i] == events[i];
      ProbedIsChecked(m, init, id, i);
    }
  }

  lemma SnapshotAfter(m0: map<string, RecordHealth>, rows0: map<string, PersistedHealth>,
                      rows: map<string, PersistedHealth>,
                      after: map<string, PersistedHealth>, records: map<string, Record>, zones: map<string, Zone>,
                      arrivals: seq<Arrival>, now: nat, m: map<string, RecordHealth>)
    requires Completes(arrivals, records, zones) && m == CycleState(m0, records, zones, arrivals, now)
    requires rows == rows0 - (m0.Keys - LiveIds(records, zones)) && Upserted(rows, after, m, m.Keys)
    ensures rows0.Keys <= m0.Keys ==> Snapshot(m, after)
  {
    var enrolled, events := Enrol(m0, records, LiveIds(records, zones)), Events(arrivals, now);
    ObservedKeys(enrolled, events);
    forall id | id in m
      ensures m[id].lastCheckedAt.Some?
    {
      assert Monitored(records, zones, id);
      var i :| 0 <= i < |arrivals| && arrivals[i].id == id;
      ProbedIsChecked(enrolled, events, id, i);
    }
  }

  lemma WriteOneMore(before: map<string, Record>, after: map<string, Record>, updates: map<string, bool>,
                     ids: seq<string>, i: nat)
    requires i < |ids| && ids[i] in updates && Written(before, after, updates, ids[..i])
    ensures var id := ids[i];
            Written(before, if id in after then after[id := after[id].(enabled := updates[id])] else after, updates,
                    ids[..i + 1])
  {
  }

  ghost predicate LoadedFrom(m: map<string, RecordHealth>, rows: map<string, PersistedHealth>,
                             records: map<string, Record>, ids: seq<string>) {
    && (forall id :: id in m <==> id in ids && Loadable(records, id))
    && forall id :: id in m ==> id in rows && m[id] == Loaded(rows[id], records[id])
  }

  ghost predicate OrphanedFrom(orphaned: set<string>, records: map<string, Record>, ids: seq<string>) {
    forall id :: id in orphaned <==> id in ids && !Loadable(records, id)
  }

  lemma LoadStep(m: map<string, RecordHealth>, orphaned: set<string>, rows: map<string, PersistedHealth>,
                 records: map<string, Record>, ids: seq<string>, i: nat)
    requires i < |ids| && ids[i] in rows
    requires LoadedFrom(m, rows, records, ids[..i]) && OrphanedFrom(orphaned, records, ids[..i])
    ensures if Loadable(records, ids[i]) then
              && LoadedFrom(m[ids[i] := Loaded(rows[ids[i]], records[ids[i]])], rows, records, ids[..i + 1])
              && OrphanedFrom(orphaned, records, ids[..i + 1])
            else
              && LoadedFrom(m, rows, records, ids[..i + 1])
              && OrphanedFrom(orphaned + {ids[i]}, records, ids[..i + 1])
  {
    assert ids[..i + 1] == ids[..i] + [ids[i]];
  }

  lemma LoadedAll(m: map<string, RecordHealth>, orphaned: set<string>, rows: map<string, PersistedHealth>,
                  records: map<string, Record>, ids: seq<string>)
    requires forall id :: id in ids <==> id in rows
    requires LoadedFrom(m, rows, records, ids) && OrphanedFrom(orphaned, records, ids)
    ensures m == Hydrated(rows, records)
    ensures rows - orphaned == map id | id in rows && Loadable(records, id) :: rows[id]
  {
  }

  // --- The database after a cycle ---

  /** The group has an enabled record among the monitored ones. */
  ghost predicate Served(records: map<string, Record>, zones: map<string, Zone>, g: Group) {
    exists id :: Monitored(records, zones, id) && GroupOf(records[id]) == g && records[id].enabled
  }

  lemma FlagsFollowDecisions(before: map<string, Record>, after: map<string, Record>, zones: map<string, Zone>,
                             m: map<string, RecordHealth>, picks: seq<string>, id: string)
    requires EnabledAs(before, after, zones, m, picks) && Faithful(m, after) && m.Keys == LiveIds(before, zones)
    ensures Monitored(after, zones, id) <==> id in m
    ensures id in m ==> GroupOf(after[id]) == m[id].group && after[id].enabled == Decided(m, picks, id)
  {
  }

  // --- The same from the probes ---

  /** All probes of the live records once a cycle is through: a record that was not live starts anew. */
  function CyclePast(past: map<string, seq<Probe>>, live: set<string>, events: seq<Event>): map<string, seq<Probe>> {
    map id | id in live :: Past(past, id) + ProbesOf(events, id)
  }

  /** A cycle leaves the state that its probes and the earlier ones make. */
  lemma CycleRecalls(m0: map<string, RecordHealth>, past: map<string, seq<Probe>>, records: map<string, Record>,
                     zones: map<string, Zone>, arrivals: seq<Arrival>, now: nat)
    requires Recalls(m0, past)
    ensures Recalls(CycleState(m0, records, zones, arrivals, now),
                    CyclePast(past, LiveIds(records, zones), Events(arrivals, now)))
  {
    var live, events := LiveIds(records, zones), Events(arrivals, now);
    var enrolled := Enrol(m0, records, live);
    var m, more := Observed(enrolled, events), CyclePast(past, live, events);
    ObservedKeys(enrolled, events);
    forall id | id in m
      ensures Alike(m[id], Replayed(m[id], Past(more, id)))
    {
      ObservedIsAfter(enrolled, events, id);
      assert id !in m0 ==> Past(past, id) == [];
      ReplayedOn(enrolled[id], Past(past, id), ProbesOf(events, id));
    }
  }

  /** Every monitored record gets exactly one probe in a cycle, the one that arrived for it. */
  lemma {:induction false} OneProbeEach(arrivals: seq<Arrival>, now: nat, k: nat)
    requires k < |arrivals| && forall i, j :: 0 <= i < j < |arrivals| ==> arrivals[i].id != arrivals[j].id
    ensures ProbesOf(Events(arrivals, now), arrivals[k].id) == [Probe(arrivals[k].success, now)]
    decreases |arrivals|
  {
    var init := arrivals[..|arrivals| - 1];
    var events := Events(arrivals, now);
    assert events[..|events| - 1] == Events(init, now);
    if k < |init| {
      OneProbeEach(init, now, k);
    } else {
      NoProbe(init, now, arrivals[k].id);
    }
  }

  lemma {:induction false} NoProbe(arrivals: seq<Arrival>, now: nat, id: string)
    requires forall i :: 0 <= i < |arrivals| ==> arrivals[i].id != id
    ensures ProbesOf(Events(arrivals, now), id) == []
    decreases |arrivals|
  {
    if arrivals != [] {
      var init, events := arrivals[..|arrivals| - 1], Events(arrivals, now);
      assert events[..|events| - 1] == Events(init, now);
      NoProbe(init, now, id);
    }
  }

  /** What is loaded after a restart replays the same probes, of the records that are still there. */
  lemma RestartRecalls(m: map<string, RecordHealth>, past: map<string, seq<Probe>>, rows: map<string, PersistedHealth>,
                       records: map<string, Record>)
    requires Snapshot(m, rows) && Faithful(m, records) && Recalls(m, past)
    ensures Recalls(Hydrated(rows, records), map id | id in past && Loadable(records, id) :: past[id])
  {
    var loaded := Hydrated(rows, records);
    var kept := map id | id in past && Loadable(records, id) :: past[id];
    forall id | id in loaded
      ensures Alike(loaded[id], Replayed(loaded[id], Past(kept, id)))
    {
      assert Matches(m[id], records[id]) && Past(kept, id) == Past(past, id);
      assert Alike(loaded[id], m[id]);
      RegisteredAlike(m[id], loaded[id], Past(past, id));
    }
    forall id | id in kept && id !in loaded
      ensures kept[id] == []
    {
      if id in m {
        UncheckedIsUnprobed(m[id], past[id]);
      }
    }
  }

  lemma RegisteredAlike(h: RecordHealth, k: RecordHealth, history: seq<Probe>)
    requires Alike(h, Replayed(h, history)) && Alike(k, h)
    ensures Alike(k, Replayed(k, history))
  {
    AlikeAfter(NewHealth(h.healthyThreshold, h.unhealthyThreshold, h.group),
               NewHealth(k.healthyThreshold, k.unhealthyThreshold, k.group), history);
  }

  lemma UncheckedIsUnprobed(h: RecordHealth, history: seq<Probe>)
    requires Alike(h, Replayed(h, history)) && h.lastCheckedAt.None?
    ensures history == []
  {
    TimesOfHistory(h.healthyThreshold, h.unhealthyThreshold, h.group, history);
  }

  /** The state speaks of the monitored records, their groups and their health-check settings. */
  ghost predicate SpeaksOf(m: map<string, RecordHealth>, records: map<string, Record>, zones: map<string, Zone>) {
    && (forall id :: id in m <==> Monitored(records, zones, id))
    && forall id :: id in m ==> records[id].healthCheck.Some? && Matches(m[id], records[id])
  }

  /**
   After every cycle a group of monitored records has an enabled record in the
   database exactly when the probes did not leave every member down, or the group has
   two or more members of which one ever had a successful probe; in the latter case
   exactly one is enabled, and no member's last success is later than its.
   */
  lemma CycleKeepsGroupsServed(m0: map<string, RecordHealth>, past0: map<string, seq<Probe>>,
                               before: map<string, Record>, after: map<string, Record>, zones: map<string, Zone>,
                               arrivals: seq<Arrival>, now: nat, m: map<string, RecordHealth>, picks: seq<string>,
                               g: Group)
    requires m == CycleState(m0, before, zones, arrivals, now) && Recalls(m0, past0)
    requires IsFailsafe(m, picks) && EnabledAs(before, after, zones, m, picks) && Faithful(m, after)
    ensures SpeaksOf(m, after, zones)
    ensures var past := CyclePast(past0, LiveIds(before, zones), Events(arrivals, now));
            && (Served(after, zones, g) <==>
                  || (exists id :: id in m && m[id].group == g && !DownBy(m[id], Past(past, id)))
                  || (AllDown(m, past, g) && EverUp(m, past, g)))
            && (AllDown(m, past, g) && EverUp(m, past, g) ==>
                  exists id :: UpLast(m, past, id) && m[id].group == g && OnlyEnabled(after, zones, g, id))
  {
    var past := CyclePast(past0, LiveIds(before, zones), Events(arrivals, now));
    CycleRecalls(m0, past0, before, zones, arrivals, now);
    ObservedKeys(Enrol(m0, before, LiveIds(before, zones)), Events(arrivals, now));
    FlagsAreDecisions(before, after, zones, m, picks);
    ServedIsServing(after, zones, m, picks, g);
    ServingFromProbes(m, past, picks, g);
    if AllDown(m, past, g) && EverUp(m, past, g) {
      var id := DownGroupKeepsItsLastAlive(m, past, picks, g);
      assert OnlyEnabled(after, zones, g, id);
    }
  }

  /** The flags in the database are the decisions. */
  ghost predicate Flagged(after: map<string, Record>, zones: map<string, Zone>, m: map<string, RecordHealth>,
                          picks: seq<string>) {
    && (forall id :: Monitored(after, zones, id) <==> id in m)
    && forall id :: id in m ==> GroupOf(after[id]) == m[id].group && after[id].enabled == Decided(m, picks, id)
  }

  lemma FlagsAreDecisions(before: map<string, Record>, after: map<string, Record>, zones: map<string, Zone>,
                          m: map<string, RecordHealth>, picks: seq<string>)
    requires EnabledAs(before, after, zones, m, picks) && Faithful(m, after) && m.Keys == LiveIds(before, zones)
    ensures Flagged(after, zones, m, picks) && SpeaksOf(m, after, zones)
  {
    forall id
      ensures Monitored(after, zones, id) <==> id in m
      ensures id in m ==> GroupOf(after[id]) == m[id].group && after[id].enabled == Decided(m, picks, id)
    {
      FlagsFollowDecisions(before, after, zones, m, picks, id);
    }
  }

  lemma ServedIsServing(after: map<string, Record>, zones: map<string, Zone>, m: map<string, RecordHealth>,
                        picks: seq<string>, g: Group)
    requires Flagged(after, zones, m, picks)
    ensures Served(after, zones, g) <==> Serving(m, picks, g)
  {
  }

  /** Of the group's monitored records this one is enabled and no other. */
  ghost predicate OnlyEnabled(records: map<string, Record>, zones: map<string, Zone>, g: Group, id: string) {
    forall x :: Monitored(records, zones, x) && GroupOf(records[x]) == g ==> (records[x].enabled <==> x == id)
  }

  lemma ServingFromProbes(m: map<string, RecordHealth>, past: map<string, seq<Probe>>, picks: seq<string>, g: Group)
    requires IsFailsafe(m, picks) && Recalls(m, past)
    ensures Serving(m, picks, g) <==>
              || (exists id :: id in m && m[id].group == g && !DownBy(m[id], Past(past, id)))
              || (AllDown(m, past, g) && EverUp(m, past, g))
  {
    GroupKeepsServing(m, picks, g);
    AllDownIsGroupDown(m, past, g);
    forall id | id in m
      ensures m[id].status == Unhealthy <==> DownBy(m[id], Past(past, id))
    {
      RecalledHealth(m, past, id);
    }
  }
}
