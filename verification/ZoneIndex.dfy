/**
 The zone table and its index by name, a second index kept by hand.
 */
module ZoneIndex {
  import opened Types

  datatype ZoneTables = ZoneTables(zones: map<string, Zone>, index: map<string, string>)

  /** Each name leads to a zone of that name. */
  ghost predicate Leads(zones: map<string, Zone>, index: map<string, string>) {
    forall n :: n in index ==> index[n] in zones && zones[index[n]].id == index[n] && zones[index[n]].name == n
  }

  /** Each zone is stored under its own id, and its name leads back to it. */
  ghost predicate LeadsBack(zones: map<string, Zone>, index: map<string, string>) {
    forall id :: id in zones ==> zones[id].id == id && zones[id].name in index && index[zones[id].name] == id
  }

  /** Table and index are each other's inverse, so no two zones share a name. */
  ghost predicate Inverse(t: ZoneTables) {
    Leads(t.zones, t.index) && LeadsBack(t.zones, t.index)
  }

  datatype ZoneOp =
    | Create(name: string, zone: Zone)
    | Upsert(zone: Zone)
    | Delete(id: Uuid)
    | SetSoa(id: Uuid, soa: SoaData)

  function Apply(t: ZoneTables, op: ZoneOp): ZoneTables {
    match op
    case Create(name, zone) =>
      if name in t.index then t else ZoneTables(t.zones[zone.id := zone], t.index[name := zone.id])
    case Upsert(zone) =>
      var left := if zone.id in t.zones && t.zones[zone.id].name != zone.name
                  then t.index - {t.zones[zone.id].name} else t.index;
      ZoneTables(t.zones[zone.id := zone], left[zone.name := zone.id])
    case Delete(id) =>
      if id in t.zones then ZoneTables(t.zones - {id}, t.index - {t.zones[id].name}) else t
    case SetSoa(id, soa) =>
      if id in t.zones then t.(zones := t.zones[id := t.zones[id].(soa := soa)]) else t
  }

  /** A new zone goes by its own name and a new id; an upsert takes no other zone's name. */
  predicate Admissible(t: ZoneTables, op: ZoneOp) {
    match op
    case Create(name, zone) => name in t.index || (zone.name == name && zone.id !in t.zones)
    case Upsert(zone) => zone.name in t.index ==> t.index[zone.name] == zone.id
    case Delete(_) => true
    case SetSoa(_, _) => true
  }

  lemma CreateKeeps(t: ZoneTables, name: string, zone: Zone)
    requires Inverse(t)
    ensures Inverse(Apply(t, Create(name, zone))) <==> Admissible(t, Create(name, zone))
  {
    var t' := Apply(t, Create(name, zone));
    if name !in t.index {
      assert t'.index[name] == zone.id && t'.zones[zone.id] == zone;
      if zone.id in t.zones {
        var was := t.zones[zone.id].name;
        assert was != name && t'.index[was] == zone.id;
      } else if zone.name == name {
        assert forall n :: n in t.index ==> t.index[n] != zone.id;
      }
    }
  }

  lemma UpsertKeeps(t: ZoneTables, zone: Zone)
    requires Inverse(t)
    ensures Inverse(Apply(t, Upsert(zone))) <==> Admissible(t, Upsert(zone))
  {
    var t' := Apply(t, Upsert(zone));
    if zone.name in t.index && t.index[zone.name] != zone.id {
      var other := t.index[zone.name];
      assert other in t'.zones && t'.zones[other].name == zone.name && t'.index[zone.name] != other;
    }
  }

  /** One step of any operation keeps table and index inverse if and only if it is admissible. */
  lemma StepKeepsInverse(t: ZoneTables, op: ZoneOp)
    requires Inverse(t)
    ensures Inverse(Apply(t, op)) <==> Admissible(t, op)
  {
    match op
    case Create(name, zone) => CreateKeeps(t, name, zone);
    case Upsert(zone) => UpsertKeeps(t, zone);
    case Delete(_) =>
    case SetSoa(_, _) =>
  }

  function Run(t: ZoneTables, ops: seq<ZoneOp>): ZoneTables
    decreases |ops|
  {
    if ops == [] then t else Run(Apply(t, ops[0]), ops[1..])
  }

  predicate AdmissibleRun(t: ZoneTables, ops: seq<ZoneOp>)
    decreases |ops|
  {
    ops == [] || (Admissible(t, ops[0]) && AdmissibleRun(Apply(t, ops[0]), ops[1..]))
  }

  /** Over every admissible run zones and names stay one to one. */
  lemma {:induction false} RunKeepsInverse(t: ZoneTables, ops: seq<ZoneOp>)
    requires Inverse(t) && AdmissibleRun(t, ops)
    ensures Inverse(Run(t, ops))
    decreases |ops|
  {
    if ops != [] {
      StepKeepsInverse(t, ops[0]);
      RunKeepsInverse(Apply(t, ops[0]), ops[1..]);
    }
  }

  /** An upsert under a name another zone has: both zones are stored, the name leads to one. */
  lemma TakenNameBreaksInverse(zone: Zone, other: Zone)
    requires other.id != zone.id && other.name == zone.name
    ensures var one := Apply(ZoneTables(map[], map[]), Create(zone.name, zone));
            var two := Apply(one, Upsert(other));
            Inverse(one) && !Inverse(two) && zone.id in two.zones && two.index[zone.name] == other.id
  {
    var one := Apply(ZoneTables(map[], map[]), Create(zone.name, zone));
    StepKeepsInverse(one, Upsert(other));
  }
}
