/**
 The record table and its hand-maintained secondary index.  The index maps the
 string key `zone:name:type` to a comma-joined list of record ids, and every
 query goes through it.  The plain reading of the store is the record table
 alone; the results here are that the index never departs from it.
 */
module Store {
  import opened Text
  import opened Types

  datatype Tables = Tables(records: map<string, Record>, byZone: map<string, string>)

  const EMPTY: Tables := Tables(map[], map[])

  // --- Index keys ---

  function IndexKey(zoneId: string, name: string, rtype: RecordType): (k: string) {
    zoneId + ":" + name + ":" + TypeName(rtype)
  }

  function KeyOf(r: Record): (k: string) {
    IndexKey(r.zoneId, r.name, r.data.Type())
  }

  /** Whether `k` lies in the part of the index that belongs to a zone. */
  predicate InZone(k: string, zoneId: string) {
    zoneId + ":" <= k
  }

  lemma TypeNameInjective(s: RecordType, t: RecordType)
    requires TypeName(s) == TypeName(t)
    ensures s == t
  {
  }

  /** A zone id is the part of a key before its first colon. */
  lemma ZonePrefix(z: Uuid, k: string, y: Uuid, rest: string)
    requires k == y + ":" + rest
    ensures InZone(k, z) <==> y == z
  {
    if InZone(k, z) {
      IndexOfHead(y, rest, ':');
      IndexOfHead(z, k[|z| + 1..], ':');
      assert k == z + ":" + k[|z| + 1..];
      assert y == k[..|y|] && z == k[..|z|];
    }
  }

  lemma KeyInZone(r: Record, z: Uuid)
    ensures InZone(KeyOf(r), z) <==> r.zoneId == z
  {
    assert KeyOf(r) == r.zoneId + ":" + (r.name + ":" + TypeName(r.data.Type()));
    ZonePrefix(z, KeyOf(r), r.zoneId, r.name + ":" + TypeName(r.data.Type()));
  }

  /** A string splits in one way at its last colon. */
  lemma LastColon(a: string, b: string, a': string, b': string)
    requires a + ":" + b == a' + ":" + b' && ':' !in b && ':' !in b'
    ensures a == a' && b == b'
  {
    var s := a + ":" + b;
    SplitConcat(a, b, ':');
    SplitConcat(a', b', ':');
    var parts := Split(s, ':');
    assert parts[|parts| - 1] == b && parts[|parts| - 1] == b';
    assert a == s[..|a|] && a' == s[..|a'|];
  }

  /** Two keys agree only if all three parts do, whatever the names contain. */
  lemma IndexKeyInjective(z: Uuid, n: string, t: RecordType, z': Uuid, n': string, t': RecordType)
    requires IndexKey(z, n, t) == IndexKey(z', n', t')
    ensures z == z' && n == n' && t == t'
  {
    var k := IndexKey(z, n, t);
    LastColon(z + ":" + n, TypeName(t), z' + ":" + n', TypeName(t'));
    TypeNameInjective(t, t');
    var head := z + ":" + n;
    assert head == z' + ":" + n';
    ZonePrefix(z, head, z', n');
    assert InZone(head, z);
    assert n == head[|z| + 1..] == n';
  }

  // --- The tables and the operations on them ---

  predicate DistinctIds(rs: seq<Record>) {
    forall i, j :: 0 <= i < j < |rs| ==> rs[i].id != rs[j].id
  }

  /** The ids listed under a key. */
  function Ids(t: Tables, k: string): (ids: seq<string>) {
    if k in t.byZone then Split(t.byZone[k], ',') else []
  }

  /** A key lists distinct ids, each of a stored record with that key. */
  ghost predicate Accurate(t: Tables, k: string) {
    && NoDup(Ids(t, k))
    && forall id :: id in Ids(t, k) ==> id in t.records && KeyOf(t.records[id]) == k
  }

  /** The index says exactly what the record table says. */
  ghost predicate Indexed(t: Tables) {
    && (forall id :: id in t.records ==> t.records[id].id == id)
    && (forall k :: k in t.byZone ==> Accurate(t, k))
    && (forall id :: id in t.records ==> id in Ids(t, KeyOf(t.records[id])))
  }

  function Insert(t: Tables, r: Record): Tables {
    var k := KeyOf(r);
    Tables(t.records[r.id := r],
           t.byZone[k := if k in t.byZone then t.byZone[k] + "," + r.id else r.id])
  }

  function InsertAll(t: Tables, rs: seq<Record>): Tables
    decreases |rs|
  {
    if rs == [] then t else InsertAll(Insert(t, rs[0]), rs[1..])
  }

  function Without(ids: seq<string>, id: string): (rest: seq<string>)
    ensures forall x :: x in rest <==> x in ids && x != id
  {
    if ids == [] then []
    else if ids[0] == id then Without(ids[1..], id)
    else [ids[0]] + Without(ids[1..], id)
  }

  lemma {:induction false} WithoutNoDup(ids: seq<string>, id: string)
    requires NoDup(ids)
    ensures NoDup(Without(ids, id))
  {
    if ids != [] {
      WithoutNoDup(ids[1..], id);
      assert ids[0] !in ids[1..];
    }
  }

  function Remove(t: Tables, id: string): Tables
    requires id in t.records
  {
    var k := KeyOf(t.records[id]);
    var left := Without(Ids(t, k), id);
    Tables(t.records - {id},
           if k !in t.byZone then t.byZone
           else if left == [] then t.byZone - {k}
           else t.byZone[k := Join(left, ',')])
  }

  /** The ids the index lists for a zone. */
  function ZoneIds(t: Tables, zoneId: string): set<string> {
    set k, id | k in t.byZone && InZone(k, zoneId) && id in Ids(t, k) :: id
  }

  function DropZone(t: Tables, zoneId: string): Tables {
    Tables(t.records - ZoneIds(t, zoneId),
           map k | k in t.byZone && !InZone(k, zoneId) :: t.byZone[k])
  }

  // --- How each operation moves the id lists ---

  lemma InsertIds(t: Tables, r: Record, k: string)
    ensures Ids(Insert(t, r), k) == if k == KeyOf(r) then Ids(t, k) + [r.id] else Ids(t, k)
  {
    if k == KeyOf(r) {
      assert Split(r.id, ',') == [r.id];
      if k in t.byZone {
        SplitConcat(t.byZone[k], r.id, ',');
        assert t.byZone[k] + "," + r.id == t.byZone[k] + [','] + r.id;
      }
    }
  }

  lemma RemoveIds(t: Tables, id: string, k: string)
    requires id in t.records
    ensures Ids(Remove(t, id), k) == if k == KeyOf(t.records[id]) then Without(Ids(t, k), id) else Ids(t, k)
  {
    var key := KeyOf(t.records[id]);
    if k == key && k in t.byZone {
      var left := Without(Ids(t, k), id);
      if left != [] {
        SplitIsFree(t.byZone[k], ',');
        assert Free(left, ',') by {
          forall i | 0 <= i < |left|
            ensures ',' !in left[i]
          {
            assert left[i] in Ids(t, k);
          }
        }
        SplitJoin(left, ',');
      }
    }
  }

  // --- The index stays exact, and exactly when ---

  lemma InsertIndexed(t: Tables, r: Record)
    requires Indexed(t) && r.id !in t.records
    ensures Indexed(Insert(t, r))
  {
    var t' := Insert(t, r);
    forall k | k in t'.byZone
      ensures Accurate(t', k)
    {
      InsertIds(t, r, k);
      if k in t.byZone {
        assert Accurate(t, k);
      }
    }
    forall id | id in t'.records
      ensures id in Ids(t', KeyOf(t'.records[id]))
    {
      InsertIds(t, r, KeyOf(t'.records[id]));
    }
  }

  lemma RemoveIndexed(t: Tables, id: string)
    requires Indexed(t) && id in t.records
    ensures Indexed(Remove(t, id))
  {
    var t' := Remove(t, id);
    forall k | k in t'.byZone
      ensures Accurate(t', k)
    {
      RemoveIds(t, id, k);
      assert Accurate(t, k);
      WithoutNoDup(Ids(t, k), id);
    }
    forall x | x in t'.records
      ensures x in Ids(t', KeyOf(t'.records[x]))
    {
      RemoveIds(t, id, KeyOf(t'.records[x]));
    }
  }

  /** The ids under a zone's keys are the ids of the records stored in that zone. */
  lemma ZoneIdsAreTheZone(t: Tables, zoneId: Uuid, id: string)
    requires Indexed(t)
    ensures id in ZoneIds(t, zoneId) <==> id in t.records && t.records[id].zoneId == zoneId
  {
    if id in t.records {
      KeyInZone(t.records[id], zoneId);
      assert id in Ids(t, KeyOf(t.records[id]));
    }
    if id in ZoneIds(t, zoneId) {
      var k :| k in t.byZone && InZone(k, zoneId) && id in Ids(t, k);
      assert Accurate(t, k);
    }
  }

  /** What dropping a zone leaves of the plain record table. */
  function OutsideZone(records: map<string, Record>, zoneId: string): (m: map<string, Record>) {
    map id | id in records && records[id].zoneId != zoneId :: records[id]
  }

  lemma DropZoneIndexed(t: Tables, zoneId: Uuid)
    requires Indexed(t)
    ensures Indexed(DropZone(t, zoneId))
    ensures DropZone(t, zoneId).records == OutsideZone(t.records, zoneId)
  {
    var t' := DropZone(t, zoneId);
    forall id | id in t.records
      ensures id in ZoneIds(t, zoneId) <==> t.records[id].zoneId == zoneId
    {
      ZoneIdsAreTheZone(t, zoneId, id);
    }
    assert t'.records == OutsideZone(t.records, zoneId);
    forall k | k in t'.byZone
      ensures Accurate(t', k)
    {
      assert Accurate(t, k);
      forall id | id in Ids(t', k)
        ensures id in t'.records
      {
        KeyInZone(t.records[id], zoneId);
      }
    }
    forall id | id in t'.records
      ensures id in Ids(t', KeyOf(t'.records[id]))
    {
      KeyInZone(t.records[id], zoneId);
    }
  }

  /** Some id is listed at two places of the index. */
  ghost predicate Doubled(t: Tables) {
    exists k, i, k', i' ::
      && 0 <= i < |Ids(t, k)| && 0 <= i' < |Ids(t, k')|
      && (k != k' || i != i') && Ids(t, k)[i] == Ids(t, k')[i']
  }

  lemma IndexedIsNotDoubled(t: Tables)
    requires Indexed(t)
    ensures !Doubled(t)
  {
    forall k, i, k', i' | 0 <= i < |Ids(t, k)| && 0 <= i' < |Ids(t, k')| && Ids(t, k)[i] == Ids(t, k')[i']
      ensures k == k' && i == i'
    {
      assert Accurate(t, k) && Accurate(t, k');
      assert Ids(t, k)[i] in Ids(t, k) && Ids(t, k')[i'] in Ids(t, k');
    }
  }

  lemma InsertKeepsDoubled(t: Tables, r: Record)
    requires Doubled(t)
    ensures Doubled(Insert(t, r))
  {
    var k, i, k', i' :|
      && 0 <= i < |Ids(t, k)| && 0 <= i' < |Ids(t, k')|
      && (k != k' || i != i') && Ids(t, k)[i] == Ids(t, k')[i'];
    InsertIds(t, r, k);
    InsertIds(t, r, k');
    var t' := Insert(t, r);
    assert Ids(t', k)[i] == Ids(t', k')[i'];
  }

  lemma ReusedIdDoubles(t: Tables, r: Record)
    requires Indexed(t) && r.id in t.records
    ensures Doubled(Insert(t, r))
  {
    var k, k' := KeyOf(t.records[r.id]), KeyOf(r);
    assert r.id in Ids(t, k);
    var i :| 0 <= i < |Ids(t, k)| && Ids(t, k)[i] == r.id;
    InsertIds(t, r, k);
    InsertIds(t, r, k');
    var t' := Insert(t, r);
    assert Ids(t', k)[i] == Ids(t', k')[|Ids(t', k')| - 1];
  }

  // --- Whole runs ---

  datatype Op =
    | Create(r: Record)
    | Update(r: Record)
    | Delete(id: Uuid)
    | Replace(zoneId: Uuid, rs: seq<Record>)
    | Drop(zoneId: Uuid)

  function Apply(t: Tables, op: Op): Tables {
    match op
    case Create(r) => Insert(t, r)
    case Update(r) => if r.id in t.records then t.(records := t.records[r.id := r]) else t
    case Delete(id) => if id in t.records then Remove(t, id) else t
    case Replace(z, rs) => InsertAll(DropZone(t, z), rs)
    case Drop(z) => DropZone(t, z)
  }

  function Stores(records: map<string, Record>, rs: seq<Record>): map<string, Record>
    decreases |rs|
  {
    if rs == [] then records else Stores(records[rs[0].id := rs[0]], rs[1..])
  }

  /** Storing records under new ids adds exactly those records. */
  lemma {:induction false} StoresContents(records: map<string, Record>, rs: seq<Record>)
    requires FreshIds(records, rs)
    ensures var all := Stores(records, rs);
            && (forall id :: id in records ==> id in all && all[id] == records[id])
            && (forall i :: 0 <= i < |rs| ==> rs[i].id in all && all[rs[i].id] == rs[i])
            && (forall id :: id in all && id !in records ==> exists i :: 0 <= i < |rs| && rs[i].id == id)
    decreases |rs|
  {
    if rs != [] {
      FreshCons(records, rs);
      StoresContents(records[rs[0].id := rs[0]], rs[1..]);
      assert forall i :: 0 < i < |rs| ==> rs[i] == rs[1..][i - 1];
    }
  }

  /** What an operation means for the record table, with no index in sight. */
  function Plain(records: map<string, Record>, op: Op): map<string, Record> {
    match op
    case Create(r) => records[r.id := r]
    case Update(r) => if r.id in records then records[r.id := r] else records
    case Delete(id) => records - {id}
    case Replace(z, rs) => Stores(OutsideZone(records, z), rs)
    case Drop(z) => OutsideZone(records, z)
  }

  /** Distinct ids, none of them stored. */
  predicate FreshIds(records: map<string, Record>, rs: seq<Record>) {
    && (forall i :: 0 <= i < |rs| ==> rs[i].id !in records)
    && (forall i, j :: 0 <= i < j < |rs| ==> rs[i].id != rs[j].id)
  }

  /** New records carry new ids, and an update keeps zone, name and type. */
  predicate Admissible(records: map<string, Record>, op: Op) {
    match op
    case Create(r) => r.id !in records
    case Update(r) => r.id in records ==> KeyOf(r) == KeyOf(records[r.id])
    case Delete(_) => true
    case Replace(z, rs) => FreshIds(OutsideZone(records, z), rs)
    case Drop(_) => true
  }

  lemma {:induction false} InsertAllIndexed(t: Tables, rs: seq<Record>)
    requires Indexed(t)
    ensures Indexed(InsertAll(t, rs)) <==> FreshIds(t.records, rs)
    ensures InsertAll(t, rs).records == Stores(t.records, rs)
    decreases |rs|
  {
    InsertAllRecords(t, rs);
    if rs != [] {
      var t' := Insert(t, rs[0]);
      if rs[0].id in t.records {
        ReusedIdDoubles(t, rs[0]);
        InsertAllKeepsDoubled(t', rs[1..]);
        if Indexed(InsertAll(t, rs)) {
          IndexedIsNotDoubled(InsertAll(t, rs));
        }
      } else {
        InsertIndexed(t, rs[0]);
        InsertAllIndexed(t', rs[1..]);
        if FreshIds(t'.records, rs[1..]) {
          FreshCons(t.records, rs);
        }
      }
    }
  }

  lemma FreshCons(records: map<string, Record>, rs: seq<Record>)
    requires rs != [] && rs[0].id !in records
    ensures FreshIds(records, rs) <==> FreshIds(records[rs[0].id := rs[0]], rs[1..])
  {
  }

  lemma {:induction false} InsertAllRecords(t: Tables, rs: seq<Record>)
    ensures InsertAll(t, rs).records == Stores(t.records, rs)
    decreases |rs|
  {
    if rs != [] {
      InsertAllRecords(Insert(t, rs[0]), rs[1..]);
    }
  }

  lemma {:induction false} InsertAllKeepsDoubled(t: Tables, rs: seq<Record>)
    requires Doubled(t)
    ensures Doubled(InsertAll(t, rs))
    decreases |rs|
  {
    if rs != [] {
      InsertKeepsDoubled(t, rs[0]);
      InsertAllKeepsDoubled(Insert(t, rs[0]), rs[1..]);
    }
  }

  lemma UpdateIndexed(t: Tables, r: Record)
    requires Indexed(t) && r.id in t.records
    ensures Indexed(Apply(t, Update(r))) <==> KeyOf(r) == KeyOf(t.records[r.id])
  {
    var t' := Apply(t, Update(r));
    var k := KeyOf(t.records[r.id]);
    assert r.id in Ids(t, k) && Ids(t', k) == Ids(t, k);
    if KeyOf(r) == k {
      forall key | key in t'.byZone
        ensures Accurate(t', key)
      {
        assert Accurate(t, key) && Ids(t', key) == Ids(t, key);
      }
    }
  }

  /** One step of any operation keeps the index exact if and only if it is admissible. */
  lemma StepKeepsIndex(t: Tables, op: Op)
    requires Indexed(t)
    ensures Indexed(Apply(t, op)) <==> Admissible(t.records, op)
    ensures Apply(t, op).records == Plain(t.records, op)
  {
    match op
    case Create(r) =>
      if r.id in t.records {
        ReusedIdDoubles(t, r);
        if Indexed(Insert(t, r)) {
          IndexedIsNotDoubled(Insert(t, r));
        }
      } else {
        InsertIndexed(t, r);
      }
    case Update(r) =>
      if r.id in t.records {
        UpdateIndexed(t, r);
      }
    case Delete(id) =>
      if id in t.records {
        RemoveIndexed(t, id);
      }
    case Replace(z, rs) =>
      DropZoneIndexed(t, z);
      InsertAllIndexed(DropZone(t, z), rs);
    case Drop(z) =>
      DropZoneIndexed(t, z);
  }

  /** A renamed record stays listed under its old key: the index is no longer exact, and the new name finds nothing. */
  lemma RenameBreaksIndex(r: Record, name: string)
    requires name != r.name
    ensures var t := Insert(EMPTY, r);
            var renamed := Apply(t, Update(r.(name := name)));
            && Indexed(t) && !Indexed(renamed)
            && Lookup(renamed, r.zoneId, name, r.data.Type()) == []
  {
    var t := Insert(EMPTY, r);
    InsertIndexed(EMPTY, r);
    UpdateIndexed(t, r.(name := name));
    if KeyOf(r.(name := name)) == KeyOf(r) {
      IndexKeyInjective(r.zoneId, name, r.data.Type(), r.zoneId, r.name, r.data.Type());
    }
  }

  /** A second record under the same id is listed twice. */
  lemma ReusedIdBreaksIndex(r: Record, again: Record)
    requires again.id == r.id
    ensures Indexed(Insert(EMPTY, r)) && !Indexed(Insert(Insert(EMPTY, r), again))
  {
    InsertIndexed(EMPTY, r);
    StepKeepsIndex(Insert(EMPTY, r), Create(again));
  }

  function Run(t: Tables, ops: seq<Op>): Tables
    decreases |ops|
  {
    if ops == [] then t else Run(Apply(t, ops[0]), ops[1..])
  }

  function PlainRun(records: map<string, Record>, ops: seq<Op>): map<string, Record>
    decreases |ops|
  {
    if ops == [] then records else PlainRun(Plain(records, ops[0]), ops[1..])
  }

  predicate AdmissibleRun(records: map<string, Record>, ops: seq<Op>)
    decreases |ops|
  {
    ops == [] || (Admissible(records, ops[0]) && AdmissibleRun(Plain(records, ops[0]), ops[1..]))
  }

  /** Over every admissible run the indexed store refines the plain record table. */
  lemma {:induction false} RunRefinesPlain(t: Tables, ops: seq<Op>)
    requires Indexed(t) && AdmissibleRun(t.records, ops)
    ensures Indexed(Run(t, ops))
    ensures Run(t, ops).records == PlainRun(t.records, ops)
    decreases |ops|
  {
    if ops != [] {
      StepKeepsIndex(t, ops[0]);
      RunRefinesPlain(Apply(t, ops[0]), ops[1..]);
    }
  }

  // --- Reading through the index ---

  ghost predicate Stored(t: Tables, r: Record) {
    r.id in t.records && t.records[r.id] == r
  }

  /** The stored records behind a list of ids, in that order. */
  function Fetch(records: map<string, Record>, ids: seq<string>, onlyEnabled: bool): (rs: seq<Record>) {
    if ids == [] then []
    else
      var last := ids[|ids| - 1];
      Fetch(records, ids[..|ids| - 1], onlyEnabled) +
      if last in records && (onlyEnabled ==> records[last].enabled) then [records[last]] else []
  }

  /** What `query_records` answers. */
  function Lookup(t: Tables, zoneId: string, name: string, rtype: RecordType): seq<Record> {
    Fetch(t.records, Ids(t, IndexKey(zoneId, name, rtype)), true)
  }

  function Collect(t: Tables, zoneId: string, keys: seq<string>): seq<Record> {
    if keys == [] then []
    else
      var last := keys[|keys| - 1];
      Collect(t, zoneId, keys[..|keys| - 1]) +
      if InZone(last, zoneId) then Fetch(t.records, Ids(t, last), false) else []
  }

  /** What `list_records` answers. */
  function ListZone(t: Tables, zoneId: string): seq<Record> {
    Collect(t, zoneId, InOrder(t.byZone.Keys))
  }

  lemma {:induction false} FetchMembers(t: Tables, ids: seq<string>, onlyEnabled: bool, r: Record)
    requires Indexed(t)
    ensures r in Fetch(t.records, ids, onlyEnabled) <==> Stored(t, r) && r.id in ids && (onlyEnabled ==> r.enabled)
    decreases |ids|
  {
    if ids != [] {
      var init, last := ids[..|ids| - 1], ids[|ids| - 1];
      FetchMembers(t, init, onlyEnabled, r);
      assert r.id in ids <==> r.id in init || r.id == last;
    }
  }

  lemma {:induction false} FetchNoDup(t: Tables, ids: seq<string>, onlyEnabled: bool)
    requires Indexed(t) && NoDup(ids)
    ensures NoDup(Fetch(t.records, ids, onlyEnabled))
    decreases |ids|
  {
    if ids != [] {
      var init, last := ids[..|ids| - 1], ids[|ids| - 1];
      FetchNoDup(t, init, onlyEnabled);
      assert last !in init;
      if last in t.records {
        FetchMembers(t, init, onlyEnabled, t.records[last]);
      }
    }
  }

  /** Fetching under an accurate key gives its stored records, each once. */
  lemma FetchContents(t: Tables, k: string, onlyEnabled: bool)
    requires Indexed(t)
    ensures NoDup(Fetch(t.records, Ids(t, k), onlyEnabled))
    ensures forall r :: r in Fetch(t.records, Ids(t, k), onlyEnabled) <==>
                          Stored(t, r) && KeyOf(r) == k && (onlyEnabled ==> r.enabled)
  {
    var ids := Ids(t, k);
    assert Accurate(t, k);
    FetchNoDup(t, ids, onlyEnabled);
    forall r
      ensures r in Fetch(t.records, ids, onlyEnabled) <==> Stored(t, r) && KeyOf(r) == k && (onlyEnabled ==> r.enabled)
    {
      FetchMembers(t, ids, onlyEnabled, r);
      if Stored(t, r) {
        assert r.id in Ids(t, KeyOf(r));
      }
    }
  }

  /** The records of one name and type in one zone, read off the plain table. */
  ghost predicate Owns(t: Tables, r: Record, zoneId: string, name: string, rtype: RecordType) {
    Stored(t, r) && r.zoneId == zoneId && r.name == name && r.data.Type() == rtype
  }

  /** A query answers exactly the enabled records of that zone, name and type, each once. */
  lemma LookupIsFilter(t: Tables, zoneId: Uuid, name: string, rtype: RecordType)
    requires Indexed(t)
    ensures NoDup(Lookup(t, zoneId, name, rtype))
    ensures forall r :: r in Lookup(t, zoneId, name, rtype) <==> Owns(t, r, zoneId, name, rtype) && r.enabled
  {
    var k := IndexKey(zoneId, name, rtype);
    FetchContents(t, k, true);
    forall r: Record
      ensures KeyOf(r) == k <==> r.zoneId == zoneId && r.name == name && r.data.Type() == rtype
    {
      if KeyOf(r) == k {
        IndexKeyInjective(r.zoneId, r.name, r.data.Type(), zoneId, name, rtype);
      }
    }
  }

  lemma {:induction false} CollectMembers(t: Tables, zoneId: Uuid, keys: seq<string>, r: Record)
    requires Indexed(t)
    ensures r in Collect(t, zoneId, keys) <==> Stored(t, r) && r.zoneId == zoneId && KeyOf(r) in keys
    decreases |keys|
  {
    if keys != [] {
      var init, last := keys[..|keys| - 1], keys[|keys| - 1];
      CollectMembers(t, zoneId, init, r);
      FetchContents(t, last, false);
      assert KeyOf(r) in keys <==> KeyOf(r) in init || KeyOf(r) == last;
      KeyInZone(r, zoneId);
    }
  }

  lemma NoDupConcat<T>(a: seq<T>, b: seq<T>)
    requires NoDup(a) && NoDup(b) && forall x :: x in b ==> x !in a
    ensures NoDup(a + b)
  {
    forall i, j | 0 <= i < j < |a + b|
      ensures (a + b)[i] != (a + b)[j]
    {
      if i < |a| <= j {
        assert b[j - |a|] !in a;
      }
    }
  }

  lemma {:induction false} CollectNoDup(t: Tables, zoneId: Uuid, keys: seq<string>)
    requires Indexed(t) && NoDup(keys)
    ensures NoDup(Collect(t, zoneId, keys))
    decreases |keys|
  {
    if keys != [] {
      var init, last := keys[..|keys| - 1], keys[|keys| - 1];
      CollectNoDup(t, zoneId, init);
      FetchContents(t, last, false);
      assert last !in init;
      forall r | r in Fetch(t.records, Ids(t, last), false)
        ensures r !in Collect(t, zoneId, init)
      {
        CollectMembers(t, zoneId, init, r);
      }
      NoDupConcat(Collect(t, zoneId, init), Fetch(t.records, Ids(t, last), false));
    }
  }

  /** Listing a zone gives exactly its stored records, each once. */
  lemma ListIsFilter(t: Tables, zoneId: Uuid)
    requires Indexed(t)
    ensures NoDup(ListZone(t, zoneId))
    ensures forall r :: r in ListZone(t, zoneId) <==> Stored(t, r) && r.zoneId == zoneId
  {
    var keys := InOrder(t.byZone.Keys);
    CollectNoDup(t, zoneId, keys);
    forall r
      ensures r in ListZone(t, zoneId) <==> Stored(t, r) && r.zoneId == zoneId
    {
      CollectMembers(t, zoneId, keys, r);
      if Stored(t, r) {
        assert r.id in Ids(t, KeyOf(r));
      }
    }
  }
}
