/**
 Publishing discovered names into a zone that others also write to.  A
 reconcile is a difference over the records this instance owns: discovered
 records with its own stamp, or with none.
 */
module Publish {
  import opened Text
  import opened Types
  import opened Store
  import opened Serial
  import opened Database

  datatype Applied = Applied(created: nat, updated: nat, deleted: nat, shadowed: nat) {
    predicate Changed() {
      created + updated + deleted > 0
    }
  }

  const NOTHING := Applied(0, 0, 0, 0)

  /** An instance and the zone it writes to. */
  datatype Writer = Writer(zoneId: Uuid, instance: string) {
    predicate Own(r: Record) {
      r.source == Mdns && (r.origin.None? || r.origin.value == instance)
    }

    /** A record with which this writer publishes what it discovered. */
    function Stamped(id: Uuid, want: DesiredRecord): Record {
      Record(id, zoneId, want.name, want.ttl, want.data, true, None, Mdns, Some(instance))
    }

    ghost predicate Mine(records: map<string, Record>, id: string) {
      id in records && records[id].zoneId == zoneId && Own(records[id])
    }

    /** A record some other source keeps under the same name and type. */
    ghost predicate Shadowed(records: map<string, Record>, want: DesiredRecord) {
      exists id :: id in records && records[id].zoneId == zoneId && Curates(records[id], want)
    }

    /** The record publishes `want`: owned, enabled and with the wanted TTL. */
    ghost predicate Serves(r: Record, want: DesiredRecord) {
      r.zoneId == zoneId && Own(r) && Matches(r, want) && r.ttl == want.ttl && r.enabled
    }

    /** The entry is wanted, and no other source keeps its name and type. */
    ghost predicate Wanted(records: map<string, Record>, r: Record, desired: seq<DesiredRecord>, j: int) {
      0 <= j < |desired| && !Shadowed(records, desired[j]) && Serves(r, desired[j])
    }

    ghost predicate OnlyWanted(records: map<string, Record>, desired: seq<DesiredRecord>) {
      forall id :: Mine(records, id) ==> exists j :: Wanted(records, records[id], desired, j)
    }

    ghost predicate Published(records: map<string, Record>, want: DesiredRecord) {
      exists id :: Mine(records, id) && Serves(records[id], want)
    }

    ghost predicate AllWanted(records: map<string, Record>, desired: seq<DesiredRecord>) {
      forall j :: 0 <= j < |desired| && !Shadowed(records, desired[j]) ==> Published(records, desired[j])
    }

    ghost predicate EachOnce(records: map<string, Record>) {
      forall id, id' :: Mine(records, id) && Mine(records, id') && Alike(records[id], records[id']) ==> id == id'
    }

    /** What the writer owns is what is wanted and not shadowed, each exactly once. */
    ghost predicate Converged(records: map<string, Record>, desired: seq<DesiredRecord>) {
      OnlyWanted(records, desired) && AllWanted(records, desired) && EachOnce(records)
    }

    /** Nothing but the writer's own records differs, and new ones carry its stamp. */
    ghost predicate OthersKept(before: map<string, Record>, now: map<string, Record>) {
      && (forall id :: id in before && !Mine(before, id) ==> id in now && now[id] == before[id])
      && (forall id :: id in now && id !in before ==> Mine(now, id) && now[id].origin == Some(instance))
      && (forall id :: id in now && Mine(before, id) ==>
            now[id] == before[id] || now[id] == before[id].(ttl := now[id].ttl, enabled := true))
    }
  }

  predicate Curates(r: Record, want: DesiredRecord) {
    r.name == want.name && r.data.Type() == want.data.Type() && r.source != Mdns
  }

  predicate Alike(r: Record, s: Record) {
    r.name == s.name && r.data == s.data
  }

  predicate Matches(r: Record, want: DesiredRecord) {
    r.name == want.name && r.data == want.data
  }

  /** No two wanted entries share a name and data. */
  ghost predicate Distinct(desired: seq<DesiredRecord>) {
    forall i, j :: 0 <= i < j < |desired| ==> desired[i].name != desired[j].name || desired[i].data != desired[j].data
  }

  // --- One wanted entry ---

  /** Some entry was placed in the record. */
  ghost predicate Listed(ledger: map<int, string>, id: string) {
    exists j :: j in ledger && ledger[j] == id
  }

  /** How placing one entry moves the record table; `id` is the record it ends up in. */
  ghost predicate Places(w: Writer, before: map<string, Record>, now: map<string, Record>, next: map<string, Record>,
                         want: DesiredRecord, id: Option<string>)
  {
    match id
    case None => w.Shadowed(before, want) && next == now
    case Some(x) =>
      && !w.Shadowed(before, want)
      && (if x in before
          then
            && w.Mine(before, x) && Matches(before[x], want)
            && next == (if w.Serves(before[x], want) then now
                        else now[x := before[x].(ttl := want.ttl, enabled := true)])
          else
            && x !in now && IsUuid(x) && next == now[x := w.Stamped(x, want)]
            && forall y :: w.Mine(before, y) ==> !Matches(before[y], want))
  }

  /** The ledger covers the first `i` entries that are not shadowed. */
  ghost predicate Covered(w: Writer, before: map<string, Record>, desired: seq<DesiredRecord>, i: int,
                          ledger: map<int, string>) {
    && i <= |desired|
    && forall j :: j in ledger <==> 0 <= j < i && !w.Shadowed(before, desired[j])
  }

  /** Each covered entry is published by the record the ledger names. */
  ghost predicate Served(w: Writer, now: map<string, Record>, desired: seq<DesiredRecord>, ledger: map<int, string>) {
    forall j :: j in ledger ==> 0 <= j < |desired| && ledger[j] in now && w.Serves(now[ledger[j]], desired[j])
  }

  ghost predicate OldKept(w: Writer, before: map<string, Record>, now: map<string, Record>, ledger: map<int, string>,
                          id: string)
    requires id in before
  {
    && id in now
    && (now[id] == before[id] ||
        (w.Mine(before, id) && Listed(ledger, id) && now[id] == before[id].(ttl := now[id].ttl, enabled := true)))
  }

  ghost predicate NewNoted(w: Writer, now: map<string, Record>, ledger: map<int, string>, id: string)
    requires id in now
  {
    Listed(ledger, id) && w.Mine(now, id) && now[id].origin == Some(w.instance)
  }

  /** The first `i` entries are placed; the ledger says in which record each. */
  ghost predicate Placed(w: Writer, before: map<string, Record>, now: map<string, Record>, desired: seq<DesiredRecord>,
                         i: nat, ledger: map<int, string>)
  {
    && Covered(w, before, desired, i, ledger)
    && (Distinct(desired) ==> Served(w, now, desired, ledger))
    && (forall id :: id in before ==> OldKept(w, before, now, ledger, id))
    && (forall id :: id in now && id !in before ==> NewNoted(w, now, ledger, id))
  }

  function Noted(ledger: map<int, string>, i: int, id: Option<string>): map<int, string> {
    if id.Some? then ledger[i := id.value] else ledger
  }

  /** An entry's record has not been placed before. */
  lemma PlacesAnew(w: Writer, before: map<string, Record>, now: map<string, Record>, next: map<string, Record>,
                   desired: seq<DesiredRecord>, i: nat, ledger: map<int, string>, x: string)
    requires Distinct(desired) && i < |desired|
    requires Placed(w, before, now, desired, i, ledger) && Places(w, before, now, next, desired[i], Some(x))
    ensures !Listed(ledger, x)
  {
  }

  lemma NotedListed(ledger: map<int, string>, i: int, x: string)
    requires i !in ledger
    ensures Listed(ledger[i := x], x)
    ensures forall id :: Listed(ledger, id) ==> Listed(ledger[i := x], id)
  {
    var l := ledger[i := x];
    assert l[i] == x;
    forall id | Listed(ledger, id)
      ensures Listed(l, id)
    {
      var j :| j in ledger && ledger[j] == id;
      assert l[j] == id;
    }
  }

  lemma ServedOneMore(w: Writer, before: map<string, Record>, now: map<string, Record>, next: map<string, Record>,
                      desired: seq<DesiredRecord>, i: nat, ledger: map<int, string>, x: string)
    requires Distinct(desired) && i < |desired|
    requires Placed(w, before, now, desired, i, ledger) && Places(w, before, now, next, desired[i], Some(x))
    ensures Served(w, next, desired, ledger[i := x])
  {
    PlacesAnew(w, before, now, next, desired, i, ledger, x);
    forall j | j in ledger
      ensures ledger[j] in next && next[ledger[j]] == now[ledger[j]]
    {
      assert Listed(ledger, ledger[j]);
    }
    if x in before {
      assert OldKept(w, before, now, ledger, x);
    }
    assert x in next && w.Serves(next[x], desired[i]);
  }

  lemma OldKeptOneMore(w: Writer, before: map<string, Record>, now: map<string, Record>, next: map<string, Record>,
                       want: DesiredRecord, i: nat, ledger: map<int, string>, x: string, id: string)
    requires id in before && i !in ledger
    requires OldKept(w, before, now, ledger, id) && Places(w, before, now, next, want, Some(x))
    ensures OldKept(w, before, next, ledger[i := x], id)
  {
    NotedListed(ledger, i, x);
  }

  lemma NewNotedOneMore(w: Writer, before: map<string, Record>, now: map<string, Record>, next: map<string, Record>,
                        want: DesiredRecord, i: nat, ledger: map<int, string>, x: string, id: string)
    requires id in next && id !in before && i !in ledger
    requires (id in now ==> NewNoted(w, now, ledger, id)) && Places(w, before, now, next, want, Some(x))
    ensures NewNoted(w, next, ledger[i := x], id)
  {
    NotedListed(ledger, i, x);
  }

  lemma PlacesOneMore(w: Writer, before: map<string, Record>, now: map<string, Record>, next: map<string, Record>,
                      desired: seq<DesiredRecord>, i: nat, ledger: map<int, string>, id: Option<string>)
    requires i < |desired|
    requires Placed(w, before, now, desired, i, ledger) && Places(w, before, now, next, desired[i], id)
    ensures Placed(w, before, next, desired, i + 1, Noted(ledger, i, id))
  {
    if id.Some? {
      if Distinct(desired) {
        ServedOneMore(w, before, now, next, desired, i, ledger, id.value);
      }
      NotedListed(ledger, i, id.value);
      forall y | y in before
        ensures OldKept(w, before, next, ledger[i := id.value], y)
      {
        OldKeptOneMore(w, before, now, next, desired[i], i, ledger, id.value, y);
      }
      forall y | y in next && y !in before
        ensures NewNoted(w, next, ledger[i := id.value], y)
      {
        NewNotedOneMore(w, before, now, next, desired[i], i, ledger, id.value, y);
      }
    }
  }

  // --- The whole pass ---

  /** The ids of ours that no wanted entry kept. */
  ghost function Stale(w: Writer, before: map<string, Record>, ledger: map<int, string>): set<string> {
    set id | id in before && w.Mine(before, id) && !Listed(ledger, id)
  }

  ghost function StaleIf(prune: bool, w: Writer, before: map<string, Record>, ledger: map<int, string>): set<string> {
    if prune then Stale(w, before, ledger) else {}
  }

  lemma ShadowsKept(w: Writer, before: map<string, Record>, now: map<string, Record>, want: DesiredRecord)
    requires w.OthersKept(before, now)
    ensures w.Shadowed(now, want) <==> w.Shadowed(before, want)
  {
  }

  lemma PlacedKeepsOthers(w: Writer, before: map<string, Record>, now: map<string, Record>, desired: seq<DesiredRecord>,
                          ledger: map<int, string>)
    requires Placed(w, before, now, desired, |desired|, ledger)
    ensures w.OthersKept(before, now)
  {
    forall id | id in before
      ensures
        now[id] == before[id] || (w.Mine(before, id) && now[id] == before[id].(ttl := now[id].ttl, enabled := true))
    {
      assert OldKept(w, before, now, ledger, id);
    }
  }

  lemma PruningKeepsOthers(w: Writer, before: map<string, Record>, now: map<string, Record>, ledger: map<int, string>)
    requires w.OthersKept(before, now)
    ensures w.OthersKept(before, now - Stale(w, before, ledger))
  {
  }

  /** After pruning, every owned record is the one some wanted entry was placed in. */
  lemma PrunedIsLedger(w: Writer, before: map<string, Record>, now: map<string, Record>, desired: seq<DesiredRecord>,
                       ledger: map<int, string>, id: string)
    requires Placed(w, before, now, desired, |desired|, ledger) && w.Mine(now - Stale(w, before, ledger), id)
    ensures Listed(ledger, id)
  {
  }

  lemma PrunedServes(w: Writer, before: map<string, Record>, now: map<string, Record>, desired: seq<DesiredRecord>,
                     ledger: map<int, string>, id: string) returns (j: int)
    requires Distinct(desired) && Placed(w, before, now, desired, |desired|,
                                         ledger) && w.Mine(now - Stale(w, before, ledger), id)
    ensures j in ledger && ledger[j] == id && w.Wanted(before, now[id], desired, j)
  {
    PrunedIsLedger(w, before, now, desired, ledger, id);
    j :| j in ledger && ledger[j] == id;
    assert w.Serves(now[ledger[j]], desired[j]);
  }

  lemma PrunedOnce(w: Writer, before: map<string, Record>, now: map<string, Record>, desired: seq<DesiredRecord>,
                   ledger: map<int, string>, id: string, id': string)
    requires Distinct(desired) && Placed(w, before, now, desired, |desired|, ledger)
    requires w.Mine(now - Stale(w, before, ledger), id) && w.Mine(now - Stale(w, before, ledger), id')
    requires Alike(now[id], now[id'])
    ensures id == id'
  {
  }

  lemma PrunedPublishes(w: Writer, before: map<string, Record>, now: map<string, Record>, desired: seq<DesiredRecord>,
                        ledger: map<int, string>, j: int)
    requires Distinct(desired) && Placed(w, before, now, desired, |desired|, ledger)
    requires 0 <= j < |desired| && !w.Shadowed(before, desired[j])
    ensures w.Published(now - Stale(w, before, ledger), desired[j])
  {
    var after := now - Stale(w, before, ledger);
    assert j in ledger && Listed(ledger, ledger[j]);
    assert w.Mine(after, ledger[j]) && w.Serves(after[ledger[j]], desired[j]);
  }

  lemma PrunedConverges(w: Writer, before: map<string, Record>, now: map<string, Record>, desired: seq<DesiredRecord>,
                        ledger: map<int, string>)
    requires Distinct(desired) && Placed(w, before, now, desired, |desired|, ledger)
    ensures w.Converged(now - Stale(w, before, ledger), desired)
  {
    var after := now - Stale(w, before, ledger);
    PlacedKeepsOthers(w, before, now, desired, ledger);
    PruningKeepsOthers(w, before, now, ledger);
    assert w.OnlyWanted(after, desired) by {
      forall id | w.Mine(after, id)
        ensures exists j :: w.Wanted(after, after[id], desired, j)
      {
        var j := PrunedServes(w, before, now, desired, ledger, id);
        ShadowsKept(w, before, after, desired[j]);
        assert w.Wanted(after, after[id], desired, j);
      }
    }
    assert w.AllWanted(after, desired) by {
      forall j | 0 <= j < |desired| && !w.Shadowed(after, desired[j])
        ensures w.Published(after, desired[j])
      {
        ShadowsKept(w, before, after, desired[j]);
        PrunedPublishes(w, before, now, desired, ledger, j);
      }
    }
    assert w.EachOnce(after) by {
      forall id, id' | w.Mine(after, id) && w.Mine(after, id') && Alike(after[id], after[id'])
        ensures id == id'
      {
        PrunedOnce(w, before, now, desired, ledger, id, id');
      }
    }
  }

  /** Against a converged table an entry is found as it should be, and nothing is written. */
  lemma ConvergedPlacesNothing(w: Writer, before: map<string, Record>, now: map<string, Record>,
                               next: map<string, Record>,
                               desired: seq<DesiredRecord>, i: nat, id: Option<string>)
    requires Distinct(desired) && w.Converged(before, desired) && i < |desired|
    requires Places(w, before, now, next, desired[i], id)
    ensures next == now
  {
  }

  /** Against a converged table nothing is left to prune. */
  lemma ConvergedHasNoStale(w: Writer, before: map<string, Record>, desired: seq<DesiredRecord>,
                            ledger: map<int, string>)
    requires Distinct(desired) && w.Converged(before, desired) && Placed(w, before, before, desired, |desired|, ledger)
    ensures Stale(w, before, ledger) == {}
  {
  }

  // --- The publisher ---

  ghost predicate IsMine(w: Writer, before: map<string, Record>, mine: seq<Record>) {
    forall r :: r in mine <==> w.Mine(before, r.id) && before[r.id] == r
  }

  ghost predicate IsTheirs(w: Writer, before: map<string, Record>, theirs: seq<Record>) {
    forall r :: r in theirs <==>
      r.id in before && before[r.id] == r && r.zoneId == w.zoneId && !w.Own(r)
  }

  lemma CuratedIsShadowed(w: Writer, before: map<string, Record>, theirs: seq<Record>, want: DesiredRecord)
    requires IsTheirs(w, before, theirs) && forall id :: id in before ==> before[id].id == id
    ensures (exists r :: r in theirs && Curates(r, want)) <==> w.Shadowed(before, want)
  {
  }

  lemma MatchesNone(w: Writer, before: map<string, Record>, mine: seq<Record>, want: DesiredRecord)
    requires IsMine(w, before, mine) && forall id :: id in before ==> before[id].id == id
    requires forall r :: r in mine ==> !Matches(r, want)
    ensures forall id :: w.Mine(before, id) ==> !Matches(before[id], want)
  {
  }

  /** Every record is still there under its zone, name and type. */
  ghost predicate KeysKept(before: map<string, Record>, now: map<string, Record>) {
    forall id :: id in before ==> id in now && KeyOf(now[id]) == KeyOf(before[id])
  }

  lemma PlacedKeepsKeys(w: Writer, before: map<string, Record>, now: map<string, Record>, desired: seq<DesiredRecord>,
                        i: nat, ledger: map<int, string>)
    requires Placed(w, before, now, desired, i, ledger)
    ensures KeysKept(before, now)
  {
  }

  /** The part of a listing that a writer owns, or does not. */
  method Part(w: Writer, rs: seq<Record>, own: bool) returns (part: seq<Record>)
    requires DistinctIds(rs)
    ensures DistinctIds(part)
    ensures forall r :: r in part <==> r in rs && w.Own(r) == own
  {
    part := [];
    for i := 0 to |rs|
      invariant DistinctIds(part)
      invariant forall r :: r in part <==> r in rs[..i] && w.Own(r) == own
    {
      if w.Own(rs[i]) == own {
        assert forall r :: r in part ==> r.id != rs[i].id;
        part := part + [rs[i]];
      }
      assert rs[..i + 1] == rs[..i] + [rs[i]];
    }
    assert rs[..|rs|] == rs;
  }

  /** The first of our records that holds the wanted name and data. */
  method FindMatch(mine: seq<Record>, want: DesiredRecord) returns (found: Option<Record>)
    ensures found.None? ==> forall r :: r in mine ==> !Matches(r, want)
    ensures found.Some? ==> found.value in mine && Matches(found.value, want)
  {
    for i := 0 to |mine|
      invariant forall k :: 0 <= k < i ==> !Matches(mine[k], want)
    {
      if Matches(mine[i], want) {
        return Some(mine[i]);
      }
    }
    found := None;
  }

  ghost function Dropped(mine: seq<Record>, keep: seq<Uuid>): set<string> {
    set r | r in mine && r.id !in keep :: r.id
  }

  lemma DroppedSnoc(mine: seq<Record>, keep: seq<Uuid>, i: nat)
    requires DistinctIds(mine) && i < |mine|
    ensures mine[i].id !in Dropped(mine[..i], keep)
    ensures Dropped(mine[..i + 1], keep) ==
            if mine[i].id in keep then Dropped(mine[..i], keep) else Dropped(mine[..i], keep) + {mine[i].id}
  {
  }

  /** The kept ids are those of our older records that some entry was placed in. */
  ghost predicate KeptIs(keep: seq<Uuid>, before: map<string, Record>, ledger: map<int, string>) {
    forall id :: id in keep <==> id in before && Listed(ledger, id)
  }

  lemma KeptOneMore(keep: seq<Uuid>, before: map<string, Record>, ledger: map<int, string>, i: int, id: Uuid)
    requires KeptIs(keep, before, ledger) && i !in ledger
    ensures KeptIs(if id in before then keep + [id] else keep, before, ledger[i := id])
  {
    NotedListed(ledger, i, id);
    forall x | Listed(ledger[i := id], x) && x != id
      ensures Listed(ledger, x)
    {
      var j :| j in ledger[i := id] && ledger[i := id][j] == x;
      assert j in ledger && ledger[j] == x;
    }
  }

  lemma DroppedIsStale(w: Writer, before: map<string, Record>, mine: seq<Record>, keep: seq<Uuid>,
                       ledger: map<int, string>)
    requires IsMine(w, before, mine) && KeptIs(keep, before, ledger)
    requires forall id :: id in before ==> before[id].id == id
    ensures Dropped(mine, keep) == Stale(w, before, ledger)
  {
  }

  /** What a reconcile promises about the records. */
  ghost predicate Reconciled(w: Writer, before: map<string, Record>, after: map<string, Record>,
                             desired: seq<DesiredRecord>, prune: bool)
  {
    && w.OthersKept(before, after)
    && (!prune ==> before.Keys <= after.Keys)
    && (Distinct(desired) && prune ==> w.Converged(after, desired))
    && (Distinct(desired) && !prune ==> w.AllWanted(after, desired))
    && (Distinct(desired) && w.Converged(before, desired) ==> after == before)
  }

  /** Exactly the writer's own records are gone. */
  ghost predicate Withdrawn(w: Writer, before: map<string, Record>, after: map<string, Record>) {
    && after.Keys <= before.Keys
    && forall id :: id in before ==> (id in after <==> !w.Mine(before, id)) && (id in after ==> after[id] == before[id])
  }

  lemma StaleIsMine(w: Writer, before: map<string, Record>)
    ensures Withdrawn(w, before, before - Stale(w, before, map[]))
    ensures before.Keys - (before - Stale(w, before, map[])).Keys == Stale(w, before, map[])
  {
  }

  lemma PassReconciles(w: Writer, before: map<string, Record>, now: map<string, Record>, desired: seq<DesiredRecord>,
                       ledger: map<int, string>, prune: bool)
    requires Placed(w, before, now, desired, |desired|, ledger)
    requires Distinct(desired) && w.Converged(before, desired) ==> now == before
    ensures var stale := StaleIf(prune, w, before, ledger);
            && Reconciled(w, before, now - stale, desired, prune)
            && before.Keys - (now - stale).Keys == stale
            && (now - stale == before <==> now == before && stale == {})
  {
    PlacedKeepsOthers(w, before, now, desired, ledger);
    PruningKeepsOthers(w, before, now, ledger);
    assert now - {} == now;
    assert forall id :: id in before ==> OldKept(w, before, now, ledger, id);
    if Distinct(desired) {
      if prune {
        PrunedConverges(w, before, now, desired, ledger);
        if w.Converged(before, desired) {
          ConvergedHasNoStale(w, before, desired, ledger);
        }
      } else {
        PlacedPublishes(w, before, now, desired, ledger);
      }
    }
  }

  class Publisher {
    const db: Db
    const me: Writer

    constructor (db: Db, zoneId: Uuid, instance: string)
      ensures this.db == db && me == Writer(zoneId, instance)
    {
      this.db, me := db, Writer(zoneId, instance);
    }

    method Existing() returns (mine: seq<Record>, theirs: seq<Record>)
      requires db.Valid()
      ensures IsMine(me, db.records, mine) && IsTheirs(me, db.records, theirs)
      ensures DistinctIds(mine)
    {
      var existing := db.ListRecords(me.zoneId);
      assert DistinctIds(existing);
      mine := Part(me, existing, true);
      theirs := Part(me, existing, false);
    }

    /** Writes the wanted TTL over a record of ours, and enables it. */
    method Refresh(current: Record, want: DesiredRecord)
      requires db.Valid()
      requires current.id in db.records && KeyOf(db.records[current.id]) == KeyOf(current)
      modifies db`records, db`byZone
      ensures db.Valid()
      ensures db.records == old(db.records)[current.id := current.(ttl := want.ttl, enabled := true)]
    {
      var res := db.UpdateRecord(current.(ttl := want.ttl, enabled := true));
    }

    method Register(want: DesiredRecord) returns (id: Uuid)
      requires db.Valid()
      modifies db`records, db`byZone
      ensures db.Valid()
      ensures id !in old(db.records) && db.records == old(db.records)[id := me.Stamped(id, want)]
    {
      id := NewUuid(db.records.Keys);
      db.CreateRecord(me.Stamped(id, want));
    }

    /** Publishes one wanted entry; `id` is the record that carries it. */
    method Place(mine: seq<Record>, theirs: seq<Record>, want: DesiredRecord, ghost before: map<string, Record>)
      returns (id: Option<Uuid>, created: nat, updated: nat)
      requires db.Valid()
      requires IsMine(me, before, mine) && IsTheirs(me, before, theirs) && KeysKept(before, db.records)
      requires forall id :: id in before ==> before[id].id == id
      modifies db`records, db`byZone
      ensures db.Valid()
      ensures Places(me, before, old(db.records), db.records, want, id)
      ensures id.Some? ==> (created == 0 <==> id.value in before)
      ensures created + updated == 0 ==> db.records == old(db.records)
      ensures created + updated > 0 ==> db.records != before
    {
      created, updated := 0, 0;
      var curated := exists r :: r in theirs && Curates(r, want);
      CuratedIsShadowed(me, before, theirs, want);
      if curated {
        return None, 0, 0;
      }
      var current := FindMatch(mine, want);
      if current.None? {
        MatchesNone(me, before, mine, want);
        var x := Register(want);
        return Some(x), 1, 0;
      }
      id := Some(current.value.id);
      if current.value.ttl != want.ttl || !current.value.enabled {
        Refresh(current.value, want);
        updated := 1;
      }
    }

    /** Deletes what is ours and was not kept. */
    method Prune(mine: seq<Record>, keep: seq<Uuid>) returns (deleted: nat)
      requires db.Valid() && DistinctIds(mine)
      requires forall r :: r in mine ==> r.id in db.records
      modifies db`records, db`byZone, db`health
      ensures db.Valid()
      ensures db.records == old(db.records) - Dropped(mine, keep)
      ensures db.health == old(db.health) - Dropped(mine, keep)
      ensures deleted == |Dropped(mine, keep)|
    {
      deleted := 0;
      for i := 0 to |mine|
        invariant db.Valid()
        invariant db.records == old(db.records) - Dropped(mine[..i], keep)
        invariant db.health == old(db.health) - Dropped(mine[..i], keep)
        invariant deleted == |Dropped(mine[..i], keep)|
      {
        DroppedSnoc(mine, keep, i);
        if mine[i].id !in keep {
          var res := db.DeleteRecord(mine[i].id);
          MinusTwice(old(db.records) - Dropped(mine[..i], keep), old(db.records), Dropped(mine[..i], keep),
                     {mine[i].id});
          MinusTwice(old(db.health) - Dropped(mine[..i], keep), old(db.health), Dropped(mine[..i], keep), {mine[i].id});
          deleted := deleted + 1;
        }
      }
      assert mine[..|mine|] == mine;
    }

    /** Publishes every wanted entry that no other source shadows. */
    method PlaceAll(mine: seq<Record>, theirs: seq<Record>, desired: seq<DesiredRecord>,
                    ghost before: map<string, Record>)
      returns (keep: seq<Uuid>, applied: Applied, ghost ledger: map<int, string>)
      requires db.Valid() && db.records == before
      requires IsMine(me, before, mine) && IsTheirs(me, before, theirs)
      modifies db`records, db`byZone
      ensures db.Valid()
      ensures Placed(me, before, db.records, desired, |desired|, ledger) && KeptIs(keep, before, ledger)
      ensures applied.deleted == 0 && (applied.Changed() <==> db.records != before)
      ensures Distinct(desired) && me.Converged(before, desired) ==> db.records == before
    {
      keep, applied, ledger := [], NOTHING, map[];
      for i := 0 to |desired|
        invariant db.Valid()
        invariant Placed(me, before, db.records, desired, i, ledger) && KeptIs(keep, before, ledger)
        invariant applied.deleted == 0 && (applied.Changed() <==> db.records != before)
        invariant Distinct(desired) && me.Converged(before, desired) ==> db.records == before
      {
        ghost var now := db.records;
        PlacedKeepsKeys(me, before, now, desired, i, ledger);
        var id, created, updated := Place(mine, theirs, desired[i], before);
        PlacesOneMore(me, before, now, db.records, desired, i, ledger, id);
        if Distinct(desired) && me.Converged(before, desired) {
          ConvergedPlacesNothing(me, before, now, db.records, desired, i, id);
        }
        if id.None? {
          applied := applied.(shadowed := applied.shadowed + 1);
        } else {
          KeptOneMore(keep, before, ledger, i, id.value);
          keep := if created == 0 then keep + [id.value] else keep;
          applied := applied.(created := applied.created + created, updated := applied.updated + updated);
        }
        ledger := Noted(ledger, i, id);
      }
    }

    /** The serial moves exactly when something was written. */
    method BumpIf(changed: bool, stamp: nat) returns (res: Outcome)
      modifies db`zones
      ensures res == if changed && me.zoneId !in old(db.zones) then Err(ZoneNotFound(me.zoneId)) else Ok
      ensures db.zones == Bumped(old(db.zones), me.zoneId, changed, stamp)
    {
      res := Ok;
      if changed {
        res := db.IncrementSoaSerial(me.zoneId, stamp);
      }
    }

    method PruneIf(prune: bool, mine: seq<Record>, keep: seq<Uuid>) returns (deleted: nat)
      requires db.Valid() && DistinctIds(mine)
      requires forall r :: r in mine ==> r.id in db.records
      modifies db`records, db`byZone, db`health
      ensures db.Valid()
      ensures var gone := if prune then Dropped(mine, keep) else {};
              && db.records == old(db.records) - gone
              && db.health == old(db.health) - gone
              && (deleted > 0 <==> gone != {})
    {
      deleted := 0;
      if prune {
        deleted := Prune(mine, keep);
      }
    }

    /** Places what is wanted, then drops what is ours and was not. */
    method Pass(desired: seq<DesiredRecord>, prune: bool)
      returns (applied: Applied, ghost now: map<string, Record>, ghost ledger: map<int, string>)
      requires db.Valid()
      modifies db`records, db`byZone, db`health
      ensures db.Valid()
      ensures Placed(me, old(db.records), now, desired, |desired|, ledger)
      ensures Distinct(desired) && old(me.Converged(db.records, desired)) ==> now == old(db.records)
      ensures var stale := StaleIf(prune, me, old(db.records), ledger);
              && db.records == now - stale
              && db.health == old(db.health) - stale
              && (applied.Changed() <==> now != old(db.records) || stale != {})
    {
      var mine, theirs := Existing();
      ghost var before := db.records;
      var keep;
      keep, applied, ledger := PlaceAll(mine, theirs, desired, before);
      now := db.records;
      DroppedIsStale(me, before, mine, keep, ledger);
      PlacedKeepsKeys(me, before, now, desired, |desired|, ledger);
      var deleted := PruneIf(prune, mine, keep);
      applied := applied.(deleted := deleted);
    }

    /** The record side of a reconcile. */
    method Reconcile(desired: seq<DesiredRecord>, prune: bool) returns (applied: Applied)
      requires db.Valid()
      modifies db`records, db`byZone, db`health
      ensures db.Valid()
      ensures Reconciled(me, old(db.records), db.records, desired, prune)
      ensures applied.Changed() <==> db.records != old(db.records)
      ensures db.health == old(db.health) - (old(db.records).Keys - db.records.Keys)
    {
      ghost var before := db.records;
      ghost var now, ledger;
      applied, now, ledger := Pass(desired, prune);
      PassReconciles(me, before, now, desired, ledger, prune);
    }

    /** Makes the zone hold what is wanted, touching only records this instance owns. */
    method Apply(desired: seq<DesiredRecord>, prune: bool, stamp: nat) returns (res: Outcome, applied: Applied)
      requires db.Valid()
      modifies db
      ensures db.Valid() && db.nameIndex == old(db.nameIndex)
      ensures Reconciled(me, old(db.records), db.records, desired, prune)
      ensures applied.Changed() <==> db.records != old(db.records)
      ensures db.zones == Bumped(old(db.zones), me.zoneId, applied.Changed(), stamp)
      ensures db.health == old(db.health) - (old(db.records).Keys - db.records.Keys)
      ensures res == if applied.Changed() && me.zoneId !in old(db.zones) then Err(ZoneNotFound(me.zoneId)) else Ok
    {
      applied := Reconcile(desired, prune);
      res := BumpIf(applied.Changed(), stamp);
    }

    method Withdraw() returns (removed: nat)
      requires db.Valid()
      modifies db`records, db`byZone, db`health
      ensures db.Valid()
      ensures db.records == old(db.records) - Stale(me, old(db.records), map[])
      ensures db.health == old(db.health) - Stale(me, old(db.records), map[])
      ensures removed == |Stale(me, old(db.records), map[])|
    {
      var mine, _ := Existing();
      DroppedIsStale(me, db.records, mine, [], map[]);
      removed := Prune(mine, []);
    }

    /** Removes everything this instance owns in the zone, and nothing else. */
    method WithdrawAll(stamp: nat) returns (res: Outcome, removed: nat)
      requires db.Valid()
      modifies db
      ensures db.Valid() && db.nameIndex == old(db.nameIndex)
      ensures Withdrawn(me, old(db.records), db.records)
      ensures removed == |old(db.records).Keys - db.records.Keys|
      ensures db.zones == Bumped(old(db.zones), me.zoneId, removed > 0, stamp)
      ensures db.health == old(db.health) - (old(db.records).Keys - db.records.Keys)
      ensures res == if removed > 0 && me.zoneId !in old(db.zones) then Err(ZoneNotFound(me.zoneId)) else Ok
    {
      StaleIsMine(me, db.records);
      removed := Withdraw();
      res := BumpIf(removed > 0, stamp);
    }
  }

  /** The zones with one serial bumped, if the zone is there and something changed. */
  ghost function Bumped(zones: map<string, Zone>, zoneId: string, changed: bool, stamp: nat): map<string, Zone> {
    if changed && zoneId in zones
    then
      var zone := zones[zoneId];
      zones[zoneId := zone.(soa := zone.soa.(serial := Bump(zone.soa.serial, stamp)))]
    else zones
  }

  /** Without pruning, too, every entry that is not shadowed is published. */
  lemma PlacedPublishes(w: Writer, before: map<string, Record>, now: map<string, Record>, desired: seq<DesiredRecord>,
                        ledger: map<int, string>)
    requires Distinct(desired) && Placed(w, before, now, desired, |desired|, ledger)
    ensures w.AllWanted(now, desired)
  {
  }
}
