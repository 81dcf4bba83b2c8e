/**
 The cache of learned mDNS records: announcements with a lifetime, goodbyes, expiry
 and maintenance re-queries.  Properties are stated over whole histories.
 */
module MdnsCache {
  import opened Text
  import opened Types

  datatype Key = Key(name: string, rtype: RecordType)

  datatype Entry = Entry(name: string, data: RecordData, ttl: u32, lastSeen: nat, expiresAt: nat, refreshSent: bool)

  datatype Learned = New | Refreshed | Removed | Ignored

  type Entries = map<Key, seq<Entry>>

  function KeyFor(name: string, data: RecordData): Key {
    Key(Lower(name), data.Type())
  }

  // --- One list of entries ---

  /** Position of the entry with this data, or the length of the list. */
  function IndexOfData(list: seq<Entry>, data: RecordData): (i: nat)
    ensures i <= |list|
    ensures i < |list| ==> list[i].data == data
    ensures forall j :: 0 <= j < i ==> list[j].data != data
  {
    if list == [] || list[0].data == data then 0 else 1 + IndexOfData(list[1..], data)
  }

  function Find(list: seq<Entry>, data: RecordData): Option<Entry> {
    var i := IndexOfData(list, data);
    if i < |list| then Some(list[i]) else None
  }

  predicate DistinctData(list: seq<Entry>) {
    forall i, j :: 0 <= i < j < |list| ==> list[i].data != list[j].data
  }

  /** The entries with other data. */
  function Others(list: seq<Entry>, data: RecordData): (rest: seq<Entry>) {
    if list == [] then []
    else
      var rest, last := Others(list[..|list| - 1], data), list[|list| - 1];
      if last.data != data then rest + [last] else rest
  }

  /** The entries that have not run out at `now`. */
  function Living(list: seq<Entry>, now: nat): (rest: seq<Entry>) {
    if list == [] then []
    else
      var rest, last := Living(list[..|list| - 1], now), list[|list| - 1];
      if last.expiresAt > now then rest + [last] else rest
  }

  lemma {:induction false} OthersMember(list: seq<Entry>, data: RecordData, e: Entry)
    ensures e in Others(list, data) <==> e in list && e.data != data
    decreases |list|
  {
    if list != [] {
      var init, last := list[..|list| - 1], list[|list| - 1];
      OthersMember(init, data, e);
      assert e in list <==> e in init || e == last;
    }
  }

  lemma {:induction false} LivingMember(list: seq<Entry>, now: nat, e: Entry)
    ensures e in Living(list, now) <==> e in list && e.expiresAt > now
    decreases |list|
  {
    if list != [] {
      var init, last := list[..|list| - 1], list[|list| - 1];
      LivingMember(init, now, e);
      assert e in list <==> e in init || e == last;
    }
  }

  lemma {:induction false} OthersDistinct(list: seq<Entry>, data: RecordData)
    requires DistinctData(list)
    ensures DistinctData(Others(list, data))
    ensures |Others(list, data)| == |list| - (if Find(list, data).Some? then 1 else 0)
    decreases |list|
  {
    if list != [] {
      var init, last := list[..|list| - 1], list[|list| - 1];
      assert list == init + [last];
      OthersDistinct(init, data);
      FindSnoc(init, last, data);
      forall e | e in Others(init, data)
        ensures e.data != last.data
      {
        OthersMember(init, data, e);
      }
    }
  }

  lemma FindSnoc(init: seq<Entry>, last: Entry, data: RecordData)
    ensures Find(init + [last], data) == if Find(init, data).Some? then Find(init, data)
                                         else if last.data == data then Some(last) else None
  {
    var list := init + [last];
    var i, j := IndexOfData(init, data), IndexOfData(list, data);
    assert forall k :: 0 <= k < |init| ==> list[k] == init[k];
    if i < |init| {
      assert list[i].data == data;
      assert j == i;
    } else {
      assert list[|init|] == last;
      assert j >= |init|;
    }
  }

  lemma {:induction false} LivingDistinct(list: seq<Entry>, now: nat)
    requires DistinctData(list)
    ensures DistinctData(Living(list, now)) && |Living(list, now)| <= |list|
    decreases |list|
  {
    if list != [] {
      var init, last := list[..|list| - 1], list[|list| - 1];
      LivingDistinct(init, now);
      forall e | e in Living(init, now)
        ensures e.data != last.data
      {
        LivingMember(init, now, e);
      }
    }
  }

  lemma {:induction false} FindInOthers(list: seq<Entry>, data: RecordData, d: RecordData)
    ensures Find(Others(list, data), d) == if d == data then None else Find(list, d)
    decreases |list|
  {
    if list != [] {
      var init, last := list[..|list| - 1], list[|list| - 1];
      assert list == init + [last];
      FindInOthers(init, data, d);
      FindSnoc(init, last, d);
      FindSnoc(Others(init, data), last, d);
    }
  }

  lemma {:induction false} FindInLiving(list: seq<Entry>, now: nat, d: RecordData)
    requires DistinctData(list)
    ensures Find(Living(list, now), d) ==
            if Find(list, d).Some? && Find(list, d).value.expiresAt > now then Find(list, d) else None
    decreases |list|
  {
    if list != [] {
      var init, last := list[..|list| - 1], list[|list| - 1];
      assert list == init + [last];
      FindInLiving(init, now, d);
      FindSnoc(init, last, d);
      FindSnoc(Living(init, now), last, d);
      if Find(init, d).Some? {
        assert init[IndexOfData(init, d)].data != last.data;
      }
    }
  }

  lemma {:induction false} FindInMark(list: seq<Entry>, now: nat, d: RecordData)
    ensures Find(Mark(list, now), d) == if Find(list, d).Some? then Some(MarkOne(Find(list, d).value, now)) else None
    decreases |list|
  {
    if list != [] {
      var init, last := list[..|list| - 1], list[|list| - 1];
      assert list == init + [last];
      FindInMark(init, now, d);
      FindSnoc(init, last, d);
      FindSnoc(Mark(init, now), MarkOne(last, now), d);
    }
  }

  // --- The table of lists ---

  /** A non-empty list under each key, of entries with that name and type and distinct data. */
  ghost predicate ListOk(k: Key, list: seq<Entry>) {
    list != [] && DistinctData(list) && forall e :: e in list ==> e.name == k.name && e.data.Type() == k.rtype
  }

  ghost predicate WellFormed(entries: Entries) {
    forall k :: k in entries ==> ListOk(k, entries[k])
  }

  function ListAt(entries: Entries, k: Key): seq<Entry> {
    if k in entries then entries[k] else []
  }

  /** The entry held for a name and data, if any. */
  function Get(entries: Entries, name: string, data: RecordData): Option<Entry> {
    Find(ListAt(entries, KeyFor(name, data)), data)
  }

  function Put(entries: Entries, k: Key, list: seq<Entry>): Entries {
    if list == [] then entries - {k} else entries[k := list]
  }

  function LearnList(list: seq<Entry>, name: string, data: RecordData, ttl: u32, now: nat): seq<Entry> {
    if ttl == 0 then Others(list, data)
    else
      var e := Entry(Lower(name), data, ttl, now, now + ttl, false);
      var i := IndexOfData(list, data);
      if i < |list| then list[i := list[i].(ttl := ttl, lastSeen := now, expiresAt := now + ttl, refreshSent := false)]
      else list + [e]
  }

  function LearnEntries(entries: Entries, name: string, data: RecordData, ttl: u32, now: nat): Entries {
    var k := KeyFor(name, data);
    Put(entries, k, LearnList(ListAt(entries, k), name, data, ttl, now))
  }

  /** What an announcement did, by whether the pair was held and whether it is a goodbye. */
  function OutcomeOf(entries: Entries, name: string, data: RecordData, ttl: u32): Learned {
    var held := Get(entries, name, data).Some?;
    if ttl == 0 then (if held then Removed else Ignored) else if held then Refreshed else New
  }

  function ExpireEntries(entries: Entries, now: nat): Entries {
    map k | k in entries && Living(entries[k], now) != [] :: Living(entries[k], now)
  }

  /** Past four fifths of its lifetime, and not asked about yet. */
  predicate Due(e: Entry, now: nat) {
    !e.refreshSent && 5 * (now - e.lastSeen) >= 4 * e.ttl
  }

  function MarkOne(e: Entry, now: nat): Entry {
    if Due(e, now) then e.(refreshSent := true) else e
  }

  function Mark(list: seq<Entry>, now: nat): (marked: seq<Entry>)
    ensures |marked| == |list|
  {
    if list == [] then [] else Mark(list[..|list| - 1], now) + [MarkOne(list[|list| - 1], now)]
  }

  lemma {:induction false} MarkAt(list: seq<Entry>, now: nat, i: nat)
    requires i < |list|
    ensures Mark(list, now)[i] == MarkOne(list[i], now)
    decreases |list|
  {
    if i < |list| - 1 {
      MarkAt(list[..|list| - 1], now, i);
    }
  }

  function RefreshEntries(entries: Entries, now: nat): Entries {
    map k | k in entries :: Mark(entries[k], now)
  }

  /** The names and types to ask about. */
  predicate DueKey(entries: Entries, k: Key, now: nat) {
    k in entries && exists i :: 0 <= i < |entries[k]| && Due(entries[k][i], now)
  }

  // --- What each operation does to a pair ---

  lemma LearnOk(entries: Entries, name: string, data: RecordData, ttl: u32, now: nat)
    requires WellFormed(entries)
    ensures WellFormed(LearnEntries(entries, name, data, ttl, now))
  {
    var k := KeyFor(name, data);
    var list := ListAt(entries, k);
    var learned := LearnList(list, name, data, ttl, now);
    if ttl == 0 {
      OthersDistinct(list, data);
      forall e | e in learned
        ensures e in list
      {
        OthersMember(list, data, e);
      }
    } else if IndexOfData(list, data) < |list| {
      var i := IndexOfData(list, data);
      forall e | e in learned
        ensures e.name == k.name && e.data.Type() == k.rtype
      {
        assert list[i] in list;
        var j :| 0 <= j < |learned| && learned[j] == e;
        assert j != i ==> e == list[j] && e in list;
      }
    }
    assert learned != [] ==> ListOk(k, learned);
  }

  lemma GetAfterLearn(entries: Entries, name: string, data: RecordData, ttl: u32, now: nat, n: string, d: RecordData)
    requires WellFormed(entries)
    ensures Get(LearnEntries(entries, name, data, ttl, now), n, d) ==
            if Lower(n) != Lower(name) || d != data then Get(entries, n, d)
            else if ttl == 0 then None
            else Some(Entry(Lower(name), data, ttl, now, now + ttl, false))
  {
    var k := KeyFor(name, data);
    var list := ListAt(entries, k);
    GetAfterPut(entries, k, LearnList(list, name, data, ttl, now), n, d);
    if KeyFor(n, d) == k {
      FindAfterLearn(list, name, data, ttl, now, d);
      HeldIsNamed(entries, name, data);
    }
  }

  lemma GetAfterPut(entries: Entries, k: Key, list: seq<Entry>, n: string, d: RecordData)
    ensures Get(Put(entries, k, list), n, d) == if KeyFor(n, d) == k then Find(list, d) else Get(entries, n, d)
  {
  }

  lemma HeldIsNamed(entries: Entries, name: string, data: RecordData)
    requires WellFormed(entries)
    ensures var held := Get(entries, name, data);
            held.Some? ==> held.value.name == Lower(name) && held.value.data == data
  {
    var list := ListAt(entries, KeyFor(name, data));
    if IndexOfData(list, data) < |list| {
      assert list[IndexOfData(list, data)] in list;
    }
  }

  lemma FindAfterLearn(list: seq<Entry>, name: string, data: RecordData, ttl: u32, now: nat, d: RecordData)
    requires DistinctData(list)
    ensures d != data ==> Find(LearnList(list, name, data, ttl, now), d) == Find(list, d)
    ensures ttl == 0 ==> Find(LearnList(list, name, data, ttl, now), data) == None
    ensures ttl > 0 && Find(list, data).None? ==>
              Find(LearnList(list, name, data, ttl, now), data) ==
              Some(Entry(Lower(name), data, ttl, now, now + ttl, false))
    ensures ttl > 0 && Find(list, data).Some? ==>
              Find(LearnList(list, name, data, ttl, now), data) ==
              Some(Find(list, data).value.(ttl := ttl, lastSeen := now, expiresAt := now + ttl, refreshSent := false))
  {
    var learned := LearnList(list, name, data, ttl, now);
    var i := IndexOfData(list, data);
    if ttl == 0 {
      FindInOthers(list, data, d);
      FindInOthers(list, data, data);
    } else if i < |list| {
      FindAfterUpdate(list, i, learned[i], d);
      FindAfterUpdate(list, i, learned[i], data);
    } else {
      FindSnoc(list, learned[|list|], d);
      FindSnoc(list, learned[|list|], data);
    }
  }

  lemma FindAfterUpdate(list: seq<Entry>, i: nat, e: Entry, d: RecordData)
    requires i < |list| && i == IndexOfData(list, e.data) && list[i].data == e.data
    ensures Find(list[i := e], d) == if d == e.data then Some(e) else Find(list, d)
  {
    var updated := list[i := e];
    assert forall j :: 0 <= j < |list| ==> updated[j].data == list[j].data;
    var a, b := IndexOfData(list, d), IndexOfData(updated, d);
    assert a == b;
  }

  lemma ExpireOk(entries: Entries, now: nat)
    requires WellFormed(entries)
    ensures WellFormed(ExpireEntries(entries, now))
  {
    forall k | k in ExpireEntries(entries, now)
      ensures ListOk(k, Living(entries[k], now))
    {
      LivingDistinct(entries[k], now);
      forall e | e in Living(entries[k], now)
        ensures e in entries[k]
      {
        LivingMember(entries[k], now, e);
      }
    }
  }

  lemma GetAfterExpire(entries: Entries, now: nat, n: string, d: RecordData)
    requires WellFormed(entries)
    ensures Get(ExpireEntries(entries, now), n, d) ==
            if Get(entries, n, d).Some? && Get(entries, n, d).value.expiresAt > now then Get(entries, n, d) else None
  {
    var k := KeyFor(n, d);
    if k in entries {
      FindInLiving(entries[k], now, d);
    }
  }

  lemma MarkOk(k: Key, list: seq<Entry>, now: nat)
    requires ListOk(k, list)
    ensures ListOk(k, Mark(list, now))
  {
    var marked := Mark(list, now);
    forall i | 0 <= i < |list|
      ensures marked[i] == MarkOne(list[i], now) && list[i] in list
    {
      MarkAt(list, now, i);
    }
    forall e | e in marked
      ensures e.name == k.name && e.data.Type() == k.rtype
    {
      var i :| 0 <= i < |list| && marked[i] == e;
      assert list[i] in list;
    }
  }

  lemma RefreshOk(entries: Entries, now: nat)
    requires WellFormed(entries)
    ensures WellFormed(RefreshEntries(entries, now))
  {
    forall k | k in entries
      ensures ListOk(k, Mark(entries[k], now))
    {
      MarkOk(k, entries[k], now);
    }
  }

  lemma GetAfterRefresh(entries: Entries, now: nat, n: string, d: RecordData)
    ensures Get(RefreshEntries(entries, now), n, d) ==
            if Get(entries, n, d).Some? then Some(MarkOne(Get(entries, n, d).value, now)) else None
  {
    var k := KeyFor(n, d);
    if k in entries {
      FindInMark(entries[k], now, d);
    }
  }

  /** The outcome says whether the pair was held before and whether it is held after. */
  lemma OutcomeTells(entries: Entries, name: string, data: RecordData, ttl: u32, now: nat)
    requires WellFormed(entries)
    ensures var before, after := Get(entries, name, data), Get(LearnEntries(entries, name, data, ttl, now), name, data);
            match OutcomeOf(entries, name, data, ttl)
            case New => before.None? && after.Some?
            case Refreshed => before.Some? && after.Some?
            case Removed => before.Some? && after.None?
            case Ignored => before.None? && after.None?
  {
    GetAfterLearn(entries, name, data, ttl, now, name, data);
  }

  // --- Whole histories ---

  datatype Event =
    | Announce(name: string, data: RecordData, ttl: u32, at: nat)
    | Expiry(at: nat)
    | Refresh(at: nat)

  function Step(entries: Entries, e: Event): Entries {
    match e
    case Announce(name, data, ttl, at) => LearnEntries(entries, name, data, ttl, at)
    case Expiry(at) => ExpireEntries(entries, at)
    case Refresh(at) => RefreshEntries(entries, at)
  }

  function After(events: seq<Event>): Entries {
    if events == [] then map[] else Step(After(events[..|events| - 1]), events[|events| - 1])
  }

  lemma {:induction false} AlwaysWellFormed(events: seq<Event>)
    ensures WellFormed(After(events))
    decreases |events|
  {
    if events != [] {
      var init := After(events[..|events| - 1]);
      AlwaysWellFormed(events[..|events| - 1]);
      match events[|events| - 1]
      case Announce(name, data, ttl, at) => LearnOk(init, name, data, ttl, at);
      case Expiry(at) => ExpireOk(init, at);
      case Refresh(at) => RefreshOk(init, at);
    }
  }

  predicate Announces(e: Event, name: string, data: RecordData) {
    e.Announce? && Lower(e.name) == Lower(name) && e.data == data
  }

  /** The latest announcement of a pair. */
  function LastAnnouncement(events: seq<Event>, name: string, data: RecordData): (a: Option<Event>)
    ensures a.Some? ==> a.value.Announce?
  {
    if events == [] then None
    else if Announces(events[|events| - 1], name, data) then Some(events[|events| - 1])
    else LastAnnouncement(events[..|events| - 1], name, data)
  }

  /** The time of the latest expiry pass. */
  function LatestExpiry(events: seq<Event>): int {
    if events == [] then -1
    else
      var rest, e := LatestExpiry(events[..|events| - 1]), events[|events| - 1];
      if e.Expiry? && e.at > rest then e.at else rest
  }

  /** A held entry lives as its latest announcement said; a missing one was never announced, took leave, or ran out. */
  ghost predicate Explained(held: Option<Entry>, last: Option<Event>, expiry: int) {
    && (last.Some? ==> last.value.Announce?)
    && (held.Some? ==> last.Some? && last.value.ttl > 0 && held.value.expiresAt == last.value.at + last.value.ttl)
    && (held.None? ==> last.None? || last.value.ttl == 0 || last.value.at + last.value.ttl <= expiry)
  }

  lemma StepExplains(entries: Entries, e: Event, last: Option<Event>, expiry: int, name: string, data: RecordData)
    requires WellFormed(entries) && Explained(Get(entries, name, data), last, expiry)
    ensures Explained(Get(Step(entries, e), name, data), if Announces(e, name, data) then Some(e) else last,
                      if e.Expiry? && e.at > expiry then e.at else expiry)
  {
    match e
    case Announce(n, d, ttl, at) => GetAfterLearn(entries, n, d, ttl, at, name, data);
    case Expiry(at) => GetAfterExpire(entries, at, name, data);
    case Refresh(at) => GetAfterRefresh(entries, at, name, data);
  }

  lemma {:induction false} HistoryExplains(events: seq<Event>, name: string, data: RecordData)
    ensures Explained(Get(After(events), name, data), LastAnnouncement(events, name, data), LatestExpiry(events))
    decreases |events|
  {
    if events != [] {
      var init := events[..|events| - 1];
      HistoryExplains(init, name, data);
      AlwaysWellFormed(init);
      StepExplains(After(init), events[|events| - 1], LastAnnouncement(init, name, data), LatestExpiry(init), name,
                   data);
    }
  }

  lemma {:induction false} ExpiryIsAnEvent(events: seq<Event>, now: nat)
    requires forall i :: 0 <= i < |events| ==> events[i].at <= now
    ensures LatestExpiry(events) <= now
    decreases |events|
  {
    if events != [] {
      ExpiryIsAnEvent(events[..|events| - 1], now);
    }
  }

  /**
   After any history and an expiry pass no earlier than any of its events, a pair is
   cached exactly when its latest announcement was no goodbye and has not run out.
   */
  lemma CachedExactlyWhileAlive(events: seq<Event>, now: nat, name: string, data: RecordData)
    requires forall i :: 0 <= i < |events| ==> events[i].at <= now
    ensures var last := LastAnnouncement(events, name, data);
            Get(ExpireEntries(After(events), now), name, data).Some? <==>
            last.Some? && last.value.ttl > 0 && last.value.at + last.value.ttl > now
  {
    HistoryExplains(events, name, data);
    ExpiryIsAnEvent(events, now);
    AlwaysWellFormed(events);
    GetAfterExpire(After(events), now, name, data);
  }

  // --- An entry from its history ---

  ghost predicate IsLast(events: seq<Event>, i: int, name: string, data: RecordData) {
    && 0 <= i < |events| && Announces(events[i], name, data)
    && forall j :: i < j < |events| ==> !Announces(events[j], name, data)
  }

  /** Past four fifths of the announced lifetime. */
  predicate PastDue(a: Event, at: nat)
    requires a.Announce?
  {
    5 * (at - a.at) >= 4 * a.ttl
  }

  /** An expiry pass found the announced lifetime over. */
  ghost predicate RanOutSince(events: seq<Event>, i: nat)
    requires i < |events| && events[i].Announce?
  {
    exists j :: i < j < |events| && events[j].Expiry? && events[j].at >= events[i].at + events[i].ttl
  }

  /** A refresh pass found the announcement past due. */
  ghost predicate AskedSince(events: seq<Event>, i: nat)
    requires i < |events| && events[i].Announce?
  {
    exists j :: i < j < |events| && events[j].Refresh? && PastDue(events[i], events[j].at)
  }

  /** What an announcement leaves, given what happened to it since. */
  function Left(a: Event, name: string, data: RecordData, ranOut: bool, asked: bool): Option<Entry>
    requires a.Announce?
  {
    if a.ttl == 0 || ranOut then None else Some(Entry(Lower(name), data, a.ttl, a.at, a.at + a.ttl, asked))
  }

  lemma StepLeaves(entries: Entries, e: Event, a: Event, name: string, data: RecordData, ranOut: bool, asked: bool)
    requires WellFormed(entries) && a.Announce? && !Announces(e, name, data)
    requires Get(entries, name, data) == Left(a, name, data, ranOut, asked)
    ensures Get(Step(entries, e), name, data) ==
            Left(a, name, data, ranOut || (e.Expiry? && e.at >= a.at + a.ttl),
                 asked || (e.Refresh? && PastDue(a, e.at)))
  {
    match e
    case Announce(n, d, ttl, at) => GetAfterLearn(entries, n, d, ttl, at, name, data);
    case Expiry(at) => GetAfterExpire(entries, at, name, data);
    case Refresh(at) => GetAfterRefresh(entries, at, name, data);
  }

  /** What is held for a pair is its latest announcement, unless that took leave or ran out. */
  lemma {:induction false} EntryFromHistory(events: seq<Event>, name: string, data: RecordData, i: nat)
    requires IsLast(events, i, name, data)
    ensures Get(After(events), name, data) ==
            Left(events[i], name, data, RanOutSince(events, i), AskedSince(events, i))
    decreases |events|
  {
    var init, e := events[..|events| - 1], events[|events| - 1];
    AlwaysWellFormed(init);
    if i == |init| {
      GetAfterLearn(After(init), e.name, e.data, e.ttl, e.at, name, data);
    } else {
      assert IsLast(init, i, name, data) && init[i] == events[i];
      EntryFromHistory(init, name, data, i);
      SinceOneMore(events, i);
      StepLeaves(After(init), e, events[i], name, data, RanOutSince(init, i), AskedSince(init, i));
    }
  }

  lemma SinceOneMore(events: seq<Event>, i: nat)
    requires i < |events| - 1 && events[i].Announce?
    ensures var init, e := events[..|events| - 1], events[|events| - 1];
            && (RanOutSince(events, i) <==>
                RanOutSince(init, i) || (e.Expiry? && e.at >= events[i].at + events[i].ttl))
            && (AskedSince(events, i) <==> AskedSince(init, i) || (e.Refresh? && PastDue(events[i], e.at)))
  {
    var init := events[..|events| - 1];
    assert forall j :: 0 <= j < |init| ==> init[j] == events[j];
  }

  /** The announcement is still held, past due, and was not asked about since. */
  ghost predicate DueSince(events: seq<Event>, i: nat, now: nat)
    requires i < |events| && events[i].Announce?
  {
    events[i].ttl > 0 && !RanOutSince(events, i) && PastDue(events[i], now) && !AskedSince(events, i)
  }

  ghost predicate DueByHistory(events: seq<Event>, name: string, data: RecordData, now: nat) {
    exists i :: IsLast(events, i, name, data) && DueSince(events, i, now)
  }

  predicate HeldAndDue(held: Option<Entry>, now: nat) {
    held.Some? && Due(held.value, now)
  }

  lemma DueAt(events: seq<Event>, name: string, data: RecordData, i: nat, now: nat)
    requires IsLast(events, i, name, data)
    ensures DueSince(events, i, now) <==> HeldAndDue(Get(After(events), name, data), now)
  {
    EntryFromHistory(events, name, data, i);
  }

  lemma {:induction false} LastIsLast(events: seq<Event>, name: string, data: RecordData) returns (i: nat)
    requires LastAnnouncement(events, name, data).Some?
    ensures IsLast(events, i, name, data) && events[i] == LastAnnouncement(events, name, data).value
    decreases |events|
  {
    i := |events| - 1;
    if !Announces(events[i], name, data) {
      i := LastIsLast(events[..|events| - 1], name, data);
    }
  }

  lemma DuePair(events: seq<Event>, name: string, data: RecordData, now: nat)
    ensures DueByHistory(events, name, data, now) <==> HeldAndDue(Get(After(events), name, data), now)
  {
    if i :| IsLast(events, i, name, data) && DueSince(events, i, now) {
      DueAt(events, name, data, i, now);
    } else if HeldAndDue(Get(After(events), name, data), now) {
      HistoryExplains(events, name, data);
      var i := LastIsLast(events, name, data);
      DueAt(events, name, data, i, now);
    }
  }

  /** A name and type is asked about exactly if one of its pairs is due by the history. */
  lemma DueFromHistory(events: seq<Event>, name: string, rtype: RecordType, now: nat)
    ensures DueKey(After(events), Key(Lower(name), rtype), now) <==>
            exists data: RecordData :: data.Type() == rtype && DueByHistory(events, name, data, now)
  {
    var entries, k := After(events), Key(Lower(name), rtype);
    AlwaysWellFormed(events);
    if DueKey(entries, k, now) {
      var i :| 0 <= i < |entries[k]| && Due(entries[k][i], now);
      var data := entries[k][i].data;
      assert entries[k][i] in entries[k];
      assert KeyFor(name, data) == k && IndexOfData(entries[k], data) == i;
      DuePair(events, name, data, now);
    }
    if data: RecordData :| data.Type() == rtype && DueByHistory(events, name, data, now) {
      DuePair(events, name, data, now);
      assert KeyFor(name, data) == k;
    }
  }

  // --- Conservation ---

  ghost function Total(entries: Entries): nat
    decreases |entries|
  {
    if entries == map[] then 0
    else
      var k :| k in entries;
      |entries[k]| + Total(entries - {k})
  }

  lemma {:induction false} TotalPick(entries: Entries, k: Key)
    requires k in entries
    ensures Total(entries) == |entries[k]| + Total(entries - {k})
    decreases |entries|
  {
    var j :| j in entries && Total(entries) == |entries[j]| + Total(entries - {j});
    if j != k {
      TotalPick(entries - {j}, k);
      TotalPick(entries - {k}, j);
      assert entries - {j} - {k} == entries - {k} - {j};
    }
  }

  lemma TotalPut(entries: Entries, k: Key, list: seq<Entry>)
    ensures Total(Put(entries, k, list)) == Total(entries) - |ListAt(entries, k)| + |list|
    ensures |ListAt(entries, k)| <= Total(entries)
  {
    if k in entries {
      TotalPick(entries, k);
    } else {
      assert entries - {k} == entries;
    }
    if list != [] {
      TotalPick(entries[k := list], k);
      assert entries[k := list] - {k} == entries - {k};
    }
  }

  lemma TotalAfterLearn(entries: Entries, name: string, data: RecordData, ttl: u32, now: nat)
    requires WellFormed(entries)
    ensures Total(LearnEntries(entries, name, data, ttl, now)) ==
            match OutcomeOf(entries, name, data, ttl)
            case New => Total(entries) + 1
            case Removed => Total(entries) - 1
            case _ => Total(entries)
  {
    var k := KeyFor(name, data);
    var list := ListAt(entries, k);
    TotalPut(entries, k, LearnList(list, name, data, ttl, now));
    OthersDistinct(list, data);
  }

  /** How often an outcome occurred in a history. */
  function Outcomes(events: seq<Event>, o: Learned): nat {
    if events == [] then 0
    else
      var init, e := events[..|events| - 1], events[|events| - 1];
      Outcomes(init, o) + if e.Announce? && OutcomeOf(After(init), e.name, e.data, e.ttl) == o then 1 else 0
  }

  /** How many entries the expiry passes of a history dropped. */
  ghost function Dropped(events: seq<Event>): int {
    if events == [] then 0
    else
      var init, e := events[..|events| - 1], events[|events| - 1];
      Dropped(init) + if e.Expiry? then Total(After(init)) - Total(After(events)) else 0
  }

  lemma {:induction false} TotalAfterRefresh(entries: Entries, now: nat)
    ensures Total(RefreshEntries(entries, now)) == Total(entries)
    decreases |entries|
  {
    if k :| k in entries {
      var marked := RefreshEntries(entries, now);
      TotalPick(entries, k);
      TotalPick(marked, k);
      assert marked - {k} == RefreshEntries(entries - {k}, now);
      TotalAfterRefresh(entries - {k}, now);
    } else {
      assert RefreshEntries(entries, now) == map[];
    }
  }

  /** Every record learned is still held, was dropped by an expiry pass, or was removed by a goodbye. */
  lemma {:induction false} LearnedIsConserved(events: seq<Event>)
    ensures Outcomes(events, New) == Total(After(events)) + Dropped(events) + Outcomes(events, Removed)
    decreases |events|
  {
    if events != [] {
      var init, e := events[..|events| - 1], events[|events| - 1];
      LearnedIsConserved(init);
      AlwaysWellFormed(init);
      match e
      case Announce(name, data, ttl, at) => TotalAfterLearn(After(init), name, data, ttl, at);
      case Expiry(at) =>
      case Refresh(at) => TotalAfterRefresh(After(init), at);
    }
  }

  // --- Re-queries ---

  /** Entries that have not been asked about in their current lifetime. */
  function Unasked(list: seq<Entry>): nat {
    if list == [] then 0 else Unasked(list[..|list| - 1]) + if list[|list| - 1].refreshSent then 0 else 1
  }

  /** How often a name and type was asked about. */
  function Asked(events: seq<Event>, k: Key): nat {
    if events == [] then 0
    else
      var init, e := events[..|events| - 1], events[|events| - 1];
      Asked(init, k) + if e.Refresh? && DueKey(After(init), k, e.at) then 1 else 0
  }

  /** How many announcements, goodbyes aside, named it. */
  function Announced(events: seq<Event>, k: Key): nat {
    if events == [] then 0
    else
      var e := events[|events| - 1];
      Announced(events[..|events| - 1], k) + if e.Announce? && e.ttl > 0 && KeyFor(e.name, e.data) == k then 1 else 0
  }

  lemma {:induction false} UnaskedLiving(list: seq<Entry>, now: nat)
    ensures Unasked(Living(list, now)) <= Unasked(list)
    decreases |list|
  {
    if list != [] {
      var init, last := list[..|list| - 1], list[|list| - 1];
      UnaskedLiving(init, now);
      UnaskedSnoc(Living(init, now), last);
    }
  }

  lemma {:induction false} UnaskedOthers(list: seq<Entry>, data: RecordData)
    ensures Unasked(Others(list, data)) <= Unasked(list)
    decreases |list|
  {
    if list != [] {
      var init, last := list[..|list| - 1], list[|list| - 1];
      UnaskedOthers(init, data);
      UnaskedSnoc(Others(init, data), last);
    }
  }

  lemma UnaskedSnoc(init: seq<Entry>, last: Entry)
    ensures Unasked(init + [last]) == Unasked(init) + if last.refreshSent then 0 else 1
  {
  }

  lemma {:induction false} UnaskedUpdate(list: seq<Entry>, i: nat, e: Entry)
    requires i < |list|
    ensures Unasked(list[i := e]) <= Unasked(list) + 1
    ensures e.refreshSent && !list[i].refreshSent ==> Unasked(list[i := e]) == Unasked(list) - 1
    decreases |list|
  {
    var init, last := list[..|list| - 1], list[|list| - 1];
    if i < |init| {
      UnaskedUpdate(init, i, e);
      assert list[i := e] == init[i := e] + [last];
      UnaskedSnoc(init[i := e], last);
    } else {
      assert list[i := e] == init + [e];
      UnaskedSnoc(init, e);
    }
  }

  lemma {:induction false} UnaskedMark(list: seq<Entry>, now: nat)
    ensures Unasked(Mark(list, now)) <= Unasked(list)
    ensures (exists i :: 0 <= i < |list| && Due(list[i], now)) ==> Unasked(Mark(list, now)) < Unasked(list)
    decreases |list|
  {
    if list != [] {
      var init, last := list[..|list| - 1], list[|list| - 1];
      UnaskedMark(init, now);
      UnaskedSnoc(Mark(init, now), MarkOne(last, now));
      if i :| 0 <= i < |list| && Due(list[i], now) {
        assert i < |init| ==> init[i] == list[i];
      }
    }
  }

  lemma UnaskedLearn(list: seq<Entry>, name: string, data: RecordData, ttl: u32, now: nat)
    ensures Unasked(LearnList(list, name, data, ttl, now)) <= Unasked(list) + if ttl > 0 then 1 else 0
  {
    var i := IndexOfData(list, data);
    if ttl == 0 {
      UnaskedOthers(list, data);
    } else if i < |list| {
      UnaskedUpdate(list, i, list[i].(ttl := ttl, lastSeen := now, expiresAt := now + ttl, refreshSent := false));
    } else {
      UnaskedSnoc(list, Entry(Lower(name), data, ttl, now, now + ttl, false));
    }
  }

  lemma UnaskedStep(entries: Entries, e: Event, k: Key)
    ensures Unasked(ListAt(Step(entries, e), k)) + (if e.Refresh? && DueKey(entries, k, e.at) then 1 else 0)
            <= Unasked(ListAt(entries, k)) + if e.Announce? && e.ttl > 0 && KeyFor(e.name, e.data) == k then 1 else 0
  {
    var list := ListAt(entries, k);
    match e
    case Announce(name, data, ttl, at) => UnaskedLearn(list, name, data, ttl, at);
    case Expiry(at) => UnaskedLiving(list, at);
    case Refresh(at) => UnaskedMark(list, at);
  }

  /** No name is asked about more often than it was announced, and what is still unasked is in reserve. */
  lemma {:induction false} OneQueryPerAnnouncement(events: seq<Event>, k: Key)
    ensures Asked(events, k) + Unasked(ListAt(After(events), k)) <= Announced(events, k)
    decreases |events|
  {
    if events != [] {
      OneQueryPerAnnouncement(events[..|events| - 1], k);
      UnaskedStep(After(events[..|events| - 1]), events[|events| - 1], k);
    }
  }

  // --- The cache as it runs ---

  class Cache {
    var entries: Entries
    var recordsLearned: nat
    var goodbyes: nat
    var expired: nat

    constructor ()
      ensures entries == map[] && recordsLearned == 0 && goodbyes == 0 && expired == 0
    {
      entries, recordsLearned, goodbyes, expired := map[], 0, 0, 0;
    }

    method Learn(name: string, data: RecordData, ttl: u32, now: nat) returns (outcome: Learned)
      requires WellFormed(entries)
      modifies this
      ensures WellFormed(entries) && entries == old(Step(entries, Announce(name, data, ttl, now)))
      ensures outcome == old(OutcomeOf(entries, name, data, ttl))
      ensures recordsLearned == old(recordsLearned) + if outcome == New then 1 else 0
      ensures goodbyes == old(goodbyes) + if ttl == 0 then 1 else 0
      ensures expired == old(expired)
      ensures Total(entries) - recordsLearned ==
              old(Total(entries) - recordsLearned) - if outcome == Removed then 1 else 0
    {
      LearnOk(entries, name, data, ttl, now);
      TotalAfterLearn(entries, name, data, ttl, now);
      var key := KeyFor(name, data);
      var list := ListAt(entries, key);
      if ttl == 0 {
        goodbyes := goodbyes + 1;
        if key !in entries {
          assert entries - {key} == entries;
          return Ignored;
        }
        OthersDistinct(list, data);
        var rest := Others(list, data);
        if rest == [] {
          entries := entries - {key};
        } else {
          entries := entries[key := rest];
        }
        return if |rest| < |list| then Removed else Ignored;
      }
      var i := IndexOfData(list, data);
      if i < |list| {
        entries := entries[key := list[i := list[i].(ttl := ttl, lastSeen := now, expiresAt := now + ttl,
                                                     refreshSent := false)]];
        return Refreshed;
      }
      entries := entries[key := list + [Entry(Lower(name), data, ttl, now, now + ttl, false)]];
      recordsLearned := recordsLearned + 1;
      outcome := New;
    }

    /** Drops what has run out of one list. */
    method ExpireList(k: Key, now: nat, ghost before: Entries, ghost todo: set<Key>) returns (removed: nat)
      requires ExpiredBut(before, entries, todo, now) && k in todo && k in entries
      modifies this`entries
      ensures ExpiredBut(before, entries, todo - {k}, now)
      ensures Total(entries) + removed == old(Total(entries))
    {
      var list := entries[k];
      var living := Living(list, now);
      ExpireOneMore(before, entries, todo, k, now);
      TotalPut(entries, k, living);
      if living == [] {
        entries := entries - {k};
      } else {
        entries := entries[k := living];
      }
      removed := |list| - |living|;
    }

    /** Drops what has run out, list by list, and counts it. */
    method Expire(now: nat) returns (removed: nat)
      requires WellFormed(entries)
      modifies this`entries, this`expired
      ensures WellFormed(entries) && entries == old(Step(entries, Expiry(now)))
      ensures removed == old(Total(entries)) - Total(entries)
      ensures expired == old(expired) + removed
    {
      var todo := entries.Keys;
      removed := 0;
      while todo != {}
        invariant expired == old(expired)
        invariant ExpiredBut(old(entries), entries, todo, now)
        invariant Total(entries) + removed == old(Total(entries))
      {
        var k :| k in todo;
        ExpireOneMore(old(entries), entries, todo, k, now);
        var n := ExpireList(k, now, old(entries), todo);
        removed := removed + n;
        todo := todo - {k};
      }
      ExpireOk(old(entries), now);
      ExpiredAll(old(entries), entries, now);
      expired := expired + removed;
    }

    /** The names to ask about; each is marked as asked. */
    method TakeRefreshDue(now: nat) returns (due: seq<Key>)
      modifies this`entries
      ensures entries == old(Step(entries, Refresh(now)))
      ensures forall k :: k in due <==> DueKey(old(entries), k, now)
      ensures forall i, j :: 0 <= i < j < |due| ==> due[i] != due[j]
    {
      due := [];
      var todo := entries.Keys;
      while todo != {}
        invariant MarkedBut(old(entries), entries, todo, now)
        invariant DueListed(old(entries), due, todo, now)
      {
        var k :| k in todo;
        MarkOneMore(old(entries), entries, todo, k, now);
        DueOneMore(old(entries), due, todo, k, now);
        var list := entries[k];
        if exists i :: 0 <= i < |list| && Due(list[i], now) {
          due := due + [k];
        }
        entries := entries[k := Mark(list, now)];
        todo := todo - {k};
      }
    }
  }

  /** The expiry pass is done except for the lists still to do. */
  ghost predicate ExpiredBut(before: Entries, entries: Entries, todo: set<Key>, now: nat) {
    && todo <= before.Keys && WellFormed(before)
    && (forall k :: k in entries <==> k in before && (k in todo || Living(before[k], now) != []))
    && forall k :: k in entries ==> entries[k] == if k in todo then before[k] else Living(before[k], now)
  }

  ghost predicate MarkedBut(before: Entries, entries: Entries, todo: set<Key>, now: nat) {
    && todo <= before.Keys && entries.Keys == before.Keys
    && forall k :: k in entries ==> entries[k] == if k in todo then before[k] else Mark(before[k], now)
  }

  lemma ExpireOneMore(before: Entries, entries: Entries, todo: set<Key>, k: Key, now: nat)
    requires ExpiredBut(before, entries, todo, now) && k in todo
    ensures k in entries && entries[k] == before[k] && |Living(before[k], now)| <= |before[k]|
    ensures ExpiredBut(before, Put(entries, k, Living(before[k], now)), todo - {k}, now)
  {
    LivingDistinct(before[k], now);
  }

  lemma MarkOneMore(before: Entries, entries: Entries, todo: set<Key>, k: Key, now: nat)
    requires MarkedBut(before, entries, todo, now) && k in todo
    ensures k in entries && entries[k] == before[k]
    ensures MarkedBut(before, entries[k := Mark(before[k], now)], todo - {k}, now)
  {
  }

  lemma ExpiredAll(before: Entries, entries: Entries, now: nat)
    requires ExpiredBut(before, entries, {}, now)
    ensures entries == ExpireEntries(before, now)
  {
  }

  /** The due names among the lists already done, each once. */
  ghost predicate DueListed(before: Entries, due: seq<Key>, todo: set<Key>, now: nat) {
    && (forall k :: k in due <==> k !in todo && DueKey(before, k, now))
    && forall i, j :: 0 <= i < j < |due| ==> due[i] != due[j]
  }

  lemma DueOneMore(before: Entries, due: seq<Key>, todo: set<Key>, k: Key, now: nat)
    requires DueListed(before, due, todo, now) && k in todo
    ensures DueListed(before, if DueKey(before, k, now) then due + [k] else due, todo - {k}, now)
  {
  }
}
