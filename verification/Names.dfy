/**
 Which zone owns a name and which records answer for it.  The code works on
 dotted strings by slicing; the meaning is stated on lists of labels.
 */
module Names {
  import opened Text
  import opened Types
  import opened Store

  function Labels(s: string): (ls: seq<string>)
    ensures |ls| >= 1
  {
    Split(s, '.')
  }

  function Normal(s: string): string {
    Lower(TrimDots(s))
  }

  /** The string test: equal, or ending in a dot and the zone name. */
  predicate Covers(zone: string, fqdn: string) {
    fqdn == zone || EndsWith(fqdn, "." + zone)
  }

  lemma SuffixSplits(zone: string, fqdn: string)
    requires EndsWith(fqdn, "." + zone)
    ensures Labels(fqdn) == Labels(fqdn[..|fqdn| - |zone| - 1]) + Labels(zone)
  {
    var head := fqdn[..|fqdn| - |zone| - 1];
    assert fqdn == head + ['.'] + zone;
    SplitConcat(head, zone, '.');
  }

  lemma DottedEndsWith(a: string, b: string)
    ensures EndsWith(a + ['.'] + b, "." + b)
  {
  }

  lemma LabelSuffixCovers(head: seq<string>, zone: string, fqdn: string)
    requires Labels(fqdn) == head + Labels(zone)
    ensures Covers(zone, fqdn)
  {
    assert zone == Join(Labels(zone), '.') by { JoinSplit(zone, '.'); }
    assert fqdn == Join(Labels(fqdn), '.') by { JoinSplit(fqdn, '.'); }
    if head == [] {
      assert Labels(fqdn) == Labels(zone);
    } else {
      assert fqdn == Join(head, '.') + ['.'] + zone by { JoinConcat(head, Labels(zone), '.'); }
      DottedEndsWith(Join(head, '.'), zone);
    }
  }

  /** The string test is the label test, also for empty and malformed names. */
  lemma CoversIsLabelSuffix(zone: string, fqdn: string)
    ensures Covers(zone, fqdn) <==> SeqSuffix(Labels(zone), Labels(fqdn))
  {
    if EndsWith(fqdn, "." + zone) {
      SuffixSplits(zone, fqdn);
    }
    if SeqSuffix(Labels(zone), Labels(fqdn)) {
      var fl := Labels(fqdn);
      assert fl == fl[..|fl| - |Labels(zone)|] + Labels(zone);
      LabelSuffixCovers(fl[..|fl| - |Labels(zone)|], zone, fqdn);
    }
  }

  /** Of two zones that cover one name, the longer string has more labels, and equal lengths mean equal names. */
  lemma CoveringZonesAreNested(a: string, b: string, fqdn: string)
    requires Covers(a, fqdn) && Covers(b, fqdn)
    ensures |a| <= |b| <==> |Labels(a)| <= |Labels(b)|
    ensures |a| == |b| ==> a == b
  {
    assert a == fqdn[|fqdn| - |a|..] && b == fqdn[|fqdn| - |b|..];
    CoversIsLabelSuffix(a, fqdn);
    CoversIsLabelSuffix(b, fqdn);
    if |a| < |b| {
      ShorterHasFewerLabels(a, b, fqdn);
    } else if |b| < |a| {
      ShorterHasFewerLabels(b, a, fqdn);
    }
  }

  lemma ShorterHasFewerLabels(a: string, b: string, fqdn: string)
    requires Covers(a, fqdn) && Covers(b, fqdn) && |a| < |b|
    ensures |Labels(a)| < |Labels(b)|
  {
    assert b == fqdn[|fqdn| - |b|..];
    assert EndsWith(b, "." + a) by {
      assert "." + a == fqdn[|fqdn| - |a| - 1..] == b[|b| - |a| - 1..];
    }
    SuffixSplits(a, b);
  }

  // --- The zone that owns a name ---

  /** The linear scan for the longest covering zone. */
  function Best(zones: seq<Zone>, fqdn: string): (best: Option<Zone>) {
    if zones == [] then None
    else Better(Best(zones[..|zones| - 1], fqdn), zones[|zones| - 1], fqdn)
  }

  function Better(best: Option<Zone>, zone: Zone, fqdn: string): Option<Zone> {
    if !ZoneCovers(zone, fqdn) then best
    else if best.None? || |Normal(zone.name)| > |TrimDots(best.value.name)| then Some(zone)
    else best
  }

  /** The zone covers the name, and no zone covers it with more labels. */
  ghost predicate IsAuthority(zones: seq<Zone>, fqdn: string, zone: Zone) {
    && zone in zones
    && SeqSuffix(Labels(Normal(zone.name)), Labels(Normal(fqdn)))
    && forall z :: z in zones && SeqSuffix(Labels(Normal(z.name)), Labels(Normal(fqdn)))
         ==> |Labels(Normal(z.name))| <= |Labels(Normal(zone.name))|
  }

  predicate ZoneCovers(z: Zone, fqdn: string) {
    Covers(Normal(z.name), Normal(fqdn))
  }

  lemma {:induction false} BestIsLongest(zones: seq<Zone>, fqdn: string)
    ensures Best(zones, fqdn).None? ==> forall z :: z in zones ==> !ZoneCovers(z, fqdn)
    ensures Best(zones, fqdn).Some? ==> Best(zones, fqdn).value in zones && ZoneCovers(Best(zones, fqdn).value, fqdn)
    ensures Best(zones, fqdn).Some? ==>
              forall z :: z in zones && ZoneCovers(z, fqdn) ==>
                  |TrimDots(z.name)| <= |TrimDots(Best(zones, fqdn).value.name)|
    decreases |zones|
  {
    if zones != [] {
      var init, last := zones[..|zones| - 1], zones[|zones| - 1];
      BestIsLongest(init, fqdn);
      assert forall z :: z in zones <==> z in init || z == last;
    }
  }

  /** The scan finds the authority on labels, and finds none only if there is none. */
  lemma BestIsAuthority(zones: seq<Zone>, fqdn: string)
    ensures Best(zones, fqdn).Some? ==> IsAuthority(zones, fqdn, Best(zones, fqdn).value)
    ensures Best(zones, fqdn).None? ==> forall z :: !IsAuthority(zones, fqdn, z)
    ensures forall z :: IsAuthority(zones, fqdn, z) ==> Normal(z.name) == Normal(Best(zones, fqdn).value.name)
  {
    BestIsLongest(zones, fqdn);
    var f := Normal(fqdn);
    forall z | z in zones
      ensures Covers(Normal(z.name), f) <==> SeqSuffix(Labels(Normal(z.name)), Labels(f))
    {
      CoversIsLabelSuffix(Normal(z.name), f);
    }
    if Best(zones, fqdn).Some? {
      var b := Normal(Best(zones, fqdn).value.name);
      forall z | z in zones && Covers(Normal(z.name), f)
        ensures |Labels(Normal(z.name))| <= |Labels(b)|
        ensures |Labels(Normal(z.name))| == |Labels(b)| ==> Normal(z.name) == b
      {
        CoveringZonesAreNested(Normal(z.name), b, f);
        CoveringZonesAreNested(b, Normal(z.name), f);
      }
    }
  }

  // --- The records that answer ---

  /** The wildcard search, slicing one label off at a time. */
  function Wild(t: Tables, zoneId: string, remaining: string, rtype: RecordType): seq<Record>
    decreases |remaining|
  {
    if '.' in remaining then
      var pos := IndexOf(remaining, '.');
      var found := Lookup(t, zoneId, "*" + remaining[pos..], rtype);
      if found != [] then found else Wild(t, zoneId, remaining[pos + 1..], rtype)
    else Lookup(t, zoneId, "*", rtype)
  }

  function AnswerBelow(t: Tables, zoneId: string, prefix: string, rtype: RecordType): seq<Record> {
    var exact := Lookup(t, zoneId, prefix, rtype);
    if exact != [] then exact else Wild(t, zoneId, prefix, rtype)
  }

  function AnswerIn(t: Tables, z: Zone, fqdn: string, rtype: RecordType): seq<Record> {
    var zone := TrimDots(z.name);
    if fqdn == zone then Lookup(t, z.id, "@", rtype)
    else
      var prefix := StripSuffix(fqdn, "." + zone);
      if prefix.None? then [] else AnswerBelow(t, z.id, prefix.value, rtype)
  }

  /** What `query_fqdn` answers. */
  function Answer(t: Tables, zones: seq<Zone>, name: string, rtype: RecordType): seq<Record> {
    var fqdn := TrimDots(name);
    var best := Best(zones, fqdn);
    if best.None? then [] else AnswerIn(t, best.value, fqdn, rtype)
  }

  /** The wildcard owners for the labels `p`: `*` over ever shorter tails, down to `*` alone. */
  function Wildcards(p: seq<string>): (owners: seq<string>)
    ensures |owners| == |p|
  {
    if p == [] then [] else [Join(["*"] + p[1..], '.')] + Wildcards(p[1..])
  }

  /** The owners a name stands for, in the order they are tried. */
  function Owners(p: seq<string>): seq<string> {
    [Join(p, '.')] + Wildcards(p)
  }

  /** The records of the first owner that has any. */
  function FirstFound(t: Tables, zoneId: string, owners: seq<string>, rtype: RecordType): seq<Record> {
    if owners == [] then []
    else
      var found := Lookup(t, zoneId, owners[0], rtype);
      if found != [] then found else FirstFound(t, zoneId, owners[1..], rtype)
  }

  /** The place of the owner that answers, or the end if none does. */
  lemma {:induction false} FirstFoundIsFirst(t: Tables, zoneId: string, owners: seq<string>, rtype: RecordType)
    returns (i: nat)
    ensures i <= |owners| && NoneBefore(t, zoneId, owners, i, rtype)
    ensures FirstFound(t, zoneId, owners, rtype) == if i == |owners| then [] else Lookup(t, zoneId, owners[i], rtype)
    ensures i < |owners| ==> Lookup(t, zoneId, owners[i], rtype) != []
  {
    i := 0;
    if owners != [] && Lookup(t, zoneId, owners[0], rtype) == [] {
      var k := FirstFoundIsFirst(t, zoneId, owners[1..], rtype);
      i := k + 1;
      NoneBeforeCons(t, zoneId, owners, k, rtype);
    }
  }

  ghost predicate NoneBefore(t: Tables, zoneId: string, owners: seq<string>, i: nat, rtype: RecordType)
    requires i <= |owners|
  {
    forall j :: 0 <= j < i ==> Lookup(t, zoneId, owners[j], rtype) == []
  }

  lemma NoneBeforeCons(t: Tables, zoneId: string, owners: seq<string>, i: nat, rtype: RecordType)
    requires owners != [] && i < |owners| && Lookup(t, zoneId, owners[0], rtype) == []
    requires NoneBefore(t, zoneId, owners[1..], i, rtype)
    ensures NoneBefore(t, zoneId, owners, i + 1, rtype)
  {
    forall j | 0 <= j < i + 1
      ensures Lookup(t, zoneId, owners[j], rtype) == []
    {
      assert j > 0 ==> owners[j] == owners[1..][j - 1];
    }
  }

  /** Slicing at the first dot visits the wildcard owners in turn. */
  lemma {:induction false} WildTriesOwnersInTurn(t: Tables, zoneId: string, remaining: string, rtype: RecordType)
    ensures Wild(t, zoneId, remaining, rtype) == FirstFound(t, zoneId, Wildcards(Labels(remaining)), rtype)
    decreases |remaining|
  {
    var p := Labels(remaining);
    var owners := Wildcards(p);
    if '.' in remaining {
      var pos := IndexOf(remaining, '.');
      var rest := remaining[pos + 1..];
      assert p[1..] == Labels(rest);
      assert owners[0] == "*" + remaining[pos..] by {
        JoinSplit(rest, '.');
        JoinConcat(["*"], p[1..], '.');
        assert remaining[pos..] == ['.'] + rest;
      }
      assert owners[1..] == Wildcards(p[1..]);
      WildTriesOwnersInTurn(t, zoneId, rest, rtype);
    } else {
      assert p == [remaining];
      assert owners == ["*"];
      assert owners[1..] == [];
    }
  }

  /** Exact owner first, then each wildcard. */
  lemma AnswerBelowTriesOwners(t: Tables, zoneId: string, prefix: string, rtype: RecordType)
    ensures AnswerBelow(t, zoneId, prefix, rtype) == FirstFound(t, zoneId, Owners(Labels(prefix)), rtype)
  {
    WildTriesOwnersInTurn(t, zoneId, prefix, rtype);
    JoinSplit(prefix, '.');
  }

  /**
   The meaning of a query on labels: answered from one zone only, the most specific
   one; at its apex from the records named `@`, below it from the first owner that
   has enabled records of the type, and not at all if the zone's own spelling is not
   a suffix of the name.
   */
  function LabelAnswer(t: Tables, z: Zone, fqdn: string, rtype: RecordType): seq<Record> {
    var zl, fl := Labels(TrimDots(z.name)), Labels(fqdn);
    if zl == fl then Lookup(t, z.id, "@", rtype)
    else if !SeqSuffix(zl, fl) then []
    else FirstFound(t, z.id, Owners(fl[..|fl| - |zl|]), rtype)
  }

  lemma AnswerInRefinesLabels(t: Tables, z: Zone, fqdn: string, rtype: RecordType)
    ensures AnswerIn(t, z, fqdn, rtype) == LabelAnswer(t, z, fqdn, rtype)
  {
    var zn := TrimDots(z.name);
    var zl, fl := Labels(zn), Labels(fqdn);
    assert zl == fl <==> zn == fqdn by {
      JoinSplit(zn, '.');
      JoinSplit(fqdn, '.');
    }
    CoversIsLabelSuffix(zn, fqdn);
    if zn != fqdn && EndsWith(fqdn, "." + zn) {
      var prefix := StripSuffix(fqdn, "." + zn).value;
      SuffixSplits(zn, fqdn);
      assert fl[..|fl| - |zl|] == Labels(prefix);
      AnswerBelowTriesOwners(t, z.id, prefix, rtype);
    }
  }

  lemma AnswerRefinesLabels(t: Tables, zones: seq<Zone>, name: string, rtype: RecordType)
    ensures var best := Best(zones, TrimDots(name));
            if best.None? then
              Answer(t, zones, name, rtype) == [] && forall z :: !IsAuthority(zones, TrimDots(name), z)
            else
              && IsAuthority(zones, TrimDots(name), best.value)
              && Answer(t, zones, name, rtype) == LabelAnswer(t, best.value, TrimDots(name), rtype)
  {
    var fqdn := TrimDots(name);
    BestIsAuthority(zones, fqdn);
    if Best(zones, fqdn).Some? {
      AnswerInRefinesLabels(t, Best(zones, fqdn).value, fqdn, rtype);
    }
  }

  /** Over an exact index the answer holds enabled records of the owning zone and the asked type only. */
  lemma AnswersComeFromTheAuthority(t: Tables, zones: seq<Zone>, name: string, rtype: RecordType, r: Record)
    requires Indexed(t) && r in Answer(t, zones, name, rtype)
    ensures Best(zones, TrimDots(name)).Some?
    ensures Stored(t, r) && r.enabled && r.data.Type() == rtype && r.zoneId == Best(zones, TrimDots(name)).value.id
  {
    var fqdn := TrimDots(name);
    var z := Best(zones, fqdn).value;
    if fqdn == TrimDots(z.name) {
      LookupIsFilter(t, z.id, "@", rtype);
    } else {
      var prefix := StripSuffix(fqdn, "." + TrimDots(z.name)).value;
      LookupIsFilter(t, z.id, prefix, rtype);
      WildAnswersAreOwned(t, z.id, prefix, rtype, r);
    }
  }

  lemma {:induction false} WildAnswersAreOwned(t: Tables, zoneId: Uuid, remaining: string, rtype: RecordType, r: Record)
    requires Indexed(t)
    ensures r in Wild(t, zoneId, remaining, rtype) ==>
              Stored(t, r) && r.enabled && r.data.Type() == rtype && r.zoneId == zoneId && "*" <= r.name
    decreases |remaining|
  {
    LookupIsFilter(t, zoneId, "*", rtype);
    if '.' in remaining {
      var pos := IndexOf(remaining, '.');
      LookupIsFilter(t, zoneId, "*" + remaining[pos..], rtype);
      WildAnswersAreOwned(t, zoneId, remaining[pos + 1..], rtype, r);
    }
  }

  // --- Whether a name exists ---

  /** Some record is stored under the name, or under the name, a colon and more. */
  ghost predicate Held(t: Tables, zoneId: string, name: string) {
    exists r :: Stored(t, r) && r.zoneId == zoneId && (r.name == name || name + ":" <= r.name)
  }

  /** The keys of a table from `p` on. */
  function From(keys: set<string>, p: string): (range: set<string>) {
    set k | k in keys && LexLe(p, k)
  }

  /** The one probe at the start of the range decides whether any key has the prefix. */
  lemma RangeProbe(keys: set<string>, p: string)
    ensures (exists k :: k in keys && p <= k) <==> From(keys, p) != {} && p <= LexLeast(From(keys, p))
  {
    var range := From(keys, p);
    forall k | k in keys && p <= k
      ensures k in range && p <= LexLeast(range)
    {
      PrefixIsBelow(p, k);
      assert k in range;
      PrefixRangeIsContiguous(p, LexLeast(range), k);
    }
    if range != {} && p <= LexLeast(range) {
      assert LexLeast(range) in range;
      assert LexLeast(range) in keys;
    }
  }

  lemma KeyHasNamePrefix(r: Record, zoneId: Uuid, name: string)
    ensures zoneId + ":" + name + ":" <= KeyOf(r) <==> r.zoneId == zoneId && (r.name == name || name + ":" <= r.name)
  {
    var p, k, z := zoneId + ":" + name + ":", KeyOf(r), zoneId + ":";
    KeyInZone(r, zoneId);
    if p <= k {
      assert z == p[..|z|] == k[..|z|];
    }
    if r.zoneId == zoneId {
      var n := r.name + ":" + TypeName(r.data.Type());
      assert k == z + n;
      assert p == z + (name + ":");
      PrefixAfter(z, name + ":", n);
      ColonPrefix(name, r.name, TypeName(r.data.Type()));
    }
  }

  lemma PrefixAfter(z: string, a: string, b: string)
    ensures z + a <= z + b <==> a <= b
  {
    assert a == (z + a)[|z|..] && b == (z + b)[|z|..];
  }

  /** With no colon in the tail, the name and a colon begin `held:tail` only through `held` itself. */
  lemma ColonPrefix(name: string, held: string, tail: string)
    requires ':' !in tail
    ensures name + ":" <= held + ":" + tail <==> held == name || name + ":" <= held
  {
    var s := held + ":" + tail;
    assert forall i :: |held| < i < |s| ==> s[i] == tail[i - |held| - 1];
    if name + ":" <= s {
      assert s[|name|] == ':';
      if |name| == |held| {
        assert name == s[..|name|] == held;
      } else {
        assert name + ":" == s[..|name| + 1] == held[..|name| + 1];
      }
    }
    if name + ":" <= held {
      assert held <= s;
    }
  }

  lemma HeldIsAKeyPrefix(t: Tables, zoneId: Uuid, name: string)
    requires Indexed(t)
    ensures Held(t, zoneId, name) <==> exists k :: k in t.byZone && zoneId + ":" + name + ":" <= k
  {
    var p := zoneId + ":" + name + ":";
    if Held(t, zoneId, name) {
      var r :| Stored(t, r) && r.zoneId == zoneId && (r.name == name || name + ":" <= r.name);
      KeyHasNamePrefix(r, zoneId, name);
      assert r.id in Ids(t, KeyOf(r));
      assert KeyOf(r) in t.byZone;
    }
    if k :| k in t.byZone && p <= k {
      assert Accurate(t, k);
      var r := t.records[Ids(t, k)[0]];
      assert Ids(t, k)[0] in Ids(t, k);
      KeyHasNamePrefix(r, zoneId, name);
      assert Stored(t, r);
    }
  }

  /** A name that owns any record of a zone, enabled or not, is held; the converse needs names free of colons. */
  lemma OwnedNamesAreHeld(t: Tables, zoneId: string, name: string)
    ensures (exists r :: Stored(t, r) && r.zoneId == zoneId && r.name == name) ==> Held(t, zoneId, name)
    ensures (forall r :: Stored(t, r) ==> ':' !in r.name) ==>
              (Held(t, zoneId, name) <==> exists r :: Stored(t, r) && r.zoneId == zoneId && r.name == name)
  {
    forall r: Record | name + ":" <= r.name
      ensures ':' in r.name
    {
      assert r.name[|name|] == ':';
    }
  }

  /** What `fqdn_exists` decides. */
  ghost predicate Exists(t: Tables, zones: seq<Zone>, name: string) {
    var fqdn := TrimDots(name);
    var best := Best(zones, fqdn);
    && best.Some?
    && var zone := TrimDots(best.value.name);
       if fqdn == zone then Held(t, best.value.id, "@")
       else
         var prefix := StripSuffix(fqdn, "." + zone);
         prefix.Some? && Held(t, best.value.id, prefix.value)
  }
}
