/**
 How the authoritative server answers one question: refused, answered, empty or
 no such name.
 */
module Authority {
  import opened Text
  import opened Types
  import opened Store
  import Names
  import opened Database
  import opened Wire
  import opened Transfer

  /** A type the store knows, `ANY`, or one it does not know. */
  datatype QueryType = Of(rtype: RecordType) | Any | Unsupported

  datatype Response = Response(code: ResponseCode, answers: seq<Answer>, authority: Option<Answer>)

  // --- Ordinary questions ---

  /** The name an answer goes out under. */
  function OutName(lib: Library, zone: Zone, fqdn: string, r: Record): Option<string> {
    if r.name == "@" then ParseName(lib, EnsureFqdn(zone.name))
    else if "*" <= r.name then ParseName(lib, EnsureFqdn(fqdn))
    else ParseName(lib, r.name + "." + zone.name + ".")
  }

  function Out(lib: Library, name: Option<string>, r: Record): Option<Answer> {
    var rdata := ToRdata(lib, r.data);
    if name.Some? && rdata.Some? then Some(Answer(name.value, r.ttl, rdata.value)) else None
  }

  function Rendered(lib: Library, zone: Zone, fqdn: string, records: seq<Record>): seq<Answer> {
    if records == [] then []
    else
      var rest, last := Rendered(lib, zone, fqdn, records[..|records| - 1]), records[|records| - 1];
      var a := Out(lib, OutName(lib, zone, fqdn, last), last);
      if a.Some? then rest + [a.value] else rest
  }

  method Render(lib: Library, zone: Zone, fqdn: string, records: seq<Record>) returns (out: seq<Answer>)
    ensures out == Rendered(lib, zone, fqdn, records)
  {
    out := [];
    for i := 0 to |records|
      invariant out == Rendered(lib, zone, fqdn, records[..i])
    {
      var a := Out(lib, OutName(lib, zone, fqdn, records[i]), records[i]);
      if a.Some? {
        out := out + [a.value];
      }
      assert records[..i + 1][..i] == records[..i];
    }
    assert records[..|records|] == records;
  }

  // --- Questions with a `*` label ---

  predicate AsksWildcard(fqdn: string) {
    "*" in Names.Labels(fqdn)
  }

  /** `*` in the question stands for any one label. */
  predicate LabelsMatch(pattern: seq<string>, name: seq<string>) {
    |pattern| == |name| && forall i :: 0 <= i < |pattern| ==> pattern[i] == "*" || pattern[i] == name[i]
  }

  predicate Picks(pattern: string, rtype: RecordType, r: Record) {
    r.enabled && r.data.Type() == rtype && LabelsMatch(Names.Labels(pattern), Names.Labels(r.name))
  }

  function PickedAnswer(lib: Library, zone: string, r: Record): Option<Answer> {
    Out(lib, ParseName(lib, r.name + "." + zone + "."), r)
  }

  function PickedFrom(lib: Library, zone: string, pattern: string, rtype: RecordType,
                      records: seq<Record>): seq<Answer> {
    if records == [] then []
    else
      var rest, last := PickedFrom(lib, zone, pattern, rtype, records[..|records| - 1]), records[|records| - 1];
      var a := PickedAnswer(lib, zone, last);
      if Picks(pattern, rtype, last) && a.Some? then rest + [a.value] else rest
  }

  method Pick(lib: Library, zone: string, pattern: string, rtype: RecordType, records: seq<Record>)
    returns (out: seq<Answer>)
    ensures out == PickedFrom(lib, zone, pattern, rtype, records)
  {
    out := [];
    for i := 0 to |records|
      invariant out == PickedFrom(lib, zone, pattern, rtype, records[..i])
    {
      assert records[..i + 1][..i] == records[..i];
      if !records[i].enabled || records[i].data.Type() != rtype {
        continue;
      }
      if !LabelsMatch(Names.Labels(pattern), Names.Labels(records[i].name)) {
        continue;
      }
      var a := PickedAnswer(lib, zone, records[i]);
      if a.Some? {
        out := out + [a.value];
      }
    }
    assert records[..|records|] == records;
  }

  function WildcardAnswers(lib: Library, t: Tables, zones: seq<Zone>, fqdn: string, rtype: RecordType): seq<Answer> {
    var best := Names.Best(zones, fqdn);
    if best.None? then []
    else
      var zone := TrimDots(best.value.name);
      var pattern := StripSuffix(fqdn, "." + zone);
      if pattern.None? then [] else PickedFrom(lib, zone, pattern.value, rtype, ListZone(t, best.value.id))
  }

  lemma {:induction false} PickedMembers(lib: Library, zone: string, pattern: string, rtype: RecordType,
                                         records: seq<Record>, a: Answer)
    ensures a in PickedFrom(lib, zone, pattern, rtype, records) <==>
            exists r :: r in records && Picks(pattern, rtype, r) && PickedAnswer(lib, zone, r) == Some(a)
    decreases |records|
  {
    if records != [] {
      var init, last := records[..|records| - 1], records[|records| - 1];
      PickedMembers(lib, zone, pattern, rtype, init, a);
      assert forall r :: r in records <==> r in init || r == last;
    }
  }

  lemma StripJoined(prefix: string, zone: string)
    ensures StripSuffix(prefix + "." + zone, "." + zone) == Some(prefix)
  {
    var fqdn, suffix := prefix + "." + zone, "." + zone;
    assert fqdn == prefix + suffix;
    assert fqdn[|fqdn| - |suffix|..] == suffix && fqdn[..|fqdn| - |suffix|] == prefix;
  }

  /** A `*` question is answered by exactly the enabled records whose labels it fits. */
  lemma WildcardAnswersAreTheMatches(lib: Library, t: Tables, zones: seq<Zone>, z: Zone, pattern: string,
                                     rtype: RecordType, a: Answer)
    requires Indexed(t) && Names.Best(zones, pattern + "." + TrimDots(z.name)) == Some(z)
    ensures a in WildcardAnswers(lib, t, zones, pattern + "." + TrimDots(z.name), rtype) <==>
            exists r :: Stored(t, r) && r.zoneId == z.id && Picks(pattern, rtype, r)
                        && PickedAnswer(lib, TrimDots(z.name), r) == Some(a)
  {
    var zone := TrimDots(z.name);
    StripJoined(pattern, zone);
    ListIsFilter(t, z.id);
    PickedMembers(lib, zone, pattern, rtype, ListZone(t, z.id), a);
  }

  // --- Any question ---

  function Resolved(lib: Library, t: Tables, zones: seq<Zone>, fqdn: string, qtype: QueryType): seq<Answer> {
    if !qtype.Of? then []
    else
      var best := Names.Best(zones, fqdn);
      if qtype.rtype == SOA then
        if best.Some? && SoaAnswer(lib, best.value).Some? then [SoaAnswer(lib, best.value).value] else []
      else if AsksWildcard(fqdn) then WildcardAnswers(lib, t, zones, fqdn, qtype.rtype)
      else if best.None? then []
      else Rendered(lib, best.value, fqdn, Names.Answer(t, zones, fqdn, qtype.rtype))
  }

  function AuthoritySoa(lib: Library, zones: seq<Zone>, fqdn: string): Option<Answer> {
    var best := Names.Best(zones, fqdn);
    if best.None? then None else SoaAnswer(lib, best.value)
  }

  /** The whole answer to a question. */
  ghost function Respond(lib: Library, t: Tables, zones: seq<Zone>, fqdn: string, qtype: QueryType): Response {
    if Names.Best(zones, fqdn).None? then Response(Refused, [], None)
    else if qtype.Any? then Response(NoError, Resolved(lib, t, zones, fqdn, Of(SOA)), None)
    else
      var answers := Resolved(lib, t, zones, fqdn, qtype);
      if answers != [] then Response(NoError, answers, None)
      else Response(if Names.Exists(t, zones, fqdn) then NoError else NxDomain, [], AuthoritySoa(lib, zones, fqdn))
  }

  class Server {
    const db: Db
    const lib: Library

    constructor (db: Db, lib: Library)
      ensures this.db == db && this.lib == lib
    {
      this.db, this.lib := db, lib;
    }

    method ResolveWildcardQuery(fqdn: string, rtype: RecordType) returns (out: seq<Answer>)
      requires db.Valid()
      ensures out == WildcardAnswers(lib, db.View(), db.ZoneList(), fqdn, rtype)
    {
      var best := db.FindZoneForFqdn(fqdn);
      if best.None? {
        return [];
      }
      var zone := TrimDots(best.value.name);
      var pattern := StripSuffix(fqdn, "." + zone);
      if pattern.None? {
        return [];
      }
      var records := db.ListRecords(best.value.id);
      out := Pick(lib, zone, pattern.value, rtype, records);
    }

    /** The question is taken in lower case and without trailing dots. */
    method ResolveQuery(qname: string, qtype: QueryType) returns (out: seq<Answer>)
      requires db.Valid()
      ensures out == Resolved(lib, db.View(), db.ZoneList(), Names.Normal(qname), qtype)
    {
      var fqdn := Names.Normal(qname);
      NormalIsNormal(qname);
      if !qtype.Of? {
        return [];
      }
      var best := db.FindZoneForFqdn(fqdn);
      if qtype.rtype == SOA {
        return if best.Some? && SoaAnswer(lib, best.value).Some? then [SoaAnswer(lib, best.value).value] else [];
      }
      if AsksWildcard(fqdn) {
        out := ResolveWildcardQuery(fqdn, qtype.rtype);
        return;
      }
      if best.None? {
        return [];
      }
      var records := db.QueryFqdn(fqdn, qtype.rtype);
      out := Render(lib, best.value, fqdn, records);
    }

    method HandleQuery(qname: string, qtype: QueryType) returns (response: Response)
      requires db.Valid()
      ensures response == Respond(lib, db.View(), db.ZoneList(), Names.Normal(qname), qtype)
    {
      var fqdn := Names.Normal(qname);
      NormalIsNormal(qname);
      var best := db.FindZoneForFqdn(fqdn);
      if best.None? {
        return Response(Refused, [], None);
      }
      if qtype.Any? {
        var soa := ResolveQuery(qname, Of(SOA));
        return Response(NoError, soa, None);
      }
      var answers := ResolveQuery(qname, qtype);
      if answers != [] {
        return Response(NoError, answers, None);
      }
      var known := db.FqdnExists(fqdn);
      response := Response(if known then NoError else NxDomain, [], SoaAnswer(lib, best.value));
    }
  }

  /** A question in lower case and without trailing dots. */
  predicate IsNormal(s: string) {
    Lower(s) == s && TrimDots(s) == s
  }

  lemma NormalIsNormal(s: string)
    ensures IsNormal(Names.Normal(s))
  {
    var low := Names.Normal(s);
    assert Lower(low) == low;
  }

  // --- When a name that owns a record is denied ---

  /** The record's own full name, spelled as it and its zone are stored. */
  function FullName(zone: Zone, r: Record): string {
    if r.name == "@" then TrimDots(zone.name) else r.name + "." + TrimDots(zone.name)
  }

  /** What the server makes of a question for that name. */
  function Asked(zone: Zone, r: Record): string {
    Names.Normal(FullName(zone, r))
  }

  predicate LowerZone(z: Zone) {
    Lower(TrimDots(z.name)) == TrimDots(z.name)
  }

  /** The name that is looked up in the zone for that question. */
  function Looked(z: Zone, r: Record): string {
    if r.name == "@" || TrimDots(z.name) == "" then "@" else Lower(r.name)
  }

  lemma LowerParts(head: string, tail: string)
    requires Lower(head + tail) == head + tail
    ensures Lower(head) == head && Lower(tail) == tail
  {
    var s := head + tail;
    assert forall i :: 0 <= i < |head| ==> head[i] == s[i];
    assert forall i :: 0 <= i < |tail| ==> tail[i] == s[|head| + i];
  }

  /** No lower-case question ends in a zone name with an upper-case letter. */
  lemma MixedZoneEndsNothing(z: Zone, fqdn: string)
    requires Lower(fqdn) == fqdn && !LowerZone(z)
    ensures fqdn != TrimDots(z.name) && StripSuffix(fqdn, "." + TrimDots(z.name)).None?
  {
    var zone := TrimDots(z.name);
    var prefix := StripSuffix(fqdn, "." + zone);
    if prefix.Some? {
      assert prefix.value + ("." + zone) == (prefix.value + ".") + zone;
      LowerParts(prefix.value + ".", zone);
    }
  }

  /** Under a zone with an upper-case letter every name is denied, for every type but SOA and ANY. */
  lemma MixedZoneIsDenied(lib: Library, t: Tables, zones: seq<Zone>, z: Zone, fqdn: string, qtype: QueryType)
    requires IsNormal(fqdn) && Names.Best(zones, fqdn) == Some(z) && !LowerZone(z)
    ensures Respond(lib, t, zones, fqdn, qtype).code ==
            if qtype.Any? || (qtype == Of(SOA) && SoaAnswer(lib, z).Some?) then NoError else NxDomain
  {
    MixedZoneEndsNothing(z, fqdn);
  }

  /** A question in a lower-case zone is for the apex or for a name below it. */
  lemma LowerZoneEnds(zones: seq<Zone>, z: Zone, fqdn: string)
    requires IsNormal(fqdn) && Names.Best(zones, fqdn) == Some(z) && LowerZone(z)
    ensures fqdn == TrimDots(z.name) || StripSuffix(fqdn, "." + TrimDots(z.name)).Some?
  {
    Names.BestIsLongest(zones, fqdn);
  }

  lemma NothingHeldNothingFound(t: Tables, zoneId: Uuid, name: string, rtype: RecordType)
    requires Indexed(t) && !Names.Held(t, zoneId, name)
    ensures Lookup(t, zoneId, name, rtype) == []
  {
    LookupIsFilter(t, zoneId, name, rtype);
    var found := Lookup(t, zoneId, name, rtype);
    assert forall r :: r in found ==> Names.Held(t, zoneId, name);
    EmptyOrHeaded(found);
  }

  lemma EmptyOrHeaded<T>(s: seq<T>)
    ensures s == [] || exists x :: x in s
  {
    assert s == [] || s[0] in s;
  }

  /** No wildcard of the zone answers for the name. */
  ghost predicate WildcardSilent(lib: Library, t: Tables, z: Zone, name: string, rtype: RecordType) {
    var zone := TrimDots(z.name);
    if AsksWildcard(name + "." + zone)
    then forall r :: Stored(t, r) && r.zoneId == z.id && Picks(name, rtype, r) ==> PickedAnswer(lib, zone, r).None?
    else Rendered(lib, z, name + "." + zone, Names.Wild(t, z.id, name, rtype)) == []
  }

  lemma SilentBelow(lib: Library, t: Tables, zones: seq<Zone>, z: Zone, name: string, rtype: RecordType)
    requires Indexed(t) && rtype != SOA && !Names.Held(t, z.id, name)
    requires var fqdn := name + "." + TrimDots(z.name);
             TrimDots(fqdn) == fqdn && fqdn != TrimDots(z.name) && Names.Best(zones, fqdn) == Some(z)
    ensures Resolved(lib, t, zones, name + "." + TrimDots(z.name), Of(rtype)) == [] <==>
            WildcardSilent(lib, t, z, name, rtype)
  {
    var zone := TrimDots(z.name);
    var fqdn := name + "." + zone;
    StripJoined(name, zone);
    if AsksWildcard(fqdn) {
      SilentPattern(lib, t, zones, z, name, rtype);
    } else {
      NothingHeldNothingFound(t, z.id, name, rtype);
    }
  }

  lemma SilentPattern(lib: Library, t: Tables, zones: seq<Zone>, z: Zone, name: string, rtype: RecordType)
    requires Indexed(t) && Names.Best(zones, name + "." + TrimDots(z.name)) == Some(z)
    ensures WildcardAnswers(lib, t, zones, name + "." + TrimDots(z.name), rtype) == [] <==>
            forall r :: Stored(t, r) && r.zoneId == z.id && Picks(name, rtype, r) ==>
                          PickedAnswer(lib, TrimDots(z.name), r).None?
  {
    var zone := TrimDots(z.name);
    var answers := WildcardAnswers(lib, t, zones, name + "." + zone, rtype);
    if answers != [] {
      WildcardAnswersAreTheMatches(lib, t, zones, z, name, rtype, answers[0]);
    } else {
      forall r | Stored(t, r) && r.zoneId == z.id && Picks(name, rtype, r)
        ensures PickedAnswer(lib, zone, r).None?
      {
        var a := PickedAnswer(lib, zone, r);
        if a.Some? {
          WildcardAnswersAreTheMatches(lib, t, zones, z, name, rtype, a.value);
        }
      }
    }
  }

  /** The apex has no wildcards: it answers from the records named `@` alone. */
  lemma SilentApex(lib: Library, t: Tables, zones: seq<Zone>, z: Zone, fqdn: string, rtype: RecordType)
    requires Indexed(t) && rtype != SOA && TrimDots(fqdn) == fqdn
    requires Names.Best(zones, fqdn) == Some(z) && fqdn == TrimDots(z.name) && !Names.Held(t, z.id, "@")
    ensures Resolved(lib, t, zones, fqdn, Of(rtype)) == []
  {
    NothingHeldNothingFound(t, z.id, "@", rtype);
  }

  lemma LowerConcat(a: string, b: string)
    ensures Lower(a + b) == Lower(a) + Lower(b)
  {
  }

  /** In a lower-case zone the question for a record's name is the apex or the looked-up name. */
  lemma AskedInLowerZone(zones: seq<Zone>, z: Zone, r: Record)
    requires LowerZone(z) && Names.Best(zones, Asked(z, r)) == Some(z)
    ensures var zone := TrimDots(z.name);
            if r.name == "@" || zone == "" then Asked(z, r) == zone
            else Asked(z, r) == Lower(r.name) + "." + zone && Asked(z, r) != zone
  {
    var zone := TrimDots(z.name);
    NormalIsNormal(FullName(z, r));
    if r.name != "@" {
      if zone == "" {
        LowerZoneEnds(zones, z, Asked(z, r));
      } else {
        NormalFullName(z, r);
      }
    }
  }

  /** What denies a name that owns a record: its zone's spelling, or its own if nothing else answers. */
  ghost predicate Denied(lib: Library, t: Tables, z: Zone, r: Record, qtype: QueryType) {
    if qtype.Any? then false
    else if qtype == Of(SOA) then
      SoaAnswer(lib, z).None? && (LowerZone(z) ==> !Names.Held(t, z.id, Looked(z, r)))
    else LowerZone(z) ==>
      && !Names.Held(t, z.id, Looked(z, r))
      && (qtype.Of? && Looked(z, r) != "@" ==> WildcardSilent(lib, t, z, Looked(z, r), qtype.rtype))
  }

  /** The existence test looks for the record's name in lower case. */
  lemma AskedExists(t: Tables, zones: seq<Zone>, z: Zone, r: Record)
    requires LowerZone(z) && Names.Best(zones, Asked(z, r)) == Some(z)
    ensures Names.Exists(t, zones, Asked(z, r)) <==> Names.Held(t, z.id, Looked(z, r))
  {
    NormalIsNormal(FullName(z, r));
    AskedInLowerZone(zones, z, r);
    StripJoined(Lower(r.name), TrimDots(z.name));
  }

  lemma AskedResolves(lib: Library, t: Tables, zones: seq<Zone>, z: Zone, r: Record, rtype: RecordType)
    requires Indexed(t) && rtype != SOA && LowerZone(z) && Names.Best(zones, Asked(z, r)) == Some(z)
    requires !Names.Held(t, z.id, Looked(z, r)) && Lower(r.name) != "@"
    ensures Resolved(lib, t, zones, Asked(z, r), Of(rtype)) == [] <==>
            Looked(z, r) == "@" || WildcardSilent(lib, t, z, Looked(z, r), rtype)
  {
    NormalIsNormal(FullName(z, r));
    AskedInLowerZone(zones, z, r);
    if Looked(z, r) == "@" {
      SilentApex(lib, t, zones, z, Asked(z, r), rtype);
    } else {
      SilentBelow(lib, t, zones, z, Lower(r.name), rtype);
    }
  }

  lemma OnlyAtIsAt(s: string)
    requires Lower(s) == "@"
    ensures s == "@"
  {
    assert |s| == 1 && LowerChar(s[0]) == '@';
  }

  /** Exactly when the server denies a name of which it stores a record, for every type that can be asked. */
  lemma OwnedNameIsDeniedExactly(lib: Library, t: Tables, zones: seq<Zone>, z: Zone, r: Record, qtype: QueryType)
    requires Indexed(t) && Stored(t, r) && r.zoneId == z.id && Names.Best(zones, Asked(z, r)) == Some(z)
    ensures Respond(lib, t, zones, Asked(z, r), qtype).code == NxDomain <==> Denied(lib, t, z, r, qtype)
  {
    NormalIsNormal(FullName(z, r));
    if !LowerZone(z) {
      MixedZoneIsDenied(lib, t, zones, z, Asked(z, r), qtype);
    } else {
      AskedExists(t, zones, z, r);
      if r.name == "@" {
        assert Names.Held(t, z.id, "@");
      } else if qtype.Of? && qtype.rtype != SOA && !Names.Held(t, z.id, Looked(z, r)) {
        if Lower(r.name) == "@" {
          OnlyAtIsAt(r.name);
        }
        AskedResolves(lib, t, zones, z, r, qtype.rtype);
      }
    }
  }

  /** A lower-case name of a lower-case zone that owns any record, enabled or not, is never denied. */
  lemma OwnedNameIsNeverDenied(lib: Library, t: Tables, zones: seq<Zone>, z: Zone, r: Record, qtype: QueryType)
    requires Indexed(t) && Stored(t, r) && r.zoneId == z.id && Names.Best(zones, Asked(z, r)) == Some(z)
    requires LowerZone(z) && Lower(r.name) == r.name && (TrimDots(z.name) == "" ==> r.name == "@")
    ensures Respond(lib, t, zones, Asked(z, r), qtype).code == NoError
  {
    OwnedNameIsDeniedExactly(lib, t, zones, z, r, qtype);
    assert Names.Held(t, z.id, Looked(z, r));
  }

  lemma OnlyZoneCovers(z: Zone, fqdn: string)
    requires Names.ZoneCovers(z, fqdn)
    ensures Names.Best([z], fqdn) == Some(z)
  {
    assert [z][..0] == [];
  }

  lemma NormalFullName(z: Zone, r: Record)
    requires TrimDots(z.name) != "" && r.name != "@"
    ensures Asked(z, r) == Lower(r.name) + ['.'] + Lower(TrimDots(z.name))
  {
    var zone := TrimDots(z.name);
    var full := r.name + "." + zone;
    assert full[|full| - 1] == zone[|zone| - 1];
    assert TrimDots(full) == full;
    LowerConcat(r.name + ".", zone);
    LowerConcat(r.name, ".");
  }

  /** A zone covers the questions for its own records' names. */
  lemma AskedIsCovered(z: Zone, r: Record)
    requires TrimDots(z.name) != ""
    ensures Names.ZoneCovers(z, Asked(z, r))
  {
    NormalIsNormal(FullName(z, r));
    if r.name != "@" {
      NormalFullName(z, r);
      Names.DottedEndsWith(Lower(r.name), Lower(TrimDots(z.name)));
    }
  }

  lemma AloneIsStored(r: Record)
    ensures Indexed(Insert(EMPTY, r)) && Stored(Insert(EMPTY, r), r)
  {
    InsertIndexed(EMPTY, r);
  }

  /** A record alone in a zone with an upper-case letter is asked for by its stored name, and denied. */
  lemma MixedZoneDeniesItsRecord(lib: Library, z: Zone, r: Record)
    requires !LowerZone(z) && r.zoneId == z.id && r.data.Type() != SOA
    ensures var t := Insert(EMPTY, r);
            Indexed(t) && Stored(t, r) && Respond(lib, t, [z], Asked(z, r), Of(r.data.Type())).code == NxDomain
  {
    AloneIsStored(r);
    AskedIsCovered(z, r);
    OnlyZoneCovers(z, Asked(z, r));
    NormalIsNormal(FullName(z, r));
    MixedZoneIsDenied(lib, Insert(EMPTY, r), [z], z, Asked(z, r), Of(r.data.Type()));
  }

  /** Zone `Ex`, record `www`: the question `www.Ex` gets NXDOMAIN. */
  lemma UpperCaseZoneIsDenied(lib: Library, soa: SoaData, ip: Ipv4)
    ensures var z := Zone("z", "Ex", soa, 300);
            var r := Record("r", "z", "www", 300, Addr4(ip), true, None, Manual, None);
            && FullName(z, r) == "www.Ex" && Indexed(Insert(EMPTY, r))
            && Respond(lib, Insert(EMPTY, r), [z], Names.Normal("www.Ex"), Of(A)).code == NxDomain
  {
    var z := Zone("z", "Ex", soa, 300);
    var r := Record("r", "z", "www", 300, Addr4(ip), true, None, Manual, None);
    assert Lower("Ex")[0] == 'e';
    assert TrimDots("Ex") == "Ex";
    assert FullName(z, r) == "www.Ex";
    MixedZoneDeniesItsRecord(lib, z, r);
  }

  /** A record stored alone under a name with an upper-case letter is denied too, in any lower-case zone. */
  lemma MixedNameIsDenied(lib: Library, z: Zone, r: Record)
    requires LowerZone(z) && TrimDots(z.name) != "" && r.zoneId == z.id && r.data.Type() != SOA
    requires Lower(r.name) != r.name && ':' !in r.name && !("*" <= r.name) && !AsksWildcard(Asked(z, r))
    ensures var t := Insert(EMPTY, r);
            Indexed(t) && Stored(t, r) && Respond(lib, t, [z], Asked(z, r), Of(r.data.Type())).code == NxDomain
  {
    var t := Insert(EMPTY, r);
    AloneIsStored(r);
    AskedIsCovered(z, r);
    OnlyZoneCovers(z, Asked(z, r));
    OwnedNameIsDeniedExactly(lib, t, [z], z, r, Of(r.data.Type()));
    AskedInLowerZone([z], z, r);
    NotHeldAlone(r, z);
    NoWildAlone(r, z.id, Lower(r.name), r.data.Type());
  }

  lemma NotHeldAlone(r: Record, z: Zone)
    requires Lower(r.name) != r.name && ':' !in r.name
    ensures !Names.Held(Insert(EMPTY, r), z.id, Lower(r.name))
  {
    var low := Lower(r.name);
    assert |low + ":"| > |r.name|;
  }

  lemma NoWildAlone(r: Record, zoneId: Uuid, name: string, rtype: RecordType)
    requires !("*" <= r.name)
    ensures Names.Wild(Insert(EMPTY, r), zoneId, name, rtype) == []
  {
    var t := Insert(EMPTY, r);
    var found := Names.Wild(t, zoneId, name, rtype);
    AloneIsStored(r);
    forall x | x in found
      ensures x == r && "*" <= x.name
    {
      Names.WildAnswersAreOwned(t, zoneId, name, rtype, x);
    }
    EmptyOrHeaded(found);
  }

  // --- The name an answer goes out under ---

  lemma {:induction false} RenderedMembers(lib: Library, zone: Zone, fqdn: string, records: seq<Record>, a: Answer)
    ensures a in Rendered(lib, zone, fqdn, records) <==>
            exists r :: r in records && Out(lib, OutName(lib, zone, fqdn, r), r) == Some(a)
    decreases |records|
  {
    if records != [] {
      var init, last := records[..|records| - 1], records[|records| - 1];
      RenderedMembers(lib, zone, fqdn, init, a);
      assert forall r :: r in records <==> r in init || r == last;
    }
  }

  /** An ordinary answer is that of some record found for the question. */
  lemma ResolvedMembers(lib: Library, t: Tables, zones: seq<Zone>, z: Zone, fqdn: string, rtype: RecordType, a: Answer)
    requires Names.Best(zones, fqdn) == Some(z) && rtype != SOA && !AsksWildcard(fqdn)
    ensures a in Resolved(lib, t, zones, fqdn, Of(rtype)) <==>
            exists r :: r in Names.Answer(t, zones, fqdn, rtype) && Out(lib, OutName(lib, z, fqdn, r), r) == Some(a)
  {
    RenderedMembers(lib, z, fqdn, Names.Answer(t, zones, fqdn, rtype), a);
  }

  lemma FoundBelow(t: Tables, zoneId: Uuid, prefix: string, rtype: RecordType, r: Record)
    requires Indexed(t) && r in Names.AnswerBelow(t, zoneId, prefix, rtype)
    ensures r.name == prefix || "*" <= r.name
  {
    LookupIsFilter(t, zoneId, prefix, rtype);
    Names.WildAnswersAreOwned(t, zoneId, prefix, rtype, r);
  }

  lemma FoundAtApex(t: Tables, zoneId: Uuid, rtype: RecordType, r: Record)
    requires Indexed(t) && r in Lookup(t, zoneId, "@", rtype)
    ensures r.name == "@"
  {
    LookupIsFilter(t, zoneId, "@", rtype);
  }

  /** A record found for a question is the apex's, the exact owner's or a wildcard's. */
  lemma FoundUnder(t: Tables, z: Zone, fqdn: string, rtype: RecordType, r: Record)
    requires Indexed(t) && r in Names.AnswerIn(t, z, fqdn, rtype)
    ensures "*" <= r.name || r.name == "@" || fqdn == r.name + "." + TrimDots(z.name)
  {
    var zone := TrimDots(z.name);
    if fqdn == zone {
      FoundAtApex(t, z.id, rtype, r);
    } else {
      var prefix := StripSuffix(fqdn, "." + zone).value;
      FoundBelow(t, z.id, prefix, rtype, r);
      assert prefix + ("." + zone) == prefix + "." + zone;
    }
  }

  /** Whether the answer goes out under the name asked for. */
  predicate Carries(z: Zone, fqdn: string, r: Record) {
    if r.name == "@" then fqdn == TrimDots(z.name) && |z.name| <= |fqdn| + 1
    else "*" <= r.name || z.name == TrimDots(z.name)
  }

  lemma ApexOutName(z: Zone, fqdn: string)
    requires TrimDots(fqdn) == fqdn
    ensures EnsureFqdn(z.name) == fqdn + "." <==> fqdn == TrimDots(z.name) && |z.name| <= |fqdn| + 1
  {
    TrimEnsured(z.name);
    TrimFull(fqdn);
    OneDotMore(z.name);
  }

  lemma OneDotMore(s: string)
    ensures |s| <= |TrimDots(s)| + 1 ==> EnsureFqdn(s) == TrimDots(s) + "."
    ensures |EnsureFqdn(s)| >= |s|
  {
    var low := TrimDots(s);
    if |s| == |low| + 1 {
      assert s == low + [s[|low|]];
    }
  }

  lemma ExactOutName(z: Zone, name: string)
    ensures name + "." + z.name + "." == name + "." + TrimDots(z.name) + "." <==> z.name == TrimDots(z.name)
  {
    var a, b := name + "." + z.name + ".", name + "." + TrimDots(z.name) + ".";
    if a == b {
      assert |z.name| == |TrimDots(z.name)|;
    }
  }

  /** An ordinary answer carries the name asked for, except from the apex under another name or under extra dots. */
  lemma AnswersCarryTheQuestion(lib: Library, t: Tables, zones: seq<Zone>, z: Zone, fqdn: string, rtype: RecordType,
                                r: Record,
                                a: Answer)
    requires Indexed(t) && TrimDots(fqdn) == fqdn && Names.Best(zones, fqdn) == Some(z)
    requires r in Names.Answer(t, zones, fqdn, rtype) && Out(lib, OutName(lib, z, fqdn, r), r) == Some(a)
    ensures a.name == fqdn + "." <==> Carries(z, fqdn, r)
  {
    FoundUnder(t, z, fqdn, rtype, r);
    if r.name == "@" {
      ApexOutName(z, fqdn);
    } else if "*" <= r.name {
      assert EnsureFqdn(fqdn) == fqdn + ".";
    } else {
      ExactOutName(z, r.name);
    }
  }

  // --- What a response says, in terms of the stored records ---

  /** The answer is the record's: its TTL, its data, and the name asked for or the record's own. */
  predicate Tells(lib: Library, z: Zone, fqdn: string, r: Record, a: Answer) {
    && lib.parses(a.name) && NamesParse(lib, r.data)
    && a.ttl == r.ttl && Encodes(lib, r.data, a.rdata)
    && if Carries(z, fqdn, r) then a.name == fqdn + "."
       else if r.name == "@" then Spells(z.name, a.name)
       else a.name == r.name + "." + z.name + "."
  }

  /** What an answer for a record says, whatever name it goes out under. */
  lemma OutIs(lib: Library, name: Option<string>, r: Record, a: Answer)
    ensures Out(lib, name, r) == Some(a) <==>
            name == Some(a.name) && NamesParse(lib, r.data) && a.ttl == r.ttl && Encodes(lib, r.data, a.rdata)
  {
    if NamesParse(lib, r.data) {
      EncodingIsExact(lib, r.data, a.rdata);
    }
  }

  lemma OutTells(lib: Library, t: Tables, z: Zone, fqdn: string, rtype: RecordType, r: Record, a: Answer)
    requires Indexed(t) && TrimDots(fqdn) == fqdn && r in Names.AnswerIn(t, z, fqdn, rtype)
    ensures Out(lib, OutName(lib, z, fqdn, r), r) == Some(a) <==> Tells(lib, z, fqdn, r, a)
  {
    OutIs(lib, OutName(lib, z, fqdn, r), r, a);
    FoundUnder(t, z, fqdn, rtype, r);
    if r.name == "@" {
      ApexOutName(z, fqdn);
    } else if "*" <= r.name {
      assert EnsureFqdn(fqdn) == fqdn + ".";
    } else {
      ExactOutName(z, r.name);
    }
  }

  /** The answers to an ordinary question are those of the records found on its labels, and no others. */
  lemma AnswersAreTheRecords(lib: Library, t: Tables, zones: seq<Zone>, z: Zone, fqdn: string, rtype: RecordType,
                             a: Answer)
    requires Indexed(t) && TrimDots(fqdn) == fqdn && Names.Best(zones, fqdn) == Some(z)
    requires rtype != SOA && !AsksWildcard(fqdn)
    ensures a in Respond(lib, t, zones, fqdn, Of(rtype)).answers <==>
            exists r :: r in Names.LabelAnswer(t, z, fqdn, rtype) && Tells(lib, z, fqdn, r, a)
  {
    ResolvedMembers(lib, t, zones, z, fqdn, rtype, a);
    Names.AnswerInRefinesLabels(t, z, fqdn, rtype);
    forall r | r in Names.AnswerIn(t, z, fqdn, rtype)
      ensures Out(lib, OutName(lib, z, fqdn, r), r) == Some(a) <==> Tells(lib, z, fqdn, r, a)
    {
      OutTells(lib, t, z, fqdn, rtype, r, a);
    }
  }

  lemma {:induction false} RenderedInOrder(lib: Library, z: Zone, fqdn: string, records: seq<Record>, i: nat)
    requires i < |records| && forall r :: r in records ==> Out(lib, OutName(lib, z, fqdn, r), r).Some?
    ensures |Rendered(lib, z, fqdn, records)| == |records|
    ensures Out(lib, OutName(lib, z, fqdn, records[i]), records[i]) == Some(Rendered(lib, z, fqdn, records)[i])
    decreases |records|
  {
    var init := records[..|records| - 1];
    if init != [] {
      RenderedInOrder(lib, z, fqdn, init, if i < |init| then i else 0);
    }
  }

  /** If every record found can be told, the answers are theirs one by one and in their order. */
  lemma AnswersInOrder(lib: Library, t: Tables, zones: seq<Zone>, z: Zone, fqdn: string, rtype: RecordType, i: nat)
    requires Indexed(t) && TrimDots(fqdn) == fqdn && Names.Best(zones, fqdn) == Some(z)
    requires rtype != SOA && !AsksWildcard(fqdn) && i < |Names.LabelAnswer(t, z, fqdn, rtype)|
    requires forall r :: r in Names.LabelAnswer(t, z, fqdn, rtype) ==> exists a :: Tells(lib, z, fqdn, r, a)
    ensures var records, answers :=
              Names.LabelAnswer(t, z, fqdn, rtype), Respond(lib, t, zones, fqdn, Of(rtype)).answers;
            |answers| == |records| && Tells(lib, z, fqdn, records[i], answers[i])
  {
    var records := Names.LabelAnswer(t, z, fqdn, rtype);
    Names.AnswerInRefinesLabels(t, z, fqdn, rtype);
    forall r | r in records
      ensures Out(lib, OutName(lib, z, fqdn, r), r).Some?
    {
      var a :| Tells(lib, z, fqdn, r, a);
      OutTells(lib, t, z, fqdn, rtype, r, a);
    }
    RenderedInOrder(lib, z, fqdn, records, i);
    OutTells(lib, t, z, fqdn, rtype, records[i], Rendered(lib, z, fqdn, records)[i]);
  }

  /** The answer is the stored record's under its own full name. */
  predicate TellsOwn(lib: Library, zone: string, r: Record, a: Answer) {
    && lib.parses(a.name) && NamesParse(lib, r.data)
    && a.ttl == r.ttl && Encodes(lib, r.data, a.rdata) && a.name == r.name + "." + zone + "."
  }

  /** The answers to a `*` question are those of the enabled records whose labels it fits, and no others. */
  lemma PatternAnswersAreTheRecords(lib: Library, t: Tables, zones: seq<Zone>, z: Zone, pattern: string,
                                    rtype: RecordType, a: Answer)
    requires Indexed(t) && Names.Best(zones, pattern + "." + TrimDots(z.name)) == Some(z)
    requires rtype != SOA && AsksWildcard(pattern + "." + TrimDots(z.name))
    ensures a in Respond(lib, t, zones, pattern + "." + TrimDots(z.name), Of(rtype)).answers <==>
            exists r :: && Stored(t, r) && r.zoneId == z.id && r.enabled && r.data.Type() == rtype
                        && LabelsMatch(Names.Labels(pattern), Names.Labels(r.name))
                        && TellsOwn(lib, TrimDots(z.name), r, a)
  {
    var zone := TrimDots(z.name);
    WildcardAnswersAreTheMatches(lib, t, zones, z, pattern, rtype, a);
    forall r: Record
      ensures PickedAnswer(lib, zone, r) == Some(a) <==> TellsOwn(lib, zone, r, a)
    {
      OutIs(lib, ParseName(lib, r.name + "." + zone + "."), r, a);
    }
  }

  /** The SOA record of a zone: its name, its default TTL and its SOA fields. */
  predicate IsZoneSoa(lib: Library, z: Zone, a: Answer) {
    && lib.parses(a.name) && NamesParse(lib, Soa(z.soa))
    && Spells(z.name, a.name) && a.ttl == z.defaultTtl && Encodes(lib, Soa(z.soa), a.rdata)
  }

  lemma SoaAnswerIs(lib: Library, z: Zone, a: Answer)
    ensures SoaAnswer(lib, z) == Some(a) <==> IsZoneSoa(lib, z, a)
  {
    if NamesParse(lib, Soa(z.soa)) {
      EncodingIsExact(lib, Soa(z.soa), a.rdata);
    }
  }

  /** SOA and ANY are answered by the zone's SOA, unknown types by nothing. */
  lemma SoaAndAny(lib: Library, t: Tables, zones: seq<Zone>, z: Zone, fqdn: string, qtype: QueryType, a: Answer)
    requires Names.Best(zones, fqdn) == Some(z) && (qtype.Of? ==> qtype.rtype == SOA)
    ensures var response := Respond(lib, t, zones, fqdn, qtype);
            && |response.answers| <= 1
            && (a in response.answers <==> !qtype.Unsupported? && IsZoneSoa(lib, z, a))
  {
    SoaAnswerIs(lib, z, a);
  }

  /**
   The rest of a response: refused exactly where no zone covers the name, and the
   zone's SOA as authority exactly where there are no answers and ANY was not asked.
   */
  lemma ResponseIs(lib: Library, t: Tables, zones: seq<Zone>, fqdn: string, qtype: QueryType, a: Answer)
    ensures var response := Respond(lib, t, zones, fqdn, qtype);
            && (response.code == Refused <==> forall z :: z in zones ==> !Names.ZoneCovers(z, fqdn))
            && (response.code == Refused ==> response.answers == [])
            && (response.authority == Some(a) <==>
                  && response.code != Refused && response.answers == [] && !qtype.Any?
                  && exists z :: Names.Best(zones, fqdn) == Some(z) && IsZoneSoa(lib, z, a))
  {
    Names.BestIsLongest(zones, fqdn);
    var best := Names.Best(zones, fqdn);
    if best.Some? {
      SoaAnswerIs(lib, best.value, a);
    }
  }

  /** The name a question has in a zone, `@` for the zone's own. */
  predicate NamedIn(z: Zone, fqdn: string, owner: string) {
    var zone := TrimDots(z.name);
    if fqdn == zone then owner == "@" else fqdn == owner + "." + zone
  }

  /** No such name exactly if there are no answers and the zone holds no record under the name. */
  lemma NxDomainIs(lib: Library, t: Tables, zones: seq<Zone>, z: Zone, fqdn: string, qtype: QueryType)
    requires TrimDots(fqdn) == fqdn && Names.Best(zones, fqdn) == Some(z)
    ensures var response := Respond(lib, t, zones, fqdn, qtype);
            response.code == NxDomain <==>
              && response.answers == [] && !qtype.Any?
              && forall owner :: NamedIn(z, fqdn, owner) ==> !Names.Held(t, z.id, owner)
  {
    var zone := TrimDots(z.name);
    forall owner | NamedIn(z, fqdn, owner)
      ensures Names.Exists(t, zones, fqdn) <==> Names.Held(t, z.id, owner)
    {
      StripJoined(owner, zone);
    }
    var prefix := StripSuffix(fqdn, "." + zone);
    if fqdn != zone && prefix.Some? {
      assert prefix.value + ("." + zone) == prefix.value + "." + zone;
      assert NamedIn(z, fqdn, prefix.value);
    }
    assert fqdn == zone ==> NamedIn(z, fqdn, "@");
  }

  lemma AtSignIsNormal(zone: string)
    requires NormalZone(zone) && Lower(zone) == zone
    ensures IsNormal("@." + zone) && "@." + zone != zone
  {
    EndIsTrimmed("@.", zone);
    LowerConcat("@.", zone);
    assert Lower("@.") == "@.";
  }

  /** The question `@.zone` finds the apex's records. */
  lemma AtSignFindsApex(z: Zone, r: Record)
    requires NormalZone(z.name) && LowerZone(z) && r.zoneId == z.id && r.name == "@" && r.enabled
    ensures var t, fqdn := Insert(EMPTY, r), "@." + z.name;
            Names.Best([z], fqdn) == Some(z) && r in Names.Answer(t, [z], fqdn, r.data.Type())
  {
    var t, fqdn := Insert(EMPTY, r), "@." + z.name;
    AtSignIsNormal(z.name);
    Names.DottedEndsWith("@", z.name);
    assert fqdn == "@" + ['.'] + z.name;
    OnlyZoneCovers(z, fqdn);
    StripJoined("@", z.name);
    AloneIsStored(r);
    LookupIsFilter(t, z.id, "@", r.data.Type());
    assert Owns(t, r, z.id, "@", r.data.Type());
  }

  /** So its answer goes out under the zone's own name, not under the one asked for. */
  lemma AtSignAnswersAsApex(lib: Library, z: Zone, r: Record, a: Answer)
    requires NormalZone(z.name) && LowerZone(z) && r.zoneId == z.id && r.name == "@" && r.enabled
    requires r.data.Type() != SOA && !AsksWildcard("@." + z.name) && Out(lib, Some(z.name + "."), r) == Some(a)
    requires lib.parses(z.name + ".")
    ensures a in Resolved(lib, Insert(EMPTY, r), [z], "@." + z.name, Of(r.data.Type()))
    ensures a.name == z.name + "." && a.name != "@." + z.name + "."
  {
    AtSignFindsApex(z, r);
    assert EnsureFqdn(z.name) == z.name + ".";
    ResolvedMembers(lib, Insert(EMPTY, r), [z], z, "@." + z.name, r.data.Type(), a);
    assert |"@." + z.name + "."| > |z.name + "."|;
  }
}
