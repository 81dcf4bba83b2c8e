/**
 Choosing the upstream for a name, in two ways: the recursor's table, sorted
 longest zone first and searched for the first match, and the database's scan
 that keeps the longest match so far.
 */
module Forward {
  import opened Text
  import opened Names

  datatype Forwarder = Forwarder(zone: string, servers: seq<string>)

  datatype ForwardZone = ForwardZone(name: string, servers: seq<string>)

  /** The addresses that parse, with the default port where none is given. */
  function Parsed(parses: string -> bool, servers: seq<string>): seq<string> {
    if servers == [] then []
    else
      var rest, last := Parsed(parses, servers[..|servers| - 1]), servers[|servers| - 1];
      var address := if ':' in last then last else last + ":53";
      if parses(address) then rest + [address] else rest
  }

  /** An address is used exactly if it parses and was configured as it is, or without its port 53. */
  lemma {:induction false} ParsedMembers(parses: string -> bool, servers: seq<string>, address: string)
    ensures address in Parsed(parses, servers) <==>
            && parses(address)
            && exists s :: s in servers && if ':' in s then address == s else address == s + ":53"
    decreases |servers|
  {
    if servers != [] {
      var init, last := servers[..|servers| - 1], servers[|servers| - 1];
      ParsedMembers(parses, init, address);
      assert forall s :: s in servers <==> s in init || s == last;
    }
  }

  function ZoneOf(parses: string -> bool, f: Forwarder): ForwardZone {
    ForwardZone(Normal(f.zone), Parsed(parses, f.servers))
  }

  predicate Usable(parses: string -> bool, f: Forwarder) {
    Parsed(parses, f.servers) != []
  }

  // --- The sorted table ---

  /** Puts a zone after those at least as long, as a stable sort does. */
  function Placed(table: seq<ForwardZone>, z: ForwardZone): seq<ForwardZone> {
    if table == [] || |table[|table| - 1].name| >= |z.name| then table + [z]
    else Placed(table[..|table| - 1], z) + [table[|table| - 1]]
  }

  function Table(parses: string -> bool, fs: seq<Forwarder>): seq<ForwardZone> {
    if fs == [] then []
    else
      var rest, last := Table(parses, fs[..|fs| - 1]), fs[|fs| - 1];
      if Usable(parses, last) then Placed(rest, ZoneOf(parses, last)) else rest
  }

  ghost predicate LongestFirst(table: seq<ForwardZone>) {
    forall i, j :: 0 <= i < j < |table| ==> |table[i].name| >= |table[j].name|
  }

  lemma {:induction false} PlacedMembers(table: seq<ForwardZone>, z: ForwardZone, x: ForwardZone)
    ensures x in Placed(table, z) <==> x in table || x == z
    decreases |table|
  {
    if table != [] && |table[|table| - 1].name| < |z.name| {
      PlacedMembers(table[..|table| - 1], z, x);
      assert table == table[..|table| - 1] + [table[|table| - 1]];
    }
  }

  lemma {:induction false} PlacedSorted(table: seq<ForwardZone>, z: ForwardZone)
    requires LongestFirst(table)
    ensures LongestFirst(Placed(table, z))
    decreases |table|
  {
    if table != [] && |table[|table| - 1].name| < |z.name| {
      var init, last := table[..|table| - 1], table[|table| - 1];
      PlacedSorted(init, z);
      forall x | x in Placed(init, z)
        ensures |x.name| >= |last.name|
      {
        PlacedMembers(init, z, x);
      }
    }
  }

  lemma {:induction false} TableSorted(parses: string -> bool, fs: seq<Forwarder>)
    ensures LongestFirst(Table(parses, fs))
    decreases |fs|
  {
    if fs != [] {
      TableSorted(parses, fs[..|fs| - 1]);
      PlacedSorted(Table(parses, fs[..|fs| - 1]), ZoneOf(parses, fs[|fs| - 1]));
    }
  }

  /** The table holds the usable forwarders and nothing else. */
  lemma {:induction false} TableMembers(parses: string -> bool, fs: seq<Forwarder>, x: ForwardZone)
    ensures x in Table(parses, fs) <==> exists f :: f in fs && Usable(parses, f) && x == ZoneOf(parses, f)
    decreases |fs|
  {
    if fs != [] {
      var init, last := fs[..|fs| - 1], fs[|fs| - 1];
      TableMembers(parses, init, x);
      PlacedMembers(Table(parses, init), ZoneOf(parses, last), x);
      assert forall f :: f in fs <==> f in init || f == last;
    }
  }

  method ParseServers(parses: string -> bool, servers: seq<string>) returns (out: seq<string>)
    ensures out == Parsed(parses, servers)
  {
    out := [];
    for i := 0 to |servers|
      invariant out == Parsed(parses, servers[..i])
    {
      var address := if ':' in servers[i] then servers[i] else servers[i] + ":53";
      if parses(address) {
        out := out + [address];
      }
      assert servers[..i + 1][..i] == servers[..i];
    }
    assert servers[..|servers|] == servers;
  }

  method FromForwarders(parses: string -> bool, fs: seq<Forwarder>) returns (table: seq<ForwardZone>)
    ensures table == Table(parses, fs) && LongestFirst(table)
    ensures forall x :: x in table <==> exists f :: f in fs && Usable(parses, f) && x == ZoneOf(parses, f)
  {
    table := [];
    for i := 0 to |fs|
      invariant table == Table(parses, fs[..i])
    {
      var servers := ParseServers(parses, fs[i].servers);
      if servers != [] {
        table := Placed(table, ForwardZone(Normal(fs[i].zone), servers));
      }
      assert fs[..i + 1][..i] == fs[..i];
    }
    assert fs[..|fs|] == fs;
    TableSorted(parses, fs);
    forall x
      ensures x in table <==> exists f :: f in fs && Usable(parses, f) && x == ZoneOf(parses, f)
    {
      TableMembers(parses, fs, x);
    }
  }

  /** The first match of the table. */
  method Lookup(table: seq<ForwardZone>, name: string) returns (found: Option<ForwardZone>)
    requires LongestFirst(table)
    ensures found.None? ==> forall x :: x in table ==> !Covers(x.name, Normal(name))
    ensures found.Some? ==> LongestIn(table, name, found.value)
  {
    var fqdn := Normal(name);
    for i := 0 to |table|
      invariant forall k :: 0 <= k < i ==> !Covers(table[k].name, fqdn)
    {
      if Covers(table[i].name, fqdn) {
        return Some(table[i]);
      }
    }
    found := None;
  }

  /** The zone matches, and no other match is longer. */
  ghost predicate LongestIn(table: seq<ForwardZone>, name: string, x: ForwardZone) {
    && x in table && Covers(x.name, Normal(name))
    && forall y :: y in table && Covers(y.name, Normal(name)) ==> |y.name| <= |x.name|
  }

  // --- The scan ---

  function Scan(fs: seq<Forwarder>, name: string): Option<Forwarder> {
    if fs == [] then None
    else
      var best, last := Scan(fs[..|fs| - 1], name), fs[|fs| - 1];
      if Covers(Normal(last.zone), Normal(name)) && (best.None? || |Normal(last.zone)| > |Normal(best.value.zone)|)
      then Some(last) else best
  }

  method FindForwardServers(fs: seq<Forwarder>, name: string) returns (servers: Option<seq<string>>)
    ensures servers == match Scan(fs, name) case None => None case Some(f) => Some(f.servers)
  {
    var qname := Normal(name);
    var best: Option<(seq<string>, nat)> := None;
    for i := 0 to |fs|
      invariant best == match Scan(fs[..i], name) case None => None case Some(f) => Some((f.servers, |Normal(f.zone)|))
    {
      var zone := Normal(fs[i].zone);
      if Covers(zone, qname) {
        if best.None? || |zone| > best.value.1 {
          best := Some((fs[i].servers, |zone|));
        }
      }
      assert fs[..i + 1][..i] == fs[..i];
    }
    assert fs[..|fs|] == fs;
    servers := if best.None? then None else Some(best.value.0);
  }

  lemma {:induction false} ScanIsLongest(fs: seq<Forwarder>, name: string)
    ensures Scan(fs, name).None? ==> forall f :: f in fs ==> !Covers(Normal(f.zone), Normal(name))
    ensures Scan(fs, name).Some? ==>
              Scan(fs, name).value in fs && Covers(Normal(Scan(fs, name).value.zone), Normal(name))
    ensures Scan(fs, name).Some? ==>
              forall f :: f in fs && Covers(Normal(f.zone), Normal(name)) ==>
                  |Normal(f.zone)| <= |Normal(Scan(fs, name).value.zone)|
    decreases |fs|
  {
    if fs != [] {
      ScanIsLongest(fs[..|fs| - 1], name);
      assert forall f :: f in fs <==> f in fs[..|fs| - 1] || f == fs[|fs| - 1];
    }
  }

  // --- They agree ---

  ghost predicate DistinctZones(fs: seq<Forwarder>) {
    forall f, g :: f in fs && g in fs && Normal(f.zone) == Normal(g.zone) ==> f == g
  }

  /** What the first match of the table can be. */
  ghost predicate IsLookup(table: seq<ForwardZone>, name: string, found: Option<ForwardZone>) {
    match found
    case None => forall x :: x in table ==> !Covers(x.name, Normal(name))
    case Some(x) => LongestIn(table, name, x)
  }

  /** Two matches of one length are one zone, so the longest usable match is the scan's. */
  lemma LongestIsTheScans(parses: string -> bool, fs: seq<Forwarder>, name: string, x: ForwardZone, f: Forwarder)
    requires DistinctZones(fs) && Scan(fs, name) == Some(f) && Usable(parses, f)
    requires LongestIn(Table(parses, fs), name, x)
    ensures x == ZoneOf(parses, f)
  {
    ScanIsLongest(fs, name);
    TableMembers(parses, fs, x);
    TableMembers(parses, fs, ZoneOf(parses, f));
    var g :| g in fs && Usable(parses, g) && x == ZoneOf(parses, g);
    CoveringZonesAreNested(Normal(f.zone), Normal(g.zone), Normal(name));
  }

  /** Table and scan choose the same zone and servers exactly when the scan's choice has a server that parses. */
  lemma TableAgreesWithScan(parses: string -> bool, fs: seq<Forwarder>, name: string, found: Option<ForwardZone>)
    requires DistinctZones(fs) && IsLookup(Table(parses, fs), name, found)
    ensures var pick := Scan(fs, name);
            found == (if pick.None? then None else Some(ZoneOf(parses, pick.value))) <==>
            pick.None? || Usable(parses, pick.value)
  {
    var pick := Scan(fs, name);
    ScanIsLongest(fs, name);
    if found.Some? {
      TableMembers(parses, fs, found.value);
    }
    if pick.Some? && Usable(parses, pick.value) {
      TableMembers(parses, fs, ZoneOf(parses, pick.value));
      assert found.Some?;
      LongestIsTheScans(parses, fs, name, found.value, pick.value);
    }
  }

  /** With a more specific zone whose servers do not parse, the table falls back to a shorter one. */
  lemma UnusableFallsBack(parses: string -> bool)
    requires parses("h:1")
    ensures var fs := [Forwarder("b", ["h:1"]), Forwarder("a.b", [])];
            && Scan(fs, "a.b") == Some(fs[1])
            && LongestIn(Table(parses, fs), "a.b", ForwardZone("b", ["h:1"]))
  {
    var fs := [Forwarder("b", ["h:1"]), Forwarder("a.b", [])];
    assert fs[..1] == [fs[0]] && fs[..0] == [] && ["h:1"][..0] == [];
    assert Normal("a.b") == "a.b" && Normal("b") == "b";
    assert "a.b"[1..] == ".b" && "h:1"[1] == ':';
    assert Parsed(parses, ["h:1"]) == ["h:1"];
    assert Table(parses, fs) == [ForwardZone("b", ["h:1"])];
  }
}
