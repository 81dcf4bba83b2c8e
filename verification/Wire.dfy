/**
 Between stored records and DNS answers.  The DNS library is a parameter: which
 strings parse as names, and how it prints a CAA issuer.  A name that parses
 prints back as it was read, and messages arrive as they were sent.
 */
module Wire {
  import opened Text
  import opened Types

  datatype Library = Library(parses: string -> bool, issuer: Option<string> -> string)

  type i32 = x: int | -0x8000_0000 <= x < 0x8000_0000

  /** The casts between unsigned and signed 32-bit integers. */
  function AsI32(x: u32): i32 {
    if x < 0x8000_0000 then x else x - 0x1_0000_0000
  }

  function AsU32(x: i32): u32 {
    if x >= 0 then x else x + 0x1_0000_0000
  }

  datatype Rdata =
    | RdA(v4: Ipv4)
    | RdAaaa(v6: Ipv6)
    | RdCname(name: string)
    | RdMx(preference: u16, name: string)
    | RdNs(name: string)
    | RdPtr(name: string)
    | RdSoa(mname: string, rname: string, serial: u32, refresh: i32, retry: i32, expire: i32, minimum: u32)
    | RdSrv(priority: u16, weight: u16, port: u16, name: string)
    | RdTxt(strings: seq<string>)
    | RdCaa(critical: bool, issuer: Option<string>)
    | RdOther
    | RdMissing

  datatype Answer = Answer(name: string, ttl: u32, rdata: Rdata)

  /** A record as a transfer carries it. */
  datatype Entry = Entry(name: string, data: RecordData, ttl: u32)

  predicate Dotted(s: string) {
    s != "" && s[|s| - 1] == '.'
  }

  /** The name with a final dot, which is added only where there is none. */
  function EnsureFqdn(name: string): (full: string)
    ensures Dotted(full) && (full == name <==> Dotted(name)) && (full == name || full == name + ".")
  {
    if Dotted(name) then name else name + "."
  }

  function StripDot(s: string): string {
    if Dotted(s) then s[..|s| - 1] else s
  }

  function ParseName(lib: Library, name: string): Option<string> {
    if lib.parses(name) then Some(name) else None
  }

  /** The name a record points at, if it points at one. */
  function Target(data: RecordData): Option<string> {
    match data
    case Cname(t) => Some(t)
    case Mx(_, t) => Some(t)
    case Ns(t) => Some(t)
    case Ptr(t) => Some(t)
    case Srv(_, _, _, t) => Some(t)
    case _ => None
  }

  /** The names in the data are names to the library once they end in a dot. */
  predicate NamesParse(lib: Library, data: RecordData) {
    && (Target(data).Some? ==> lib.parses(EnsureFqdn(Target(data).value)))
    && (data.Soa? ==> lib.parses(EnsureFqdn(data.soa.mname)) && lib.parses(EnsureFqdn(data.soa.rname)))
  }

  /** The name as it was stored, completed by a final dot if it had none. */
  predicate Spells(stored: string, sent: string) {
    Dotted(sent) && if Dotted(stored) then sent == stored else sent == stored + "."
  }

  /** The rdata says what the stored data says, field by field. */
  predicate Encodes(lib: Library, data: RecordData, rdata: Rdata) {
    match data
    case Addr4(v4) => rdata == RdA(v4)
    case Addr6(v6) => rdata == RdAaaa(v6)
    case Cname(t) => rdata.RdCname? && Spells(t, rdata.name)
    case Mx(p, t) => rdata.RdMx? && rdata.preference == p && Spells(t, rdata.name)
    case Ns(t) => rdata.RdNs? && Spells(t, rdata.name)
    case Ptr(t) => rdata.RdPtr? && Spells(t, rdata.name)
    case Soa(soa) =>
      && rdata.RdSoa? && Spells(soa.mname, rdata.mname) && Spells(soa.rname, rdata.rname)
      && rdata.serial == soa.serial && rdata.minimum == soa.minimum
      && AsU32(rdata.refresh) == soa.refresh && AsU32(rdata.retry) == soa.retry && AsU32(rdata.expire) == soa.expire
    case Srv(p, w, port, t) =>
      rdata.RdSrv? && rdata.priority == p && rdata.weight == w && rdata.port == port && Spells(t, rdata.name)
    case Txt(text) => rdata.RdTxt? && rdata.strings == [text]
    case Caa(flags, _, value) =>
      && rdata.RdCaa? && (rdata.critical <==> flags >= 0x80)
      && rdata.issuer == if lib.parses(value) then Some(value) else None
  }

  /** Refused exactly where a name does not parse. */
  function ToRdata(lib: Library, data: RecordData): (rdata: Option<Rdata>)
    ensures rdata.Some? <==> NamesParse(lib, data)
  {
    match data
    case Addr4(v4) => Some(RdA(v4))
    case Addr6(v6) => Some(RdAaaa(v6))
    case Cname(t) => if lib.parses(EnsureFqdn(t)) then Some(RdCname(EnsureFqdn(t))) else None
    case Mx(p, t) => if lib.parses(EnsureFqdn(t)) then Some(RdMx(p, EnsureFqdn(t))) else None
    case Ns(t) => if lib.parses(EnsureFqdn(t)) then Some(RdNs(EnsureFqdn(t))) else None
    case Ptr(t) => if lib.parses(EnsureFqdn(t)) then Some(RdPtr(EnsureFqdn(t))) else None
    case Soa(soa) =>
      if lib.parses(EnsureFqdn(soa.mname)) && lib.parses(EnsureFqdn(soa.rname))
      then Some(RdSoa(EnsureFqdn(soa.mname), EnsureFqdn(soa.rname), soa.serial,
                      AsI32(soa.refresh), AsI32(soa.retry), AsI32(soa.expire), soa.minimum))
      else None
    case Srv(p, w, port, t) => if lib.parses(EnsureFqdn(t)) then Some(RdSrv(p, w, port, EnsureFqdn(t))) else None
    case Txt(text) => Some(RdTxt([text]))
    case Caa(flags, _, value) => Some(RdCaa(flags >= 0x80, ParseName(lib, value)))
  }

  /** A full owner name made relative to the zone, `@` for the zone itself. */
  function Relative(name: string, zone: string): Option<string> {
    var zoneFqdn := EnsureFqdn(zone);
    if name == zoneFqdn || TrimDots(name) == zone then Some("@")
    else if StripSuffix(name, "." + zoneFqdn).Some? then StripSuffix(name, "." + zoneFqdn)
    else StripSuffix(name, "." + TrimDots(zone) + ".")
  }

  function Concat(strings: seq<string>): string {
    if strings == [] then "" else strings[0] + Concat(strings[1..])
  }

  function FromRdata(lib: Library, rdata: Rdata): Option<RecordData> {
    match rdata
    case RdA(v4) => Some(Addr4(v4))
    case RdAaaa(v6) => Some(Addr6(v6))
    case RdCname(n) => Some(Cname(StripDot(n)))
    case RdMx(p, n) => Some(Mx(p, StripDot(n)))
    case RdNs(n) => Some(Ns(StripDot(n)))
    case RdPtr(n) => Some(Ptr(StripDot(n)))
    case RdSrv(p, w, port, n) => Some(Srv(p, w, port, StripDot(n)))
    case RdTxt(strings) => Some(Txt(Concat(strings)))
    case RdCaa(critical, issuer) => Some(Caa(if critical then 0x80 else 0, "issue", lib.issuer(issuer)))
    case RdSoa(_, _, _, _, _, _, _) => None
    case RdOther => None
    case RdMissing => None
  }

  /** The entry an answer stands for in a zone, if any. */
  function FromAnswer(lib: Library, a: Answer, zone: string): Option<Entry> {
    var name := Relative(a.name, zone);
    var data := FromRdata(lib, a.rdata);
    if name.Some? && data.Some? then Some(Entry(name.value, data.value, a.ttl)) else None
  }

  function OwnerName(name: string, zone: string): string {
    if name == "@" then zone + "." else name + "." + zone + "."
  }

  /** The answer is the record's under its own full name, and every name of it parses. */
  predicate Told(lib: Library, zone: string, r: Record, a: Answer) {
    && lib.parses(a.name) && NamesParse(lib, r.data) && a.ttl == r.ttl && Encodes(lib, r.data, a.rdata)
    && a.name == if r.name == "@" then zone + "." else r.name + "." + zone + "."
  }

  /** The answer for a stored record, unless the library refuses one of its names. */
  function ToAnswer(lib: Library, r: Record, zone: string): (a: Option<Answer>)
    ensures a.Some? <==> lib.parses(OwnerName(r.name, zone)) && NamesParse(lib, r.data)
    ensures a.Some? ==> a.value.name == OwnerName(r.name, zone) && a.value.ttl == r.ttl
  {
    var owner, rdata := OwnerName(r.name, zone), ToRdata(lib, r.data);
    if lib.parses(owner) && rdata.Some? then Some(Answer(owner, r.ttl, rdata.value)) else None
  }

  predicate NormalZone(zone: string) {
    zone != "" && TrimDots(zone) == zone
  }

  lemma StripFull(name: string, zone: string)
    ensures StripSuffix(name + "." + zone + ".", "." + (zone + ".")) == Some(name)
  {
    var full, suffix := name + "." + zone + ".", "." + (zone + ".");
    assert full == name + suffix;
    assert full[|full| - |suffix|..] == suffix && full[..|full| - |suffix|] == name;
  }

  lemma TrimFull(head: string)
    requires head == TrimDots(head)
    ensures TrimDots(head + ".") == head
  {
  }

  lemma EndIsTrimmed(head: string, zone: string)
    requires NormalZone(zone)
    ensures TrimDots(head + zone) == head + zone
  {
  }

  /** An owner name is made full and relative again without change, whatever it contains. */
  lemma OwnerRoundTrip(name: string, zone: string)
    requires NormalZone(zone)
    ensures Relative(OwnerName(name, zone), zone) == Some(name)
  {
    assert EnsureFqdn(zone) == zone + ".";
    if name != "@" {
      EndIsTrimmed(name + ".", zone);
      TrimFull(name + "." + zone);
      assert |name + "." + zone| > |zone|;
      StripFull(name, zone);
    }
  }

  /** A name is made relative exactly if it is the zone's own, whatever its dots, or lies below the zone. */
  lemma RelativeExactly(name: string, zone: string, r: string)
    requires NormalZone(zone)
    ensures Relative(name, zone) == Some(r) <==>
            if TrimDots(name) == zone then r == "@" else name == r + "." + zone + "."
  {
    assert EnsureFqdn(zone) == zone + ".";
    TrimFull(zone);
    StripFull(r, zone);
    var prefix := StripSuffix(name, "." + (zone + "."));
    assert "." + zone + "." == "." + (zone + ".");
    if prefix.Some? {
      assert prefix.value + ("." + (zone + ".")) == prefix.value + "." + zone + ".";
    }
  }

  /** What data becomes on its way: targets lose a trailing dot, CAA more. */
  function Carried(lib: Library, data: RecordData): RecordData {
    match data
    case Cname(t) => Cname(StripDot(t))
    case Mx(p, t) => Mx(p, StripDot(t))
    case Ns(t) => Ns(StripDot(t))
    case Ptr(t) => Ptr(StripDot(t))
    case Srv(p, w, port, t) => Srv(p, w, port, StripDot(t))
    case Caa(flags, _, value) => Caa(if flags >= 0x80 then 0x80 else 0, "issue", lib.issuer(ParseName(lib, value)))
    case _ => data
  }

  lemma ConcatOne(text: string)
    ensures Concat([text]) == text
  {
  }

  /** Only the final dot of a target is lost, and the type never changes. */
  lemma CarriedTarget(lib: Library, data: RecordData)
    ensures Carried(lib, data).Type() == data.Type()
    ensures Target(Carried(lib, data)).Some? <==> Target(data).Some?
    ensures Target(data).Some? ==>
              var t, came := Target(data).value, Target(Carried(lib, data)).value;
              if Dotted(t) then t == came + "." else t == came
  {
    if Target(data).Some? && Dotted(Target(data).value) {
      var t := Target(data).value;
      assert t == t[..|t| - 1] + ".";
    }
  }

  lemma StripEnsured(t: string)
    ensures StripDot(EnsureFqdn(t)) == StripDot(t)
  {
    if !Dotted(t) {
      assert (t + ".")[..|t|] == t;
    }
  }

  lemma TargetRoundTrip(lib: Library, data: RecordData, t: string)
    requires Target(data) == Some(t) && NamesParse(lib, data)
    ensures FromRdata(lib, ToRdata(lib, data).value) == Some(Carried(lib, data))
  {
    StripEnsured(t);
  }

  /** Everything but a SOA comes back as `Carried` says, if its names parse. */
  lemma DataRoundTrip(lib: Library, data: RecordData)
    requires NamesParse(lib, data)
    ensures FromRdata(lib, ToRdata(lib, data).value) == if data.Soa? then None else Some(Carried(lib, data))
  {
    if Target(data).Some? {
      TargetRoundTrip(lib, data, Target(data).value);
    } else if data.Txt? {
      ConcatOne(data.text);
    }
  }

  /** Exactly the records a transfer brings over unchanged. */
  lemma CarriedUnchanged(lib: Library, data: RecordData)
    ensures Carried(lib, data) == data <==>
            match data
            case Cname(t) => !Dotted(t)
            case Mx(_, t) => !Dotted(t)
            case Ns(t) => !Dotted(t)
            case Ptr(t) => !Dotted(t)
            case Srv(_, _, _, t) => !Dotted(t)
            case Caa(flags, tag, value) =>
              flags in {0, 0x80} && tag == "issue" && lib.issuer(ParseName(lib, value)) == value
            case _ => true
  {
  }

  /** Nothing else says the same: the rdata sent is the only one that encodes the data. */
  lemma EncodingIsExact(lib: Library, data: RecordData, rdata: Rdata)
    requires NamesParse(lib, data)
    ensures ToRdata(lib, data) == Some(rdata) <==> Encodes(lib, data, rdata)
  {
    if Encodes(lib, data, rdata) && data.Soa? {
      var sent := ToRdata(lib, data).value;
      assert sent.refresh == rdata.refresh && sent.retry == rdata.retry && sent.expire == rdata.expire;
    }
  }

  /** The zone's own SOA record: its name, its default TTL and its SOA fields. */
  function SoaAnswer(lib: Library, zone: Zone): (a: Option<Answer>)
    ensures a.Some? <==> lib.parses(EnsureFqdn(zone.name)) && NamesParse(lib, Soa(zone.soa))
    ensures a.Some? ==> Spells(zone.name, a.value.name) && a.value.ttl == zone.defaultTtl
  {
    var rdata := ToRdata(lib, Soa(zone.soa));
    if lib.parses(EnsureFqdn(zone.name)) && rdata.Some?
    then Some(Answer(EnsureFqdn(zone.name), zone.defaultTtl, rdata.value))
    else None
  }

  /** How a secondary reads a SOA answer. */
  function ReadSoa(rdata: Rdata): SoaData
    requires rdata.RdSoa?
  {
    SoaData(TrimDots(rdata.mname), TrimDots(rdata.rname), rdata.serial,
            AsU32(rdata.refresh), AsU32(rdata.retry), AsU32(rdata.expire), rdata.minimum)
  }

  lemma TrimEnsured(t: string)
    ensures TrimDots(EnsureFqdn(t)) == TrimDots(t)
  {
  }

  /** Every SOA field survives, timers of 2^31 and more included, names up to trailing dots. */
  lemma SoaRoundTrip(lib: Library, zone: Zone)
    requires lib.parses(EnsureFqdn(zone.name)) && NamesParse(lib, Soa(zone.soa))
    ensures var a := SoaAnswer(lib, zone).value;
            && a.rdata.RdSoa? && a.ttl == zone.defaultTtl
            && ReadSoa(a.rdata) == zone.soa.(mname := TrimDots(zone.soa.mname), rname := TrimDots(zone.soa.rname))
  {
    var soa, rdata := zone.soa, SoaAnswer(lib, zone).value.rdata;
    SoaFields(lib, soa, rdata);
    TrimSpelled(soa.mname, rdata.mname);
    TrimSpelled(soa.rname, rdata.rname);
  }

  lemma SoaFields(lib: Library, soa: SoaData, rdata: Rdata)
    requires ToRdata(lib, Soa(soa)) == Some(rdata)
    ensures Encodes(lib, Soa(soa), rdata)
  {
    EncodingIsExact(lib, Soa(soa), rdata);
  }

  lemma TrimSpelled(stored: string, sent: string)
    requires Spells(stored, sent)
    ensures TrimDots(sent) == TrimDots(stored)
  {
    TrimEnsured(stored);
  }

  lemma KindKept(lib: Library, data: RecordData)
    requires NamesParse(lib, data)
    ensures var rdata := ToRdata(lib, data).value; (rdata.RdSoa? <==> data.Soa?) && !rdata.RdMissing?
  {
  }

  /** A record whose names parse arrives under its own name, TTL and carried data. */
  lemma RecordRoundTrip(lib: Library, r: Record, zone: string)
    requires NormalZone(zone) && lib.parses(OwnerName(r.name, zone)) && NamesParse(lib, r.data)
    ensures var a := ToAnswer(lib, r, zone).value;
            && (a.rdata.RdSoa? <==> r.data.Soa?) && !a.rdata.RdMissing?
            && FromAnswer(lib, a, zone) ==
                if r.data.Soa? then None else Some(Entry(r.name, Carried(lib, r.data), r.ttl))
  {
    var a := ToAnswer(lib, r, zone).value;
    assert a == Answer(OwnerName(r.name, zone), r.ttl, ToRdata(lib, r.data).value);
    KindKept(lib, r.data);
    OwnerRoundTrip(r.name, zone);
    DataRoundTrip(lib, r.data);
  }
}
