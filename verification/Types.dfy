/**
 The stored entities.  Timestamps that no modelled decision reads are left out,
 and a UUID is any non-empty string free of the two separators the index uses.
 */
module Types {
  import opened Text

  type u8 = x: int | 0 <= x < 0x100
  type u16 = x: int | 0 <= x < 0x1_0000
  type u32 = x: int | 0 <= x < 0x1_0000_0000

  predicate IsUuid(s: string) {
    s != "" && ',' !in s && ':' !in s
  }

  type Uuid = s: string | IsUuid(s) witness "0"

  /** A new random identifier: never one that is already in use. */
  method NewUuid(used: set<string>) returns (id: Uuid)
    ensures id !in used
  {
    id := "0";
    ghost var tried: set<string> := {};
    while id in used
      invariant tried <= used
      invariant forall t :: t in tried ==> |t| < |id|
      decreases used - tried
    {
      tried := tried + {id};
      id := id + "0";
    }
  }

  datatype RecordType = A | AAAA | CNAME | MX | NS | PTR | SOA | SRV | TXT | CAA

  function TypeName(t: RecordType): (s: string)
    ensures ':' !in s
  {
    match t
    case A => "A"
    case AAAA => "AAAA"
    case CNAME => "CNAME"
    case MX => "MX"
    case NS => "NS"
    case PTR => "PTR"
    case SOA => "SOA"
    case SRV => "SRV"
    case TXT => "TXT"
    case CAA => "CAA"
  }

  datatype Ipv4 = Ipv4(a: u8, b: u8, c: u8, d: u8)

  /** Eight 16-bit segments. */
  type Ipv6 = s: seq<u16> | |s| == 8 witness [0, 0, 0, 0, 0, 0, 0, 0]

  datatype SoaData = SoaData(mname: string, rname: string, serial: u32, refresh: u32, retry: u32, expire: u32,
                             minimum: u32)

  datatype RecordData =
    | Addr4(v4: Ipv4)
    | Addr6(v6: Ipv6)
    | Cname(target: string)
    | Mx(preference: u16, exchange: string)
    | Ns(target: string)
    | Ptr(target: string)
    | Soa(soa: SoaData)
    | Srv(priority: u16, weight: u16, port: u16, target: string)
    | Txt(text: string)
    | Caa(flags: u8, tag: string, value: string)
  {
    function Type(): RecordType {
      match this
      case Addr4(_) => A
      case Addr6(_) => AAAA
      case Cname(_) => CNAME
      case Mx(_, _) => MX
      case Ns(_) => NS
      case Ptr(_) => PTR
      case Soa(_) => SOA
      case Srv(_, _, _, _) => SRV
      case Txt(_) => TXT
      case Caa(_, _, _) => CAA
    }
  }

  datatype RecordSource = Manual | Dhcp | Mdns | K8s

  datatype HealthCheck = HealthCheck(unhealthyThreshold: u32, healthyThreshold: u32)

  datatype Record = Record(
    id: Uuid,
    zoneId: Uuid,
    name: string,
    ttl: u32,
    data: RecordData,
    enabled: bool,
    healthCheck: Option<HealthCheck>,
    source: RecordSource,
    origin: Option<string>)

  datatype Zone = Zone(id: Uuid, name: string, soa: SoaData, defaultTtl: u32)

  datatype HealthStatus = Unknown | Healthy | Unhealthy

  /** A row of the table that lets health survive a restart. */
  datatype PersistedHealth = PersistedHealth(
    recordId: Uuid,
    status: HealthStatus,
    lastCheckedAt: nat,
    lastStateChangeAt: nat,
    lastHealthyAt: Option<nat>,
    consecutiveSuccesses: u32,
    consecutiveFailures: u32)

  /** What a discovery source wants a zone to hold. */
  datatype DesiredRecord = DesiredRecord(name: string, ttl: u32, data: RecordData)

  datatype Error = RecordNotFound(id: string) | ZoneNotFound(id: string) | DuplicateZone(name: string)

  datatype Outcome = Ok | Err(error: Error)
}
