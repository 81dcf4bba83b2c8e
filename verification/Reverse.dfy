/**
 Reverse names.  An IPv4 address lives in its /24 zone under its last octet, an
 IPv6 address in its /64 zone under its last sixteen nibbles.  No two addresses
 share both names.
 */
module Reverse {
  import opened Text
  import opened Types
  import opened Names
  import Wire

  datatype Ip = V4(v4: Ipv4) | V6(v6: Ipv6)

  /** One hexadecimal digit, in lower case. */
  function Digit(n: nat): (d: string)
    requires n < 16
    ensures |d| == 1 && d[0] != '.'
  {
    if n < 10 then ['0' + n as char] else ['a' + (n - 10) as char]
  }

  /** An octet in decimal, without leading zeros. */
  function Decimal(n: u8): string {
    if n < 10 then Digit(n)
    else if n < 100 then Digit(n / 10) + Digit(n % 10)
    else Digit(n / 100) + Digit(n / 10 % 10) + Digit(n % 10)
  }

  /** A 16-bit segment as four hexadecimal digits. */
  function SegmentNibbles(s: u16): seq<nat> {
    [s / 0x1000 % 16, s / 0x100 % 16, s / 0x10 % 16, s % 16]
  }

  /** All 32 digits of an address, most significant first. */
  function Nibbles(ip: Ipv6): (r: seq<string>)
    ensures |r| == 32
  {
    seq(32, k requires 0 <= k < 32 => Digit(SegmentNibbles(ip[k / 4])[k % 4]))
  }

  function Reversed<T>(s: seq<T>): (r: seq<T>)
    ensures |r| == |s| && forall i :: 0 <= i < |s| ==> r[i] == s[|s| - 1 - i]
  {
    seq(|s|, i requires 0 <= i < |s| => s[|s| - 1 - i])
  }

  function V4Zone(a: Ipv4, root: string): string {
    Decimal(a.c) + "." + (Decimal(a.b) + "." + (Decimal(a.a) + "." + root))
  }

  function V6Zone(a: Ipv6, root: string): string {
    Join(Reversed(Nibbles(a)[..16]), '.') + "." + root
  }

  function ZoneName(ip: Ip): string {
    match ip
    case V4(a) => V4Zone(a, "in-addr.arpa")
    case V6(a) => V6Zone(a, "ip6.arpa")
  }

  function PtrName(ip: Ip): string {
    match ip
    case V4(a) => Decimal(a.d)
    case V6(a) => Join(Reversed(Nibbles(a)[16..]), '.')
  }

  /** The name a PTR record points at. */
  function PtrTarget(name: string, zone: string): string {
    if name == "@" then TrimDots(zone) + "." else name + "." + TrimDots(zone) + "."
  }

  // --- The names determine the address ---

  lemma DigitInjective(m: nat, n: nat)
    requires m < 16 && n < 16 && Digit(m) == Digit(n)
    ensures m == n
  {
  }

  /** The digits of an octet: how many there are, and which. */
  lemma DecimalDigits(n: u8)
    ensures var s := Decimal(n);
            && '.' !in s
            && |s| == (if n < 10 then 1 else if n < 100 then 2 else 3)
            && [s[|s| - 1]] == Digit(n % 10)
            && (n >= 10 ==> [s[|s| - 2]] == Digit(n / 10 % 10))
            && (n >= 100 ==> [s[0]] == Digit(n / 100))
  {
  }

  lemma DecimalInjective(m: u8, n: u8)
    requires Decimal(m) == Decimal(n)
    ensures m == n
  {
    DecimalDigits(m);
    DecimalDigits(n);
    DigitInjective(m % 10, n % 10);
    if m >= 10 {
      DigitInjective(m / 10 % 10, n / 10 % 10);
    }
    if m >= 100 {
      DigitInjective(m / 100, n / 100);
    }
    DecimalValue(m);
    DecimalValue(n);
  }

  lemma DecimalValue(n: u8)
    ensures n == 100 * (n / 100) + 10 * (n / 10 % 10) + n % 10
    ensures n < 100 ==> n / 100 == 0
    ensures n < 10 ==> n / 10 % 10 == 0
  {
  }

  /** A segment is the value of its digits. */
  lemma SegmentValue(s: u16)
    ensures var d := SegmentNibbles(s);
            s == 0x1000 * d[0] + 0x100 * d[1] + 0x10 * d[2] + d[3]
  {
    var q := s / 0x10;
    assert s / 0x100 == q / 0x10;
    assert s / 0x1000 == q / 0x10 / 0x10;
  }

  lemma SegmentInjective(s: u16, t: u16)
    requires SegmentNibbles(s) == SegmentNibbles(t)
    ensures s == t
  {
    SegmentValue(s);
    SegmentValue(t);
  }

  lemma NibbleAt(a: Ipv6, b: Ipv6, k: nat)
    requires k < 32 && Nibbles(a)[k] == Nibbles(b)[k]
    ensures SegmentNibbles(a[k / 4])[k % 4] == SegmentNibbles(b[k / 4])[k % 4]
  {
  }

  lemma SegmentAt(a: Ipv6, b: Ipv6, i: nat)
    requires i < 8 && Nibbles(a) == Nibbles(b)
    ensures a[i] == b[i]
  {
    forall j | 0 <= j < 4
      ensures SegmentNibbles(a[i])[j] == SegmentNibbles(b[i])[j]
    {
      assert (4 * i + j) / 4 == i && (4 * i + j) % 4 == j;
      NibbleAt(a, b, 4 * i + j);
    }
    SegmentInjective(a[i], b[i]);
  }

  lemma NibblesInjective(a: Ipv6, b: Ipv6)
    requires Nibbles(a) == Nibbles(b)
    ensures a == b
  {
    forall i | 0 <= i < 8
      ensures a[i] == b[i]
    {
      SegmentAt(a, b, i);
    }
  }

  lemma NibblesFree(a: Ipv6, part: seq<string>)
    requires forall s :: s in part ==> s in Nibbles(a)
    ensures Free(part, '.')
  {
    forall i | 0 <= i < |part|
      ensures '.' !in part[i]
    {
      assert part[i] in Nibbles(a);
      var k :| 0 <= k < 32 && Nibbles(a)[k] == part[i];
      assert part[i] == Digit(SegmentNibbles(a[k / 4])[k % 4]);
    }
  }

  lemma ReversedInjective<T>(a: seq<T>, b: seq<T>)
    requires Reversed(a) == Reversed(b)
    ensures a == b
  {
    assert |a| == |b|;
    forall i | 0 <= i < |a|
      ensures a[i] == b[i]
    {
      assert Reversed(a)[|a| - 1 - i] == Reversed(b)[|a| - 1 - i];
    }
  }

  lemma OneMoreLabel(head: string, rest: string, labels: seq<string>)
    requires '.' !in head && Labels(rest) == labels
    ensures Labels(head + "." + rest) == [head] + labels
  {
    SplitHead(head, rest, '.');
  }

  lemma ThreeLabels(c: string, b: string, f: string, root: string, labels: seq<string>)
    requires '.' !in c && '.' !in b && '.' !in f && Labels(root) == labels
    ensures Labels(c + "." + (b + "." + (f + "." + root))) == [c, b, f] + labels
  {
    var one, two := f + "." + root, b + "." + (f + "." + root);
    OneMoreLabel(f, root, labels);
    OneMoreLabel(b, one, [f] + labels);
    OneMoreLabel(c, two, [b] + ([f] + labels));
    assert [c] + ([b] + ([f] + labels)) == [c, b, f] + labels;
  }

  lemma V4Labels(a: Ipv4, root: string)
    ensures Labels(V4Zone(a, root)) == [Decimal(a.c), Decimal(a.b), Decimal(a.a)] + Labels(root)
  {
    DecimalDigits(a.c);
    DecimalDigits(a.b);
    DecimalDigits(a.a);
    ThreeLabels(Decimal(a.c), Decimal(a.b), Decimal(a.a), root, Labels(root));
  }

  lemma V6Labels(a: Ipv6, root: string)
    ensures Labels(V6Zone(a, root)) == Reversed(Nibbles(a)[..16]) + Labels(root)
  {
    var part := Reversed(Nibbles(a)[..16]);
    NibblesFree(a, part);
    SplitJoin(part, '.');
    SplitConcat(Join(part, '.'), root, '.');
    assert V6Zone(a, root) == Join(part, '.') + ['.'] + root;
  }

  /** The full reverse name of an IPv4 address: its octets, last first, below the root. */
  lemma V4ReverseName(a: Ipv4, root: string)
    ensures Labels(PtrName(V4(a)) + "." + V4Zone(a, root)) ==
            [Decimal(a.d), Decimal(a.c), Decimal(a.b), Decimal(a.a)] + Labels(root)
  {
    V4Labels(a, root);
    DecimalDigits(a.d);
    OneMoreLabel(Decimal(a.d), V4Zone(a, root), Labels(V4Zone(a, root)));
  }

  lemma V6PtrLabels(a: Ipv6, rest: string)
    ensures Labels(PtrName(V6(a)) + "." + rest) == Reversed(Nibbles(a)[16..]) + Labels(rest)
  {
    var part := Reversed(Nibbles(a)[16..]);
    NibblesFree(a, part);
    SplitJoin(part, '.');
    SplitConcat(Join(part, '.'), rest, '.');
    assert PtrName(V6(a)) + "." + rest == Join(part, '.') + ['.'] + rest;
  }

  /** The full reverse name of an IPv6 address: its 32 hexadecimal digits, last first, below the root. */
  lemma V6ReverseName(a: Ipv6, root: string)
    ensures Labels(PtrName(V6(a)) + "." + V6Zone(a, root)) == Reversed(Nibbles(a)) + Labels(root)
  {
    V6Labels(a, root);
    V6PtrLabels(a, V6Zone(a, root));
    assert Reversed(Nibbles(a)) == Reversed(Nibbles(a)[16..]) + Reversed(Nibbles(a)[..16]);
  }

  /** A PTR record points at the full name of its owner, from which the owner's name can be read back. */
  lemma PtrTargetIsTheOwner(name: string, zone: string)
    requires TrimDots(zone) != ""
    ensures PtrTarget(name, zone) == Wire.OwnerName(name, TrimDots(zone))
    ensures Wire.Relative(PtrTarget(name, zone), TrimDots(zone)) == Some(name)
  {
    Wire.OwnerRoundTrip(name, TrimDots(zone));
  }

  /** The two reverse trees do not meet. */
  lemma TreesAreDisjoint(a: Ipv4, b: Ipv6)
    ensures ZoneName(V4(a)) != ZoneName(V6(b))
  {
    var x, y := ZoneName(V4(a)), ZoneName(V6(b));
    assert x[|x| - 6] == 'r' && y[|y| - 6] == '6';
  }

  lemma V4ZoneInjective(a: Ipv4, b: Ipv4, root: string)
    requires V4Zone(a, root) == V4Zone(b, root)
    ensures a == b.(d := a.d)
  {
    V4Labels(a, root);
    V4Labels(b, root);
    var la, lb := Labels(V4Zone(a, root)), Labels(V4Zone(b, root));
    assert la[0] == lb[0] && la[1] == lb[1] && la[2] == lb[2];
    DecimalInjective(a.c, b.c);
    DecimalInjective(a.b, b.b);
    DecimalInjective(a.a, b.a);
  }

  lemma V6ZoneInjective(a: Ipv6, b: Ipv6, root: string)
    requires V6Zone(a, root) == V6Zone(b, root)
    ensures Nibbles(a)[..16] == Nibbles(b)[..16]
  {
    V6Labels(a, root);
    V6Labels(b, root);
    var ra, rb := Reversed(Nibbles(a)[..16]), Reversed(Nibbles(b)[..16]);
    assert ra == (ra + Labels(root))[..16] == (rb + Labels(root))[..16] == rb;
    ReversedInjective(Nibbles(a)[..16], Nibbles(b)[..16]);
  }

  lemma V6PtrInjective(a: Ipv6, b: Ipv6)
    requires PtrName(V6(a)) == PtrName(V6(b))
    ensures Nibbles(a)[16..] == Nibbles(b)[16..]
  {
    var ra, rb := Reversed(Nibbles(a)[16..]), Reversed(Nibbles(b)[16..]);
    NibblesFree(a, ra);
    NibblesFree(b, rb);
    SplitJoin(ra, '.');
    SplitJoin(rb, '.');
    ReversedInjective(Nibbles(a)[16..], Nibbles(b)[16..]);
  }

  /** The reverse zone and the PTR name together determine the address. */
  lemma ReverseInjective(x: Ip, y: Ip)
    requires ZoneName(x) == ZoneName(y) && PtrName(x) == PtrName(y)
    ensures x == y
  {
    match (x, y)
    case (V4(a), V4(b)) =>
      V4ZoneInjective(a, b, "in-addr.arpa");
      DecimalInjective(a.d, b.d);
    case (V6(a), V6(b)) =>
      V6ZoneInjective(a, b, "ip6.arpa");
      V6PtrInjective(a, b);
      assert Nibbles(a) == Nibbles(a)[..16] + Nibbles(a)[16..] == Nibbles(b);
      NibblesInjective(a, b);
    case (V4(a), V6(b)) => TreesAreDisjoint(a, b);
    case (V6(a), V4(b)) => TreesAreDisjoint(b, a);
  }
}
