/**
 The zone serial: how a change bumps it, and how a secondary compares two of them
 (section 3.2 of RFC 1982).
 */
module Serial {
  import opened Text
  import opened Types

  const U32_MAX: u32 := 0xffff_ffff
  const MODULUS: int := 0x1_0000_0000
  const HALF: int := 0x8000_0000

  /** The number YYYYMMDD00 of a date. */
  function Stamp(year: nat, month: nat, day: nat): nat {
    year * 1000000 + month * 10000 + day * 100
  }

  /** A later day has a later number, with room for a hundred changes a day. */
  lemma StampsFollowDays(y: nat, m: nat, d: nat, y': nat, m': nat, d': nat)
    requires m <= 12 && d <= 31 && m' <= 12 && d' <= 31
    ensures Stamp(y, m, d) + 100 <= Stamp(y', m', d') <==> y < y' || (y == y' && (m < m' || (m == m' && d < d')))
  {
  }

  function WrappingInc(s: u32): u32 {
    (s + 1) % MODULUS
  }

  /**
   The serial after one change on the day with this stamp.  A stamp that does not
   fit 32 bits falls back to the next serial; the additions wrap.
   */
  function Bump(serial: u32, stamp: nat): u32 {
    var base: u32 := if stamp <= U32_MAX then stamp else WrappingInc(serial);
    if serial >= base then WrappingInc(serial) else base
  }

  /** A bump goes to the least serial above the old one and not below the day's; just one up if the day's is too big. */
  lemma BumpIsLeast(serial: u32, stamp: nat, s: u32)
    requires serial < U32_MAX
    ensures var next := Bump(serial, stamp);
            if stamp > U32_MAX then next == serial + 1
            else next > serial && next >= stamp && (s > serial && s >= stamp ==> next <= s)
  {
  }

  /** Whatever the date, even one that went backwards, a bump increases the serial unless it is at its maximum. */
  lemma BumpIncreases(serial: u32, stamp: nat)
    ensures Bump(serial, stamp) > serial <==> serial < U32_MAX
  {
  }

  /** The serials of a zone through a sequence of changes, one stamp each. */
  function Versions(serial: u32, stamps: seq<nat>): (vs: seq<u32>)
    ensures |vs| == |stamps| + 1
    ensures vs[0] == serial
    decreases |stamps|
  {
    if stamps == [] then [serial] else [serial] + Versions(Bump(serial, stamps[0]), stamps[1..])
  }

  lemma VersionsTail(serial: u32, stamps: seq<nat>)
    requires stamps != []
    ensures var rest := Versions(Bump(serial, stamps[0]), stamps[1..]);
            forall k :: 0 <= k < |rest| ==> Versions(serial, stamps)[k + 1] == rest[k]
  {
  }

  /** Until the maximum is reached, versions have strictly increasing serials. */
  lemma {:induction false} VersionsIncrease(serial: u32, stamps: seq<nat>, i: nat, j: nat)
    requires i < j <= |stamps|
    requires forall k :: 0 <= k < j ==> Versions(serial, stamps)[k] < U32_MAX
    ensures Versions(serial, stamps)[i] < Versions(serial, stamps)[j]
    decreases |stamps|
  {
    VersionsTail(serial, stamps);
    var rest := Versions(Bump(serial, stamps[0]), stamps[1..]);
    BumpIncreases(serial, stamps[0]);
    if i > 0 {
      VersionsIncrease(rest[0], stamps[1..], i - 1, j - 1);
    } else if j > 1 {
      VersionsIncrease(rest[0], stamps[1..], 0, j - 1);
    }
  }

  // --- Comparing serials ---

  /** How far `a` is ahead of `b`, going around the 32-bit circle. */
  function Ahead(a: u32, b: u32): (d: u32) {
    (a - b) % MODULUS
  }

  predicate IsNewer(candidate: u32, current: u32) {
    candidate != current && Ahead(candidate, current) < HALF
  }

  lemma NewerIsAsymmetric(a: u32, b: u32)
    requires IsNewer(a, b)
    ensures !IsNewer(b, a)
  {
  }

  lemma AheadBothWays(a: u32, b: u32)
    ensures Ahead(a, b) == if a >= b then a - b else a - b + MODULUS
  {
  }

  /** Newer is transitive exactly on triples that span less than half the circle. */
  lemma NewerIsTransitiveInAWindow(a: u32, b: u32, c: u32)
    requires IsNewer(a, b) && IsNewer(b, c)
    ensures IsNewer(a, c) <==> Ahead(a, b) + Ahead(b, c) < HALF
  {
  }

  /** A bump is newer, unless the date jumps the serial by half the circle or more. */
  lemma BumpIsNewer(serial: u32, stamp: nat)
    ensures IsNewer(Bump(serial, stamp), serial) <==> !(HALF <= stamp - serial && stamp <= U32_MAX)
    ensures stamp < HALF ==> IsNewer(Bump(serial, stamp), serial)
  {
  }

  /** The first bump of a zone at serial 1 in the year 2148 makes it look older. */
  lemma FarDateLooksOlder()
    ensures !IsNewer(Bump(1, Stamp(2148, 1, 1)), 1) && IsNewer(1, Bump(1, Stamp(2148, 1, 1)))
  {
    assert Stamp(2148, 1, 1) == 2148010100;
    BumpIsNewer(1, Stamp(2148, 1, 1));
    AheadBothWays(1, Bump(1, Stamp(2148, 1, 1)));
  }

  // --- What a secondary decides from two serials ---

  datatype Decision = FirstCopy | Current | Backwards | Newer

  /** The outcome of comparing the local serial, if any, with the primary's. */
  function Check(local: Option<u32>, remote: u32): Decision {
    if local.None? then FirstCopy
    else if local.value == remote then Current
    else if !IsNewer(remote, local.value) then Backwards
    else Newer
  }

  /**
   A secondary that holds version `i` of a zone whose primary is at version `j`
   skips the transfer exactly when it holds that very version, and takes the
   primary for older only when the two serials are half the circle apart.
   */
  lemma CheckIsRight(serial: u32, stamps: seq<nat>, i: nat, j: nat)
    requires i <= j <= |stamps|
    requires forall k :: 0 <= k < j ==> Versions(serial, stamps)[k] < U32_MAX
    ensures var vs := Versions(serial, stamps);
            && (Check(Some(vs[i]), vs[j]) == Current <==> i == j)
            && (Check(Some(vs[i]), vs[j]) == Backwards <==> vs[j] - vs[i] >= HALF)
  {
    var vs := Versions(serial, stamps);
    if i < j {
      VersionsIncrease(serial, stamps, i, j);
    }
    AheadBothWays(vs[j], vs[i]);
  }
}
