/**
 The name filter of the mDNS source.  `*` stands for any run of characters; the
 matcher takes the leftmost match of every literal.  Its reference is the language
 of the pattern, defined character by character.
 */
module Glob {
  import opened Text

  // --- The language of a pattern ---

  ghost predicate Matches(pattern: string, name: string)
    decreases |pattern|
  {
    if pattern == "" then name == ""
    else if pattern[0] == '*' then exists i :: 0 <= i <= |name| && Matches(pattern[1..], name[i..])
    else name != "" && name[0] == pattern[0] && Matches(pattern[1..], name[1..])
  }

  /** `p` occurs in `s` at position `i`. */
  predicate At(s: string, p: string, i: nat) {
    i + |p| <= |s| && s[i..i + |p|] == p
  }

  /** The same language on the literals between the stars. */
  ghost predicate Spells(parts: seq<string>, name: string)
    requires parts != []
  {
    At(name, parts[0], 0) && Gaps(parts[1..], name[|parts[0]|..])
  }

  /** The literals follow in order, any gap before each, and nothing after the last. */
  ghost predicate Gaps(parts: seq<string>, rest: string)
    decreases |parts|
  {
    if parts == [] then rest == ""
    else exists i: nat :: At(rest, parts[0], i) && Gaps(parts[1..], rest[i + |parts[0]|..])
  }

  /** With a gap of `i` characters before the next literal. */
  ghost predicate GapAt(p: string, more: seq<string>, rest: string, i: nat) {
    At(rest, p, i) && Gaps(more, rest[i + |p|..])
  }

  lemma GapsCons(parts: seq<string>, p: string, more: seq<string>, rest: string)
    requires parts == [p] + more
    ensures Gaps(parts, rest) <==> exists i: nat :: GapAt(p, more, rest, i)
  {
    assert parts[0] == p && parts[1..] == more;
    if Gaps(parts, rest) {
      var i: nat :| At(rest, p, i) && Gaps(more, rest[i + |p|..]);
      assert GapAt(p, more, rest, i);
    }
    if i: nat :| GapAt(p, more, rest, i) {
      assert At(rest, p, i);
    }
  }

  lemma SplitCons(c: char, s: string, sep: char)
    ensures c == sep ==> Split([c] + s, sep) == [""] + Split(s, sep)
    ensures c != sep ==> Split([c] + s, sep) == [[c] + Split(s, sep)[0]] + Split(s, sep)[1..]
  {
    if c == sep {
      assert [c] + s == "" + [sep] + s;
      SplitHead("", s, sep);
    } else if sep in s {
      var i := IndexOf(s, sep);
      assert [c] + s == ([c] + s[..i]) + [sep] + s[i + 1..];
      SplitHead([c] + s[..i], s[i + 1..], sep);
    }
  }

  lemma GapAtIsSpells(parts: seq<string>, rest: string, i: nat)
    requires parts != [] && i <= |rest|
    ensures GapAt(parts[0], parts[1..], rest, i) <==> Spells(parts, rest[i..])
  {
  }

  lemma SpellsCons(c: char, parts: seq<string>, name: string)
    requires parts != []
    ensures Spells([[c] + parts[0]] + parts[1..], name) <==> name != "" && name[0] == c && Spells(parts, name[1..])
  {
  }

  lemma {:induction false} MatchesIsSpells(pattern: string, name: string)
    ensures Matches(pattern, name) <==> Spells(Split(pattern, '*'), name)
    decreases |pattern|
  {
    if pattern != "" {
      var rest := pattern[1..];
      var parts := Split(rest, '*');
      assert pattern == [pattern[0]] + rest;
      SplitCons(pattern[0], rest, '*');
      if pattern[0] == '*' {
        assert Split(pattern, '*')[1..] == parts && name[0..] == name;
        assert parts == [parts[0]] + parts[1..];
        GapsCons(parts, parts[0], parts[1..], name);
        forall i: nat | i <= |name|
          ensures Matches(rest, name[i..]) <==> GapAt(parts[0], parts[1..], name, i)
        {
          MatchesIsSpells(rest, name[i..]);
          GapAtIsSpells(parts, name, i);
        }
      } else {
        SpellsCons(pattern[0], parts, name);
        if name != "" {
          MatchesIsSpells(rest, name[1..]);
        }
      }
    }
  }

  // --- The greedy matcher ---

  /** Position of the leftmost occurrence of `p` in `s` from `i` on. */
  function FindFrom(s: string, p: string, i: nat): (r: Option<nat>)
    requires i <= |s|
    ensures r.Some? ==> i <= r.value && At(s, p, r.value)
    ensures r.Some? ==> forall k: nat :: i <= k < r.value ==> !At(s, p, k)
    ensures r.None? ==> forall k: nat :: i <= k ==> !At(s, p, k)
    decreases |s| - i
  {
    if At(s, p, i) then Some(i) else if i == |s| then None else FindFrom(s, p, i + 1)
  }

  function Find(s: string, p: string): (r: Option<nat>) {
    FindFrom(s, p, 0)
  }

  /** What is left after the literals are matched leftmost, one after the other. */
  function Scan(parts: seq<string>, rest: string): (left: Option<string>)
    decreases |parts|
  {
    if parts == [] then Some(rest)
    else if parts[0] == "" then Scan(parts[1..], rest)
    else
      var at := Find(rest, parts[0]);
      if at.None? then None else Scan(parts[1..], rest[at.value + |parts[0]|..])
  }

  function GreedyMatch(pattern: string, name: string): bool {
    var parts := Split(Lower(pattern), '*');
    && At(name, parts[0], 0)
    && var left := Scan(parts[1..], name[|parts[0]|..]);
       && left.Some?
       && ((|parts| > 1 && parts[|parts| - 1] == "") || left.value == "")
  }

  /** The matching loop: `rest` shrinks literal by literal, and the last literal seen is remembered. */
  method ScanLiterals(parts: seq<string>, start: string) returns (left: Option<string>, last: Option<string>)
    ensures left == Scan(parts, start)
    ensures left.Some? ==> last == if parts == [] then None else Some(parts[|parts| - 1])
  {
    var rest := start;
    last := None;
    for i := 0 to |parts|
      invariant Scan(parts, start) == Scan(parts[i..], rest)
      invariant last == if i == 0 then None else Some(parts[i - 1])
    {
      last := Some(parts[i]);
      assert parts[i..][1..] == parts[i + 1..];
      if parts[i] == "" {
        continue;
      }
      var at := Find(rest, parts[i]);
      if at.None? {
        return None, last;
      }
      rest := rest[at.value + |parts[i]|..];
    }
    left := Some(rest);
  }

  /** Sound for every pattern, and exact for those without a star or with one at the end. */
  method GlobMatch(pattern: string, name: string) returns (b: bool)
    ensures b == GreedyMatch(pattern, name)
    ensures b ==> Matches(Lower(pattern), name)
    ensures Exact(pattern) ==> (b <==> Matches(Lower(pattern), name))
  {
    GlobIsRightUnlessMissed(pattern, name);
    ExactPatternsMissNothing(pattern, name);
    var parts := Split(Lower(pattern), '*');
    if !At(name, parts[0], 0) {
      return false;
    }
    var left, last := ScanLiterals(parts[1..], name[|parts[0]|..]);
    b := left.Some? && ((last.Some? && last.value == "") || left.value == "");
  }

  // --- Greedy matching against the language ---

  /** A larger first gap never hurts. */
  lemma GapsWiden(parts: seq<string>, rest: string, k: nat)
    requires parts != [] && k <= |rest| && Gaps(parts, rest[k..])
    ensures Gaps(parts, rest)
  {
    var p, more := parts[0], parts[1..];
    assert parts == [p] + more;
    GapsCons(parts, p, more, rest);
    GapsCons(parts, p, more, rest[k..]);
    var i: nat :| GapAt(p, more, rest[k..], i);
    assert rest[k..][i..i + |p|] == rest[k + i..k + i + |p|];
    assert rest[k..][i + |p|..] == rest[k + i + |p|..];
    assert GapAt(p, more, rest, k + i);
  }

  lemma LastGap(tail: string, rest: string)
    ensures Gaps([tail], rest) <==> EndsWith(rest, tail)
  {
    assert [tail] == [tail] + [];
    GapsCons([tail], tail, [], rest);
    forall i: nat | GapAt(tail, [], rest, i)
      ensures EndsWith(rest, tail)
    {
      assert rest[i..i + |tail|] == rest[|rest| - |tail|..];
    }
    if EndsWith(rest, tail) {
      assert GapAt(tail, [], rest, |rest| - |tail|);
    }
  }

  /** An empty literal matches where it stands, so it needs no case of its own. */
  lemma ScanStep(p: string, more: seq<string>, rest: string)
    ensures Scan([p] + more, rest) ==
            if Find(rest, p).None? then None else Scan(more, rest[Find(rest, p).value + |p|..])
  {
  }

  /** With literals to follow, the leftmost place for the first is as good as any. */
  lemma GapsStep(p: string, more: seq<string>, rest: string)
    requires more != []
    ensures Gaps([p] + more, rest) <==> Find(rest, p).Some? && Gaps(more, rest[Find(rest, p).value + |p|..])
  {
    var at := Find(rest, p);
    GapsCons([p] + more, p, more, rest);
    forall i: nat | GapAt(p, more, rest, i)
      ensures at.Some? && Gaps(more, rest[at.value + |p|..])
    {
      var k := i - at.value;
      assert rest[at.value + |p|..][k..] == rest[i + |p|..];
      GapsWiden(more, rest[at.value + |p|..], k);
    }
    if at.Some? && Gaps(more, rest[at.value + |p|..]) {
      assert GapAt(p, more, rest, at.value);
    }
  }

  /** Leftmost matching of all literals but the last loses nothing. */
  lemma {:induction false} GreedyIsOptimal(mid: seq<string>, tail: string, rest: string)
    ensures Gaps(mid + [tail], rest) <==> Scan(mid, rest).Some? && EndsWith(Scan(mid, rest).value, tail)
    decreases |mid|
  {
    if mid == [] {
      assert mid + [tail] == [tail];
      LastGap(tail, rest);
    } else {
      var p, more := mid[0], mid[1..];
      assert mid == [p] + more && mid + [tail] == [p] + (more + [tail]);
      GapsStep(p, more + [tail], rest);
      ScanStep(p, more, rest);
      if Find(rest, p).Some? {
        GreedyIsOptimal(more, tail, rest[Find(rest, p).value + |p|..]);
      }
    }
  }

  lemma {:induction false} ScanAppend(mid: seq<string>, tail: string, rest: string)
    ensures Scan(mid + [tail], rest) == if Scan(mid, rest).None? then None else Scan([tail], Scan(mid, rest).value)
    decreases |mid|
  {
    if mid == [] {
      assert mid + [tail] == [tail];
    } else {
      var p, more := mid[0], mid[1..];
      assert mid == [p] + more && mid + [tail] == [p] + (more + [tail]);
      ScanStep(p, more + [tail], rest);
      ScanStep(p, more, rest);
      if Find(rest, p).Some? {
        ScanAppend(more, tail, rest[Find(rest, p).value + |p|..]);
      }
    }
  }

  /** The last literal ends what the earlier ones leave, but also occurs before that end. */
  predicate MissedTail(tail: string, left: string) {
    tail != "" && EndsWith(left, tail) && Find(left, tail).Some? && Find(left, tail).value + |tail| < |left|
  }

  predicate Missed(pattern: string, name: string) {
    var parts := Split(Lower(pattern), '*');
    && |parts| > 1
    && At(name, parts[0], 0)
    && var left := Scan(parts[1..|parts| - 1], name[|parts[0]|..]);
       left.Some? && MissedTail(parts[|parts| - 1], left.value)
  }

  lemma TailIsRightUnlessMissed(tail: string, left: string)
    ensures var end := Scan([tail], left);
            && (end.Some? && (tail == "" || end.value == "") ==> EndsWith(left, tail))
            && ((end.Some? && (tail == "" || end.value == "")) == EndsWith(left, tail) <==> !MissedTail(tail, left))
  {
    assert [tail][1..] == [];
    if EndsWith(left, tail) {
      assert At(left, tail, |left| - |tail|);
    }
    if Find(left, tail).Some? && Find(left, tail).value + |tail| == |left| {
      assert left[|left| - |tail|..] == tail;
    }
  }

  /** The matcher accepts only names of the language, and decides it rightly exactly when no tail is missed. */
  lemma GlobIsRightUnlessMissed(pattern: string, name: string)
    ensures GreedyMatch(pattern, name) ==> Matches(Lower(pattern), name)
    ensures GreedyMatch(pattern, name) == Matches(Lower(pattern), name) <==> !Missed(pattern, name)
  {
    var parts := Split(Lower(pattern), '*');
    MatchesIsSpells(Lower(pattern), name);
    if |parts| > 1 && At(name, parts[0], 0) {
      var mid, tail, rest := parts[1..|parts| - 1], parts[|parts| - 1], name[|parts[0]|..];
      assert parts[1..] == mid + [tail];
      GreedyIsOptimal(mid, tail, rest);
      ScanAppend(mid, tail, rest);
      if Scan(mid, rest).Some? {
        TailIsRightUnlessMissed(tail, Scan(mid, rest).value);
      }
    }
  }

  // --- The patterns the matcher is exact for ---

  /** The pattern has no star, or ends in one. */
  predicate Exact(pattern: string) {
    '*' !in pattern || pattern[|pattern| - 1] == '*'
  }

  lemma LowerKeepsStars(pattern: string)
    ensures Exact(Lower(pattern)) <==> Exact(pattern)
  {
  }

  lemma ExactOnParts(s: string)
    ensures Exact(s) <==> |Split(s, '*')| == 1 || Split(s, '*')[|Split(s, '*')| - 1] == ""
  {
  }

  lemma ExactPatternsMissNothing(pattern: string, name: string)
    ensures Exact(pattern) ==> !Missed(pattern, name)
  {
    LowerKeepsStars(pattern);
    ExactOnParts(Lower(pattern));
  }

  function Cat(parts: seq<string>): string {
    if parts == [] then "" else parts[0] + Cat(parts[1..])
  }

  lemma {:induction false} ScanOfCat(parts: seq<string>, end: string)
    ensures Scan(parts, Cat(parts) + end) == Some(end)
    decreases |parts|
  {
    if parts != [] {
      var p, rest := parts[0], Cat(parts[1..]) + end;
      assert parts == [p] + parts[1..];
      assert Cat(parts) + end == p + rest;
      assert At(p + rest, p, 0);
      assert Find(p + rest, p) == Some(0);
      assert (p + rest)[0 + |p|..] == rest;
      ScanStep(p, parts[1..], p + rest);
      ScanOfCat(parts[1..], end);
    } else {
      assert Cat(parts) + end == end;
    }
  }

  /** All literals, with the last one twice: the greedy search stops one too early. */
  lemma DoubledTailIsMissed(mid: seq<string>, tail: string)
    requires tail != ""
    ensures Scan(mid, Cat(mid) + (tail + tail)) == Some(tail + tail) && MissedTail(tail, tail + tail)
  {
    ScanOfCat(mid, tail + tail);
    assert (tail + tail)[|tail|..] == tail;
    assert At(tail + tail, tail, 0);
  }

  /** Any other pattern misses a name of its language: all its literals, with the last one twice. */
  lemma OtherPatternsMiss(pattern: string) returns (name: string)
    requires !Exact(pattern)
    ensures Missed(pattern, name)
  {
    LowerKeepsStars(pattern);
    ExactOnParts(Lower(pattern));
    var parts := Split(Lower(pattern), '*');
    var mid, tail := parts[1..|parts| - 1], parts[|parts| - 1];
    DoubledTailIsMissed(mid, tail);
    name := parts[0] + (Cat(mid) + (tail + tail));
    assert name[|parts[0]|..] == Cat(mid) + (tail + tail);
    assert At(name, parts[0], 0);
  }

  /** The matcher decides a pattern for every name if and only if the pattern has no star or ends in one. */
  lemma ExactPatterns(pattern: string)
    ensures Exact(pattern) <==> forall name :: GreedyMatch(pattern, name) == Matches(Lower(pattern), name)
  {
    if Exact(pattern) {
      forall name
        ensures GreedyMatch(pattern, name) == Matches(Lower(pattern), name)
      {
        ExactPatternsMissNothing(pattern, name);
        GlobIsRightUnlessMissed(pattern, name);
      }
    } else {
      var name := OtherPatternsMiss(pattern);
      GlobIsRightUnlessMissed(pattern, name);
    }
  }

  // --- The filter ---

  /** A name passes if some `allow` pattern takes it, or there are none, and no `deny` pattern does. */
  method Permits(allow: seq<string>, deny: seq<string>, name: string) returns (b: bool)
    ensures b <==> (allow == [] || exists i :: 0 <= i < |allow| && GreedyMatch(allow[i], Lower(name)))
                   && forall i :: 0 <= i < |deny| ==> !GreedyMatch(deny[i], Lower(name))
    ensures b && (forall i :: 0 <= i < |deny| ==> Exact(deny[i])) ==>
              forall i :: 0 <= i < |deny| ==> !Matches(Lower(deny[i]), Lower(name))
  {
    var low := Lower(name);
    if allow != [] {
      var any := AnyMatch(allow, low);
      if !any {
        return false;
      }
    }
    var denied := AnyMatch(deny, low);
    b := !denied;
    forall i | 0 <= i < |deny| && Exact(deny[i])
      ensures GreedyMatch(deny[i], low) == Matches(Lower(deny[i]), low)
    {
      ExactPatterns(deny[i]);
    }
  }

  method AnyMatch(patterns: seq<string>, name: string) returns (b: bool)
    ensures b <==> exists i :: 0 <= i < |patterns| && GreedyMatch(patterns[i], name)
  {
    for i := 0 to |patterns|
      invariant forall j :: 0 <= j < i ==> !GreedyMatch(patterns[j], name)
    {
      var m := GlobMatch(patterns[i], name);
      if m {
        return true;
      }
    }
    b := false;
  }
}
