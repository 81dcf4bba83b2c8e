/**
 String operations the store and the name handling are built from: splitting and
 joining on a separator, suffix and prefix tests, and the byte order in which the
 key/value store keeps its keys.  Names are ASCII.
 */
module Text {

  datatype Option<+T> = None | Some(value: T)

  // --- Splitting and joining ---

  /** Position of the first `c` in `s`. */
  function IndexOf(s: string, c: char): (i: nat)
    requires c in s
    ensures i < |s| && s[i] == c && c !in s[..i]
  {
    if s[0] == c then 0
    else
      var i := 1 + IndexOf(s[1..], c);
      assert s[..i] == [s[0]] + s[1..][..i - 1];
      i
  }

  function Split(s: string, sep: char): (parts: seq<string>)
    ensures |parts| >= 1
  {
    if sep !in s then [s]
    else
      var i := IndexOf(s, sep);
      [s[..i]] + Split(s[i + 1..], sep)
  }

  function Join(parts: seq<string>, sep: char): (s: string) {
    if parts == [] then ""
    else if |parts| == 1 then parts[0]
    else parts[0] + [sep] + Join(parts[1..], sep)
  }

  ghost predicate Free(parts: seq<string>, sep: char) {
    forall i :: 0 <= i < |parts| ==> sep !in parts[i]
  }

  /** The first separator is where a separator-free head ends. */
  lemma IndexOfHead(a: string, b: string, sep: char)
    requires sep !in a
    ensures sep in a + [sep] + b
    ensures IndexOf(a + [sep] + b, sep) == |a|
  {
    var s := a + [sep] + b;
    assert s[|a|] == sep;
    assert forall k :: 0 <= k < |a| ==> s[k] == a[k];
  }

  lemma SplitHead(a: string, b: string, sep: char)
    requires sep !in a
    ensures Split(a + [sep] + b, sep) == [a] + Split(b, sep)
  {
    var s := a + [sep] + b;
    IndexOfHead(a, b, sep);
    assert s[..|a|] == a && s[|a| + 1..] == b;
  }

  /** Splitting distributes over a separator between any two strings. */
  lemma SplitUnfold(a: string, b: string, sep: char)
    requires sep in a
    ensures var i := IndexOf(a, sep);
            Split(a + [sep] + b, sep) == [a[..i]] + Split(a[i + 1..] + [sep] + b, sep)
  {
    var i := IndexOf(a, sep);
    assert a + [sep] + b == a[..i] + [sep] + (a[i + 1..] + [sep] + b);
    SplitHead(a[..i], a[i + 1..] + [sep] + b, sep);
  }

  lemma {:induction false} SplitConcat(a: string, b: string, sep: char)
    ensures Split(a + [sep] + b, sep) == Split(a, sep) + Split(b, sep)
    decreases |a|
  {
    if sep !in a {
      SplitHead(a, b, sep);
    } else {
      var i := IndexOf(a, sep);
      calc {
        Split(a + [sep] + b, sep);
        { SplitUnfold(a, b, sep); }
        [a[..i]] + Split(a[i + 1..] + [sep] + b, sep);
        { SplitConcat(a[i + 1..], b, sep); }
        [a[..i]] + (Split(a[i + 1..], sep) + Split(b, sep));
        [a[..i]] + Split(a[i + 1..], sep) + Split(b, sep);
        Split(a, sep) + Split(b, sep);
      }
    }
  }

  lemma {:induction false} SplitIsFree(s: string, sep: char)
    ensures Free(Split(s, sep), sep)
    decreases |s|
  {
    if sep in s {
      SplitIsFree(s[IndexOf(s, sep) + 1..], sep);
    }
  }

  lemma {:induction false} JoinSplit(s: string, sep: char)
    ensures Join(Split(s, sep), sep) == s
    decreases |s|
  {
    if sep in s {
      var i := IndexOf(s, sep);
      JoinSplit(s[i + 1..], sep);
      assert Split(s, sep)[1..] == Split(s[i + 1..], sep);
      assert s == s[..i] + [sep] + s[i + 1..];
    }
  }

  lemma {:induction false} SplitJoin(parts: seq<string>, sep: char)
    requires parts != [] && Free(parts, sep)
    ensures Split(Join(parts, sep), sep) == parts
    decreases |parts|
  {
    if |parts| == 1 {
      assert parts == [parts[0]];
    } else {
      var rest := parts[1..];
      calc {
        Split(Join(parts, sep), sep);
        Split(parts[0] + [sep] + Join(rest, sep), sep);
        { SplitHead(parts[0], Join(rest, sep), sep); }
        [parts[0]] + Split(Join(rest, sep), sep);
        { SplitJoin(rest, sep); }
        [parts[0]] + rest;
        parts;
      }
    }
  }

  lemma {:induction false} JoinConcat(a: seq<string>, b: seq<string>, sep: char)
    requires a != [] && b != []
    ensures Join(a + b, sep) == Join(a, sep) + [sep] + Join(b, sep)
    decreases |a|
  {
    if |a| == 1 {
      assert (a + b)[1..] == b;
    } else {
      assert (a + b)[1..] == a[1..] + b;
      JoinConcat(a[1..], b, sep);
      assert a[0] + [sep] + (Join(a[1..], sep) + [sep] + Join(b, sep))
          == a[0] + [sep] + Join(a[1..], sep) + [sep] + Join(b, sep);
    }
  }

  // --- Suffixes ---

  predicate EndsWith(s: string, t: string) {
    |t| <= |s| && s[|s| - |t|..] == t
  }

  /** What is left of `s` once the suffix `t` is taken off. */
  function StripSuffix(s: string, t: string): (r: Option<string>)
    ensures r.Some? <==> EndsWith(s, t)
    ensures r.Some? ==> s == r.value + t
  {
    if EndsWith(s, t) then Some(s[..|s| - |t|]) else None
  }

  predicate SeqSuffix<T(==)>(t: seq<T>, s: seq<T>) {
    |t| <= |s| && s[|s| - |t|..] == t
  }

  // --- Normalising names ---

  function TrimDots(s: string): (r: string)
    ensures |r| <= |s| && r == s[..|r|]
    ensures r == "" || r[|r| - 1] != '.'
  {
    if s != "" && s[|s| - 1] == '.' then TrimDots(s[..|s| - 1]) else s
  }

  function LowerChar(c: char): char {
    if 'A' <= c <= 'Z' then (c as int + 32) as char else c
  }

  function Lower(s: string): (r: string)
    ensures |r| == |s|
    ensures forall i :: 0 <= i < |s| ==> r[i] == LowerChar(s[i])
  {
    seq(|s|, i requires 0 <= i < |s| => LowerChar(s[i]))
  }

  // --- Lists without repetition ---

  predicate NoDup<T(==)>(s: seq<T>) {
    forall i, j :: 0 <= i < j < |s| ==> s[i] != s[j]
  }

  // --- The order of keys in a table ---

  predicate LexLe(a: string, b: string) {
    if a == "" then true
    else if b == "" then false
    else a[0] < b[0] || (a[0] == b[0] && LexLe(a[1..], b[1..]))
  }

  lemma {:induction false} LexTotal(a: string, b: string)
    ensures LexLe(a, b) || LexLe(b, a)
    decreases |a|
  {
    if a != "" && b != "" && a[0] == b[0] {
      LexTotal(a[1..], b[1..]);
    }
  }

  lemma {:induction false} LexAntisymmetric(a: string, b: string)
    requires LexLe(a, b) && LexLe(b, a)
    ensures a == b
    decreases |a|
  {
    if a != "" && b != "" {
      LexAntisymmetric(a[1..], b[1..]);
      assert a == [a[0]] + a[1..] && b == [b[0]] + b[1..];
    }
  }

  lemma {:induction false} LexTransitive(a: string, b: string, c: string)
    requires LexLe(a, b) && LexLe(b, c)
    ensures LexLe(a, c)
    decreases |a|
  {
    if a != "" && a[0] == b[0] && b[0] == c[0] {
      LexTransitive(a[1..], b[1..], c[1..]);
    }
  }

  lemma {:induction false} PrefixIsBelow(p: string, s: string)
    requires p <= s
    ensures LexLe(p, s)
    decreases |p|
  {
    if p != "" {
      PrefixIsBelow(p[1..], s[1..]);
    }
  }

  /** The strings that share a prefix are contiguous in key order. */
  lemma {:induction false} PrefixRangeIsContiguous(p: string, k: string, q: string)
    requires LexLe(p, k) && LexLe(k, q) && p <= q
    ensures p <= k
    decreases |p|
  {
    if p != "" {
      PrefixRangeIsContiguous(p[1..], k[1..], q[1..]);
      assert p == [p[0]] + p[1..] && k == [k[0]] + k[1..];
    }
  }

  predicate IsLeast(m: string, s: set<string>) {
    m in s && forall k | k in s :: LexLe(m, k)
  }

  lemma {:induction false} LeastExists(s: set<string>) returns (m: string)
    requires s != {}
    ensures IsLeast(m, s)
    decreases |s|
  {
    m :| m in s;
    LexTotal(m, m);
    if s != {m} {
      var rest := LeastExists(s - {m});
      LexTotal(m, rest);
      if LexLe(m, rest) {
        forall k | k in s - {m}
          ensures LexLe(m, k)
        {
          LexTransitive(m, rest, k);
        }
      } else {
        m := rest;
      }
    }
  }

  /** The first key of a non-empty set. */
  function LexLeast(s: set<string>): (m: string)
    requires s != {}
    ensures IsLeast(m, s)
  {
    assert exists m :: IsLeast(m, s) by {
      var m := LeastExists(s);
    }
    assert forall m, n | IsLeast(m, s) && IsLeast(n, s) :: m == n by {
      forall m, n | IsLeast(m, s) && IsLeast(n, s)
        ensures m == n
      {
        LexAntisymmetric(m, n);
      }
    }
    var m :| m in s && IsLeast(m, s);
    m
  }

  /** The keys of a table in the order it iterates over them. */
  function InOrder(s: set<string>): (keys: seq<string>)
    ensures forall k :: k in keys <==> k in s
    ensures NoDup(keys)
    decreases |s|
  {
    if s == {} then []
    else
      var m := LexLeast(s);
      [m] + InOrder(s - {m})
  }
}
