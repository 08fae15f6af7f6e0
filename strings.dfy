/**
 * The parts of JavaScript's string library that the modelled code relies on:
 * `includes`, `startsWith`, `indexOf`, `trim`, `split` on a literal separator,
 * `Array.prototype.join`, `substring`, and the decimal text of a whole number.
 * Strings are sequences of characters (Unicode scalar values). JavaScript's
 * `length` and the indices of `substring` count UTF-16 code units instead, in
 * which a character outside the Basic Multilingual Plane takes two; `Utf16Length`,
 * `Take` and `Truncate` count that way.
 */
module Strings {
  import opened Wrappers

  /** White space as `String.prototype.trim` and the regular-expression class `\s`
      see it: ECMA-262's WhiteSpace and LineTerminator code points. */
  predicate IsSpace(c: char)
  {
    || c == ' ' || c == '\t' || c == '\n' || c == '\r'
    || c == '\U{000B}' || c == '\U{000C}' || c == '\U{00A0}' || c == '\U{1680}'
    || ('\U{2000}' <= c <= '\U{200A}')
    || c == '\U{2028}' || c == '\U{2029}' || c == '\U{202F}' || c == '\U{205F}'
    || c == '\U{3000}' || c == '\U{FEFF}'
  }

  /** The regular-expression class `\d`. */
  predicate IsDigit(c: char)
  {
    '0' <= c <= '9'
  }

  /** `pat` occurs in `s` starting at index `i`. */
  predicate OccursAt(s: string, pat: string, i: int)
  {
    0 <= i && i + |pat| <= |s| && s[i..i + |pat|] == pat
  }

  /** `s.startsWith(prefix)` */
  predicate StartsWith(s: string, prefix: string)
  {
    OccursAt(s, prefix, 0)
  }

  /** `s.indexOf(pat, from)`: the first occurrence at or after `from`, if any. */
  function IndexOfFrom(s: string, pat: string, from: nat): (r: Option<nat>)
    ensures r.Some? ==> from <= r.value && OccursAt(s, pat, r.value)
    ensures forall i :: from <= i && (r.None? || i < r.value) ==> !OccursAt(s, pat, i)
    decreases |s| - from
  {
    if from + |pat| > |s| then None
    else if s[from..from + |pat|] == pat then Some(from)
    else IndexOfFrom(s, pat, from + 1)
  }

  /** `s.includes(pat)` */
  predicate Contains(s: string, pat: string)
  {
    IndexOfFrom(s, pat, 0).Some?
  }

  lemma ContainsIff(s: string, pat: string)
    ensures Contains(s, pat) <==> exists i :: OccursAt(s, pat, i)
  {
    if exists i :: OccursAt(s, pat, i) {
      var i :| OccursAt(s, pat, i);
      assert 0 <= i;
    }
  }

  /** A piece of a concatenation occurs in it, where it was put. */
  lemma OccursInConcat(a: string, b: string, c: string)
    ensures OccursAt(a + b + c, b, |a|) && Contains(a + b + c, b)
  {
    var s := a + b + c;
    assert s[|a|..|a| + |b|] == b;
    assert OccursAt(s, b, |a|);
    ContainsIff(s, b);
  }

  /** A slice of a slice is a slice of the whole. */
  lemma SliceOfSlice(s: string, a: nat, b: nat, j: nat, n: nat)
    requires a <= b <= |s| && j + n <= b - a
    ensures s[a..b][j..j + n] == s[a + j..a + j + n]
  {
    var x, y := s[a..b][j..j + n], s[a + j..a + j + n];
    forall k | 0 <= k < n
      ensures x[k] == y[k]
    {
      assert x[k] == s[a..b][j + k];
    }
  }

  /** A piece of a string that lacks `pat` lacks it too. */
  lemma SliceLacks(s: string, a: nat, b: nat, pat: string)
    requires a <= b <= |s|
    requires !Contains(s, pat)
    ensures !Contains(s[a..b], pat)
  {
    var t := s[a..b];
    var found := IndexOfFrom(s, pat, 0);
    assert found.None?;
    forall j: nat | j + |pat| <= |t|
      ensures !OccursAt(t, pat, j)
    {
      SliceOfSlice(s, a, b, j, |pat|);
      assert !OccursAt(s, pat, a + j);
    }
  }

  /** An occurrence stays where it is when text is appended. */
  lemma OccursExtend(s: string, t: string, pat: string, i: int)
    requires OccursAt(s, pat, i)
    ensures OccursAt(s + t, pat, i) && Contains(s + t, pat)
  {
    var x, y := (s + t)[i..i + |pat|], s[i..i + |pat|];
    forall k | 0 <= k < |pat|
      ensures x[k] == y[k]
    {
      assert x[k] == (s + t)[i + k];
    }
    assert x == y;
    assert OccursAt(s + t, pat, i);
    ContainsIff(s + t, pat);
  }

  /** The end of the run of white space (what `\s*` consumes) starting at `i`. */
  function SpaceRunEnd(s: string, i: nat): (e: nat)
    requires i <= |s|
    ensures i <= e <= |s| && (e == |s| || !IsSpace(s[e]))
    ensures forall k :: i <= k < e ==> IsSpace(s[k])
    decreases |s| - i
  {
    if i < |s| && IsSpace(s[i]) then SpaceRunEnd(s, i + 1) else i
  }

  /** The start of the run of white space that ends at `j`. */
  function SpaceRunStart(s: string, j: nat): (b: nat)
    requires j <= |s|
    ensures b <= j && (b == 0 || !IsSpace(s[b - 1]))
    ensures forall k :: b <= k < j ==> IsSpace(s[k])
  {
    if j > 0 && IsSpace(s[j - 1]) then SpaceRunStart(s, j - 1) else j
  }

  /** A string ends with what was appended last. */
  lemma OccursAtEnd(a: string, x: string)
    ensures OccursAt(a + x, x, |a|) && Contains(a + x, x)
  {
    var w := (a + x)[|a|..|a| + |x|];
    forall k | 0 <= k < |x|
      ensures w[k] == x[k]
    {
      assert w[k] == (a + x)[|a| + k];
    }
    assert w == x;
    assert OccursAt(a + x, x, |a|);
    ContainsIff(a + x, x);
  }

  /** Appending text keeps what was contained. */
  lemma ContainsExtend(s: string, t: string, pat: string)
    ensures Contains(s, pat) ==> Contains(s + t, pat)
  {
    var found := IndexOfFrom(s, pat, 0);
    if found.Some? {
      OccursExtend(s, t, pat, found.value);
    }
  }

  /** `s.trimStart()`: what follows the leading white space. */
  function TrimStart(s: string): (r: string)
    ensures r == [] || !IsSpace(r[0])
  {
    s[SpaceRunEnd(s, 0)..]
  }

  /** `s.trimEnd()`: what precedes the trailing white space. */
  function TrimEnd(s: string): (r: string)
    ensures r == [] || !IsSpace(r[|r| - 1])
  {
    s[..SpaceRunStart(s, |s|)]
  }

  /** `s.trim()` */
  function Trim(s: string): string
  {
    TrimEnd(TrimStart(s))
  }

  /** A string is left alone by `trim` exactly when it neither starts nor ends with white space. */
  lemma TrimFixedIff(s: string)
    ensures Trim(s) == s <==> (s == [] || (!IsSpace(s[0]) && !IsSpace(s[|s| - 1])))
  {
    var u := TrimStart(s);
    if s != [] && !IsSpace(s[0]) && !IsSpace(s[|s| - 1]) {
      assert SpaceRunEnd(s, 0) == 0;
      assert u == s;
      assert SpaceRunStart(s, |s|) == |s|;
    }
    var t := Trim(s);
    if t != [] {
      assert t[0] == u[0];
    }
  }

  /** Trimming twice is trimming once. */
  lemma TrimIdempotent(s: string)
    ensures Trim(Trim(s)) == Trim(s)
  {
    var t := Trim(s);
    var u := TrimStart(s);
    if t != [] {
      assert t[0] == u[0];
    }
    TrimFixedIff(t);
  }

  /** A string that does not start with white space keeps its first character when trimmed. */
  lemma TrimKeepsFirst(s: string)
    requires s != [] && !IsSpace(s[0])
    ensures Trim(s) != [] && Trim(s)[0] == s[0]
  {
    assert TrimStart(s) == s;
    var r := TrimEnd(s);
    assert |r| > 0;
  }

  lemma DigitIsNotSpace(c: char)
    requires IsDigit(c)
    ensures !IsSpace(c)
  {
  }

  /** `s.split(sep)` for a non-empty literal separator. */
  function Split(s: string, sep: string): (parts: seq<string>)
    requires sep != []
    ensures |parts| >= 1
    decreases |s|
  {
    match IndexOfFrom(s, sep, 0)
    case None => [s]
    case Some(i) => [s[..i]] + Split(s[i + |sep|..], sep)
  }

  /** `parts.join(sep)` */
  function Join(parts: seq<string>, sep: string): string
  {
    if |parts| == 0 then ""
    else if |parts| == 1 then parts[0]
    else parts[0] + sep + Join(parts[1..], sep)
  }

  lemma JoinCons(head: string, tail: seq<string>, sep: string)
    requires |tail| >= 1
    ensures Join([head] + tail, sep) == head + sep + Join(tail, sep)
  {
    assert ([head] + tail)[1..] == tail;
  }

  /** Cutting `s` around an occurrence of `sep` and gluing it back gives `s`. */
  lemma GlueAround(s: string, sep: string, i: nat)
    requires OccursAt(s, sep, i)
    ensures s[..i] + sep + s[i + |sep|..] == s
  {
    assert s[i..] == sep + s[i + |sep|..];
    assert s == s[..i] + s[i..];
  }

  /** Splitting and joining back with the same separator gives the string back. */
  lemma {:induction false} SplitJoin(s: string, sep: string)
    requires sep != []
    ensures Join(Split(s, sep), sep) == s
    decreases |s|
  {
    var found := IndexOfFrom(s, sep, 0);
    if found.Some? {
      var i := found.value;
      var rest := s[i + |sep|..];
      SplitJoin(rest, sep);
      var tail := Split(rest, sep);
      assert Split(s, sep) == [s[..i]] + tail;
      JoinCons(s[..i], tail, sep);
      assert Join(Split(s, sep), sep) == s[..i] + sep + rest;
      GlueAround(s, sep, i);
    }
  }

  /** No piece of a split contains the separator. */
  lemma {:induction false} SplitPartsLackSeparator(s: string, sep: string)
    requires sep != []
    ensures forall k :: 0 <= k < |Split(s, sep)| ==> !Contains(Split(s, sep)[k], sep)
    decreases |s|
  {
    match IndexOfFrom(s, sep, 0)
    case None =>
    case Some(i) =>
      var rest := s[i + |sep|..];
      SplitPartsLackSeparator(rest, sep);
      var head := s[0..i];
      forall j: nat | j + |sep| <= |head|
        ensures !OccursAt(head, sep, j)
      {
        SliceOfSlice(s, 0, i, j, |sep|);
        assert !OccursAt(s, sep, j);
      }
      assert head == s[..i];
      assert Split(s, sep) == [head] + Split(rest, sep);
  }

  /** JavaScript's clamping of a `substring` index into `[0, len]`. */
  function Clamp(i: int, len: nat): (r: nat)
    ensures r <= len
  {
    if i < 0 then 0 else if i > len then len else i
  }

  /** `s.substring(start, end)`: both ends clamped, swapped when out of order. Indices count
      characters, which is what JavaScript counts on text without characters outside the
      Basic Multilingual Plane; the model applies it only to such text. */
  function Substring(s: string, start: int, end: int): (r: string)
    ensures |r| <= |s|
    ensures 0 <= start <= end <= |s| ==> r == s[start..end]
  {
    var a := Clamp(start, |s|);
    var b := Clamp(end, |s|);
    if a <= b then s[a..b] else s[b..a]
  }

  /** A character JavaScript stores in a single UTF-16 code unit. */
  predicate InBmp(c: char)
  {
    (c as int) < 0x1_0000
  }

  /** Every character of `s` takes a single code unit; emoji and some mathematical letters,
      for instance, do not. */
  predicate AllBmp(s: string)
  {
    forall k :: 0 <= k < |s| ==> InBmp(s[k])
  }

  /** The code units of one character: a surrogate pair outside the Basic Multilingual Plane. */
  function CodeUnits(c: char): nat
  {
    if InBmp(c) then 1 else 2
  }

  /** `s.length`: the number of UTF-16 code units of `s`. */
  function Utf16Length(s: string): (n: nat)
    ensures |s| <= n <= 2 * |s|
    ensures AllBmp(s) ==> n == |s|
  {
    if s == [] then 0
    else
      assert forall k :: 0 <= k < |s| - 1 ==> s[..|s| - 1][k] == s[k];
      Utf16Length(s[..|s| - 1]) + CodeUnits(s[|s| - 1])
  }

  /** A character outside the Basic Multilingual Plane, such as U+1D465 (mathematical italic
      x), counts twice. */
  lemma AstralCountsTwice()
    ensures Utf16Length("\U{1D465}") == 2
    ensures Utf16Length("x\U{1D465}") == 3
  {
    assert "x\U{1D465}"[..1] == "x";
  }

  /** The longest prefix `s[..k]`, `k <= n`, that fits in `limit` code units. */
  function PrefixWithin(s: string, limit: nat, n: nat): (k: nat)
    requires n <= |s|
    ensures k <= n && Utf16Length(s[..k]) <= limit
    ensures forall m :: k < m <= n ==> Utf16Length(s[..m]) > limit
  {
    if n == 0 || Utf16Length(s[..n]) <= limit then n else PrefixWithin(s, limit, n - 1)
  }

  /** `s.substring(0, n)`: the longest prefix of `s` that fits in `n` code units. */
  function Take(s: string, n: nat): (r: string)
    ensures |r| <= |s| && r == s[..|r|] && |r| <= Utf16Length(r) <= n
    ensures |r| < |s| ==> Utf16Length(s[..|r| + 1]) > n
    ensures Utf16Length(s) <= n ==> r == s
  {
    assert s[..|s|] == s;
    s[..PrefixWithin(s, n, |s|)]
  }

  /** `r` is a proper prefix of `s` as long as fits in `limit` code units, followed by "...". */
  predicate CutWithMarker(s: string, r: string, limit: nat)
  {
    3 <= |r| && |r| - 3 < |s| && r[|r| - 3..] == "..." && r[..|r| - 3] == s[..|r| - 3]
    && Utf16Length(s[..|r| - 3]) <= limit && Utf16Length(s[..|r| - 2]) > limit
  }

  /** `s.length > limit ? s.substring(0, limit) + "..." : s`: cut a long text and mark the cut. */
  function Truncate(s: string, limit: nat): (r: string)
    ensures Utf16Length(s) <= limit ==> r == s
    ensures Utf16Length(s) > limit ==> CutWithMarker(s, r, limit)
  {
    if Utf16Length(s) > limit then
      var t := Take(s, limit);
      assert s[..|s|] == s;
      assert |t| < |s|;
      assert (t + "...")[..|t|] == t;
      t + "..."
    else s
  }

  /** A truncated text never exceeds the limit by more than the marker, and always
      begins with as much of the original as fits. */
  lemma TruncateBounds(s: string, limit: nat)
    ensures |Truncate(s, limit)| <= limit + 3
    ensures StartsWith(Truncate(s, limit), Take(s, limit))
  {
    if Utf16Length(s) > limit {
      var t := Take(s, limit);
      assert Truncate(s, limit)[..|t|] == t;
    }
  }

  /** On text whose characters each take one code unit, `Take` keeps the first `n` characters. */
  lemma TakeBmp(s: string, n: nat)
    ensures AllBmp(s) ==>
      Take(s, n) == if |s| <= n then s else s[..n]
  {
    if AllBmp(s) {
      var r := Take(s, n);
      assert AllBmp(r) by {
        forall k | 0 <= k < |r| ensures InBmp(r[k]) {
          assert r[k] == s[k];
        }
      }
      if |r| < |s| {
        var r' := s[..|r| + 1];
        assert AllBmp(r') by {
          forall k | 0 <= k < |r'| ensures InBmp(r'[k]) {
            assert r'[k] == s[k];
          }
        }
      }
    }
  }

  /** On such text, `Truncate` cuts after exactly `limit` characters. */
  lemma TruncateBmp(s: string, limit: nat)
    ensures AllBmp(s) ==>
      Truncate(s, limit) == if |s| <= limit then s else s[..limit] + "..."
  {
    TakeBmp(s, limit);
  }

  /** Whatever quotes the cut text of such a text quotes its first `limit` characters. */
  lemma QuotedCutBmp(p: string, s: string, limit: nat)
    ensures Contains(p, Truncate(s, limit)) && AllBmp(s) && |s| > limit ==>
      Contains(p, s[..limit] + "...")
  {
    TruncateBmp(s, limit);
  }

  function DigitChar(d: nat): (c: char)
    requires d < 10
    ensures IsDigit(c)
  {
    ('0' as int + d) as char
  }

  function DigitValue(c: char): nat
    requires IsDigit(c)
  {
    c as int - '0' as int
  }

  predicate AllDigits(s: string)
  {
    forall i :: 0 <= i < |s| ==> IsDigit(s[i])
  }

  /** The number a string of decimal digits denotes. */
  function DecimalValue(s: string): nat
    requires AllDigits(s)
  {
    if s == [] then 0 else 10 * DecimalValue(s[..|s| - 1]) + DigitValue(s[|s| - 1])
  }

  /** The decimal text of a whole number, as `${n}` renders it. */
  function NatToString(n: nat): (r: string)
    ensures |r| >= 1 && AllDigits(r)
    ensures |r| > 1 ==> r[0] != '0'
  {
    if n < 10 then [DigitChar(n)] else NatToString(n / 10) + [DigitChar(n % 10)]
  }

  /** The decimal text reads back as the number it was made from. */
  lemma {:induction false} NatToStringValue(n: nat)
    ensures DecimalValue(NatToString(n)) == n
  {
    if n >= 10 {
      NatToStringValue(n / 10);
      var s := NatToString(n);
      assert s[..|s| - 1] == NatToString(n / 10);
    }
  }
}
