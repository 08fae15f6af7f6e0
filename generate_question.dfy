/**
 * The math-question generator: the two backslash rewrites that make a model's JSON parseable
 * and the bounded cascade that applies them, the difficulty scale, the prompt, the extraction
 * of a fenced reply, and the fixed question returned when anything fails.
 *
 * The model and `JSON.parse` are not modelled: the model is a function from prompt to reply
 * (`None` when the call throws) and the parser a function from text to a decoded value (`None`
 * when it throws); a text is valid JSON when the parser accepts it.
 */
module GenerateQuestion {
  import opened Wrappers
  import opened Strings

  const Backslash: char := '\\'

  // ---------------------------------------------------------------------------
  // The escape pass: `s.replace(/\\(?!["\\/bfnrt])/g, "\\\\")`

  /** The characters a backslash may precede and be left alone (`u` is not among them). */
  predicate IsEscapeChar(c: char)
  {
    c == '"' || c == '\\' || c == '/' || c == 'b' || c == 'f' || c == 'n' || c == 'r' || c == 't'
  }

  /** The backslash at `i` has no valid escape character after it in the original string. */
  predicate Unescaped(s: string, i: nat)
    requires i < |s|
  {
    s[i] == Backslash && !(i + 1 < |s| && IsEscapeChar(s[i + 1]))
  }

  /** The rewrite of `s[i..]`: every unescaped backslash doubled, every other character copied.
      The lookahead reads the original string, so a backslash the pass has just doubled does not
      protect the one after it. */
  function EscapeFrom(s: string, i: nat): (r: string)
    requires i <= |s|
    ensures |r| >= |s| - i
    decreases |s| - i
  {
    if i == |s| then ""
    else (if Unescaped(s, i) then [Backslash, Backslash] else [s[i]]) + EscapeFrom(s, i + 1)
  }

  function Escape(s: string): string
  {
    EscapeFrom(s, 0)
  }

  /** The characters of `s` other than backslashes, in order. */
  function DropBackslashes(s: string): (r: string)
    ensures |r| <= |s|
  {
    if s == [] then "" else (if s[0] == Backslash then "" else [s[0]]) + DropBackslashes(s[1..])
  }

  lemma {:induction false} DropBackslashesAppend(a: string, b: string)
    ensures DropBackslashes(a + b) == DropBackslashes(a) + DropBackslashes(b)
    decreases |a|
  {
    if a != [] {
      assert (a + b)[1..] == a[1..] + b;
      DropBackslashesAppend(a[1..], b);
    } else {
      assert a + b == b;
    }
  }

  lemma {:induction false} EscapeFromKeepsOthers(s: string, i: nat)
    requires i <= |s|
    ensures DropBackslashes(EscapeFrom(s, i)) == DropBackslashes(s[i..])
    decreases |s| - i
  {
    if i < |s| {
      EscapeFromKeepsOthers(s, i + 1);
      var head := if Unescaped(s, i) then [Backslash, Backslash] else [s[i]];
      DropBackslashesAppend(head, EscapeFrom(s, i + 1));
      assert s[i..][1..] == s[i + 1..];
    }
  }

  /** The escape pass changes nothing but backslashes, and never shortens the text. */
  lemma EscapeKeepsOthers(s: string)
    ensures DropBackslashes(Escape(s)) == DropBackslashes(s)
    ensures |Escape(s)| >= |s|
  {
    EscapeFromKeepsOthers(s, 0);
    assert s[0..] == s;
  }

  lemma {:induction false} EscapeFromNoBackslash(s: string, i: nat)
    requires i <= |s|
    requires forall k :: 0 <= k < |s| ==> s[k] != Backslash
    ensures EscapeFrom(s, i) == s[i..]
    decreases |s| - i
  {
    if i < |s| {
      EscapeFromNoBackslash(s, i + 1);
      assert s[i..] == [s[i]] + s[i + 1..];
    }
  }

  /** Text without backslashes is left alone. */
  lemma EscapeNoBackslash(s: string)
    requires forall k :: 0 <= k < |s| ==> s[k] != Backslash
    ensures Escape(s) == s
  {
    EscapeFromNoBackslash(s, 0);
  }

  /** A valid escape survives. */
  lemma EscapeKeepsValidEscape()
    ensures Escape("\\n") == "\\n"
  {
    assert EscapeFrom("\\n", 1) == "n";
  }

  /** A trailing backslash is doubled. */
  lemma EscapeDoublesTrailing()
    ensures Escape("a\\") == "a\\\\"
  {
    assert EscapeFrom("a\\", 1) == "\\\\";
  }

  /** A backslash before text that has no backslash and does not begin with an escape
      character is doubled, and the text is kept. */
  lemma EscapeLoneBackslash(t: string)
    requires forall k :: 0 <= k < |t| ==> t[k] != Backslash
    requires t == [] || !IsEscapeChar(t[0])
    ensures Escape([Backslash] + t) == [Backslash, Backslash] + t
  {
    var u := [Backslash] + t;
    assert u[1..] == t;
    EscapeFromShift(u, 1);
    EscapeFromNoBackslash(t, 0);
    assert t[0..] == t;
    assert Unescaped(u, 0);
  }

  /** The backslash of a `\u` escape is doubled, since `u` is not in the set. */
  lemma EscapeDoublesUnicode()
    ensures Escape("\\u00e9") == "\\\\u00e9"
  {
    EscapeLoneBackslash("u00e9");
    assert [Backslash] + "u00e9" == "\\u00e9";
    assert [Backslash, Backslash] + "u00e9" == "\\\\u00e9";
  }

  /** Rewriting from `i` depends only on `s[i..]`. */
  lemma {:induction false} EscapeFromShift(s: string, i: nat)
    requires i <= |s|
    ensures EscapeFrom(s, i) == EscapeFrom(s[i..], 0)
  {
    EscapeFromSuffix(s, i, i);
  }

  lemma {:induction false} EscapeFromSuffix(s: string, i: nat, j: nat)
    requires i <= j <= |s|
    ensures EscapeFrom(s, j) == EscapeFrom(s[i..], j - i)
    decreases |s| - j
  {
    if j < |s| {
      EscapeFromSuffix(s, i, j + 1);
      assert s[i..][j - i] == s[j];
      if j + 1 < |s| {
        assert s[i..][j - i + 1] == s[j + 1];
      }
    }
  }

  // ---------------------------------------------------------------------------
  // The collapse pass: `s.replace(/\\\\+/g, "\\\\")`

  /** The end of the run of backslashes starting at `i`. */
  function BackslashRunEnd(s: string, i: nat): (e: nat)
    requires i <= |s|
    ensures i <= e <= |s| && (e == |s| || s[e] != Backslash)
    ensures forall k :: i <= k < e ==> s[k] == Backslash
    decreases |s| - i
  {
    if i < |s| && s[i] == Backslash then BackslashRunEnd(s, i + 1) else i
  }

  /** The rewrite of `s[i..]`: each run of two or more backslashes becomes exactly two. */
  function CollapseFrom(s: string, i: nat): (r: string)
    requires i <= |s|
    ensures i < |s| ==> r != [] && r[0] == s[i]
    decreases |s| - i
  {
    if i == |s| then ""
    else if s[i] == Backslash && i + 1 < |s| && s[i + 1] == Backslash then
      [Backslash, Backslash] + CollapseFrom(s, BackslashRunEnd(s, i))
    else [s[i]] + CollapseFrom(s, i + 1)
  }

  function Collapse(s: string): string
  {
    CollapseFrom(s, 0)
  }

  /** No three backslashes in a row. */
  predicate NoTripleBackslash(s: string)
  {
    forall k :: 0 <= k && k + 2 < |s| ==> !(s[k] == Backslash && s[k + 1] == Backslash && s[k + 2] == Backslash)
  }

  lemma {:induction false} CollapseFromNoTriple(s: string, i: nat)
    requires i <= |s|
    ensures NoTripleBackslash(CollapseFrom(s, i))
    decreases |s| - i
  {
    if i < |s| {
      if s[i] == Backslash && i + 1 < |s| && s[i + 1] == Backslash {
        var e := BackslashRunEnd(s, i);
        CollapseFromNoTriple(s, e);
        var rest := CollapseFrom(s, e);
        assert rest != [] ==> rest[0] != Backslash;
        var r := [Backslash, Backslash] + rest;
        forall k | 0 <= k && k + 2 < |r|
          ensures !(r[k] == Backslash && r[k + 1] == Backslash && r[k + 2] == Backslash)
        {
          if k >= 2 {
            assert r[k..k + 3] == rest[k - 2..k + 1];
          } else if k == 1 {
            assert r[k + 2] == rest[1];
          }
        }
      } else {
        CollapseFromNoTriple(s, i + 1);
        var rest := CollapseFrom(s, i + 1);
        assert s[i] == Backslash && rest != [] ==> rest[0] != Backslash;
        var r := [s[i]] + rest;
        forall k | 0 <= k && k + 2 < |r|
          ensures !(r[k] == Backslash && r[k + 1] == Backslash && r[k + 2] == Backslash)
        {
          if k >= 1 {
            assert r[k..k + 3] == rest[k - 1..k + 2];
          }
        }
      }
    }
  }

  lemma {:induction false} CollapseFromFixed(s: string, i: nat)
    requires i <= |s| && NoTripleBackslash(s)
    ensures CollapseFrom(s, i) == s[i..]
    decreases |s| - i
  {
    if i < |s| {
      if s[i] == Backslash && i + 1 < |s| && s[i + 1] == Backslash {
        assert BackslashRunEnd(s, i + 2) == i + 2;
        assert BackslashRunEnd(s, i) == i + 2;
        CollapseFromFixed(s, i + 2);
        assert s[i..] == [s[i], s[i + 1]] + s[i + 2..];
      } else {
        CollapseFromFixed(s, i + 1);
        assert s[i..] == [s[i]] + s[i + 1..];
      }
    }
  }

  /** The collapse pass leaves no run of three backslashes, leaves text without such runs as it
      is, and so changes nothing the second time. */
  lemma CollapseIdempotent(s: string)
    ensures NoTripleBackslash(Collapse(s))
    ensures NoTripleBackslash(s) ==> Collapse(s) == s
    ensures Collapse(Collapse(s)) == Collapse(s)
  {
    CollapseFromNoTriple(s, 0);
    if NoTripleBackslash(s) {
      CollapseFromFixed(s, 0);
    }
    CollapseFromFixed(Collapse(s), 0);
  }

  lemma {:induction false} CollapseFromKeepsOthers(s: string, i: nat)
    requires i <= |s|
    ensures DropBackslashes(CollapseFrom(s, i)) == DropBackslashes(s[i..])
    decreases |s| - i
  {
    if i < |s| {
      if s[i] == Backslash && i + 1 < |s| && s[i + 1] == Backslash {
        var e := BackslashRunEnd(s, i);
        CollapseFromKeepsOthers(s, e);
        DropBackslashesAppend([Backslash, Backslash], CollapseFrom(s, e));
        assert s[i..] == s[i..e] + s[e..];
        DropBackslashesAppend(s[i..e], s[e..]);
        DropRun(s[i..e]);
      } else {
        CollapseFromKeepsOthers(s, i + 1);
        DropBackslashesAppend([s[i]], CollapseFrom(s, i + 1));
        assert s[i..] == [s[i]] + s[i + 1..];
        DropBackslashesAppend([s[i]], s[i + 1..]);
      }
    }
  }

  lemma {:induction false} DropRun(run: string)
    requires forall k :: 0 <= k < |run| ==> run[k] == Backslash
    ensures DropBackslashes(run) == ""
  {
    if run != [] {
      DropRun(run[1..]);
    }
  }

  /** The collapse pass only removes backslashes. */
  lemma CollapseKeepsOthers(s: string)
    ensures DropBackslashes(Collapse(s)) == DropBackslashes(s)
    ensures |Collapse(s)| <= |s|
  {
    CollapseFromKeepsOthers(s, 0);
    assert s[0..] == s;
    CollapseFromShorter(s, 0);
  }

  lemma {:induction false} CollapseFromShorter(s: string, i: nat)
    requires i <= |s|
    ensures |CollapseFrom(s, i)| <= |s| - i
    decreases |s| - i
  {
    if i < |s| {
      if s[i] == Backslash && i + 1 < |s| && s[i + 1] == Backslash {
        CollapseFromShorter(s, BackslashRunEnd(s, i));
      } else {
        CollapseFromShorter(s, i + 1);
      }
    }
  }

  // ---------------------------------------------------------------------------
  // The sanitiser: `robustSanitizeJson`

  /** What the sanitiser tries, in order: the escape pass, then the collapse pass, then the
      escape pass three more times. */
  function Candidates(input: string): (cs: seq<string>)
    ensures |cs| == 5
  {
    var c1 := Escape(input);
    var c2 := Collapse(c1);
    var c3 := Escape(c2);
    var c4 := Escape(c3);
    [c1, c2, c3, c4, Escape(c4)]
  }

  /** The index of the first valid candidate from `i` on, or of the last one. */
  function FirstValidFrom(cs: seq<string>, valid: string -> bool, i: nat): (k: nat)
    requires i < |cs|
    ensures i <= k < |cs|
    ensures forall j :: i <= j < k ==> !valid(cs[j])
    ensures k < |cs| - 1 ==> valid(cs[k])
    decreases |cs| - i
  {
    if i == |cs| - 1 || valid(cs[i]) then i else FirstValidFrom(cs, valid, i + 1)
  }

  /** The text the sanitiser returns. */
  function Sanitized(input: string, valid: string -> bool): string
  {
    Candidates(input)[FirstValidFrom(Candidates(input), valid, 0)]
  }

  /** The first valid candidate is what is returned; if none is valid the last one is. */
  lemma {:induction false} FirstValidIs(cs: seq<string>, valid: string -> bool, i: nat, k: nat)
    requires i <= k < |cs|
    requires forall j :: i <= j < k ==> !valid(cs[j])
    requires valid(cs[k]) || k == |cs| - 1
    ensures FirstValidFrom(cs, valid, i) == k
    decreases k - i
  {
    if i < k {
      FirstValidIs(cs, valid, i + 1, k);
    }
  }

  /** `robustSanitizeJson`; `checks` counts the calls to `JSON.parse`. */
  method RobustSanitize(input: string, valid: string -> bool) returns (out: string, checks: nat)
    ensures out == Sanitized(input, valid)
    ensures 1 <= checks <= 5 && checks == FirstValidFrom(Candidates(input), valid, 0) + 1
  {
    ghost var cs := Candidates(input);
    out := Escape(input);
    checks := 1;
    if valid(out) {
      FirstValidIs(cs, valid, 0, 0);
      return;
    }
    out := Collapse(out);
    checks := 2;
    if valid(out) {
      FirstValidIs(cs, valid, 0, 1);
      return;
    }
    for i := 0 to 3
      invariant out == cs[i + 1] && checks == i + 2
      invariant forall j :: 0 <= j <= i + 1 ==> !valid(cs[j])
    {
      out := Escape(out);
      checks := checks + 1;
      if valid(out) {
        FirstValidIs(cs, valid, 0, i + 2);
        return;
      }
    }
    FirstValidIs(cs, valid, 0, 4);
  }

  /** Whenever any candidate parses, the returned text parses; and text without backslashes
      comes back as it is, whether or not it parses. */
  lemma SanitizedSpec(input: string, valid: string -> bool)
    ensures (exists k :: 0 <= k < 5 && valid(Candidates(input)[k])) ==> valid(Sanitized(input, valid))
    ensures (forall k :: 0 <= k < |input| ==> input[k] != Backslash) ==> Sanitized(input, valid) == input
  {
    var cs := Candidates(input);
    if forall k :: 0 <= k < |input| ==> input[k] != Backslash {
      EscapeNoBackslash(input);
      CollapseIdempotent(input);
      assert NoTripleBackslash(input);
      assert cs == [input, input, input, input, input];
    }
  }

  // ---------------------------------------------------------------------------
  // `parseInt(difficulty)` and the difficulty scale

  predicate IsRadixDigit(c: char, radix: nat)
  {
    IsDigit(c) || (radix == 16 && (('a' <= c <= 'f') || ('A' <= c <= 'F')))
  }

  function RadixDigitValue(c: char, radix: nat): nat
    requires IsRadixDigit(c, radix)
  {
    if IsDigit(c) then c as int - '0' as int
    else if 'a' <= c <= 'f' then c as int - 'a' as int + 10
    else c as int - 'A' as int + 10
  }

  /** The length of the longest prefix of `s` made of digits of the radix. */
  function DigitPrefix(s: string, radix: nat): (n: nat)
    ensures n <= |s| && forall k :: 0 <= k < n ==> IsRadixDigit(s[k], radix)
    ensures n == |s| || !IsRadixDigit(s[n], radix)
  {
    if s != [] && IsRadixDigit(s[0], radix) then 1 + DigitPrefix(s[1..], radix) else 0
  }

  function RadixValue(z: string, radix: nat): nat
    requires forall k :: 0 <= k < |z| ==> IsRadixDigit(z[k], radix)
  {
    if z == [] then 0 else radix * RadixValue(z[..|z| - 1], radix) + RadixDigitValue(z[|z| - 1], radix)
  }

  /** JavaScript's `parseInt(s)` without a radix: leading white space skipped, one optional sign,
      a `0x`/`0X` prefix selecting base 16, then the longest run of digits; `None` is `NaN`.
      Values are exact integers. */
  function ParseInt(s: string): Option<int>
  {
    var t := TrimStart(s);
    var negative := t != [] && t[0] == '-';
    var u := if t != [] && (t[0] == '-' || t[0] == '+') then t[1..] else t;
    var hex := |u| >= 2 && u[0] == '0' && (u[1] == 'x' || u[1] == 'X');
    var radix := if hex then 16 else 10;
    var v := if hex then u[2..] else u;
    var z := v[..DigitPrefix(v, radix)];
    if z == [] then None
    else Some(if negative then -(RadixValue(z, radix) as int) else RadixValue(z, radix))
  }

  lemma {:induction false} DecimalRadixValue(z: string)
    requires AllDigits(z)
    ensures forall k :: 0 <= k < |z| ==> IsRadixDigit(z[k], 10)
    ensures RadixValue(z, 10) == DecimalValue(z)
  {
    if z != [] {
      DecimalRadixValue(z[..|z| - 1]);
    }
  }

  lemma {:induction false} DigitPrefixAll(z: string)
    requires AllDigits(z)
    ensures DigitPrefix(z, 10) == |z|
  {
    if z != [] {
      DigitPrefixAll(z[1..]);
    }
  }

  /** A run of decimal digits is read as its value. */
  lemma ParseIntDigits(d: string)
    requires d != [] && AllDigits(d)
    ensures ParseInt(d) == Some(DecimalValue(d))
  {
    DigitIsNotSpace(d[0]);
    assert TrimStart(d) == d;
    DigitPrefixAll(d);
    DecimalRadixValue(d);
    assert d[..|d|] == d;
  }

  /** A minus sign before a run of decimal digits negates its value. */
  lemma ParseIntNegativeDigits(d: string, v: nat)
    requires d != [] && AllDigits(d) && DecimalValue(d) == v
    ensures ParseInt("-" + d) == Some(-(v as int))
  {
    var m := "-" + d;
    assert m[0] == '-' && !IsSpace(m[0]);
    assert SpaceRunEnd(m, 0) == 0;
    assert TrimStart(m) == m;
    assert m[1..] == d;
    assert !(|d| >= 2 && d[0] == '0' && (d[1] == 'x' || d[1] == 'X'));
    DigitPrefixAll(d);
    DecimalRadixValue(d);
    assert d[..|d|] == d;
  }

  /** `parseInt` reads back the decimal text of a whole number, with or without a minus sign. */
  lemma ParseIntDecimal(n: nat)
    ensures ParseInt(NatToString(n)) == Some(n)
    ensures ParseInt("-" + NatToString(n)) == Some(-(n as int))
  {
    var d := NatToString(n);
    NatToStringValue(n);
    assert DecimalValue(d) == n;
    ParseIntDigits(d);
    ParseIntNegativeDigits(d, n);
  }

  /** `parseInt(difficulty) || 5`: `NaN` and zero both become 5. */
  function DifficultyLevel(difficulty: string): (level: int)
    ensures level != 0
  {
    match ParseInt(difficulty)
    case None => 5
    case Some(v) => if v == 0 then 5 else v
  }

  datatype Band = VeryBasic | Basic | Moderate | Advanced | Expert

  /** The five bands, by thresholds 2, 4, 6 and 8. */
  function BandOf(level: int): Band
  {
    if level <= 2 then VeryBasic
    else if level <= 4 then Basic
    else if level <= 6 then Moderate
    else if level <= 8 then Advanced
    else Expert
  }

  function Rank(b: Band): nat
  {
    match b
    case VeryBasic => 0
    case Basic => 1
    case Moderate => 2
    case Advanced => 3
    case Expert => 4
  }

  function Description(b: Band): string
  {
    match b
    case VeryBasic => "very simple and basic for complete beginners"
    case Basic => "simple and straightforward for beginners"
    case Moderate => "moderately challenging for intermediate students"
    case Advanced => "challenging for advanced students"
    case Expert => "very challenging and complex for expert-level students"
  }

  /** A higher level never gets an easier band. */
  lemma BandMonotone(a: int, b: int)
    requires a <= b
    ensures Rank(BandOf(a)) <= Rank(BandOf(b))
  {
  }

  /** Each band is reached exactly by its range of levels. */
  lemma BandRanges(level: int)
    ensures BandOf(level) == VeryBasic <==> level <= 2
    ensures BandOf(level) == Basic <==> 3 <= level <= 4
    ensures BandOf(level) == Moderate <==> 5 <= level <= 6
    ensures BandOf(level) == Advanced <==> 7 <= level <= 8
    ensures BandOf(level) == Expert <==> 9 <= level
  {
  }

  /** The default "5", anything that is not a number, and "0" all give the moderate band. */
  lemma DefaultDifficulty(difficulty: string)
    ensures BandOf(DifficultyLevel("5")) == Moderate
    ensures ParseInt(difficulty).None? ==> BandOf(DifficultyLevel(difficulty)) == Moderate
    ensures BandOf(DifficultyLevel("0")) == Moderate
  {
    ParseIntDecimal(5);
    ParseIntDecimal(0);
    assert NatToString(5) == "5" && NatToString(0) == "0";
  }

  // ---------------------------------------------------------------------------
  // The prompt

  const ContextIntro := "Use the following PDF content as context for generating a question:\n         "
  const ContextLimit: nat := 2000

  /** The context block: empty without PDF content (or with empty content), otherwise the first
      2000 code units after a fixed introduction, followed by "...". */
  function ContextPrompt(pdfContent: Option<string>): (r: string)
    ensures (pdfContent.None? || pdfContent.value == "") <==> r == ""
    ensures r != "" ==> StartsWith(r, ContextIntro) && |r| <= |ContextIntro| + ContextLimit + 3
  {
    match pdfContent
    case None => ""
    case Some(content) =>
      if content == "" then ""
      else
        var r := ContextIntro + Take(content, ContextLimit) + "...";
        assert r[..|ContextIntro|] == ContextIntro;
        r
  }

  /** The context quotes the longest start of the content that fits in 2000 code units: the
      whole content when it fits, and the first 2000 characters of text whose characters each
      take one code unit. */
  lemma ContextQuotesContent(content: string)
    requires content != ""
    ensures Contains(ContextPrompt(Some(content)), Take(content, ContextLimit))
    ensures Utf16Length(content) <= ContextLimit ==> Contains(ContextPrompt(Some(content)), content)
    ensures AllBmp(content) && |content| > ContextLimit ==>
      Contains(ContextPrompt(Some(content)), content[..ContextLimit])
  {
    OccursInConcat(ContextIntro, Take(content, ContextLimit), "...");
    TakeBmp(content, ContextLimit);
  }

  function LanguagePrompt(language: string): string
  {
    if language == "es" then "Genera la pregunta y opciones en español." else "Generate the question and options in English."
  }

  /** The closing instructions, line by line: the JSON shape to answer with and the LaTeX rules. */
  const TailLine0 := "\n"
  const TailLine1 := "\n"
  const TailLine2 := "Format your response as a valid JSON object with the following structure:\n"
  const TailLine3 := "{\n"
  const TailLine4 := "  \"question\": \"The question text with LaTeX math expressions enclosed in $ or $$ delimiters\",\n"
  const TailLine5 := "  \"options\": [\"Option A with LaTeX if needed\", \"Option B with LaTeX if needed\", \"Option C with LaTeX if needed\", \"Option D with LaTeX if needed\"],\n"
  const TailLine6 := "  \"correctIndex\": 0, // Index of the correct answer (0-3)\n"
  const TailLine7 := "  \"hint\": \"A helpful hint that gives a clue without revealing the answer\"\n"
  const TailLine8 := "}\n"
  const TailLine9 := "\n"
  const TailLine10 := "Make sure all mathematical expressions are properly formatted with LaTeX syntax.\n"
  const TailLine11 := "For inline math, use single $ delimiters.\n"
  const TailLine12 := "For display math, use double $$ delimiters.\n"
  const TailLine13 := "Ensure the JSON is valid and can be parsed.\n"
  const PromptTail :=
    TailLine0 + TailLine1 + TailLine2 + TailLine3 + TailLine4 + TailLine5 + TailLine6
    + TailLine7 + TailLine8 + TailLine9 + TailLine10 + TailLine11 + TailLine12 + TailLine13

  const PromptHead := "\nGenerate a multiple-choice math question about "

  function DifficultyClause(difficulty: string): string
  {
    " with a difficulty level of " + difficulty + " out of 10.\nThe question should be "
  }

  /** The prompt: the raw difficulty text is quoted, the description comes from the parsed level. */
  function Prompt(topic: string, difficulty: string, language: string, pdfContent: Option<string>): string
  {
    PromptHead + topic + DifficultyClause(difficulty)
    + Description(BandOf(DifficultyLevel(difficulty))) + ".\n" + LanguagePrompt(language) + "\n"
    + ContextPrompt(pdfContent) + PromptTail
  }

  /** The prompt names the topic, states the band's description, the language line and the
      context. */
  lemma PromptMentions(topic: string, difficulty: string, language: string, pdfContent: Option<string>)
    ensures var p := Prompt(topic, difficulty, language, pdfContent);
      Contains(p, topic) && Contains(p, Description(BandOf(DifficultyLevel(difficulty))))
      && Contains(p, LanguagePrompt(language)) && Contains(p, ContextPrompt(pdfContent))
  {
    var d := Description(BandOf(DifficultyLevel(difficulty)));
    var l := LanguagePrompt(language);
    var c := ContextPrompt(pdfContent);
    Slots(PromptHead, topic, DifficultyClause(difficulty), d, ".\n", l, "\n", c, PromptTail);
  }

  /** In `a + x + b + y + m + u + n + v + z`, each of `x`, `y`, `u` and `v` occurs. */
  lemma Slots(a: string, x: string, b: string, y: string, m: string, u: string, n: string, v: string, z: string)
    ensures var p := a + x + b + y + m + u + n + v + z;
      Contains(p, x) && Contains(p, y) && Contains(p, u) && Contains(p, v)
  {
    var p1 := a + x;
    OccursAtEnd(a, x);
    var p2 := p1 + b;
    ContainsExtend(p1, b, x);
    var p3 := p2 + y;
    ContainsExtend(p2, y, x);
    OccursAtEnd(p2, y);
    var p4 := p3 + m;
    ContainsExtend(p3, m, x);
    ContainsExtend(p3, m, y);
    var p5 := p4 + u;
    ContainsExtend(p4, u, x);
    ContainsExtend(p4, u, y);
    OccursAtEnd(p4, u);
    var p6 := p5 + n;
    ContainsExtend(p5, n, x);
    ContainsExtend(p5, n, y);
    ContainsExtend(p5, n, u);
    var p7 := p6 + v;
    ContainsExtend(p6, v, x);
    ContainsExtend(p6, v, y);
    ContainsExtend(p6, v, u);
    OccursAtEnd(p6, v);
    ContainsExtend(p7, z, x);
    ContainsExtend(p7, z, y);
    ContainsExtend(p7, z, u);
    ContainsExtend(p7, z, v);
  }

  // ---------------------------------------------------------------------------
  // The fenced reply: `text.match(/```(?:json)?\s*([\s\S]*?)\s*```/)`

  /** The lazy group may end at `e`: white space and then a closing fence (three backticks)
      follow. */
  predicate ClosesAt(s: string, e: nat)
  {
    e <= |s| &&
    var k := SpaceRunEnd(s, e);
    k + 3 <= |s| && s[k] == '`' && s[k + 1] == '`' && s[k + 2] == '`'
  }

  /** The least end `e >= from` of the lazy group after which white space and a closing fence
      follow. Giving back white space from the trailing `\s*` cannot help, since a fence does not
      start with white space. */

  function ClosingFrom(s: string, from: nat): (r: Option<nat>)
    requires from <= |s|
    ensures r.Some? ==> from <= r.value <= |s| && ClosesAt(s, r.value)
    decreases |s| - from
  {
    if ClosesAt(s, from) then Some(from)
    else if from < |s| then ClosingFrom(s, from + 1)
    else None
  }

  /** The group's bounds for a match starting at `p`. The leading `\s*` is greedy, and giving
      white space back only moves the group's start into white space that the same closing
      would follow; when the `json` alternative fails the plain one fails too, since the group
      would then have to end inside "json". */
  function QuestionFenceAt(s: string, p: nat): (r: Option<(nat, nat)>)
    ensures r.Some? ==> r.value.0 <= r.value.1 <= |s|
  {
    if !OccursAt(s, "```", p) then None
    else
      var a := if OccursAt(s, "```json", p) then p + 7 else p + 3;
      var w := SpaceRunEnd(s, a);
      match ClosingFrom(s, w)
      case Some(e) => Some((w, e))
      case None => None
  }

  /** The leftmost match at or after `p`. */
  function QuestionFenceFrom(s: string, p: nat): (r: Option<(nat, nat)>)
    ensures r.Some? ==> r.value.0 <= r.value.1 <= |s|
    decreases |s| - p
  {
    if p >= |s| then None
    else
      match QuestionFenceAt(s, p)
      case Some(g) => Some(g)
      case None => QuestionFenceFrom(s, p + 1)
  }

  /** What is sanitised and parsed: the trimmed group of the first block when it is non-empty,
      otherwise the whole reply. */
  function QuestionJsonText(text: string): string
  {
    match QuestionFenceFrom(text, 0)
    case Some((b, e)) => if b < e then Trim(text[b..e]) else text
    case None => text
  }

  lemma {:induction false} ClosingFromFirst(s: string, from: nat, e: nat)
    requires from <= e <= |s| && ClosesAt(s, e)
    requires forall j :: from <= j < e ==> !ClosesAt(s, j)
    ensures ClosingFrom(s, from) == Some(e)
    decreases e - from
  {
    if from < e {
      assert ClosingFrom(s, from) == ClosingFrom(s, from + 1);
      ClosingFromFirst(s, from + 1, e);
    }
  }

  /** A reply that is just a `json` block around `body`. */
  function JsonBlock(body: string): string
  {
    "```json\n" + body + "\n```"
  }

  lemma JsonBlockLayout(body: string)
    ensures var s := JsonBlock(body);
      |s| == |body| + 12 && s[..3] == "```" && s[..7] == "```json" && s[7] == '\n'
      && s[8..8 + |body|] == body && s[8 + |body|] == '\n' && s[9 + |body|..] == "```"
  {
  }

  /** After the body's last character only the newline and the closing fence are left. */
  lemma ClosingAfterBody(body: string)
    requires body != [] && !IsSpace(body[|body| - 1])
    requires forall k :: 0 <= k < |body| ==> body[k] != '`'
    ensures ClosingFrom(JsonBlock(body), 8) == Some(8 + |body|)
  {
    var s := JsonBlock(body);
    var n := |body|;
    JsonBlockLayout(body);
    assert SpaceRunEnd(s, 9 + n) == 9 + n;
    assert SpaceRunEnd(s, 8 + n) == 9 + n;
    assert s[9 + n..][0] == s[9 + n] && s[9 + n..][1] == s[10 + n] && s[9 + n..][2] == s[11 + n];
    assert ClosesAt(s, 8 + n);
    forall j | 8 <= j < 8 + n ensures !ClosesAt(s, j) {
      var k := SpaceRunEnd(s, j);
      assert s[8 + n - 1] == body[n - 1];
      assert k < 8 + n;
      assert s[k] == body[k - 8];
    }
    ClosingFromFirst(s, 8, 8 + n);
  }

  /** A reply made of a `json` block around a trimmed body without backticks yields that body. */
  lemma QuestionFenceRoundTrip(body: string)
    requires body != [] && !IsSpace(body[0]) && !IsSpace(body[|body| - 1])
    requires forall k :: 0 <= k < |body| ==> body[k] != '`'
    ensures QuestionJsonText(JsonBlock(body)) == body
  {
    var s := JsonBlock(body);
    JsonBlockLayout(body);
    assert OccursAt(s, "```", 0) && OccursAt(s, "```json", 0);
    assert s[8] == body[0];
    assert SpaceRunEnd(s, 8) == 8;
    assert SpaceRunEnd(s, 7) == 8;
    ClosingAfterBody(body);
    assert QuestionFenceAt(s, 0) == Some((8, 8 + |body|));
    TrimFixedIff(body);
  }

  // ---------------------------------------------------------------------------
  // The fallback question

  datatype Question = Question(question: string, options: seq<string>, correctIndex: int, hint: string)

  const FallbackText := "If $f(x) = x^2 + 3x + 2$, what is $f(2)$?"
  const FallbackOptions := ["$8$", "$10$", "$12$", "$14$"]
  const FallbackHint := "Substitute x = 2 into the function and evaluate."

  /** The polynomial the fallback question is about. */
  function F(x: int): int
  {
    x * x + 3 * x + 2
  }

  /** The fallback question exactly as the source writes it: it marks option 1 as correct. */
  function FallbackQuestionAsWritten(): Question
  {
    Question(FallbackText, FallbackOptions, 1, FallbackHint)
  }

  /** The fallback has four options and marks option 1, "$10$", as correct, but f(2) is 12. */
  lemma FallbackAsWrittenMarksWrongAnswer()
    ensures var q := FallbackQuestionAsWritten();
      |q.options| == 4 && q.correctIndex == 1 && q.options[q.correctIndex] == "$10$"
      && F(2) == 12 && q.options[q.correctIndex] != "$" + NatToString(F(2)) + "$"
  {
    assert NatToString(12) == "12";
    assert ("$" + NatToString(F(2)) + "$")[2] == '2';
    assert "$10$"[2] == '0';
  }

  /** The fallback question with the index of the option that is the value of f(2). */
  function FallbackQuestion(): Question
  {
    Question(FallbackText, FallbackOptions, 2, FallbackHint)
  }

  /** Four options, the marked one is f(2), and it is the only option that is. */
  lemma FallbackQuestionCorrect()
    ensures var q := FallbackQuestion();
      |q.options| == 4 && 0 <= q.correctIndex < 4
      && q.options[q.correctIndex] == "$" + NatToString(F(2)) + "$"
      && forall i :: 0 <= i < 4 && i != q.correctIndex ==> q.options[i] != "$" + NatToString(F(2)) + "$"
  {
    assert NatToString(12) == "12";
  }

  // ---------------------------------------------------------------------------
  // `generateQuestion`

  /** The parsed question the model returned, or the fallback question. */
  datatype Outcome<J> = FromModel(data: J) | Fallback(question: Question)

  /** `ask` is the model (from prompt to reply, `None` when it throws) and `parse` is `JSON.parse`
      (`None` when it throws). */
  method Generate<J>(topic: string, difficulty: string, language: string, pdfContent: Option<string>,
                     ask: string -> Option<string>, parse: string -> Option<J>)
    returns (outcome: Outcome<J>, checks: nat)
    ensures ask(Prompt(topic, difficulty, language, pdfContent)).None? ==> outcome == Fallback(FallbackQuestionAsWritten())
    ensures ask(Prompt(topic, difficulty, language, pdfContent)).Some? ==>
      var safe := Sanitized(QuestionJsonText(ask(Prompt(topic, difficulty, language, pdfContent)).value),
                            s => parse(s).Some?);
      (outcome.FromModel? <==> parse(safe).Some?)
      && (outcome.FromModel? ==> outcome.data == parse(safe).value)
      && (outcome.Fallback? ==> outcome.question == FallbackQuestionAsWritten())
      && 1 <= checks <= 5
  {
    checks := 0;
    var reply := ask(Prompt(topic, difficulty, language, pdfContent));
    if reply.None? {
      return Fallback(FallbackQuestionAsWritten()), checks;
    }
    var jsonText := QuestionJsonText(reply.value);
    var safe;
    safe, checks := RobustSanitize(jsonText, s => parse(s).Some?);
    match parse(safe)
    case Some(data) =>
      outcome := FromModel(data);
    case None =>
      outcome := Fallback(FallbackQuestionAsWritten());
  }
}
