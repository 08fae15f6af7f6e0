/**
 * The server-side summary and extraction helpers: the browser placeholder summaries, the
 * truncation of the text put into the prompt, the cascade that decodes the model's reply into
 * summary sections, the zero vectors returned instead of an embedding, and the byte scan that
 * looks for text after each `stream` keyword when pdf.js cannot be used.
 *
 * The language model, `JSON.parse` and LangChain's structured output parser are not modelled:
 * the model's reply is an input, and each parser is a function parameter that says what it made
 * of a string (`NoParse` when it threw).
 */
module LangchainUtils {
  import opened Wrappers
  import opened Strings

  // ---------------------------------------------------------------------------
  // Browser branch: placeholder summaries

  const MockOpening := "This is a placeholder summary section "
  const MockClosing := ". The document processing is happening server-side, but we're showing this placeholder until it's complete."

  /** The placeholder for section `n` (counted from 1). */
  function MockSummary(n: nat): string
  {
    MockOpening + NatToString(n) + MockClosing
  }

  /** Numbers written in decimal are told apart by their text. */
  lemma NatToStringInjective(n: nat, m: nat)
    requires NatToString(n) == NatToString(m)
    ensures n == m
  {
    NatToStringValue(n);
    NatToStringValue(m);
  }

  /** Different sections get different placeholders: each one names its own section number. */
  lemma MockSummaryInjective(n: nat, m: nat)
    requires MockSummary(n) == MockSummary(m)
    ensures n == m
  {
    var a := NatToString(n);
    var b := NatToString(m);
    var s := MockSummary(n);
    assert |a| == |b|;
    assert a == s[|MockOpening|..|MockOpening| + |a|];
    assert b == MockSummary(m)[|MockOpening|..|MockOpening| + |b|];
    NatToStringInjective(n, m);
  }

  /** The loop that pushes one placeholder per requested section. */
  method MockSummaries(numSections: int) returns (summaries: seq<string>)
    ensures |summaries| == if numSections < 0 then 0 else numSections
    ensures forall i :: 0 <= i < |summaries| ==> summaries[i] == MockSummary(i + 1)
  {
    summaries := [];
    var i := 0;
    while i < numSections
      invariant 0 <= i <= (if numSections < 0 then 0 else numSections)
      invariant |summaries| == i
      invariant forall k :: 0 <= k < i ==> summaries[k] == MockSummary(k + 1)
      decreases numSections - i
    {
      summaries := summaries + [MockSummary(i + 1)];
      i := i + 1;
    }
  }

  // ---------------------------------------------------------------------------
  // The prompt

  const PromptLimit: nat := 12000

  /** The text placed into the prompt: at most 12000 code units, with "..." marking a cut. On
      text whose characters each take one code unit, the cut falls after 12000 characters. */
  function PromptText(text: string): (r: string)
    ensures Utf16Length(text) <= PromptLimit ==> r == text
    ensures Utf16Length(text) > PromptLimit ==> CutWithMarker(text, r, PromptLimit)
    ensures AllBmp(text) && |text| > PromptLimit ==>
      r == text[..PromptLimit] + "..."
  {
    TruncateBmp(text, PromptLimit);
    Truncate(text, PromptLimit)
  }

  // ---------------------------------------------------------------------------
  // What a parser made of a string

  /** The `summaries` field of a parsed object: an array, a non-array string, anything else,
      or no parse at all because the parser threw. */
  datatype Decoded = NoParse | SummariesArray(items: seq<string>) | SummariesString(text: string) | Other

  // ---------------------------------------------------------------------------
  // Splitting a joined summaries string: `split(/\n{2,}|\. /)`

  /** The end of the run of newlines starting at `i`. */
  function NewlineRunEnd(s: string, i: nat): (e: nat)
    requires i <= |s|
    ensures i <= e <= |s| && (e == |s| || s[e] != '\n')
    ensures forall k :: i <= k < e ==> s[k] == '\n'
    decreases |s| - i
  {
    if i < |s| && s[i] == '\n' then NewlineRunEnd(s, i + 1) else i
  }

  /** Where a separator match starting at `p` ends: a run of two or more newlines (taken whole,
      the quantifier being greedy) or a period followed by a space. */
  function SeparatorAt(s: string, p: nat): (r: Option<nat>)
    requires p <= |s|
    ensures r.Some? ==> p + 2 <= r.value <= |s|
    ensures r.Some? <==> OccursAt(s, "\n\n", p) || OccursAt(s, ". ", p)
  {
    if p + 1 < |s| && s[p] == '\n' && s[p + 1] == '\n' then Some(NewlineRunEnd(s, p))
    else if p + 1 < |s| && s[p] == '.' && s[p + 1] == ' ' then Some(p + 2)
    else None
  }

  /** The pieces from `start` on, the next separator being searched for from `p`. */
  function SplitFrom(s: string, start: nat, p: nat): (pieces: seq<string>)
    requires start <= p <= |s|
    ensures |pieces| >= 1
    decreases |s| - p
  {
    if p == |s| then [s[start..]]
    else
      match SeparatorAt(s, p)
      case Some(e) => [s[start..p]] + SplitFrom(s, e, e)
      case None => SplitFrom(s, start, p + 1)
  }

  function SummarySplit(s: string): seq<string>
  {
    SplitFrom(s, 0, 0)
  }

  /** No separator starts anywhere in `s[start..p]`, so none lies inside that piece. */
  lemma PieceLacksSeparators(s: string, start: nat, p: nat)
    requires start <= p <= |s|
    requires forall k :: start <= k < p ==> SeparatorAt(s, k).None?
    ensures !Contains(s[start..p], "\n\n") && !Contains(s[start..p], ". ")
  {
    var piece := s[start..p];
    ContainsIff(piece, "\n\n");
    ContainsIff(piece, ". ");
    forall j | 0 <= j && j + 2 <= |piece|
      ensures !OccursAt(piece, "\n\n", j) && !OccursAt(piece, ". ", j)
    {
      assert piece[j] == s[start + j] && piece[j + 1] == s[start + j + 1];
      assert SeparatorAt(s, start + j).None?;
    }
  }

  lemma {:induction false} SplitFromLacksSeparators(s: string, start: nat, p: nat)
    requires start <= p <= |s|
    requires forall k :: start <= k < p ==> SeparatorAt(s, k).None?
    ensures forall piece :: piece in SplitFrom(s, start, p) ==> !Contains(piece, "\n\n") && !Contains(piece, ". ")
    decreases |s| - p
  {
    if p == |s| {
      PieceLacksSeparators(s, start, p);
      assert s[start..p] == s[start..];
    } else {
      match SeparatorAt(s, p)
      case Some(e) =>
        PieceLacksSeparators(s, start, p);
        SplitFromLacksSeparators(s, e, e);
      case None =>
        SplitFromLacksSeparators(s, start, p + 1);
    }
  }

  /** No piece of the split holds a separator: every double newline and every ". " was cut at. */
  lemma SummarySplitLacksSeparators(s: string)
    ensures forall piece :: piece in SummarySplit(s) ==> !Contains(piece, "\n\n") && !Contains(piece, ". ")
  {
    SplitFromLacksSeparators(s, 0, 0);
  }

  /** A string holding no separator is left whole. */
  lemma {:induction false} SplitFromWhole(s: string, start: nat, p: nat)
    requires start <= p <= |s|
    requires forall k :: p <= k < |s| ==> SeparatorAt(s, k).None?
    ensures SplitFrom(s, start, p) == [s[start..]]
    decreases |s| - p
  {
    if p < |s| {
      SplitFromWhole(s, start, p + 1);
    }
  }

  lemma SummarySplitWhole(s: string)
    requires !Contains(s, "\n\n") && !Contains(s, ". ")
    ensures SummarySplit(s) == [s]
  {
    ContainsIff(s, "\n\n");
    ContainsIff(s, ". ");
    SplitFromWhole(s, 0, 0);
  }

  /** `.filter(s => s.trim().length > 30)`: the pieces longer than 30 code units once trimmed,
      in order and untrimmed. */
  function LongPieces(pieces: seq<string>): (kept: seq<string>)
  {
    if pieces == [] then []
    else LongPieces(pieces[..|pieces| - 1])
         + (if Utf16Length(Trim(pieces[|pieces| - 1])) > 30 then [pieces[|pieces| - 1]] else [])
  }

  /** A piece is kept exactly when its trimmed text is longer than 30 code units; nothing is
      added, and the kept pieces never outnumber the pieces. */
  lemma {:induction false} LongPiecesIff(pieces: seq<string>)
    ensures |LongPieces(pieces)| <= |pieces|
    ensures forall x :: x in LongPieces(pieces) <==> x in pieces && Utf16Length(Trim(x)) > 30
  {
    if pieces != [] {
      var front := pieces[..|pieces| - 1];
      LongPiecesIff(front);
      assert pieces == front + [pieces[|pieces| - 1]];
    }
  }

  /** What one parser's result contributes: an array is returned as it is, even empty and
      whatever `numSections` was; a non-empty string counts when at least two long pieces come
      out of it; anything else does not count. */
  function Accept(d: Decoded): Option<seq<string>>
  {
    match d
    case SummariesArray(items) => Some(items)
    case SummariesString(text) =>
      if text == "" then None
      else
        var kept := LongPieces(SummarySplit(text));
        if |kept| >= 2 then Some(kept) else None
    case _ => None
  }

  lemma AcceptSpec(d: Decoded)
    ensures d.SummariesArray? ==> Accept(d) == Some(d.items)
    ensures d.SummariesString? && Accept(d).Some? ==>
      |Accept(d).value| >= 2 && forall x :: x in Accept(d).value ==>
        x in SummarySplit(d.text) && Utf16Length(Trim(x)) > 30 && !Contains(x, "\n\n") && !Contains(x, ". ")
    ensures d.NoParse? || d.Other? ==> Accept(d).None?
  {
    if d.SummariesString? {
      LongPiecesIff(SummarySplit(d.text));
      SummarySplitLacksSeparators(d.text);
    }
  }

  // ---------------------------------------------------------------------------
  // The fenced block: `content.match(/```(?:json)?\n([\s\S]*?)\n```/)`

  /** Where the block's body starts if an opening fence begins at `p`: the optional `json` is
      tried first, and when it is present the plain opening cannot match at the same place. */
  function FenceOpening(s: string, p: nat): (r: Option<nat>)
    ensures r.Some? ==> p + 4 <= r.value <= |s| && OccursAt(s, "```", p)
  {
    if OccursAt(s, "```json\n", p) then
      assert s[p..p + 3] == s[p..p + 8][..3];
      Some(p + 8)
    else if OccursAt(s, "```\n", p) then
      assert s[p..p + 3] == s[p..p + 4][..3];
      Some(p + 4)
    else None
  }

  /** The leftmost match at or after `p`: the body's bounds, the body being as short as
      possible (the lazy `*?`), i.e. ending at the first "\n```" after the opening. */
  function FenceFrom(s: string, p: nat): (r: Option<(nat, nat)>)
    ensures r.Some? ==> r.value.0 <= r.value.1 <= |s| && OccursAt(s, "\n```", r.value.1)
    decreases |s| - p
  {
    if p >= |s| then None
    else
      match FenceOpening(s, p)
      case Some(b) =>
        (match IndexOfFrom(s, "\n```", b)
         case Some(q) => Some((b, q))
         case None => FenceFrom(s, p + 1))
      case None => FenceFrom(s, p + 1)
  }

  /** The captured group of the first fenced block, if the content has one. */
  function FenceBody(s: string): Option<string>
  {
    match FenceFrom(s, 0)
    case Some((b, q)) => Some(s[b..q])
    case None => None
  }

  /** What is handed to `JSON.parse`: the trimmed body of the block, or the whole content. */
  function JsonCandidate(content: string): string
  {
    match FenceBody(content)
    case Some(body) => Trim(body)
    case None => content
  }

  /** A block is only ever found in content that contains a fence. */
  lemma {:induction false} FenceFromNeedsFence(s: string, p: nat)
    ensures FenceFrom(s, p).Some? ==> Contains(s, "```")
    decreases |s| - p
  {
    if p < |s| {
      match FenceOpening(s, p)
      case Some(b) =>
        ContainsIff(s, "```");
        FenceFromNeedsFence(s, p + 1);
      case None =>
        FenceFromNeedsFence(s, p + 1);
    }
  }

  /** "\n```" can only occur in `body + "\n```" + rest` inside the body or where it was put. */
  lemma FirstClosing(body: string, rest: string)
    requires !Contains(body, "\n```")
    ensures IndexOfFrom(body + "\n```" + rest, "\n```", 0) == Some(|body|)
  {
    var s := body + "\n```" + rest;
    OccursInConcat(body, "\n```", rest);
    ContainsIff(body, "\n```");
    forall j | 0 <= j < |body| ensures !OccursAt(s, "\n```", j) {
      if j + 4 <= |body| {
        assert body[j..j + 4] == s[j..j + 4];
        assert !OccursAt(body, "\n```", j);
      } else if j + 4 <= |s| {
        assert s[j..j + 4][|body| - j] == s[|body|] == '\n';
      }
    }
    var r := IndexOfFrom(s, "\n```", 0);
    assert r.Some? && r.value == |body|;
  }

  /** Wrapping a body that holds no closing fence in a `json` block and reading it back gives the
      body: the block's text is what the model put between the fences. */
  lemma FenceRoundTrip(body: string, rest: string)
    requires !Contains(body, "\n```")
    ensures FenceBody("```json\n" + body + "\n```" + rest) == Some(body)
  {
    var s := "```json\n" + body + "\n```" + rest;
    assert OccursAt(s, "```json\n", 0) by {
      assert s[0..8] == "```json\n";
    }
    var t := s[8..];
    assert t == body + "\n```" + rest;
    FirstClosing(body, rest);
    IndexOfShift(s, "\n```", 8, |body|);
    assert s[8..8 + |body|] == body;
  }

  /** Searching from `k` in `s` is searching from 0 in `s[k..]`, shifted. */
  lemma IndexOfShift(s: string, pat: string, k: nat, i: nat)
    requires k <= |s|
    requires IndexOfFrom(s[k..], pat, 0) == Some(i)
    ensures IndexOfFrom(s, pat, k) == Some(k + i)
  {
    var t := s[k..];
    assert OccursAt(t, pat, i);
    assert s[k + i..k + i + |pat|] == t[i..i + |pat|];
    forall j | k <= j < k + i ensures !OccursAt(s, pat, j) {
      if OccursAt(s, pat, j) {
        assert t[j - k..j - k + |pat|] == s[j..j + |pat|];
        assert OccursAt(t, pat, j - k);
      }
    }
    IndexOfFromFirst(s, pat, k, k + i);
  }

  /** `indexOf` returns the first occurrence at or after its start. */
  lemma {:induction false} IndexOfFromFirst(s: string, pat: string, from: nat, i: nat)
    requires from <= i && OccursAt(s, pat, i)
    requires forall j :: from <= j < i ==> !OccursAt(s, pat, j)
    ensures IndexOfFrom(s, pat, from) == Some(i)
    decreases i - from
  {
    if from < i {
      assert !OccursAt(s, pat, from);
      IndexOfFromFirst(s, pat, from + 1, i);
    }
  }

  // ---------------------------------------------------------------------------
  // Numbered sections: `content.match(/\d+\.\s+([^\d]+?)(?=\n\d+\.|$)/g)`

  /** The end of the run of digits starting at `i`. */
  function DigitRunEnd(s: string, i: nat): (e: nat)
    requires i <= |s|
    ensures i <= e <= |s| && (e == |s| || !IsDigit(s[e]))
    ensures forall k :: i <= k < e ==> IsDigit(s[k])
    decreases |s| - i
  {
    if i < |s| && IsDigit(s[i]) then DigitRunEnd(s, i + 1) else i
  }

  /** `(?=\n\d+\.|$)` at `e`: the end of the content, or a newline, digits and a period. Giving
      back digits cannot help `\d+\.`, since a digit is never a period, so the longest run is
      the only one to try. */
  predicate NextSectionOrEnd(s: string, e: nat)
    requires e <= |s|
  {
    e == |s|
    || (s[e] == '\n' && e + 1 < |s| && IsDigit(s[e + 1])
        && DigitRunEnd(s, e + 1) < |s| && s[DigitRunEnd(s, e + 1)] == '.')
  }

  /** The lazy `[^\d]+?` with body `s[b..e]` so far: stop at the first end the lookahead
      accepts, otherwise take one more character if it is not a digit. */
  function LazyBodyEnd(s: string, b: nat, e: nat): (r: Option<nat>)
    requires b < e <= |s|
    ensures r.Some? ==> e <= r.value <= |s| && NextSectionOrEnd(s, r.value)
    decreases |s| - e
  {
    if NextSectionOrEnd(s, e) then Some(e)
    else if e < |s| && !IsDigit(s[e]) then LazyBodyEnd(s, b, e + 1)
    else None
  }

  /** The body starting at `b`: at least one non-digit. */
  function BodyEnd(s: string, b: nat): (r: Option<nat>)
    requires b <= |s|
    ensures r.Some? ==> b < r.value <= |s|
  {
    if b < |s| && !IsDigit(s[b]) then LazyBodyEnd(s, b, b + 1) else None
  }

  /** `\s+` after the period at `a - 1`: the longest run first, then shorter ones, down to one
      white-space character, as backtracking tries them. */
  function TryBodies(s: string, a: nat, b: nat): (r: Option<nat>)
    requires a < b <= |s|
    ensures r.Some? ==> a + 1 < r.value <= |s|
    decreases b
  {
    match BodyEnd(s, b)
    case Some(e) => Some(e)
    case None => if b - 1 > a then TryBodies(s, a, b - 1) else None
  }

  /** The end of a match starting at `p`, if there is one. Giving back digits of the leading
      `\d+` cannot help, for the same reason as in the lookahead. */
  function MatchAt(s: string, p: nat): (r: Option<nat>)
    requires p <= |s|
    ensures r.Some? ==> p + 3 < r.value + 1 <= |s| + 1 && IsDigit(s[p])
  {
    if p < |s| && IsDigit(s[p]) then
      var d := DigitRunEnd(s, p);
      if d < |s| && s[d] == '.' then
        var w := SpaceRunEnd(s, d + 1);
        if w > d + 1 then TryBodies(s, d + 1, w) else None
      else None
    else None
  }

  /** The global match from `p` on: each match is taken whole and the search resumes at its end. */
  function MatchesFrom(s: string, p: nat): (ms: seq<string>)
    requires p <= |s|
    ensures forall m :: m in ms ==> |m| >= 3 && IsDigit(m[0])
    decreases |s| - p
  {
    if p == |s| then []
    else
      match MatchAt(s, p)
      case Some(e) => [s[p..e]] + MatchesFrom(s, e)
      case None => MatchesFrom(s, p + 1)
  }

  function TrimAll(ms: seq<string>): (r: seq<string>)
    ensures |r| == |ms| && forall i :: 0 <= i < |ms| ==> r[i] == Trim(ms[i])
  {
    if ms == [] then [] else [Trim(ms[0])] + TrimAll(ms[1..])
  }

  /** `(content.match(...) || []).map(section => section.trim())` */
  function NumberedSections(content: string): seq<string>
  {
    TrimAll(MatchesFrom(content, 0))
  }

  /** Trimming a match leaves it starting with its number. */
  lemma TrimmedMatch(m: string)
    requires m != [] && IsDigit(m[0])
    ensures Trim(Trim(m)) == Trim(m) && Trim(m) != [] && IsDigit(Trim(m)[0])
  {
    DigitIsNotSpace(m[0]);
    TrimKeepsFirst(m);
    TrimIdempotent(m);
  }

  /** Every section is trimmed and starts with its number. */
  lemma NumberedSectionsShape(content: string)
    ensures forall sec :: sec in NumberedSections(content) ==>
      Trim(sec) == sec && sec != [] && IsDigit(sec[0])
  {
    var ms := MatchesFrom(content, 0);
    var secs := NumberedSections(content);
    forall i | 0 <= i < |secs|
      ensures Trim(secs[i]) == secs[i] && secs[i] != [] && IsDigit(secs[i][0])
    {
      assert ms[i] in ms;
      TrimmedMatch(ms[i]);
    }
  }

  /** The lazy body from `e` on holds no digit up to where it stops. */
  lemma {:induction false} LazyBodyNoDigit(s: string, b: nat, e: nat)
    requires b < e <= |s|
    ensures LazyBodyEnd(s, b, e).Some? ==>
      forall k :: e <= k < LazyBodyEnd(s, b, e).value ==> !IsDigit(s[k])
    decreases |s| - e
  {
    if !NextSectionOrEnd(s, e) && e < |s| && !IsDigit(s[e]) {
      LazyBodyNoDigit(s, b, e + 1);
    }
  }

  /** Whichever white-space run backtracking settles on, nothing from `a` to the end of the
      body is a digit. */
  lemma {:induction false} TryBodiesNoDigit(s: string, a: nat, b: nat)
    requires a < b <= |s|
    requires forall k :: a <= k < b ==> IsSpace(s[k])
    ensures TryBodies(s, a, b).Some? ==>
      forall k :: a <= k < TryBodies(s, a, b).value ==> !IsDigit(s[k])
    decreases b
  {
    if BodyEnd(s, b).Some? {
      LazyBodyNoDigit(s, b, b + 1);
    } else if b - 1 > a {
      TryBodiesNoDigit(s, a, b - 1);
    }
  }

  /** A match is a number, a period, white space and a body without digits, and it ends at
      the end of the text or just before a newline, a number and a period. */
  lemma MatchAtSpec(s: string, p: nat)
    requires p <= |s|
    ensures MatchAt(s, p).Some? ==>
      var e, d := MatchAt(s, p).value, DigitRunEnd(s, p);
      p < d < e && s[d] == '.' && IsSpace(s[d + 1]) && NextSectionOrEnd(s, e)
      && forall k :: d < k < e ==> !IsDigit(s[k])
  {
    if MatchAt(s, p).Some? {
      var d := DigitRunEnd(s, p);
      var w := SpaceRunEnd(s, d + 1);
      TryBodiesNoDigit(s, d + 1, w);
      TryBodiesEnd(s, d + 1, w);
    }
  }

  /** Backtracking only ever returns an end the lookahead accepts. */
  lemma {:induction false} TryBodiesEnd(s: string, a: nat, b: nat)
    requires a < b <= |s|
    ensures TryBodies(s, a, b).Some? ==> NextSectionOrEnd(s, TryBodies(s, a, b).value)
    decreases b
  {
    if BodyEnd(s, b).None? && b - 1 > a {
      TryBodiesEnd(s, a, b - 1);
    }
  }

  /** A match of the global search runs from `i` to `e`. */
  predicate SectionAt(s: string, i: nat, e: nat)
  {
    i <= e <= |s| && MatchAt(s, i) == Some(e)
  }

  /** `m` is the text of a match at or after `p`. */
  predicate MatchedFrom(s: string, m: string, p: nat)
  {
    exists i: nat, e: nat :: p <= i <= e <= |s| && SectionAt(s, i, e) && m == s[i..e]
  }

  /** `sec` is the trimmed text of a match. */
  predicate TrimmedMatchOf(s: string, sec: string)
  {
    exists i: nat, e: nat :: i <= e <= |s| && SectionAt(s, i, e) && sec == Trim(s[i..e])
  }

  /** Every match the global search returns from `p` on is a match at some position. */
  lemma {:induction false} MatchesFromAt(s: string, p: nat)
    requires p <= |s|
    ensures forall m :: m in MatchesFrom(s, p) ==> MatchedFrom(s, m, p)
    decreases |s| - p
  {
    if p < |s| {
      match MatchAt(s, p)
      case Some(e) =>
        MatchesFromAt(s, e);
        assert SectionAt(s, p, e);
        assert MatchedFrom(s, s[p..e], p);
      case None =>
        MatchesFromAt(s, p + 1);
    }
  }

  /** Each numbered section is a trimmed match: its number and period, then text without
      digits up to the next numbered line or the end of the content (see `MatchAtSpec`). */
  lemma NumberedSectionsAreMatches(content: string)
    ensures forall sec :: sec in NumberedSections(content) ==> TrimmedMatchOf(content, sec)
  {
    var ms := MatchesFrom(content, 0);
    var secs := NumberedSections(content);
    MatchesFromAt(content, 0);
    forall j | 0 <= j < |secs| ensures TrimmedMatchOf(content, secs[j])
    {
      assert ms[j] in ms;
      TrimMatched(content, ms[j]);
    }
  }

  lemma TrimMatched(s: string, m: string)
    requires MatchedFrom(s, m, 0)
    ensures TrimmedMatchOf(s, Trim(m))
  {
    var i: nat, e: nat :| i <= e <= |s| && SectionAt(s, i, e) && m == s[i..e];
    assert Trim(m) == Trim(s[i..e]);
  }

  /** Without digits ahead, the lazy body runs to the end of the content. */
  lemma {:induction false} LazyBodyToEnd(s: string, b: nat, e: nat)
    requires b < e <= |s|
    requires forall k :: e <= k < |s| ==> !IsDigit(s[k])
    ensures LazyBodyEnd(s, b, e) == Some(|s|)
    decreases |s| - e
  {
    if e < |s| {
      LazyBodyToEnd(s, b, e + 1);
    }
  }

  /** A single numbered item with no other digits is one section, running to the end. */
  lemma SingleSection(body: string)
    requires body != [] && !IsSpace(body[0])
    requires forall k :: 0 <= k < |body| ==> !IsDigit(body[k])
    ensures NumberedSections("1. " + body) == [Trim("1. " + body)]
  {
    var s := "1. " + body;
    assert s[0] == '1' && s[1] == '.' && s[2] == ' ' && s[3] == body[0];
    assert DigitRunEnd(s, 1) == 1 && DigitRunEnd(s, 0) == 1;
    assert SpaceRunEnd(s, 3) == 3 && SpaceRunEnd(s, 2) == 3;
    LazyBodyToEnd(s, 3, 4);
    assert TryBodies(s, 2, 3) == BodyEnd(s, 3) == Some(|s|);
    assert MatchAt(s, 0) == Some(|s|);
    assert s[0..|s|] == s;
    assert MatchesFrom(s, 0) == [s];
  }

  // ---------------------------------------------------------------------------
  // The decoding cascade

  const NoSummaryMessage := "No summary could be generated for this document. Please try again with a different PDF."
  const ErrorPrefix := "Error generating summaries: "

  /** First try: `JSON.parse` of the fenced block (or of the whole content), only when the
      content contains a fence. */
  function FencedTry(content: string, jsonParse: string -> Decoded): Option<seq<string>>
  {
    if Contains(content, "```") then Accept(jsonParse(JsonCandidate(content))) else None
  }

  /** Third try: numbered sections, only when "1." and "2." both occur, and only if there are at
      least three of them. */
  function NumberedTry(content: string): (r: Option<seq<string>>)
  {
    if Contains(content, "1.") && Contains(content, "2.") then
      var sections := NumberedSections(content);
      if |sections| >= 3 then Some(sections) else None
    else None
  }

  /** The whole cascade over the model's reply; `structuredParse` is LangChain's parser. */
  function DecodeSummaries(content: string, jsonParse: string -> Decoded, structuredParse: string -> Decoded): seq<string>
  {
    match FencedTry(content, jsonParse)
    case Some(r) => r
    case None =>
      match Accept(structuredParse(content))
      case Some(r) => r
      case None =>
        match NumberedTry(content)
        case Some(r) => r
        case None => [NoSummaryMessage]
  }

  /** A decoded array is returned as it is, without truncation, from whichever parser produced
      it first. */
  lemma DecodedArrayReturned(content: string, jsonParse: string -> Decoded, structuredParse: string -> Decoded)
    ensures Contains(content, "```") && jsonParse(JsonCandidate(content)).SummariesArray? ==>
      DecodeSummaries(content, jsonParse, structuredParse) == jsonParse(JsonCandidate(content)).items
    ensures FencedTry(content, jsonParse).None? && structuredParse(content).SummariesArray? ==>
      DecodeSummaries(content, jsonParse, structuredParse) == structuredParse(content).items
  {
  }

  /** The result is empty only when a parser returned an empty array: every other way out
      yields at least one section. */
  lemma DecodeEmptyOnlyFromArray(content: string, jsonParse: string -> Decoded, structuredParse: string -> Decoded)
    ensures DecodeSummaries(content, jsonParse, structuredParse) == [] ==>
      (Contains(content, "```") && jsonParse(JsonCandidate(content)) == SummariesArray([]))
      || structuredParse(content) == SummariesArray([])
  {
    var d1 := jsonParse(JsonCandidate(content));
    var d2 := structuredParse(content);
    AcceptSpec(d1);
    AcceptSpec(d2);
  }

  /** When neither parser yields anything usable, the numbered sections are used if there are
      at least three, each trimmed and starting with its number; otherwise the fixed message. */
  lemma NumberedFallback(content: string, jsonParse: string -> Decoded, structuredParse: string -> Decoded)
    requires FencedTry(content, jsonParse).None? && Accept(structuredParse(content)).None?
    ensures var r := DecodeSummaries(content, jsonParse, structuredParse);
      (r == [NoSummaryMessage] && NumberedTry(content).None?)
      || (Contains(content, "1.") && Contains(content, "2.") && |r| >= 3
          && forall sec :: sec in r ==> Trim(sec) == sec && sec != [] && IsDigit(sec[0]))
    ensures !(Contains(content, "1.") && Contains(content, "2.")) ==>
      DecodeSummaries(content, jsonParse, structuredParse) == [NoSummaryMessage]
  {
    NumberedSectionsShape(content);
  }

  /** The model's reply, or the error that `invoke` (or the API key lookup) threw. */
  datatype Reply = Failed(message: string) | Content(text: string)

  /** The server branch once the reply is known. */
  function ServerSummaries(reply: Reply, jsonParse: string -> Decoded, structuredParse: string -> Decoded): seq<string>
  {
    match reply
    case Failed(message) => [ErrorPrefix + message]
    case Content(text) => DecodeSummaries(text, jsonParse, structuredParse)
  }

  /** `generateSummariesWithLangChain`: placeholders in the browser; on the server the model is
      asked about the truncated text (`ask` stands for formatting the prompt and invoking the
      model) and its reply is decoded. */
  method GenerateSummaries(isBrowser: bool, text: string, numSections: int, ask: string -> Reply,
                           jsonParse: string -> Decoded, structuredParse: string -> Decoded)
    returns (summaries: seq<string>)
    ensures isBrowser ==>
      (|summaries| == (if numSections < 0 then 0 else numSections)
       && forall i :: 0 <= i < |summaries| ==> summaries[i] == MockSummary(i + 1))
    ensures !isBrowser ==> summaries == ServerSummaries(ask(PromptText(text)), jsonParse, structuredParse)
  {
    if isBrowser {
      summaries := MockSummaries(numSections);
      return;
    }
    var reply := ask(PromptText(text));
    summaries := ServerSummaries(reply, jsonParse, structuredParse);
  }

  // ---------------------------------------------------------------------------
  // Embeddings

  const EmbeddingSize: nat := 1536

  function Zeros(n: nat): (v: seq<real>)
    ensures |v| == n && forall i :: 0 <= i < n ==> v[i] == 0.0
  {
    if n == 0 then [] else Zeros(n - 1) + [0.0]
  }

  /** `generateEmbedding`: the model's vector (`embedded`, `None` when the call threw) on the
      server with a key; a zero vector of OpenAI's width in the browser, without a key, or after
      an error. */
  function GenerateEmbedding(isBrowser: bool, hasKey: bool, embedded: Option<seq<real>>): (v: seq<real>)
    ensures !isBrowser && hasKey && embedded.Some? ==> v == embedded.value
    ensures isBrowser || !hasKey || embedded.None? ==> |v| == EmbeddingSize && forall i :: 0 <= i < |v| ==> v[i] == 0.0
  {
    if isBrowser || !hasKey then Zeros(EmbeddingSize)
    else match embedded
      case Some(v) => v
      case None => Zeros(EmbeddingSize)
  }

  // ---------------------------------------------------------------------------
  // The byte scan

  /** The bytes of "stream" start at `i`. */
  predicate StreamAt(b: seq<bv8>, i: nat)
  {
    i + 6 <= |b| && b[i] == 115 && b[i + 1] == 116 && b[i + 2] == 114
    && b[i + 3] == 101 && b[i + 4] == 97 && b[i + 5] == 109
  }

  predicate PrintableByte(x: bv8)
  {
    32 <= x <= 126
  }

  predicate PrintableChar(c: char)
  {
    32 <= c as int <= 126
  }

  /** The printable bytes of `w` as characters, in order; every other byte is skipped. */
  function Printable(w: seq<bv8>): (t: string)
    ensures |t| <= |w|
    ensures forall k :: 0 <= k < |t| ==> PrintableChar(t[k])
  {
    if w == [] then ""
    else Printable(w[..|w| - 1])
         + (if PrintableByte(w[|w| - 1]) then [(w[|w| - 1] as int) as char] else "")
  }

  lemma {:induction false} PrintableAppend(u: seq<bv8>, w: seq<bv8>)
    ensures Printable(u + w) == Printable(u) + Printable(w)
    decreases |w|
  {
    if w == [] {
      assert u + w == u;
    } else {
      var w' := w[..|w| - 1];
      assert (u + w)[..|u + w| - 1] == u + w';
      PrintableAppend(u, w');
    }
  }

  /** A non-printable byte ends nothing: the scan carries on after it. */
  lemma PrintableSkipsOthers(u: seq<bv8>, x: bv8, w: seq<bv8>)
    requires !PrintableByte(x)
    ensures Printable(u + [x] + w) == Printable(u) + Printable(w)
  {
    var ux := u + [x];
    PrintableAppend(ux, w);
    PrintableAppend(u, [x]);
    assert [x][..0] == [];
    assert Printable([x]) == "";
  }

  /** How many positions the outer loop visits: `i < length - 7`. */
  function ScanLimit(b: seq<bv8>): nat
  {
    if |b| > 7 then |b| - 7 else 0
  }

  /** The bytes copied after a marker at `i`: from `i + 6` up to `min(i + 1000, length)`. */
  function Window(b: seq<bv8>, i: nat): seq<bv8>
    requires i < ScanLimit(b)
  {
    b[i + 6..if i + 1000 < |b| then i + 1000 else |b|]
  }

  /** The text after visiting positions `0..n-1`. */
  function ScanText(b: seq<bv8>, n: nat): string
    requires n <= ScanLimit(b)
  {
    if n == 0 then ""
    else ScanText(b, n - 1) + (if StreamAt(b, n - 1) then Printable(Window(b, n - 1)) else "")
  }

  function Scan(b: seq<bv8>): string
  {
    ScanText(b, ScanLimit(b))
  }

  /** The nested loops of `fallbackPDFExtraction`. */
  method ByteScan(b: seq<bv8>) returns (text: string)
    ensures text == Scan(b)
  {
    text := "";
    var i := 0;
    while i < |b| - 7
      invariant 0 <= i <= ScanLimit(b)
      invariant text == ScanText(b, i)
    {
      if b[i] == 115 && b[i + 1] == 116 && b[i + 2] == 114 && b[i + 3] == 101 && b[i + 4] == 97 && b[i + 5] == 109 {
        var stop := if i + 1000 < |b| then i + 1000 else |b|;
        var j := i + 6;
        while j < stop
          invariant i + 6 <= j <= stop
          invariant text == ScanText(b, i) + Printable(b[i + 6..j])
        {
          PrintableSnoc(b, i + 6, j);
          if b[j] >= 32 && b[j] <= 126 {
            text := text + [(b[j] as int) as char];
          }
          j := j + 1;
        }
        assert b[i + 6..j] == Window(b, i);
      }
      i := i + 1;
    }
  }

  /** One more byte of a window, as the inner loop takes it. */
  lemma PrintableSnoc(b: seq<bv8>, lo: nat, j: nat)
    requires lo <= j < |b|
    ensures Printable(b[lo..j + 1])
         == Printable(b[lo..j]) + (if PrintableByte(b[j]) then [(b[j] as int) as char] else "")
  {
    assert b[lo..j + 1][..j - lo] == b[lo..j];
  }

  /** Everything the scan copies is printable ASCII. */
  lemma {:induction false} ScanTextPrintable(b: seq<bv8>, n: nat)
    requires n <= ScanLimit(b)
    ensures forall k :: 0 <= k < |ScanText(b, n)| ==> PrintableChar(ScanText(b, n)[k])
  {
    if n > 0 {
      ScanTextPrintable(b, n - 1);
    }
  }

  /** Buffers shorter than 8 bytes yield nothing; longer ones never yield more than 994
      characters per visited position. */
  lemma {:induction false} ScanTextBound(b: seq<bv8>, n: nat)
    requires n <= ScanLimit(b)
    ensures |ScanText(b, n)| <= 994 * n
  {
    if n > 0 {
      ScanTextBound(b, n - 1);
    }
  }

  lemma ScanShape(b: seq<bv8>)
    ensures forall k :: 0 <= k < |Scan(b)| ==> PrintableChar(Scan(b)[k])
    ensures |b| < 8 ==> Scan(b) == ""
    ensures |Scan(b)| <= 994 * ScanLimit(b)
    ensures Utf16Length(Scan(b)) == |Scan(b)|
  {
    ScanTextPrintable(b, ScanLimit(b));
    ScanTextBound(b, ScanLimit(b));
  }

  /** The bytes of "streamstreamAA". */
  const DoubleMarker: seq<bv8> := [115, 116, 114, 101, 97, 109, 115, 116, 114, 101, 97, 109, 65, 65]

  lemma SecondWindow()
    ensures ScanLimit(DoubleMarker) == 7
    ensures Printable(Window(DoubleMarker, 6)) == "AA"
  {
    var b := DoubleMarker;
    assert Window(b, 6) == b[12..14];
    PrintableSnoc(b, 12, 12);
    PrintableSnoc(b, 12, 13);
  }

  /** The second marker, read as a window's first six bytes, is copied as it is. */
  lemma SecondMarkerPrintable()
    ensures Printable(DoubleMarker[6..12]) == "stream"
  {
    var b := DoubleMarker;
    PrintableSnoc(b, 6, 6);
    PrintableSnoc(b, 6, 7);
    PrintableSnoc(b, 6, 8);
    assert Printable(b[6..9]) == "str";
    PrintableSnoc(b, 6, 9);
    PrintableSnoc(b, 6, 10);
    PrintableSnoc(b, 6, 11);
  }

  lemma FirstWindow()
    ensures Printable(Window(DoubleMarker, 0)) == "streamAA"
  {
    var b := DoubleMarker;
    assert Window(b, 0) == b[6..14];
    SecondMarkerPrintable();
    PrintableSnoc(b, 6, 12);
    PrintableSnoc(b, 6, 13);
  }

  /** Windows that overlap are copied again: in "streamstreamAA" the first marker's window
      already holds the second marker and its window, so "AA" comes out twice. */
  lemma OverlappingWindowsRepeat()
    ensures Scan(DoubleMarker) == "streamAAAA"
  {
    var b := DoubleMarker;
    FirstWindow();
    SecondWindow();
    assert StreamAt(b, 0) && StreamAt(b, 6);
    assert !StreamAt(b, 1) && !StreamAt(b, 2) && !StreamAt(b, 3) && !StreamAt(b, 4) && !StreamAt(b, 5);
    assert ScanText(b, 1) == "streamAA";
    assert ScanText(b, 2) == "streamAA";
    assert ScanText(b, 3) == "streamAA";
    assert ScanText(b, 4) == "streamAA";
    assert ScanText(b, 5) == "streamAA";
    assert ScanText(b, 6) == "streamAA";
    assert ScanText(b, 7) == "streamAAAA";
  }

  const MeaningfulLength: nat := 100

  /** `fallbackPDFExtraction`: `bytes` is the file's content, `None` when reading it threw. */
  method FallbackExtraction(name: string, bytes: Option<seq<bv8>>) returns (text: string)
    ensures bytes.None? ==> text == "Could not extract text from " + name
    ensures bytes.Some? && Utf16Length(Scan(bytes.value)) > MeaningfulLength ==> text == Scan(bytes.value)
    ensures bytes.Some? && Utf16Length(Scan(bytes.value)) <= MeaningfulLength ==>
      text == "Could not extract meaningful text from " + name
  {
    if bytes.None? {
      return "Could not extract text from " + name;
    }
    var scanned := ByteScan(bytes.value);
    text := if Utf16Length(scanned) > MeaningfulLength then scanned else "Could not extract meaningful text from " + name;
  }
}
