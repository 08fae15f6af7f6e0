/**
 * The browser-facing PDF helpers: where text extraction runs (pdf.js in the
 * browser, or the server's extraction endpoint), and the simple summary
 * generator that either asks the server's summarize endpoint or asks the
 * language model itself and cuts its reply into paragraphs.
 *
 * pdf.js, `fetch` and the language model are inputs: an `Option` whose `None`
 * stands for the call throwing (or, for `fetch`, an error status), or a
 * function from the request to such an `Option`.
 */
module PdfUtils {
  import opened Wrappers
  import opened Strings
  import opened PdfText

  /** Files above 5 MiB are always sent to the server. */
  const ServerThreshold: nat := 5 * 1024 * 1024

  /** The routing rule of `extractTextFromPDF`: outside a browser, on request, or for a
      large file, extraction is done by the server endpoint; otherwise by pdf.js in the page. */
  predicate UsesServer(isBrowser: bool, useServerApi: bool, size: nat)
    ensures !isBrowser || size > ServerThreshold ==> UsesServer(isBrowser, useServerApi, size)
    ensures useServerApi ==> UsesServer(isBrowser, useServerApi, size)
    ensures isBrowser && !useServerApi && size <= ServerThreshold ==> !UsesServer(isBrowser, useServerApi, size)
  {
    !isBrowser || useServerApi || size > ServerThreshold
  }

  /** What `extractTextFromPDF` settles to: its text, or the message of the error it throws. */
  datatype Extraction = Extracted(text: string) | Failed(message: string)

  const ClientFailure := "Failed to extract text from PDF"
  const ServerFailure := "Failed to extract text from PDF using server API"

  /** `extractTextFromPDF`. `pages` is what pdf.js reads from the file (`None` when loading
      or reading any page throws); `serverText` is the endpoint's `text` field (`None` when
      the request or its JSON fails, or the status is not ok). */
  method ExtractTextFromPdf(isBrowser: bool, useServerApi: bool, size: nat,
                            pages: Option<seq<Page>>, serverText: Option<string>)
    returns (r: Extraction)
    ensures UsesServer(isBrowser, useServerApi, size) ==>
      r == (if serverText.Some? then Extracted(serverText.value) else Failed(ServerFailure))
    ensures !UsesServer(isBrowser, useServerApi, size) ==>
      r == (if pages.Some? then Extracted(NaiveText(pages.value)) else Failed(ClientFailure))
  {
    if !isBrowser || useServerApi || size > ServerThreshold {
      match serverText {
        case None => r := Failed(ServerFailure);
        case Some(text) => r := Extracted(text);
      }
      return;
    }
    match pages {
      case None =>
        r := Failed(ClientFailure);
      case Some(ps) =>
        var fullText := JoinPages(ps);
        r := Extracted(fullText);
    }
  }

  /** The reply text sent to the model is cut after this many characters. */
  const ClientLimit: nat := 15000

  const FailedMessage := "Failed to generate summary. Please try again later."
  const NoSummaryMessage := "No summary could be generated for this document."
  const ParagraphBreak := "\n\n"

  /** How a JavaScript number that is a whole number prints. */
  function IntToString(n: int): (r: string)
    ensures r != []
    ensures n >= 0 ==> r == NatToString(n)
    ensures n < 0 ==> r == "-" + NatToString(-n)
  {
    if n >= 0 then NatToString(n) else "-" + NatToString(-n)
  }

  const PromptOpening := "\n    Extract the "
  const PromptInstructions := " most important key points from the PDF document text below.\n    Create self-contained flashcards that someone could study to learn the material.\n    Each flashcard should focus on a single concept, fact, or idea from the document.\n    Write each flashcard as a concise, standalone statement that captures essential information.\n    Don't use bullet points or numbering.\n    \n    TEXT FROM PDF:\n    "
  const PromptClosing := "\n    "

  function PromptHead(numSummaries: int): string
  {
    PromptOpening + IntToString(numSummaries) + PromptInstructions
  }

  /** The prompt of the browser-side summary: the instructions, then the text, cut to
      15000 code units plus "..." when it is longer. */
  function ClientPrompt(text: string, numSummaries: int): string
  {
    PromptHead(numSummaries) + Truncate(text, ClientLimit) + PromptClosing
  }

  /** The prompt carries the whole text when it fits in 15000 code units, and otherwise the
      longest prefix that fits and the cut marker; on text whose characters each take one code
      unit, that prefix is the first 15000 characters. */
  lemma ClientPromptCarriesText(text: string, numSummaries: int)
    ensures Contains(ClientPrompt(text, numSummaries), Truncate(text, ClientLimit))
    ensures Utf16Length(text) <= ClientLimit ==> Contains(ClientPrompt(text, numSummaries), text)
    ensures AllBmp(text) && |text| > ClientLimit ==>
      Contains(ClientPrompt(text, numSummaries), text[..ClientLimit] + "...")
  {
    OccursInConcat(PromptHead(numSummaries), Truncate(text, ClientLimit), PromptClosing);
    QuotedCutBmp(ClientPrompt(text, numSummaries), text, ClientLimit);
  }

  /** The prompt names the number of points asked for. */
  lemma ClientPromptCarriesCount(text: string, numSummaries: int)
    ensures Contains(ClientPrompt(text, numSummaries), IntToString(numSummaries))
  {
    var count := IntToString(numSummaries);
    var head := PromptHead(numSummaries);
    OccursInConcat(PromptOpening, count, PromptInstructions);
    OccursExtend(head, Truncate(text, ClientLimit), count, |PromptOpening|);
    OccursExtend(head + Truncate(text, ClientLimit), PromptClosing, count, |PromptOpening|);
  }

  /** `.map(s => s.trim()).filter(s => s.length > 0)`: the trimmed pieces that are not empty. */
  function Cleaned(parts: seq<string>): (r: seq<string>)
    ensures |r| <= |parts|
    ensures forall i :: 0 <= i < |r| ==> r[i] != [] && Trim(r[i]) == r[i]
  {
    if parts == [] then []
    else
      var rest := Cleaned(parts[1..]);
      var t := Trim(parts[0]);
      if t == [] then rest
      else
        TrimIdempotent(parts[0]);
        [t] + rest
  }

  /** Cleaning works piece by piece, keeping the order of the pieces. */
  lemma {:induction false} CleanedAppend(a: seq<string>, b: seq<string>)
    ensures Cleaned(a + b) == Cleaned(a) + Cleaned(b)
  {
    if a == [] {
      assert a + b == b;
    } else {
      assert (a + b)[0] == a[0];
      assert (a + b)[1..] == a[1..] + b;
      CleanedAppend(a[1..], b);
    }
  }

  /** Exactly the pieces that do not trim to nothing survive, trimmed. */
  lemma {:induction false} CleanedMembers(parts: seq<string>)
    ensures forall p :: p in parts && Trim(p) != [] ==> Trim(p) in Cleaned(parts)
    ensures forall x :: x in Cleaned(parts) ==> exists p :: p in parts && x == Trim(p)
  {
    if parts != [] {
      var rest, t := Cleaned(parts[1..]), Trim(parts[0]);
      CleanedMembers(parts[1..]);
      assert Cleaned(parts) == if t == [] then rest else [t] + rest;
      forall p | p in parts && Trim(p) != [] ensures Trim(p) in Cleaned(parts) {
        var i :| 0 <= i < |parts| && parts[i] == p;
        if i > 0 {
          assert parts[1..][i - 1] == p;
        }
      }
      forall x | x in Cleaned(parts) ensures exists p :: p in parts && x == Trim(p) {
        if x in rest {
          var p :| p in parts[1..] && x == Trim(p);
          assert p in parts;
        } else {
          assert parts[0] in parts;
        }
      }
    }
  }

  /** The end index `Array.prototype.slice(0, end)` uses: a negative end counts back from the
      length, and both are clamped into `[0, len]`. */
  function SliceEnd(end: int, len: nat): (k: nat)
    ensures k <= len
    ensures end >= 0 ==> k == if end < len then end else len
    ensures end < 0 ==> k == if len + end > 0 then len + end else 0
  {
    if end < 0 then Clamp(len + end, len) else Clamp(end, len)
  }

  /** The reply's paragraphs: split at each "\n\n", trimmed, empty ones dropped, then
      `.slice(0, numSummaries)`. */
  function Paragraphs(reply: string, numSummaries: int): (r: seq<string>)
  {
    var cleaned := Cleaned(Split(reply, ParagraphBreak));
    cleaned[..SliceEnd(numSummaries, |cleaned|)]
  }

  /** The browser-side post-processing of the model's reply: never empty. */
  function ClientSummaries(reply: string, numSummaries: int): (r: seq<string>)
    ensures r != []
    ensures Paragraphs(reply, numSummaries) == [] ==> r == [NoSummaryMessage]
    ensures Paragraphs(reply, numSummaries) != [] ==> r == Paragraphs(reply, numSummaries)
  {
    var kept := Paragraphs(reply, numSummaries);
    if |kept| > 0 then kept else [NoSummaryMessage]
  }

  /** A trimmed string is a slice of the original. */
  lemma TrimIsSlice(s: string) returns (a: nat)
    ensures a + |Trim(s)| <= |s| && Trim(s) == s[a..a + |Trim(s)|]
  {
    a := SpaceRunEnd(s, 0);
    var n := |Trim(s)|;
    assert Trim(s) == s[a..][..n];
    SliceOfSlice(s, a, |s|, 0, n);
  }

  /** Trimming cannot create an occurrence of a separator. */
  lemma TrimKeepsOut(s: string, sep: string)
    requires !Contains(s, sep)
    ensures !Contains(Trim(s), sep)
  {
    var a := TrimIsSlice(s);
    SliceLacks(s, a, a + |Trim(s)|, sep);
  }

  /** No cleaned piece of a split contains the separator it was split at. */
  lemma {:induction false} CleanedLacksSeparator(parts: seq<string>, sep: string)
    requires forall k :: 0 <= k < |parts| ==> !Contains(parts[k], sep)
    ensures forall k :: 0 <= k < |Cleaned(parts)| ==> !Contains(Cleaned(parts)[k], sep)
  {
    if parts != [] {
      TrimKeepsOut(parts[0], sep);
      CleanedLacksSeparator(parts[1..], sep);
    }
  }

  /** What the paragraphs are: at most `numSummaries` of them (when that is not negative),
      each one trimmed, non-empty and free of blank-line breaks, taken in order from the
      front of the cleaned pieces; and every piece of the reply that is not blank is among
      them when no limit cuts the list short. */
  lemma ParagraphsSpec(reply: string, numSummaries: int)
    ensures numSummaries >= 0 ==> |Paragraphs(reply, numSummaries)| <= numSummaries
    ensures forall i :: 0 <= i < |Paragraphs(reply, numSummaries)| ==>
      var p := Paragraphs(reply, numSummaries)[i];
      p != [] && Trim(p) == p && !Contains(p, ParagraphBreak)
    ensures numSummaries >= |Split(reply, ParagraphBreak)| ==>
      forall piece :: piece in Split(reply, ParagraphBreak) && Trim(piece) != [] ==>
        Trim(piece) in Paragraphs(reply, numSummaries)
  {
    var parts := Split(reply, ParagraphBreak);
    var cleaned := Cleaned(parts);
    SplitPartsLackSeparator(reply, ParagraphBreak);
    CleanedLacksSeparator(parts, ParagraphBreak);
    CleanedMembers(parts);
    assert numSummaries >= |parts| ==> Paragraphs(reply, numSummaries) == cleaned;
  }

  /** `generateSummaries`. With `useServerApi` the text goes to the summarize endpoint, whose
      `summaries` field is returned as it is (`server` answers `None` when the request fails);
      otherwise the model is asked directly (`ask` answers `None` when that throws). */
  function GenerateSummaries(text: string, numSummaries: int, useServerApi: bool,
                             server: (string, int) -> Option<seq<string>>,
                             ask: string -> Option<string>): (r: seq<string>)
    ensures useServerApi ==>
      r == (if server(text, numSummaries).Some? then server(text, numSummaries).value else [FailedMessage])
    ensures !useServerApi ==> r != []
    ensures !useServerApi && ask(ClientPrompt(text, numSummaries)).None? ==> r == [FailedMessage]
    ensures !useServerApi && ask(ClientPrompt(text, numSummaries)).Some? ==>
      r == ClientSummaries(ask(ClientPrompt(text, numSummaries)).value, numSummaries)
  {
    if useServerApi then
      match server(text, numSummaries)
      case None => [FailedMessage]
      case Some(summaries) => summaries
    else
      match ask(ClientPrompt(text, numSummaries))
      case None => [FailedMessage]
      case Some(reply) => ClientSummaries(reply, numSummaries)
  }
}
