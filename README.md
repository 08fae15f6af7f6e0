# Syntex text-processing core, modelled in Dafny

Syntex is a study application. Users upload PDFs, the server extracts their text, a
language model turns the text into summary flashcards, and it generates multiple-choice
math questions. This project models the deterministic logic around those steps:

- The PDF extraction endpoint (`POST /api/pdf/extract`):
  - request validation;
  - layout-aware page reconstruction: items are bucketed into rows by rounded vertical
    offset, rows are ordered by key, items within a row by x, and a space is inserted
    across a wide gap;
  - the naive-join fallback, then the placeholder fallback.
- The byte-scan fallback extractor. It copies the printable ASCII bytes found after each
  `stream` keyword (section 7.3.8 of ISO 32000-1).
- The cascade that decodes a summary reply:
  - prompt truncation;
  - code-fence extraction;
  - the summaries array or string;
  - numbered sections;
  - the fixed fallback messages.
- The browser's mock summaries and the zero embedding fallback.
- The browser-side helpers: where extraction runs, the client page join, and the simple
  summary generator with its paragraph post-processing.
- The question generator:
  - the two backslash rewrite passes and the retry cascade of the JSON sanitiser;
  - `parseInt` and the five difficulty bands;
  - the PDF context prefix;
  - the code-fence extraction;
  - the fallback question.
- The small rules:
  - storage file names and extensions, the two record shapes of `uploadFile`, and the
    local-path rule of `getFileUrl`/`deleteFile`;
  - the topic derived from an uploaded file's name;
  - the active navigation link;
  - the translation lookup;
  - the per-folder document counts.

Every foreign call is a parameter of the model. These are pdf.js, the language model,
`JSON.parse`, the LangChain structured parser, Supabase storage, `fetch`, the clock and
`Math.random`. Each is either an `Option` (`None` means the call threw) or a function
from the request to such a value. `JSON.parse` is an abstract validity predicate or an
abstract decoder. It returns `NoParse`, `SummariesArray`, `SummariesString` or `Other`.

Modules, one per source file, plus three shared ones:

- `Wrappers`: `Option`.
- `Strings`: JavaScript string semantics. This covers `trim`, `split` on a literal,
  `includes`/`startsWith`/`indexOf`, `substring` with clamping, and decimal text.
  `length` and the cut `substring(0, n)` count UTF-16 code units, as JavaScript does.
- `PdfText`: the pdf.js item model and the naive page join shared by the route and the
  browser.
- `ExtractRoute`: app/api/pdf/extract/route.ts.
- `LangchainUtils`: lib/langchain-utils.ts.
- `GenerateQuestion`: lib/generate-question.ts.
- `PdfUtils`: lib/pdf-utils.ts.
- `FileService`: lib/file-service.ts.
- `ReadFolderGrid`: components/read/folder-grid.tsx.
- `MathUpload`: app/math/upload/page.tsx.
- `MainNav`: components/main-nav.tsx.
- `LanguageContext`: contexts/language-context.tsx.

Loops in the source are methods with loop invariants, proved against a specification
function. These are the row bucketing, the row join, the page loops, the byte scan, the
sanitiser's retry loop, the mock-summary loop and the folder counting. The rest is
functions and lemmas.

## Model

| member | source | states |
|---|---|---|
| ExtractRoute.Validate | app/api/pdf/extract/route.ts:35-56 | A request is rejected exactly when the form cannot be read, there is no file, the MIME type does not contain "pdf", or the size exceeds 10 MiB. An unreadable form gives status 500; every other rejection gives 400. |
| ExtractRoute.RejectionOrder | app/api/pdf/extract/route.ts:35-56 | The checks apply in source order. A missing file is reported first, then a wrong type whatever the size, then a size over 10 MiB, each with its own message. |
| ExtractRoute.RowKeyNearest | app/api/pdf/extract/route.ts:90 | The row key is a multiple of 10 within (y-5, y+5]. A half-way offset goes to the higher key, as `Math.round` does. |
| ExtractRoute.RowKeyUnique | app/api/pdf/extract/route.ts:90 | Only one multiple of 10 lies in that window, so the key is determined by it. |
| ExtractRoute.RowCounts | app/api/pdf/extract/route.ts:88-95 | Every item lands in exactly one row, the one its key names, as often as it occurs in the page. |
| ExtractRoute.RowNonEmptyIff | app/api/pdf/extract/route.ts:88-95 | A row has items exactly when its key is one of the page's keys. |
| ExtractRoute.KeyOrderMembers | app/api/pdf/extract/route.ts:88-98 | The bucket keys listed in first-encounter order are distinct, and they are exactly the page's keys. |
| ExtractRoute.GroupByRow | app/api/pdf/extract/route.ts:88-95 | The `forEach` bucketing builds a map whose keys are the page's keys and whose rows hold each key's items in encounter order. It also lists the keys in insertion order. |
| ExtractRoute.SortKeysCorrect | app/api/pdf/extract/route.ts:98-100 | Sorting distinct keys numerically gives a strictly increasing list with the same members. |
| ExtractRoute.InsertKeyCorrect | app/api/pdf/extract/route.ts:98-100 | Inserting a new key into an increasing list keeps it increasing and adds exactly that key. |
| ExtractRoute.IncreasingUnique | app/api/pdf/extract/route.ts:98-100 | Two increasing lists with the same members are equal. |
| ExtractRoute.AscendingKeysCorrect | app/api/pdf/extract/route.ts:98-103 | Rows are emitted in ascending key order. Any listing of the keys, whatever order `Object.keys` yields, sorts to that same order. |
| ExtractRoute.InsertByXPermutes | app/api/pdf/extract/route.ts:105 | Inserting an item into a row by x adds exactly that item. |
| ExtractRoute.InsertByXSorted | app/api/pdf/extract/route.ts:105 | Inserting into a row sorted by x keeps it sorted. |
| ExtractRoute.InsertByXStable | app/api/pdf/extract/route.ts:105 | Among items with the same x, the inserted item goes after those already present. |
| ExtractRoute.SortByXCorrect | app/api/pdf/extract/route.ts:105 | The row sort orders items by ascending x and is a permutation. It is stable: items with equal x keep their encounter order. |
| ExtractRoute.JoinRow | app/api/pdf/extract/route.ts:108-121 | The join loop over a row, carrying the running end position, yields the row text. A single space precedes an item only when the previous end is positive and the gap from it exceeds 10. |
| ExtractRoute.RowTextShape | app/api/pdf/extract/route.ts:108-121 | A row's text is its item strings plus fewer spaces than items, and it starts with the first item's string: the first item never gets a space. |
| ExtractRoute.ReconstructPage | app/api/pdf/extract/route.ts:86-127 | The page loop emits each row, in ascending key order and sorted by x, followed by "\n", then a final "\n\n". |
| ExtractRoute.TwoColumnsShareARow | app/api/pdf/extract/route.ts:88-123 | Two items 2 units apart vertically share one row, are reordered left to right and are separated by one space across a wide gap. |
| ExtractRoute.StructuredExtract | app/api/pdf/extract/route.ts:79-128 | The document text is every page's reconstruction in page order, and `pageCount` is the number of pages. |
| ExtractRoute.PlaceholderNamesFile | app/api/pdf/extract/route.ts:189-194 | The placeholder text quotes the file name and its size in bytes. |
| ExtractRoute.Post | app/api/pdf/extract/route.ts:29-215 | A rejected request gets its validation error. Otherwise the response succeeds and carries the file's name, size and type. A structured pass that does not throw is returned as it is, even when empty, with the page count and no warning. After a throw, the naive join is used only when it is longer than 100 UTF-16 code units, with page count 1 and the fallback warning. Otherwise the placeholder is used, with page count 1 and the placeholder warning. |
| PdfText.JoinPages | app/api/pdf/extract/route.ts:154-158 | The page loop yields, for each page in order, its item strings joined by " " followed by "\n\n". |
| PdfText.NaiveTextAppend | app/api/pdf/extract/route.ts:154-158 | The naive text of consecutive page lists is the concatenation of their naive texts. |
| PdfText.NaiveTextShape | app/api/pdf/extract/route.ts:154-158 | The naive text has at least two characters per page, and a single page gives its joined strings plus "\n\n". |
| LangchainUtils.MockSummaries | lib/langchain-utils.ts:76-88 | In the browser the loop yields exactly `numSections` placeholder strings, none for a negative count. The i-th one names section i+1. |
| LangchainUtils.MockSummaryInjective | lib/langchain-utils.ts:83-87 | Different section numbers give different placeholder strings. |
| LangchainUtils.PromptText | lib/langchain-utils.ts:122 | Text of at most 12000 UTF-16 code units is sent unchanged. Longer text is cut to its longest prefix that fits in 12000 code units, followed by "...". When every character takes one code unit, that prefix is the first 12000 characters. |
| LangchainUtils.SummarySplitLacksSeparators | lib/langchain-utils.ts:164-165 | No piece of the summaries-string split contains "\n\n" or ". ". |
| LangchainUtils.SummarySplitWhole | lib/langchain-utils.ts:164-165 | A string with neither separator is split into itself alone. |
| LangchainUtils.LongPiecesIff | lib/langchain-utils.ts:166-167 | The filter keeps exactly the pieces whose trimmed length exceeds 30 UTF-16 code units, untrimmed, and never adds one. |
| LangchainUtils.AcceptSpec | lib/langchain-utils.ts:156-169 | A decoded `summaries` array is accepted unchanged. A `summaries` string is accepted only with two or more kept pieces, each a split piece longer than 30 code units when trimmed and free of separators. Anything else is not accepted. |
| LangchainUtils.FenceFromNeedsFence | lib/langchain-utils.ts:148-152 | Fence extraction succeeds only on content containing "```". |
| LangchainUtils.FenceRoundTrip | lib/langchain-utils.ts:148-152 | A "```json" block is read back as exactly its body, up to the first "\n```". |
| LangchainUtils.NumberedSectionsShape | lib/langchain-utils.ts:200-203 | Every numbered section found is trimmed, non-empty and starts with a digit. |
| LangchainUtils.MatchAtSpec | lib/langchain-utils.ts:203 | A match of `/\d+\.\s+([^\d]+?)(?=\n\d+\.\|$)/` is a number, a period, white space and then only non-digits. It ends at the end of the text or just before a newline, a number and a period. |
| LangchainUtils.NumberedSectionsAreMatches | lib/langchain-utils.ts:203-206 | Every section returned is the trimmed text of such a match in the content. |
| LangchainUtils.SingleSection | lib/langchain-utils.ts:203-206 | "1. " followed by a body without digits that starts with a non-space character gives exactly one section: the whole text, trimmed. |
| LangchainUtils.DecodedArrayReturned | lib/langchain-utils.ts:148-160 | A `summaries` array decoded from the fenced candidate is returned as it is, with no cut to `numSections`. The same holds for the structured parser's array when the fenced attempt fails. |
| LangchainUtils.DecodeEmptyOnlyFromArray | lib/langchain-utils.ts:156-215 | The cascade returns an empty list only when a parser produced an empty `summaries` array. |
| LangchainUtils.NumberedFallback | lib/langchain-utils.ts:200-215 | When neither parser is accepted, the result is either at least three trimmed numbered sections, or the fixed "No summary could be generated…" message. Numbered sections are tried only when the content contains both "1." and "2.". |
| LangchainUtils.GenerateSummaries | lib/langchain-utils.ts:71-234 | In the browser the result is the mock list. Otherwise it is the decode cascade applied to the model's reply to the truncated prompt, or the error message when the call fails. |
| LangchainUtils.GenerateEmbedding | lib/langchain-utils.ts:371-400 | The model's embedding is returned when there is a key and the call succeeds. In the browser, without a key, or on error, the result is 1536 zeros. |
| LangchainUtils.PrintableAppend | lib/langchain-utils.ts:262-267 | Filtering printable bytes distributes over concatenation. |
| LangchainUtils.PrintableSkipsOthers | lib/langchain-utils.ts:262-267 | A byte outside 32–126 is skipped, and the scan goes on past it rather than stopping. |
| LangchainUtils.ByteScan | lib/langchain-utils.ts:253-270 | The nested loops produce, in marker order, the printable bytes of the window [i+6, min(i+1000, len)) after each "stream" at i < len-7. |
| LangchainUtils.ScanShape | lib/langchain-utils.ts:253-270 | The scan yields only characters 32–126, each one code unit long, nothing for a buffer shorter than 8 bytes, and at most 994 characters per scanned position. |
| LangchainUtils.OverlappingWindowsRepeat | lib/langchain-utils.ts:253-270 | Windows that overlap are copied again: "streamstreamAA" scans to "streamAAAA". |
| LangchainUtils.FallbackExtraction | lib/langchain-utils.ts:242-277 | The scanned text is returned only when longer than 100 code units. Otherwise the result is the "could not extract meaningful text" message naming the file, or, when reading throws, the "could not extract text" message. |
| GenerateQuestion.EscapeKeepsOthers | lib/generate-question.ts:10 | The escape pass leaves every non-backslash character unchanged and in order, and never shortens the text. |
| GenerateQuestion.EscapeNoBackslash | lib/generate-question.ts:10 | Text without a backslash is left unchanged. |
| GenerateQuestion.EscapeLoneBackslash | lib/generate-question.ts:10 | A backslash not followed by one of `" \ / b f n r t` is doubled. |
| GenerateQuestion.EscapeDoublesTrailing | lib/generate-question.ts:10 | A trailing backslash is doubled. |
| GenerateQuestion.EscapeKeepsValidEscape | lib/generate-question.ts:10 | A valid escape such as `\n` is kept. |
| GenerateQuestion.EscapeDoublesUnicode | lib/generate-question.ts:10 | `u` is not in the escape set, so the backslash of a `\u00e9` escape is doubled. |
| GenerateQuestion.CollapseIdempotent | lib/generate-question.ts:19 | After the collapse pass no run of three backslashes remains. Text without such a run is unchanged, so collapsing twice equals collapsing once. |
| GenerateQuestion.CollapseKeepsOthers | lib/generate-question.ts:19 | The collapse pass only removes backslashes: the other characters stay in order and the text never grows. |
| GenerateQuestion.RobustSanitize | lib/generate-question.ts:7-42 | The staged passes and the three-round loop return the sanitiser's specified result. The number of parse checks is one more than the index of the first valid candidate, at most 5. |
| GenerateQuestion.SanitizedSpec | lib/generate-question.ts:13-39 | When any of the five candidates parses, the result parses. Text without backslashes comes back unchanged. |
| GenerateQuestion.FirstValidIs | lib/generate-question.ts:13-39 | The candidate chosen is the first valid one in the order escape, collapse, three re-escapes, or the last when none is valid. |
| GenerateQuestion.ParseIntDecimal | lib/generate-question.ts:55 | `parseInt` reads back any decimal numeral and its negation. |
| GenerateQuestion.ParseIntDigits | lib/generate-question.ts:55 | `parseInt` of a digit string is its decimal value. |
| GenerateQuestion.DefaultDifficulty | lib/generate-question.ts:55-68 | Unparsable text and "0" both fall back to level 5, whose band is the moderate one. |
| GenerateQuestion.BandRanges | lib/generate-question.ts:58-68 | Each level maps to exactly one of five bands, with thresholds ≤2, 3–4, 5–6, 7–8 and ≥9. |
| GenerateQuestion.BandMonotone | lib/generate-question.ts:58-68 | A higher level never maps to an easier band. |
| GenerateQuestion.ContextPrompt | lib/generate-question.ts:46-49 | The context is empty exactly when the content is absent or empty. Otherwise it starts with the fixed introduction and is bounded by the introduction plus 2000 characters plus "...", the content being cut to at most 2000 UTF-16 code units. |
| GenerateQuestion.ContextQuotesContent | lib/generate-question.ts:46-49 | The context contains the longest start of the content that fits in 2000 code units. That is the whole content when it fits, and the first 2000 characters when every character takes one code unit. |
| GenerateQuestion.PromptMentions | lib/generate-question.ts:70-88 | The prompt names the topic, the difficulty band's description, the language instruction and the context. |
| GenerateQuestion.ClosingFromFirst | lib/generate-question.ts:101 | The lazy body ends at the first closing fence after it. |
| GenerateQuestion.QuestionFenceRoundTrip | lib/generate-question.ts:101-104 | A "```json" block around a body without backquotes or edge whitespace is read back as exactly that body. |
| GenerateQuestion.FallbackAsWrittenMarksWrongAnswer | lib/generate-question.ts:120-125 | As written, the fallback has four options and its correct index, 1, points at "$10$", but f(2) = 12. |
| GenerateQuestion.FallbackQuestionCorrect | lib/generate-question.ts:120-125 | The corrected fallback has four options and its correct index points at the only option equal to f(2). |
| GenerateQuestion.Generate | lib/generate-question.ts:44-127 | When the model call fails, the result is the fallback question as written, with correct index 1. Otherwise the fenced or whole reply is sanitised and parsed. A successful parse gives its data; a failed parse gives that same fallback. |
| PdfUtils.UsesServer | lib/pdf-utils.ts:32 | Extraction goes to the server exactly when not in a browser, on request, or for a file over 5 MiB. |
| PdfUtils.ExtractTextFromPdf | lib/pdf-utils.ts:30-103 | The server path returns the endpoint's text or throws its own message. The client path returns the page join of all pages, or throws the client message. |
| PdfUtils.ClientPromptCarriesText | lib/pdf-utils.ts:121-132 | The prompt contains the text, cut as `Truncate` cuts it. That is the text itself when it has at most 15000 UTF-16 code units. When longer and every character takes one code unit, it is the first 15000 characters followed by "...". |
| PdfUtils.ClientPromptCarriesCount | lib/pdf-utils.ts:123-124 | The prompt states the requested number of summaries. |
| PdfUtils.CleanedMembers | lib/pdf-utils.ts:142-145 | The kept paragraphs are exactly the non-empty trimmed pieces of the reply. |
| PdfUtils.SliceEnd | lib/pdf-utils.ts:146 | `slice(0, n)` keeps the first n pieces, counting a negative n from the end, within bounds. |
| PdfUtils.ParagraphsSpec | lib/pdf-utils.ts:142-146 | There are at most `numSummaries` paragraphs. Each is non-empty, trimmed and free of "\n\n". With enough room, every non-empty trimmed piece is kept. |
| PdfUtils.ClientSummaries | lib/pdf-utils.ts:142-148 | The result is never empty: the paragraphs, or the single "No summary could be generated…" message. |
| PdfUtils.GenerateSummaries | lib/pdf-utils.ts:112-183 | With `useServerApi` the server's summaries are returned, or the "Failed to generate summary…" message on error. Otherwise the client result comes from the model's reply, with the same message on error. |
| FileService.SplitLastPart | lib/file-service.ts:8 | The last piece of `split(".")` is the text after the last ".", or the whole name when it has none. |
| FileService.Extension | lib/file-service.ts:8 | The extension is the text after the last "." when that text is non-empty, else "pdf". It is never empty and holds no ".". |
| FileService.ExtensionRoundTrip | lib/file-service.ts:8 | The extension of `stem.ext` is `ext`, and a name without "." is its own extension. |
| FileService.GeneratedNameShape | lib/file-service.ts:7-9 | The stored name starts with "file_", the timestamp and "_". Its random part has at most 5 characters, and it keeps the upload's extension. |
| FileService.UploadFile | lib/file-service.ts:4-52 | On storage success, `fullPath` is bucket + "/" + the returned path and the record is not local. On failure, path and fullPath are the generated name, the record carries the object URL and is local. When the object URL throws, the result is null. |
| FileService.LocalRecordKeepsExtension | lib/file-service.ts:36-45 | A local fallback record's path keeps the uploaded file's extension. |
| FileService.GetFileUrl | lib/file-service.ts:55-68 | A local path is its own URL. Otherwise the result is storage's non-empty public URL, or null. |
| FileService.DeleteFile | lib/file-service.ts:71-85 | A local path reports success without calling storage. Otherwise the result reports whether storage's remove succeeded. |
| FileService.LocalPathsBypassStorage | lib/file-service.ts:58-60 | Paths starting with "blob:" or containing "localUrl" give themselves as URL and are deleted, whatever storage would answer. |
| ReadFolderGrid.FolderIdsDistinct | components/read/folder-grid.tsx:8-14 | The five fixed folders have distinct, non-empty ids. |
| ReadFolderGrid.CountDocuments | components/read/folder-grid.tsx:33-38 | The `forEach` counts, for every non-empty id, the stored documents with that `folderId`. Documents with a missing or empty id are counted nowhere. |
| ReadFolderGrid.CountsFor | components/read/folder-grid.tsx:41-44 | The grid lists exactly the five fixed folders in declared order, each with its own id and name. |
| ReadFolderGrid.FolderCounts | components/read/folder-grid.tsx:27-51 | The result is each fixed folder with the number of documents filed under its id. When reading or parsing storage throws, every count is 0. |
| ReadFolderGrid.CountsAddUp | components/read/folder-grid.tsx:36-44 | The counts add up to the number of documents filed under a fixed folder. Documents with unknown ids appear nowhere, so the total never exceeds the number of documents. |
| ReadFolderGrid.AddingDocument | components/read/folder-grid.tsx:33-44 | A new document under the k-th folder adds one to that count only. One outside the fixed folders changes nothing. |
| MathUpload.StripExtension | app/math/upload/page.tsx:24 | The topic is always a prefix of the file name. |
| MathUpload.FirstExtensionFrom | app/math/upload/page.tsx:24 | The match found is the leftmost "." that is followed, to the end of the name, by one or more characters other than "." and "/". |
| MathUpload.StripExtensionRoundTrip | app/math/upload/page.tsx:24 | Removing a clean extension from `stem.ext` gives back `stem`. |
| MathUpload.NoDotUnchanged | app/math/upload/page.tsx:24 | A name without "." is unchanged. |
| MathUpload.NoCleanExtensionUnchanged | app/math/upload/page.tsx:24 | A name ending in ".", or whose last "." is followed by a "/", is unchanged. |
| MathUpload.StripExtensionExamples | app/math/upload/page.tsx:24 | Only the last extension goes ("a.tar.gz" becomes "a.tar"), and ".env" becomes "". |
| MathUpload.DotFileBlocksSubmit | app/math/upload/page.tsx:24-31 | A dot-file proposes an empty topic, so submitting does nothing. A named file with an extension can be submitted. |
| MainNav.IsActiveIff | components/main-nav.tsx:34 | An entry is active exactly when the path equals its href or continues it after a "/". |
| MainNav.ActiveExamples | components/main-nav.tsx:16-34 | "/math/folder/1" activates Math and "/mathematics" does not. "/read" activates Read and "/reader" does not. |
| MainNav.HomeActive | components/main-nav.tsx:34 | Home is active on "/" and otherwise only on paths starting with "//". |
| MainNav.AtMostOneActive | components/main-nav.tsx:16-34 | No path activates two of the entries Home, Math and Read. |
| LanguageContext.Translate | contexts/language-context.tsx:57-59 | `t` returns the current language's non-empty text when there is one, and the key itself for an unknown key. |
| LanguageContext.TablesAgree | contexts/language-context.tsx:13-49 | Both tables define exactly the same listed keys, each with non-empty text. |
| LanguageContext.SixteenKeys | contexts/language-context.tsx:14-31 | The list holds sixteen distinct keys. |
| LanguageContext.TranslateIff | contexts/language-context.tsx:13-59 | A listed key yields its translation in either language. Any other key yields itself. |
| LanguageContext.InitialIsEnglish | contexts/language-context.tsx:55 | A fresh provider shows English text. |
| Strings.Utf16Length | app/api/pdf/extract/route.ts:171 | `length` counts UTF-16 code units: at least one and at most two per character, and exactly one per character for text in the Basic Multilingual Plane. |
| Strings.AstralCountsTwice | app/api/pdf/extract/route.ts:171 | A character outside the Basic Multilingual Plane has length 2, so "x" followed by one has length 3. |
| Strings.Take | lib/generate-question.ts:48 | `substring(0, n)` keeps the longest prefix that fits in n code units. It keeps the whole text when that fits, and otherwise one more character would exceed n. |
| Strings.Truncate | lib/pdf-utils.ts:121 | Text that fits in the limit is unchanged. Longer text becomes a proper prefix, as long as fits in the limit, followed by "...". |
| Strings.TruncateBounds | lib/pdf-utils.ts:121 | The cut text is at most the limit plus 3 characters long and starts with the prefix `Take` keeps. |
| Strings.TakeBmp | lib/generate-question.ts:48 | When every character takes one code unit, `substring(0, n)` is the first n characters, or the whole text when shorter. |
| Strings.TruncateBmp | lib/langchain-utils.ts:122 | When every character takes one code unit, the cut text is the first `limit` characters followed by "...". |

## Left out

- pdf.js, the language model, OpenAI embeddings, LangChain's `StructuredOutputParser` and
  `JSON.parse` are inputs rather than code. `JSON.parse` is an abstract validity predicate
  or decoder; no JSON grammar is modelled.
- The text splitter and its chunks (lib/langchain-utils.ts:99). The chunks are never used.
- `extractTextFromPDFWithLangChain`, `getSupabaseVectorClient`, `storeChunkEmbeddings` and
  `searchDocuments`. These are loader, database and network calls.
- The outer catch of the summary decode (lib/langchain-utils.ts:216-231). It is not reached.
  With a text reply (see the next line), nothing outside the inner try blocks throws. With a
  non-text reply whose `JSON.stringify` throws or yields `undefined`, the catch throws again
  at lines 219-224, so control reaches the function's last catch. That catch is modelled as
  the error message.
- `JSON.stringify` of a non-string model reply: the reply is taken to be text.
- Strings.Take: a cut inside a surrogate pair keeps the lone high surrogate in JavaScript.
  A Dafny string cannot hold one, so the model drops the whole character.
- Strings.Truncate: cuts with Strings.Take, so a cut inside a surrogate pair drops the whole
  character where JavaScript keeps the lone high surrogate.
- LangchainUtils.PromptText: when the cut at 12000 code units falls between the two halves
  of a surrogate pair, JavaScript keeps the lone high surrogate. The model cannot represent a
  lone surrogate in a Dafny string, so it drops that whole character. The same applies to
  PdfUtils.ClientPromptCarriesText (15000 code units).
- GenerateQuestion.ContextPrompt: the same surrogate-pair cut at 2000 code units. The lone
  high surrogate is dropped, as in GenerateQuestion.ContextQuotesContent.
- PdfUtils.ClientPromptCarriesText: the lone surrogate of a cut surrogate pair is dropped;
  see LangchainUtils.PromptText.
- GenerateQuestion.ContextQuotesContent: the lone surrogate of a cut surrogate pair is
  dropped; see GenerateQuestion.ContextPrompt.
- LangchainUtils.AcceptSpec: array items are taken to be strings. The source returns
  whatever values the array holds.
- ExtractRoute.Post: the `message` field of the 500 response is not modelled. The `error`
  field and the status are.
- Coordinates and widths are exact reals, not IEEE doubles. Text-matrix entries e and f
  are section 9.4.2 of ISO 32000-1. Rounding of `y / 10` is exact.
- ExtractRoute.GroupByRow: JavaScript's `Object.keys` lists non-negative integer keys in
  ascending order and the others in insertion order. The model lists keys in insertion
  order and proves that any listing sorts to the same row order, so the result does not
  depend on this.
- LanguageContext.Translate: a key the object prototype supplies (`"constructor"`,
  `"__proto__"`) is treated as unknown and returned as is. JavaScript's `t("constructor")`
  returns the inherited member instead.
- LanguageContext.TranslateIff: states "the key comes back exactly when the table lacks it"
  for the keys the model knows; prototype-supplied keys break it in JavaScript, as above.
- ReadFolderGrid.CountDocuments: a `folderId` that names a prototype member is not modelled;
  the source would read that member of the counts object.
- The pdf.js worker initialisation and dynamic import (lib/pdf-utils.ts:5-22, 37-41).
- The LangChain prompt template (lib/langchain-utils.ts:107-120) is left out, as its
  `{format_instructions}` come from the parser; only the text cut placed into it
  (LangchainUtils.PromptText) is modelled. The question prompt and the client summary prompt
  are modelled in full.
- Default arguments are ordinary parameters: callers pass the value the source would
  default. These are `numSections = 5` (lib/langchain-utils.ts:73), `numSummaries = 5` and
  `useServerApi = true` (lib/pdf-utils.ts:112), `useServerApi = false` (lib/pdf-utils.ts:30),
  `bucket = "files"` (lib/file-service.ts:4), and `difficulty = "5"` and `language = "en"`
  (lib/generate-question.ts:44).
- ExtractRoute.Post: a text field named `file` is not a separate case. An empty one reads as
  no file (400). A non-empty one throws at `file.type.includes` (500), which the model's
  `Unreadable` request covers.
- ReadFolderGrid.FolderCounts: the `typeof window` guard, the storage-change listener and
  React state are left out. A non-string `folderId` (a number, say) is not modelled.
- MathUpload: `router.push`, `encodeURIComponent` and the 1.5-second delay after submit.
  Only the guard is modelled.
- FileService.DeleteFile: a `remove` call that throws (rather than reporting an error) is
  not modelled.
- FileService.UploadFile: the success record of the source has no `localUrl` or `isLocal`
  field; the model gives it `None` and `false`, which is how callers read the missing fields.
- GenerateQuestion.BandMonotone: states that the bands are ordered by rank. It does not
  prove that the five descriptions are pairwise different.
- Logging (`console.*`), timestamps and `Math.random` are left out or taken as parameters.
- Supabase database, storage and auth calls are inputs.

## Findings

| source | as written | input that shows it | evidently intended | confidence | as-written member | corrected member |
|---|---|---|---|---|---|---|
| lib/generate-question.ts:121-123 | the fallback question asks for f(2) with f(x) = x^2 + 3x + 2 and marks option 1, "$10$", as correct | any failure of the model call or the parse: f(2) = 4 + 6 + 2 = 12, which is option 2 | correctIndex 2, pointing at "$12$" | not executed | GenerateQuestion.FallbackAsWrittenMarksWrongAnswer | GenerateQuestion.FallbackQuestionCorrect |
