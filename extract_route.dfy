/**
 * POST /api/pdf/extract: validates an uploaded file, rebuilds each page's text
 * from positioned pdf.js items (rows by rounded vertical offset, items left to
 * right, a space across wide horizontal gaps), and falls back to a naive join
 * and then to a placeholder text when pdf.js fails.
 *
 * pdf.js is not modelled: what it yields for the document is an input, `None`
 * when it throws.
 */
module ExtractRoute {
  import opened Wrappers
  import opened Strings
  import opened PdfText

  /** 10 MiB: the largest accepted upload. */
  const MaxUploadBytes: nat := 10 * 1024 * 1024

  /** A horizontal gap wider than this between two items of a row becomes a space. */
  const GapThreshold: real := 10.0

  // ---------------------------------------------------------------------------
  // Rows: items bucketed by vertical offset rounded to the nearest multiple of 10

  /** `Math.round(y / 10) * 10`; `Math.round` takes halves toward +infinity. */
  function RowKey(y: real): int
  {
    10 * (y / 10.0 + 0.5).Floor
  }

  /** The row key is the multiple of 10 nearest to `y`, a half-way `y` going to the higher one. */
  lemma RowKeyNearest(y: real)
    ensures RowKey(y) % 10 == 0
    ensures y - 5.0 < RowKey(y) as real <= y + 5.0
  {
  }

  /** ... and it is the only multiple of 10 in that half-open band. */
  lemma RowKeyUnique(y: real, k: int)
    requires k % 10 == 0
    requires y - 5.0 < k as real <= y + 5.0
    ensures k == RowKey(y)
  {
    var m := k / 10;
    assert k == 10 * m;
    var n := (y / 10.0 + 0.5).Floor;
    assert m as real <= y / 10.0 + 0.5 < m as real + 1.0;
    assert n as real <= y / 10.0 + 0.5 < n as real + 1.0;
  }

  /** The items that land in the row with key `k`, in encounter order:
      what `textByPosition[k]` holds once every item has been pushed. */
  function Row(items: seq<TextItem>, k: int): seq<TextItem>
  {
    if items == [] then []
    else
      var last := items[|items| - 1];
      Row(items[..|items| - 1], k) + (if RowKey(last.y) == k then [last] else [])
  }

  /** The keys of all non-empty rows. */
  function Keys(items: seq<TextItem>): set<int>
  {
    set i | 0 <= i < |items| :: RowKey(items[i].y)
  }

  /** Every item lands in exactly one row: the row of its own key holds it as many times as
      the page does, every other row not at all. */
  lemma {:induction false} RowCounts(items: seq<TextItem>, k: int, it: TextItem)
    ensures multiset(Row(items, k))[it] == if RowKey(it.y) == k then multiset(items)[it] else 0
  {
    if items != [] {
      var prefix := items[..|items| - 1];
      RowCounts(prefix, k, it);
      assert items == prefix + [items[|items| - 1]];
    }
  }

  /** A row is non-empty exactly when some item has its key. */
  lemma {:induction false} RowNonEmptyIff(items: seq<TextItem>, k: int)
    ensures Row(items, k) != [] <==> k in Keys(items)
  {
    if items != [] {
      var prefix := items[..|items| - 1];
      RowNonEmptyIff(prefix, k);
      assert forall i :: 0 <= i < |prefix| ==> prefix[i] == items[i];
      if k in Keys(prefix) {
        var i :| 0 <= i < |prefix| && RowKey(prefix[i].y) == k;
        assert RowKey(items[i].y) == k;
      }
      if k in Keys(items) && RowKey(items[|items| - 1].y) != k {
        var i :| 0 <= i < |items| && RowKey(items[i].y) == k;
        assert RowKey(prefix[i].y) == k;
      }
    }
  }

  /** Distinct row keys in the order their rows were opened. */
  function KeyOrder(items: seq<TextItem>): seq<int>
  {
    if items == [] then []
    else
      var front := KeyOrder(items[..|items| - 1]);
      var k := RowKey(items[|items| - 1].y);
      if k in front then front else front + [k]
  }

  predicate Distinct(ks: seq<int>)
  {
    forall i, j :: 0 <= i < j < |ks| ==> ks[i] != ks[j]
  }

  /** `KeyOrder` lists each key of a non-empty row exactly once. */
  lemma {:induction false} KeyOrderMembers(items: seq<TextItem>)
    ensures Distinct(KeyOrder(items))
    ensures forall k :: k in KeyOrder(items) <==> k in Keys(items)
  {
    if items != [] {
      var prefix := items[..|items| - 1];
      KeyOrderMembers(prefix);
      forall k ensures k in Keys(items) <==> k in Keys(prefix) || k == RowKey(items[|items| - 1].y) {
        RowNonEmptyIff(items, k);
        RowNonEmptyIff(prefix, k);
      }
    }
  }

  /** What pushing the `i`-th item does to the rows, their keys and the order of the keys. */
  lemma GroupStep(items: seq<TextItem>, i: nat)
    requires i < |items|
    ensures var k := RowKey(items[i].y);
      && Keys(items[..i + 1]) == Keys(items[..i]) + {k}
      && KeyOrder(items[..i + 1]) == (if k in Keys(items[..i]) then KeyOrder(items[..i]) else KeyOrder(items[..i]) + [k])
      && (forall k' :: Row(items[..i + 1], k') == Row(items[..i], k') + (if k == k' then [items[i]] else []))
  {
    var prefix := items[..i + 1];
    assert prefix[..i] == items[..i];
    assert forall j :: 0 <= j < i ==> prefix[j] == items[..i][j];
    KeyOrderMembers(items[..i]);
  }

  /** The `forEach` that fills `textByPosition`; `order` is the order in which keys were added. */
  method GroupByRow(items: seq<TextItem>) returns (rows: map<int, seq<TextItem>>, order: seq<int>)
    ensures rows.Keys == Keys(items) && order == KeyOrder(items)
    ensures forall k :: k in rows ==> rows[k] == Row(items, k)
  {
    rows := map[];
    order := [];
    for i := 0 to |items|
      invariant rows.Keys == Keys(items[..i]) && order == KeyOrder(items[..i])
      invariant forall k :: k in rows ==> rows[k] == Row(items[..i], k)
    {
      var item := items[i];
      var k := RowKey(item.y);
      GroupStep(items, i);
      if k !in rows {
        RowNonEmptyIff(items[..i], k);
        rows := rows[k := []];
        order := order + [k];
      }
      rows := rows[k := rows[k] + [item]];
    }
    assert items[..|items|] == items;
  }

  // ---------------------------------------------------------------------------
  // Row order: keys ascending

  predicate Increasing(ks: seq<int>)
  {
    forall i, j :: 0 <= i < j < |ks| ==> ks[i] < ks[j]
  }

  /** Places `k` after every key not greater than it. */
  function InsertKey(ks: seq<int>, k: int): seq<int>
  {
    if ks == [] || ks[|ks| - 1] <= k then ks + [k]
    else InsertKey(ks[..|ks| - 1], k) + [ks[|ks| - 1]]
  }

  /** `keys.sort((a, b) => a - b)` */
  function SortKeys(ks: seq<int>): seq<int>
  {
    if ks == [] then [] else InsertKey(SortKeys(ks[..|ks| - 1]), ks[|ks| - 1])
  }

  lemma {:induction false} InsertKeyCorrect(ks: seq<int>, k: int)
    requires Increasing(ks) && k !in ks
    ensures Increasing(InsertKey(ks, k))
    ensures forall x :: x in InsertKey(ks, k) <==> x in ks || x == k
    decreases |ks|
  {
    if ks != [] && ks[|ks| - 1] > k {
      var front := ks[..|ks| - 1];
      var last := ks[|ks| - 1];
      assert ks == front + [last];
      InsertKeyCorrect(front, k);
      var ins := InsertKey(front, k);
      forall i | 0 <= i < |ins| ensures ins[i] < last {
        assert ins[i] in ins;
        if ins[i] != k {
          var j :| 0 <= j < |front| && front[j] == ins[i];
          assert ks[j] == front[j];
        }
      }
    }
  }

  /** Sorting distinct keys lists the same keys, strictly increasing. */
  lemma {:induction false} SortKeysCorrect(ks: seq<int>)
    requires Distinct(ks)
    ensures Increasing(SortKeys(ks))
    ensures forall x :: x in SortKeys(ks) <==> x in ks
  {
    if ks != [] {
      var front := ks[..|ks| - 1];
      var last := ks[|ks| - 1];
      assert ks == front + [last];
      SortKeysCorrect(front);
      assert last !in front by {
        forall j | 0 <= j < |front| ensures front[j] != last {
          assert ks[j] == front[j];
        }
      }
      InsertKeyCorrect(SortKeys(front), last);
    }
  }

  /** The head of an increasing sequence is its least element, and the tail holds the rest. */
  lemma IncreasingTail(a: seq<int>)
    requires Increasing(a) && a != []
    ensures a[0] in a && Increasing(a[1..])
    ensures forall x :: x in a ==> a[0] <= x
    ensures forall x :: x in a[1..] <==> x in a && x != a[0]
  {
    forall x | x in a ensures a[0] <= x {
      var i :| 0 <= i < |a| && a[i] == x;
    }
    forall x | x in a && x != a[0] ensures x in a[1..] {
      var i :| 0 <= i < |a| && a[i] == x;
      assert a[1..][i - 1] == x;
    }
  }

  /** There is only one strictly increasing listing of a set of keys. */
  lemma {:induction false} IncreasingUnique(a: seq<int>, b: seq<int>)
    requires Increasing(a) && Increasing(b)
    requires forall x :: x in a <==> x in b
    ensures a == b
    decreases |a|
  {
    if a != [] {
      assert a[0] in a;
    }
    if b != [] {
      assert b[0] in b;
    }
    if a != [] && b != [] {
      IncreasingTail(a);
      IncreasingTail(b);
      assert a[0] == b[0];
      IncreasingUnique(a[1..], b[1..]);
      assert a == [a[0]] + a[1..] && b == [b[0]] + b[1..];
    }
  }

  /** The keys of a page's rows, smallest first. */
  function AscendingKeys(items: seq<TextItem>): seq<int>
  {
    SortKeys(KeyOrder(items))
  }

  /** The row keys come out strictly increasing, each key of a non-empty row once; and any other
      listing of the same keys (whatever order `Object.keys` yields) sorts to the same sequence. */
  lemma AscendingKeysCorrect(items: seq<TextItem>, listing: seq<int>)
    ensures Increasing(AscendingKeys(items))
    ensures forall k :: k in AscendingKeys(items) <==> k in Keys(items)
    ensures Distinct(listing) && (forall k :: k in listing <==> k in Keys(items)) ==>
      SortKeys(listing) == AscendingKeys(items)
  {
    KeyOrderMembers(items);
    SortKeysCorrect(KeyOrder(items));
    if Distinct(listing) && (forall k :: k in listing <==> k in Keys(items)) {
      SortKeysCorrect(listing);
      IncreasingUnique(SortKeys(listing), AscendingKeys(items));
    }
  }

  // ---------------------------------------------------------------------------
  // Within a row: items by ascending x, a stable sort (Array.prototype.sort)

  predicate SortedByX(row: seq<TextItem>)
  {
    forall i, j :: 0 <= i < j < |row| ==> row[i].x <= row[j].x
  }

  /** Places `item` after every entry whose x does not exceed its own. */
  function InsertByX(row: seq<TextItem>, item: TextItem): seq<TextItem>
  {
    if row == [] || row[|row| - 1].x <= item.x then row + [item]
    else InsertByX(row[..|row| - 1], item) + [row[|row| - 1]]
  }

  /** `row.sort((a, b) => a.transform[4] - b.transform[4])`, which is stable. */
  function SortByX(row: seq<TextItem>): seq<TextItem>
  {
    if row == [] then [] else InsertByX(SortByX(row[..|row| - 1]), row[|row| - 1])
  }

  /** The entries whose x equals `v`, in order: the part of a row a stable sort must not reorder. */
  function WithX(row: seq<TextItem>, v: real): seq<TextItem>
  {
    if row == [] then []
    else WithX(row[..|row| - 1], v) + (if row[|row| - 1].x == v then [row[|row| - 1]] else [])
  }

  lemma {:induction false} InsertByXPermutes(row: seq<TextItem>, item: TextItem)
    ensures multiset(InsertByX(row, item)) == multiset(row) + multiset{item}
    decreases |row|
  {
    if row != [] && row[|row| - 1].x > item.x {
      var front := row[..|row| - 1];
      assert row == front + [row[|row| - 1]];
      InsertByXPermutes(front, item);
    }
  }

  lemma {:induction false} InsertByXSorted(row: seq<TextItem>, item: TextItem)
    requires SortedByX(row)
    ensures SortedByX(InsertByX(row, item))
    decreases |row|
  {
    if row != [] && row[|row| - 1].x > item.x {
      var front := row[..|row| - 1];
      var last := row[|row| - 1];
      InsertByXSorted(front, item);
      InsertByXPermutes(front, item);
      var ins := InsertByX(front, item);
      forall i | 0 <= i < |ins| ensures ins[i].x <= last.x {
        assert ins[i] in multiset(ins);
        if ins[i] != item {
          assert ins[i] in multiset(front);
          var j :| 0 <= j < |front| && front[j] == ins[i];
          assert row[j] == front[j];
        }
      }
      assert InsertByX(row, item) == ins + [last];
    }
  }

  /** Appending one item, seen through `WithX`. */
  lemma WithXAppend(row: seq<TextItem>, item: TextItem, v: real)
    ensures WithX(row + [item], v) == WithX(row, v) + WithX([item], v)
  {
    assert (row + [item])[..|row|] == row;
    assert [item][..0] == [];
  }

  lemma {:induction false} InsertByXStable(row: seq<TextItem>, item: TextItem, v: real)
    ensures WithX(InsertByX(row, item), v) == WithX(row, v) + WithX([item], v)
    decreases |row|
  {
    if row == [] || row[|row| - 1].x <= item.x {
      WithXAppend(row, item, v);
    } else {
      var front := row[..|row| - 1];
      var last := row[|row| - 1];
      InsertByXStable(front, item, v);
      WithXAppend(InsertByX(front, item), last, v);
      assert row == front + [last];
      WithXAppend(front, last, v);
      assert [item][..0] == [] && [last][..0] == [];
      // `last` and `item` have different x, so at most one of them is kept
      var wi, wl := WithX([item], v), WithX([last], v);
      assert wi == [] || wl == [];
      assert WithX(InsertByX(row, item), v) == WithX(front, v) + wi + wl;
    }
  }

  /** The sorted row is ordered by x, holds the same items, and keeps the encounter order of
      items with equal x. */
  lemma {:induction false} SortByXCorrect(row: seq<TextItem>)
    ensures SortedByX(SortByX(row))
    ensures multiset(SortByX(row)) == multiset(row)
    ensures forall v :: WithX(SortByX(row), v) == WithX(row, v)
  {
    if row != [] {
      var front := row[..|row| - 1];
      var last := row[|row| - 1];
      SortByXCorrect(front);
      InsertByXSorted(SortByX(front), last);
      InsertByXPermutes(SortByX(front), last);
      assert row == front + [last];
      forall v ensures WithX(SortByX(row), v) == WithX(row, v) {
        InsertByXStable(SortByX(front), last, v);
        WithXAppend(front, last, v);
      }
    }
  }

  // ---------------------------------------------------------------------------
  // Joining a row

  /** Right edge of an item: `x + (width || 0)`. */
  function EndX(item: TextItem): real
  {
    item.x + (if item.width.Some? then item.width.value else 0.0)
  }

  /** What goes before the `i`-th item of a sorted row: one space when the previous item
      ends right of 0 and the gap from its end exceeds the threshold; nothing otherwise,
      and nothing before the first item. */
  function Spacer(row: seq<TextItem>, i: nat): string
    requires i < |row|
  {
    if i > 0 && EndX(row[i - 1]) > 0.0 && row[i].x - EndX(row[i - 1]) > GapThreshold then " " else ""
  }

  /** The text of a sorted row: each item's spacer followed by its string. */
  function RowText(row: seq<TextItem>): string
  {
    if row == [] then "" else RowText(row[..|row| - 1]) + Spacer(row, |row| - 1) + row[|row| - 1].str
  }

  /** The loop over a row that tracks `lastEndX`, starting from 0. */
  method JoinRow(row: seq<TextItem>) returns (text: string)
    ensures text == RowText(row)
  {
    text := "";
    var lastEndX := 0.0;
    for n := 0 to |row|
      invariant text == RowText(row[..n])
      invariant lastEndX == if n == 0 then 0.0 else EndX(row[n - 1])
    {
      var item := row[n];
      assert row[..n + 1][..n] == row[..n];
      if lastEndX > 0.0 && item.x - lastEndX > GapThreshold {
        text := text + " ";
      }
      text := text + item.str;
      lastEndX := item.x + (if item.width.Some? then item.width.value else 0.0);
    }
    assert row[..|row|] == row;
  }

  /** Total length of the items' strings. */
  function StrLength(row: seq<TextItem>): nat
  {
    if row == [] then 0 else StrLength(row[..|row| - 1]) + |row[|row| - 1].str|
  }

  /** How many items of the row are preceded by a space. */
  function SpaceCount(row: seq<TextItem>): nat
  {
    if row == [] then 0 else SpaceCount(row[..|row| - 1]) + |Spacer(row, |row| - 1)|
  }

  /** A row's text is its items' strings plus at most one space between consecutive items,
      and it begins with the first item's string (never with an inserted space). */
  lemma {:induction false} RowTextShape(row: seq<TextItem>)
    ensures |RowText(row)| == StrLength(row) + SpaceCount(row)
    ensures row != [] ==> SpaceCount(row) < |row| && StartsWith(RowText(row), row[0].str)
  {
    if row != [] {
      var front := row[..|row| - 1];
      RowTextShape(front);
      assert forall i :: 0 <= i < |front| ==> Spacer(front, i) == Spacer(row, i);
      if front == [] {
        assert RowText(row) == row[0].str;
      } else {
        assert front[0] == row[0];
        var t := RowText(front);
        assert RowText(row) == t + Spacer(row, |row| - 1) + row[|row| - 1].str;
        assert RowText(row)[..|row[0].str|] == t[..|row[0].str|];
      }
    }
  }

  // ---------------------------------------------------------------------------
  // Pages and the document

  /** The rows with keys `ks`, in that order, each sorted, joined and ended by "\n". */
  function RowsText(items: seq<TextItem>, ks: seq<int>): string
  {
    if ks == [] then ""
    else RowsText(items, ks[..|ks| - 1]) + RowText(SortByX(Row(items, ks[|ks| - 1]))) + "\n"
  }

  /** A page's text: its non-empty rows top to bottom, that is by ascending key. */
  function PageText(items: Page): string
  {
    RowsText(items, AscendingKeys(items))
  }

  /** The text of the rows with keys `ks[..n + 1]` extends that of `ks[..n]` by one row. */
  lemma RowsTextStep(items: seq<TextItem>, ks: seq<int>, n: nat)
    requires n < |ks|
    ensures RowsText(items, ks[..n + 1]) == RowsText(items, ks[..n]) + RowText(SortByX(Row(items, ks[n]))) + "\n"
  {
    assert ks[..n + 1][..n] == ks[..n];
  }

  /** One iteration of the page loop: bucket, order the keys, sort and join each row. */
  method ReconstructPage(items: Page) returns (text: string)
    ensures text == PageText(items)
  {
    var rows, order := GroupByRow(items);
    var keys := SortKeys(order);
    AscendingKeysCorrect(items, order);
    text := "";
    for n := 0 to |keys|
      invariant text == RowsText(items, keys[..n])
    {
      var k := keys[n];
      assert k in keys;
      var row := SortByX(rows[k]);
      var rowText := JoinRow(row);
      RowsTextStep(items, keys, n);
      text := text + rowText + "\n";
    }
    assert keys[..|keys|] == keys;
  }

  /** Both items of the two-column line land in the row with key 100, the only row. */
  lemma TwoColumnsOneRow(a: TextItem, b: TextItem)
    requires a.y == 102.0 && b.y == 100.0
    ensures AscendingKeys([a, b]) == [100]
    ensures Row([a, b], 100) == [a, b]
  {
    var items := [a, b];
    assert RowKey(a.y) == 100 && RowKey(b.y) == 100;
    assert items[..1] == [a] && [a][..0] == [];
    assert KeyOrder([a]) == [100];
    assert KeyOrder(items) == [100];
    assert [100][..0] == [];
    assert Row([a], 100) == [a];
  }

  /** Sorting by x moves the left column's item first. */
  lemma TwoColumnsSorted(a: TextItem, b: TextItem)
    requires a.x == 300.0 && b.x == 0.0
    ensures SortByX([a, b]) == [b, a]
  {
    assert [a, b][..1] == [a];
    assert SortByX([a]) == [a];
    assert InsertByX([a], b) == [b, a];
  }

  /** A space bridges the 250-unit gap between the two columns. */
  lemma TwoColumnsJoin(a: TextItem, b: TextItem)
    requires a.x == 300.0 && b == TextItem(b.str, 0.0, 100.0, Some(50.0))
    ensures RowText([b, a]) == b.str + " " + a.str
  {
    assert [b, a][..1] == [b] && [b][..0] == [];
    assert RowText([b]) == b.str;
    assert Spacer([b, a], 1) == " ";
  }

  /** Two columns side by side on one line are merged into a single row, left column first,
      with one space across the gap between them. */
  lemma TwoColumnsShareARow(left: string, right: string)
    ensures PageText([TextItem(right, 300.0, 102.0, Some(50.0)), TextItem(left, 0.0, 100.0, Some(50.0))])
         == left + " " + right + "\n"
  {
    var a := TextItem(right, 300.0, 102.0, Some(50.0));
    var b := TextItem(left, 0.0, 100.0, Some(50.0));
    var items := [a, b];
    TwoColumnsOneRow(a, b);
    TwoColumnsSorted(a, b);
    TwoColumnsJoin(a, b);
    assert [100][..0] == [];
    assert RowsText(items, [100]) == RowText(SortByX(Row(items, 100))) + "\n";
  }

  /** The structured text of the document: each page's text followed by "\n\n". */
  function DocumentText(pages: seq<Page>): string
  {
    if pages == [] then "" else DocumentText(pages[..|pages| - 1]) + PageText(pages[|pages| - 1]) + "\n\n"
  }

  /** The structured pass over pages 1..numPages. */
  method StructuredExtract(pages: seq<Page>) returns (text: string, pageCount: nat)
    ensures text == DocumentText(pages)
    ensures pageCount == |pages|
  {
    text := "";
    for n := 0 to |pages|
      invariant text == DocumentText(pages[..n])
    {
      assert pages[..n + 1][..n] == pages[..n];
      var pageText := ReconstructPage(pages[n]);
      text := text + pageText + "\n\n";
    }
    assert pages[..|pages|] == pages;
    pageCount := |pages|;
  }

  // ---------------------------------------------------------------------------
  // The route

  /** The form's `file` field: name, declared MIME type, byte size. */
  datatype UploadedFile = UploadedFile(name: string, mimeType: string, size: nat)

  /** The request: `Unreadable` is anything that throws before validation completes (a body
      that is not form data, or a non-empty text field named `file`, which has no `type`);
      otherwise a form with or without a file (an empty text field reads as no file). */
  datatype Request = Unreadable | Form(file: Option<UploadedFile>)

  datatype Response =
    | Failure(status: nat, error: string)
    | Success(text: string, pageCount: nat, fileName: string, fileSize: nat, fileType: string,
              warning: Option<string>)

  const FallbackWarning := "Used fallback extraction method. Results may be incomplete."
  const PlaceholderWarning := "PDF extraction encountered issues, using placeholder text"

  /** The checks made before any parsing, in the order the route makes them. */
  function Validate(req: Request): (r: Option<Response>)
    ensures r.Some? <==> (req.Unreadable? || req.file.None? || !Contains(req.file.value.mimeType, "pdf")
                          || req.file.value.size > MaxUploadBytes)
    ensures r.Some? ==> r.value.Failure? && (r.value.status == 500 <==> req.Unreadable?)
    ensures r.Some? && req.Form? ==> r.value.status == 400
  {
    match req
    case Unreadable => Some(Failure(500, "Failed to process PDF"))
    case Form(None) => Some(Failure(400, "No file provided"))
    case Form(Some(file)) =>
      if !Contains(file.mimeType, "pdf") then Some(Failure(400, "File must be a PDF"))
      else if file.size > MaxUploadBytes then Some(Failure(400, "File too large. Maximum size is 10MB"))
      else None
  }

  /** The type check comes before the size check: a large file that is not a PDF is refused as
      not a PDF, and a missing file is refused before anything else is looked at. */
  lemma RejectionOrder(name: string, mimeType: string, size: nat)
    ensures Validate(Form(None)) == Some(Failure(400, "No file provided"))
    ensures !Contains(mimeType, "pdf") ==>
      Validate(Form(Some(UploadedFile(name, mimeType, size)))) == Some(Failure(400, "File must be a PDF"))
    ensures Contains(mimeType, "pdf") && size > MaxUploadBytes ==>
      Validate(Form(Some(UploadedFile(name, mimeType, size)))) == Some(Failure(400, "File too large. Maximum size is 10MB"))
  {
  }

  const PlaceholderOpening := "This text was extracted from \""
  const ClosingLine0 := ".\n"
  const ClosingLine1 := "      \n"
  const ClosingLine2 := "      The PDF content would appear here. Due to technical limitations with server-side \n"
  const ClosingLine3 := "      PDF processing, we're using a placeholder for now.\n"
  const ClosingLine4 := "      \n"
  const ClosingLine5 := "      For the best summarization results, we recommend using shorter PDFs with clear text content."
  const PlaceholderClosing := ClosingLine0 + ClosingLine1 + ClosingLine2 + ClosingLine3 + ClosingLine4 + ClosingLine5

  /** The text returned when neither extraction produced anything usable. */
  function Placeholder(name: string, size: nat): string
  {
    PlaceholderOpening + name + "\" (" + NatToString(size) + " bytes)" + PlaceholderClosing
  }

  /** In `a + x + b + d + e + z`, both `x` and `d + e` occur. */
  lemma TwoSlots(a: string, x: string, b: string, d: string, e: string, z: string)
    ensures Contains(a + x + b + d + e + z, x) && Contains(a + x + b + d + e + z, d + e)
  {
    var p1 := a + x;
    OccursAtEnd(a, x);
    var p2 := p1 + b;
    ContainsExtend(p1, b, x);
    var p3 := p2 + (d + e);
    ContainsExtend(p2, d + e, x);
    OccursAtEnd(p2, d + e);
    assert a + x + b + d + e + z == p3 + z;
    ContainsExtend(p3, z, x);
    ContainsExtend(p3, z, d + e);
  }

  /** The placeholder names the file and states its size in bytes. */
  lemma PlaceholderNamesFile(name: string, size: nat)
    ensures Contains(Placeholder(name, size), name)
    ensures Contains(Placeholder(name, size), NatToString(size) + " bytes)")
  {
    TwoSlots(PlaceholderOpening, name, "\" (", NatToString(size), " bytes)", PlaceholderClosing);
  }

  /** The route. `structured` is what pdf.js yields on the first pass and `simple` on the
      fallback pass (`None`: that pass threw). */
  method Post(req: Request, structured: Option<seq<Page>>, simple: Option<seq<Page>>) returns (resp: Response)
    ensures Validate(req).Some? ==> resp == Validate(req).value
    ensures Validate(req).None? ==>
      (resp.Success? && resp.fileName == req.file.value.name
       && resp.fileSize == req.file.value.size && resp.fileType == req.file.value.mimeType)
    // the structured result is returned whenever the structured pass does not throw, even when empty
    ensures Validate(req).None? && structured.Some? ==>
      resp.text == DocumentText(structured.value) && resp.pageCount == |structured.value| && resp.warning.None?
    // the naive join is used only after a throw, and only when it is longer than 100 characters
    ensures Validate(req).None? && structured.None? && simple.Some? && Utf16Length(NaiveText(simple.value)) > 100 ==>
      resp.text == NaiveText(simple.value) && resp.pageCount == 1 && resp.warning == Some(FallbackWarning)
    ensures Validate(req).None? && structured.None? && (simple.None? || Utf16Length(NaiveText(simple.value)) <= 100) ==>
      resp.text == Placeholder(req.file.value.name, req.file.value.size) && resp.pageCount == 1
      && resp.warning == Some(PlaceholderWarning)
  {
    var rejected := Validate(req);
    if rejected.Some? {
      return rejected.value;
    }
    var file := req.file.value;
    if structured.Some? {
      var text, pageCount := StructuredExtract(structured.value);
      return Success(text, pageCount, file.name, file.size, file.mimeType, None);
    }
    if simple.Some? {
      var text := JoinPages(simple.value);
      if Utf16Length(text) > 100 {
        return Success(text, 1, file.name, file.size, file.mimeType, Some(FallbackWarning));
      }
    }
    resp := Success(Placeholder(file.name, file.size), 1, file.name, file.size, file.mimeType,
                    Some(PlaceholderWarning));
  }
}
