/**
 * Text content as pdf.js hands it out, and the layout-free way of turning it
 * into text that both the server's fallback extraction and the browser-side
 * extraction use: each page's item strings joined by single spaces, every page
 * followed by a blank line.
 */
module PdfText {
  import opened Wrappers
  import opened Strings

  /** One entry of a page's `getTextContent().items`: its string, the horizontal
      and vertical offsets (entries e and f of the text matrix, `transform[4]` and
      `transform[5]`), and its optional advance width. Coordinates are exact reals. */
  datatype TextItem = TextItem(str: string, x: real, y: real, width: Option<real>)

  /** The items of one page, in pdf.js's content-stream order. */
  type Page = seq<TextItem>

  function ItemStrings(items: seq<TextItem>): (r: seq<string>)
    ensures |r| == |items|
    ensures forall i :: 0 <= i < |items| ==> r[i] == items[i].str
  {
    if items == [] then [] else [items[0].str] + ItemStrings(items[1..])
  }

  /** `items.map(item => item.str).join(' ')` */
  function NaivePageText(items: Page): string
  {
    Join(ItemStrings(items), " ")
  }

  /** The text of `pages` in order, each page's joined strings followed by "\n\n". */
  function NaiveText(pages: seq<Page>): string
  {
    if pages == [] then "" else NaiveText(pages[..|pages| - 1]) + NaivePageText(pages[|pages| - 1]) + "\n\n"
  }

  /** The page loop: `text += page.items.map(i => i.str).join(' ') + '\n\n'` for pages 1..numPages. */
  method JoinPages(pages: seq<Page>) returns (text: string)
    ensures text == NaiveText(pages)
  {
    text := "";
    for n := 0 to |pages|
      invariant text == NaiveText(pages[..n])
    {
      assert pages[..n + 1][..n] == pages[..n];
      text := text + Join(ItemStrings(pages[n]), " ") + "\n\n";
    }
    assert pages[..|pages|] == pages;
  }

  /** The text of a document is the text of its first pages followed by that of the rest:
      each page contributes independently of the others. */
  lemma {:induction false} NaiveTextAppend(a: seq<Page>, b: seq<Page>)
    ensures NaiveText(a + b) == NaiveText(a) + NaiveText(b)
    decreases |b|
  {
    if b != [] {
      var b' := b[..|b| - 1];
      var last := NaivePageText(b[|b| - 1]) + "\n\n";
      assert (a + b)[..|a + b| - 1] == a + b';
      assert (a + b)[|a + b| - 1] == b[|b| - 1];
      NaiveTextAppend(a, b');
      calc {
        NaiveText(a + b);
        NaiveText(a + b') + last;
        (NaiveText(a) + NaiveText(b')) + last;
        NaiveText(a) + (NaiveText(b') + last);
      }
    } else {
      assert a + b == a;
    }
  }

  /** Every page adds at least its "\n\n", so the text is never shorter than twice the page count;
      a document with one page holds exactly that page's joined strings and the page break. */
  lemma {:induction false} NaiveTextShape(pages: seq<Page>)
    ensures |NaiveText(pages)| >= 2 * |pages|
    ensures |pages| == 1 ==> NaiveText(pages) == NaivePageText(pages[0]) + "\n\n"
  {
    if pages != [] {
      NaiveTextShape(pages[..|pages| - 1]);
    }
  }
}
