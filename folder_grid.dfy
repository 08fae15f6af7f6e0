/**
 * The reading page's folder grid: five fixed folders, each shown with the
 * number of locally stored documents filed under it. The stored documents
 * are given by their `folderId` fields, as read and parsed from the browser's
 * local storage.
 */
module ReadFolderGrid {
  import opened Wrappers

  datatype Folder = Folder(id: string, name: string)

  datatype FolderWithCount = FolderWithCount(id: string, name: string, documentCount: nat)

  /** The application's folders, in the order they are shown. */
  const Folders: seq<Folder> := [
    Folder("1", "Research Papers"),
    Folder("2", "Textbooks"),
    Folder("3", "Articles"),
    Folder("4", "Lecture Notes"),
    Folder("5", "Personal")
  ]

  /** The fixed folders have non-empty, pairwise different ids. */
  lemma FolderIdsDistinct()
    ensures forall i :: 0 <= i < |Folders| ==> Folders[i].id != []
    ensures forall i, j :: 0 <= i < j < |Folders| ==> Folders[i].id != Folders[j].id
  {
  }

  /** A stored document's `folderId`: `None` when the field is absent. An empty id is
      falsy in JavaScript and files the document nowhere. */
  type FolderRef = Option<string>

  /** The number of documents filed under the (non-empty) folder `id`. */
  function Occurrences(docs: seq<FolderRef>, id: string): nat
  {
    if docs == [] then 0
    else Occurrences(docs[..|docs| - 1], id) + (if docs[|docs| - 1] == Some(id) then 1 else 0)
  }

  /** `folderCounts[id] || 0` */
  function CountOf(counts: map<string, nat>, id: string): nat
  {
    if id in counts then counts[id] else 0
  }

  /** The `forEach` over the stored documents: each one with a non-empty `folderId` adds one
      to that id's entry. */
  method CountDocuments(docs: seq<FolderRef>) returns (counts: map<string, nat>)
    ensures forall id :: id in counts ==> id != []
    ensures forall id :: id != [] ==> CountOf(counts, id) == Occurrences(docs, id)
  {
    counts := map[];
    var i := 0;
    while i < |docs|
      invariant 0 <= i <= |docs|
      invariant forall id :: id in counts ==> id != []
      invariant forall id :: id != [] ==> CountOf(counts, id) == Occurrences(docs[..i], id)
    {
      assert docs[..i + 1][..i] == docs[..i];
      match docs[i] {
        case Some(id) =>
          if id != [] {
            counts := counts[id := CountOf(counts, id) + 1];
          }
        case None =>
      }
      i := i + 1;
    }
    assert docs[..|docs|] == docs;
  }

  /** The grid's entries for the stored documents: every fixed folder with its count. */
  function CountsFor(docs: seq<FolderRef>): (r: seq<FolderWithCount>)
    ensures |r| == |Folders|
    ensures forall i :: 0 <= i < |r| ==>
      r[i].id == Folders[i].id && r[i].name == Folders[i].name
  {
    seq(|Folders|, i requires 0 <= i < |Folders| =>
      FolderWithCount(Folders[i].id, Folders[i].name, Occurrences(docs, Folders[i].id)))
  }

  /** `getDocumentsFromStorage`. `stored` is the parsed document list, `None` when reading or
      parsing it throws; then every folder is shown with no documents. */
  method FolderCounts(stored: Option<seq<FolderRef>>) returns (folders: seq<FolderWithCount>)
    ensures stored.Some? ==> folders == CountsFor(stored.value)
    ensures stored.None? ==> folders == CountsFor([])
  {
    match stored {
      case None =>
        folders := seq(|Folders|, i requires 0 <= i < |Folders| => FolderWithCount(Folders[i].id, Folders[i].name, 0));
      case Some(docs) =>
        var counts := CountDocuments(docs);
        FolderIdsDistinct();
        folders := seq(|Folders|, i requires 0 <= i < |Folders| =>
          FolderWithCount(Folders[i].id, Folders[i].name, CountOf(counts, Folders[i].id)));
    }
  }

  /** A document is filed when its `folderId` is one of the fixed folders' ids. */
  predicate Filed(d: FolderRef)
  {
    d.Some? && exists i :: 0 <= i < |Folders| && Folders[i].id == d.value
  }

  function FiledCount(docs: seq<FolderRef>): nat
  {
    if docs == [] then 0
    else FiledCount(docs[..|docs| - 1]) + (if Filed(docs[|docs| - 1]) then 1 else 0)
  }

  function Total(entries: seq<FolderWithCount>): nat
  {
    if entries == [] then 0 else entries[0].documentCount + Total(entries[1..])
  }

  /** The grid's total is the sum of the five folders' counts. */
  lemma TotalOfCounts(docs: seq<FolderRef>)
    ensures Total(CountsFor(docs)) == Occurrences(docs, "1") + Occurrences(docs, "2")
      + Occurrences(docs, "3") + Occurrences(docs, "4") + Occurrences(docs, "5")
  {
    var r := CountsFor(docs);
    assert r[0].documentCount == Occurrences(docs, "1");
    assert r[1].documentCount == Occurrences(docs, "2");
    assert r[2].documentCount == Occurrences(docs, "3");
    assert r[3].documentCount == Occurrences(docs, "4");
    assert r[4].documentCount == Occurrences(docs, "5");
    assert r[4..][1..] == [];
    assert Total(r[4..]) == r[4].documentCount;
    assert r[3..][1..] == r[4..];
    assert Total(r[3..]) == r[3].documentCount + Total(r[4..]);
    assert r[2..][1..] == r[3..];
    assert Total(r[2..]) == r[2].documentCount + Total(r[3..]);
    assert r[1..][1..] == r[2..];
    assert Total(r[1..]) == r[1].documentCount + Total(r[2..]);
  }

  /** Each document is counted in at most one folder: the counts add up to the number of
      documents filed under a fixed folder, so documents with a missing, empty or unknown
      folder id are counted nowhere and the total never exceeds the number of documents. */
  lemma {:induction false} CountsAddUp(docs: seq<FolderRef>)
    ensures Total(CountsFor(docs)) == FiledCount(docs)
    ensures FiledCount(docs) <= |docs|
  {
    TotalOfCounts(docs);
    if docs != [] {
      var rest := docs[..|docs| - 1];
      CountsAddUp(rest);
      TotalOfCounts(rest);
      var d := docs[|docs| - 1];
      assert Filed(d) <==> d == Some("1") || d == Some("2") || d == Some("3") || d == Some("4") || d == Some("5") by {
        if Filed(d) {
          var i :| 0 <= i < |Folders| && Folders[i].id == d.value;
          assert i == 0 || i == 1 || i == 2 || i == 3 || i == 4;
        }
        if d == Some("1") { assert Folders[0].id == d.value; }
        if d == Some("2") { assert Folders[1].id == d.value; }
        if d == Some("3") { assert Folders[2].id == d.value; }
        if d == Some("4") { assert Folders[3].id == d.value; }
        if d == Some("5") { assert Folders[4].id == d.value; }
      }
    }
  }

  /** A document outside the fixed folders changes no count; one filed under the k-th folder
      adds one to that folder's count and to no other. */
  lemma AddingDocument(docs: seq<FolderRef>, d: FolderRef)
    ensures !Filed(d) ==> CountsFor(docs + [d]) == CountsFor(docs)
    ensures forall k :: 0 <= k < |Folders| && d == Some(Folders[k].id) ==>
      forall i :: 0 <= i < |Folders| ==>
        CountsFor(docs + [d])[i].documentCount == CountsFor(docs)[i].documentCount + (if i == k then 1 else 0)
  {
    assert (docs + [d])[..|docs|] == docs;
    FolderIdsDistinct();
  }
}
