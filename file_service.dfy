/**
 * File storage helpers: the storage name given to an uploaded file, the two
 * shapes of the record `uploadFile` returns (stored in the bucket, or kept as
 * a local browser reference when storage fails), and the rule by which
 * `getFileUrl` and `deleteFile` recognise such local references.
 *
 * Supabase storage, the clock, `Math.random` and `URL.createObjectURL` are
 * inputs.
 */
module FileService {
  import opened Wrappers
  import opened Strings

  /** The text after the last "." of `s`, or all of `s` when it has no ".". */
  function AfterLastDot(s: string): (r: string)
    ensures |r| <= |s|
    ensures forall i :: 0 <= i < |r| ==> r[i] != '.'
  {
    if s == [] then []
    else if s[|s| - 1] == '.' then []
    else AfterLastDot(s[..|s| - 1]) + [s[|s| - 1]]
  }

  /** The text after the last "." ends the string, and is the whole string or comes right
      after a ".". */
  lemma {:induction false} AfterLastDotIsSuffix(s: string)
    ensures AfterLastDot(s) == s[|s| - |AfterLastDot(s)|..]
    ensures |AfterLastDot(s)| < |s| ==> s[|s| - |AfterLastDot(s)| - 1] == '.'
  {
    if s != [] && s[|s| - 1] != '.' {
      var s' := s[..|s| - 1];
      AfterLastDotIsSuffix(s');
      assert s[|s| - |AfterLastDot(s)|..] == s'[|s'| - |AfterLastDot(s')|..] + [s[|s| - 1]];
    }
  }

  /** What follows a "." does not depend on what precedes it. */
  lemma {:induction false} AfterLastDotAppend(a: string, b: string)
    ensures AfterLastDot(a + "." + b) == AfterLastDot(b)
    decreases |b|
  {
    var s := a + "." + b;
    if b == [] {
      assert s == a + ".";
    } else if b[|b| - 1] != '.' {
      assert s[..|s| - 1] == a + "." + b[..|b| - 1];
      AfterLastDotAppend(a, b[..|b| - 1]);
    }
  }

  /** A string without "." is its own last part. */
  lemma {:induction false} AfterLastDotNoDot(s: string)
    requires forall i :: 0 <= i < |s| ==> s[i] != '.'
    ensures AfterLastDot(s) == s
  {
    if s != [] {
      AfterLastDotNoDot(s[..|s| - 1]);
    }
  }

  /** The last element of a non-empty list: what `Array.prototype.pop` returns. */
  function Last(parts: seq<string>): string
    requires parts != []
  {
    parts[|parts| - 1]
  }

  /** No "." occurs in `s` from `from` on. */
  lemma NoDotFound(s: string, from: nat)
    requires IndexOfFrom(s, ".", from).None?
    ensures forall i :: from <= i < |s| ==> s[i] != '.'
  {
    forall i | from <= i < |s|
      ensures s[i] != '.'
    {
      assert !OccursAt(s, ".", i);
      assert s[i..i + 1] == [s[i]];
    }
  }

  /** A split that finds its separator at `i` ends the way the split of the rest ends. */
  lemma SplitLastAfterFirst(s: string, i: nat)
    requires IndexOfFrom(s, ".", 0) == Some(i)
    ensures Last(Split(s, ".")) == Last(Split(s[i + 1..], "."))
  {
    assert Split(s, ".") == [s[..i]] + Split(s[i + 1..], ".");
  }

  /** The text after the last "." lies after any "." of the string. */
  lemma AfterLastDotPastDot(s: string, i: nat)
    requires OccursAt(s, ".", i)
    ensures AfterLastDot(s) == AfterLastDot(s[i + 1..])
  {
    var a, rest := s[..i], s[i + 1..];
    assert s[i..i + 1] == ".";
    assert s == a + s[i..i + 1] + rest;
    AfterLastDotAppend(a, rest);
  }

  /** `name.split(".").pop()`: the last piece of the split is the text after the last ".". */
  lemma {:induction false} SplitLastPart(s: string)
    ensures Last(Split(s, ".")) == AfterLastDot(s)
    decreases |s|
  {
    var found := IndexOfFrom(s, ".", 0);
    if found.None? {
      NoDotFound(s, 0);
      AfterLastDotNoDot(s);
      assert Split(s, ".") == [s];
    } else {
      var i := found.value;
      SplitLastPart(s[i + 1..]);
      SplitLastAfterFirst(s, i);
      AfterLastDotPastDot(s, i);
    }
  }

  /** `file.name.split(".").pop() || 'pdf'`: the last dot-separated piece of the name, or
      "pdf" when that piece is empty (no name, or a name ending in "."). */
  function Extension(name: string): (ext: string)
    ensures ext != [] && forall i :: 0 <= i < |ext| ==> ext[i] != '.'
    ensures AfterLastDot(name) != [] ==> ext == AfterLastDot(name)
    ensures AfterLastDot(name) == [] ==> ext == "pdf"
  {
    var last := Last(Split(name, "."));
    SplitLastPart(name);
    if last == [] then "pdf" else last
  }

  /** The extension of `stem.ext` is `ext`, for any stem, when `ext` is a non-empty
      piece without "."; a name without "." is its own extension. */
  lemma ExtensionRoundTrip(stem: string, ext: string)
    requires ext != [] && forall i :: 0 <= i < |ext| ==> ext[i] != '.'
    ensures Extension(stem + "." + ext) == ext
    ensures Extension(ext) == ext
  {
    AfterLastDotAppend(stem, ext);
    AfterLastDotNoDot(ext);
  }

  /** `file_${timestamp}_${random.substring(2, 7)}.${fileExt}`, where `random` is
      `Math.random().toString(36)` and `timestamp` the clock in milliseconds. */
  function GeneratedName(timestamp: nat, random: string, name: string): string
  {
    "file_" + NatToString(timestamp) + "_" + Substring(random, 2, 7) + "." + Extension(name)
  }

  /** The storage name starts with "file_" and the timestamp, its random part has at most
      five characters, and it keeps the uploaded file's extension. */
  lemma GeneratedNameShape(timestamp: nat, random: string, name: string)
    ensures StartsWith(GeneratedName(timestamp, random, name), "file_" + NatToString(timestamp) + "_")
    ensures |Substring(random, 2, 7)| <= 5
    ensures Extension(GeneratedName(timestamp, random, name)) == Extension(name)
  {
    var head := "file_" + NatToString(timestamp) + "_";
    var stem := head + Substring(random, 2, 7);
    var g := GeneratedName(timestamp, random, name);
    assert g == head + (Substring(random, 2, 7) + "." + Extension(name));
    assert g[..|head|] == head;
    ExtensionRoundTrip(stem, Extension(name));
  }

  /** The uploaded file as the browser describes it. */
  datatype Upload = Upload(name: string, size: nat, fileType: string)

  /** The record `uploadFile` returns. A stored file has no local URL and is not local;
      the fallback record carries the object URL and `isLocal: true`. */
  datatype StoredFile = StoredFile(path: string, fullPath: string, name: string, size: nat,
                                   fileType: string, localUrl: Option<string>, isLocal: bool)

  /** `uploadFile`. `stored` is the path storage reports (`None` when the upload fails);
      `objectUrl` is `URL.createObjectURL(file)` (`None` when it throws, which makes the whole
      call return `null`, here `None`). */
  function UploadFile(file: Upload, bucket: string, timestamp: nat, random: string,
                      stored: Option<string>, objectUrl: Option<string>): (r: Option<StoredFile>)
    ensures stored.Some? ==>
      (r.Some? && !r.value.isLocal && r.value.localUrl.None?
       && r.value.path == stored.value && r.value.fullPath == bucket + "/" + stored.value)
    ensures stored.None? && objectUrl.Some? ==>
      (r.Some? && r.value.isLocal && r.value.localUrl == objectUrl
       && r.value.path == r.value.fullPath == GeneratedName(timestamp, random, file.name))
    ensures stored.None? && objectUrl.None? ==> r.None?
    ensures r.Some? ==> r.value.name == file.name && r.value.size == file.size && r.value.fileType == file.fileType
  {
    match stored
    case Some(path) =>
      Some(StoredFile(path, bucket + "/" + path, file.name, file.size, file.fileType, None, false))
    case None =>
      match objectUrl
      case None => None
      case Some(url) =>
        var fileName := GeneratedName(timestamp, random, file.name);
        Some(StoredFile(fileName, fileName, file.name, file.size, file.fileType, Some(url), true))
  }

  /** A local fallback record keeps the extension of the uploaded file in its path. */
  lemma LocalRecordKeepsExtension(file: Upload, bucket: string, timestamp: nat, random: string, url: string)
    ensures var r := UploadFile(file, bucket, timestamp, random, None, Some(url));
      r.Some? && Extension(r.value.path) == Extension(file.name)
  {
    GeneratedNameShape(timestamp, random, file.name);
  }

  /** A path naming a file that never reached storage: an object URL, or one mentioning
      "localUrl". */
  predicate IsLocalPath(path: string)
  {
    StartsWith(path, "blob:") || Contains(path, "localUrl")
  }

  /** `getFileUrl`: a local path is its own URL; otherwise storage's public URL, where
      `publicUrl` answers `None` when the call throws or has no URL, and an empty URL
      counts as none (`data?.publicUrl || null`). */
  function GetFileUrl(path: string, publicUrl: string -> Option<string>): (r: Option<string>)
    ensures IsLocalPath(path) ==> r == Some(path)
    ensures !IsLocalPath(path) ==> (r.Some? <==> publicUrl(path).Some? && publicUrl(path).value != [])
    ensures !IsLocalPath(path) && r.Some? ==> r == publicUrl(path)
  {
    if IsLocalPath(path) then Some(path)
    else
      match publicUrl(path)
      case Some(url) => if url == [] then None else Some(url)
      case None => None
  }

  /** `deleteFile`: a local path is reported deleted without asking storage; otherwise the
      result is whether storage's `remove` reported no error. */
  function DeleteFile(path: string, removeFails: string -> bool): (deleted: bool)
    ensures IsLocalPath(path) ==> deleted
    ensures !IsLocalPath(path) ==> (deleted <==> !removeFails(path))
  {
    if IsLocalPath(path) then true else !removeFails(path)
  }

  /** Object URLs and paths mentioning "localUrl" never reach storage, whatever it would say. */
  lemma LocalPathsBypassStorage(path: string, publicUrl: string -> Option<string>, removeFails: string -> bool)
    requires StartsWith(path, "blob:") || exists i :: OccursAt(path, "localUrl", i)
    ensures GetFileUrl(path, publicUrl) == Some(path)
    ensures DeleteFile(path, removeFails)
  {
    ContainsIff(path, "localUrl");
  }
}
