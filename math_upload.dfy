/**
 * The math upload page: the topic proposed for an uploaded file is its name
 * with the final extension removed (`name.replace(/\.[^/.]+$/, "")`), and the
 * form is submitted only with a file and a non-empty topic.
 */
module MathUpload {
  import opened Wrappers

  /** The pattern `\.[^/.]+$` matches at `p`: a "." there, followed by at least one
      character, none of them "/" or ".", up to the end of the name. */
  predicate ExtensionAt(s: string, p: nat)
  {
    p + 1 < |s| && s[p] == '.' && forall k :: p < k < |s| ==> s[k] != '/' && s[k] != '.'
  }

  /** The leftmost match at or after `from`, as a regular-expression search finds it. The
      match always runs to the end of the name, so there is nothing to backtrack over. */
  function FirstExtensionFrom(s: string, from: nat): (r: Option<nat>)
    ensures r.Some? ==> from <= r.value && ExtensionAt(s, r.value)
    ensures forall p :: from <= p && (r.None? || p < r.value) ==> !ExtensionAt(s, p)
    decreases |s| - from
  {
    if from >= |s| then None
    else if ExtensionAt(s, from) then Some(from)
    else FirstExtensionFrom(s, from + 1)
  }

  /** The topic proposed for a file named `name`: the first match of the pattern and
      everything after it removed, or the name unchanged when there is none. */
  function StripExtension(name: string): (topic: string)
    ensures |topic| <= |name| && topic == name[..|topic|]
  {
    match FirstExtensionFrom(name, 0)
    case None => name
    case Some(p) => name[..p]
  }

  /** Removing `.ext` from `stem.ext` gives back `stem`, for any stem, when `ext` is
      non-empty and holds neither "." nor "/". */
  lemma StripExtensionRoundTrip(stem: string, ext: string)
    requires ext != []
    requires forall k :: 0 <= k < |ext| ==> ext[k] != '/' && ext[k] != '.'
    ensures StripExtension(stem + "." + ext) == stem
  {
    var s := stem + "." + ext;
    assert ExtensionAt(s, |stem|) by {
      forall k | |stem| < k < |s|
        ensures s[k] != '/' && s[k] != '.'
      {
        assert s[k] == ext[k - |stem| - 1];
      }
    }
    forall p: nat | p < |stem|
      ensures !ExtensionAt(s, p)
    {
      assert s[|stem|] == '.';
    }
    assert s[..|stem|] == stem;
  }

  /** A name without "." is left as it is. */
  lemma NoDotUnchanged(name: string)
    requires forall k :: 0 <= k < |name| ==> name[k] != '.'
    ensures StripExtension(name) == name
  {
    assert FirstExtensionFrom(name, 0).None?;
  }

  /** A name ending in ".", or whose last "." is followed somewhere by "/", is left as it is. */
  lemma NoCleanExtensionUnchanged(name: string, d: nat)
    requires d < |name| && name[d] == '.'
    requires forall k :: d < k < |name| ==> name[k] != '.'
    requires d + 1 == |name| || exists k :: d < k < |name| && name[k] == '/'
    ensures StripExtension(name) == name
  {
    forall p | 0 <= p < |name|
      ensures !ExtensionAt(name, p)
    {
      if p < d {
        assert name[d] == '.';
      }
    }
    assert FirstExtensionFrom(name, 0).None?;
  }

  /** Only the last extension goes, and a dot-file loses its whole name. */
  lemma StripExtensionExamples()
    ensures StripExtension("a.tar.gz") == "a.tar"
    ensures StripExtension(".env") == ""
  {
    StripExtensionRoundTrip("a.tar", "gz");
    assert "a.tar" + "." + "gz" == "a.tar.gz";
    StripExtensionRoundTrip("", "env");
    assert "" + "." + "env" == ".env";
  }

  /** A trailing "." and a "." inside a directory part are not extensions. */
  lemma KeptNameExamples()
    ensures StripExtension("notes.") == "notes."
    ensures StripExtension("v1.0/readme") == "v1.0/readme"
  {
    NoCleanExtensionUnchanged("notes.", 5);
    var path := "v1.0/readme";
    assert path[4] == '/';
    NoCleanExtensionUnchanged(path, 2);
  }

  /** The guard of `handleSubmit`: a file was chosen and the topic is not empty. */
  predicate CanSubmit(hasFile: bool, topic: string)
  {
    hasFile && topic != []
  }

  /** A dot-file such as ".env" proposes an empty topic, so choosing it alone leaves the
      form unable to submit; a named file with an extension can. */
  lemma DotFileBlocksSubmit(ext: string)
    requires ext != []
    requires forall k :: 0 <= k < |ext| ==> ext[k] != '/' && ext[k] != '.'
    ensures !CanSubmit(true, StripExtension("." + ext))
    ensures CanSubmit(true, StripExtension("report." + ext))
  {
    StripExtensionRoundTrip("", ext);
    assert "" + "." + ext == "." + ext;
    StripExtensionRoundTrip("report", ext);
    assert "report" + "." + ext == "report." + ext;
  }
}
