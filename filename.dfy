/** How the processor names a downloaded file: the `filename` parameter of the
    Content-Disposition header, else an extension taken from the URL path,
    else `.zip` when the content type mentions zip, else the job name. */
module Filenames {
  import opened Wrappers
  import opened Text
  import opened Paths

  const Key := "filename="

  /** Where the group of the pattern `filename="?([^"]+)"?` starts when the
      match starts at `p`: after one optional quote, but only if a non-quote
      character follows it (otherwise the optional quote is given back). */
  function GroupStart(s: string, p: nat): (q: nat)
    requires p + |Key| <= |s|
    ensures p + |Key| <= q <= p + |Key| + 1
  {
    var q := p + |Key|;
    if q + 1 < |s| && s[q] == '"' && s[q + 1] != '"' then q + 1 else q
  }

  /** The pattern matches at `p`. */
  predicate MatchAt(s: string, p: nat)
  {
    OccursAt(s, Key, p) && GroupStart(s, p) < |s| && s[GroupStart(s, p)] != '"'
  }

  /** The captured group: the longest run of non-quote characters at the group start. */
  function GroupAt(s: string, p: nat): (g: string)
    requires MatchAt(s, p)
    ensures |g| >= 1 && '"' !in g
    ensures OccursAt(s, g, GroupStart(s, p))
    ensures GroupStart(s, p) + |g| == |s| || s[GroupStart(s, p) + |g|] == '"'
  {
    var q := GroupStart(s, p);
    var n := IndexOf(s[q..], '"');
    assert s[q..][0] != '"';
    assert s[q..q + n] == s[q..][..n];
    s[q..q + n]
  }

  /** `re.search`: the leftmost match position at or after `from`. */
  function FirstMatch(s: string, from: nat): (r: Option<nat>)
    ensures r.Some? ==> from <= r.value && MatchAt(s, r.value)
    ensures r.Some? ==> forall p :: from <= p < r.value ==> !MatchAt(s, p)
    ensures r.None? ==> forall p :: from <= p ==> !MatchAt(s, p)
    decreases |s| - from
  {
    if from + |Key| > |s| then None
    else if MatchAt(s, from) then Some(from)
    else FirstMatch(s, from + 1)
  }

  /** `group(1)` of the first match in the Content-Disposition value, if any. */
  function DispositionFilename(disposition: string): (r: Option<string>)
    ensures r.Some? ==> r.value != "" && '"' !in r.value
    ensures r.Some? <==> exists p :: MatchAt(disposition, p)
  {
    match FirstMatch(disposition, 0)
    case Some(p) => Some(GroupAt(disposition, p))
    case None => None
  }

  /** The suffix of the URL's path, query string removed. */
  function UrlExtension(url: string): string
  {
    Suffix(ParsePath(BeforeFirst(url, '?')))
  }

  /** An extension the processor accepts from the URL: non-empty, at most five characters. */
  predicate UsableExtension(ext: string)
  {
    ext != "" && |ext| <= 5
  }

  /** The filename `download_file` settles on. */
  function ResolveFilename(disposition: string, contentType: string, url: string, name: string): (r: string)
    ensures DispositionFilename(disposition).Some? ==> r == DispositionFilename(disposition).value
    ensures DispositionFilename(disposition).None? && UsableExtension(UrlExtension(url)) ==>
              StartsWith(r, name) && EndsWith(r, UrlExtension(url))
    ensures DispositionFilename(disposition).None? && !UsableExtension(UrlExtension(url)) ==>
              r == (if Contains(contentType, "zip") then name + ".zip" else name)
  {
    match DispositionFilename(disposition)
    case Some(f) => f
    case None =>
      var ext := UrlExtension(url);
      if UsableExtension(ext) then
        if EndsWith(name, ext) then name
        else
          var r := name + ext;
          assert r[..|name|] == name;
          assert r[|r| - |ext|..] == ext;
          r
      else if Contains(contentType, "zip") then name + ".zip"
      else name
  }

  /** The URL extension is appended at most once: a name that already ends
      with it is kept as it is, and otherwise the result is the name with the
      extension added. */
  lemma UrlExtensionAppendedOnce(disposition: string, contentType: string, url: string, name: string)
    requires DispositionFilename(disposition).None? && UsableExtension(UrlExtension(url))
    ensures EndsWith(name, UrlExtension(url)) ==> ResolveFilename(disposition, contentType, url, name) == name
    ensures !EndsWith(name, UrlExtension(url)) ==> ResolveFilename(disposition, contentType, url, name) == name + UrlExtension(url)
  {
  }

  /** A header without the substring `filename=` never names the file. */
  lemma NoKeyNoFilename(disposition: string)
    requires !Contains(disposition, Key)
    ensures DispositionFilename(disposition).None?
  {
  }

  /** A quoted parameter is read without its quotes. */
  lemma QuotedFilename(f: string)
    requires f != "" && '"' !in f
    ensures DispositionFilename("filename=\"" + f + "\"") == Some(f)
  {
    var s := "filename=\"" + f + "\"";
    assert s[..|Key|] == Key;
    assert s[|Key|] == '"' && s[|Key| + 1] == f[0];
    assert MatchAt(s, 0);
    assert s[|Key| + 1..] == f + "\"";
    IndexOfAfter(f, '"', "");
    assert s[|Key| + 1..|Key| + 1 + |f|] == f;
  }

  /** The real file is named by the resolved filename in the directory of the
      requested path. */
  lemma TargetInRequestedDirectory(requested: Path, filename: string)
    requires IsComponent(filename)
    ensures Parent(Join(Parent(requested), filename)) == Parent(requested)
    ensures Name(Join(Parent(requested), filename)) == filename
  {
    JoinComponent(Parent(requested), filename);
  }
}
