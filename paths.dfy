/** POSIX `pathlib` paths as the downloader uses them: construction from a
    string, `/`, `str()`, `.parent`, `.name`, `.suffix` and `.stem`. A path is
    kept in pathlib's normal form: whether it is absolute, and its components
    with empty and `.` components dropped. */
module Paths {
  import opened Wrappers
  import opened Text

  datatype Path = Path(absolute: bool, parts: seq<string>)

  /** A component pathlib keeps: non-empty, no separator, not `.`. */
  predicate IsComponent(c: string)
  {
    c != "" && c != "." && '/' !in c
  }

  predicate WellFormed(p: Path)
  {
    forall i :: 0 <= i < |p.parts| ==> IsComponent(p.parts[i])
  }

  /** Drops the empty and `.` pieces of a split. */
  function KeepComponents(pieces: seq<string>): (r: seq<string>)
    requires forall i :: 0 <= i < |pieces| ==> '/' !in pieces[i]
    ensures forall i :: 0 <= i < |r| ==> IsComponent(r[i])
    ensures |r| <= |pieces|
  {
    if pieces == [] then []
    else if pieces[0] == "" || pieces[0] == "." then KeepComponents(pieces[1..])
    else [pieces[0]] + KeepComponents(pieces[1..])
  }

  /** `Path(s)`. */
  function ParsePath(s: string): (p: Path)
    ensures WellFormed(p)
    ensures p.absolute <==> StartsWith(s, "/")
  {
    Path(StartsWith(s, "/"), KeepComponents(Split(s, '/')))
  }

  /** `str(p)`: `.` for the empty relative path. */
  function PathToString(p: Path): (s: string)
    ensures WellFormed(p) ==> s != ""
  {
    if p.absolute then "/" + JoinWith(p.parts, '/')
    else if p.parts == [] then "."
    else JoinWith(p.parts, '/')
  }

  /** `p / q` for two paths: an absolute right operand replaces the left one. */
  function JoinPath(p: Path, q: Path): (r: Path)
    ensures WellFormed(p) && WellFormed(q) ==> WellFormed(r)
    ensures q.absolute ==> r == q
    ensures !q.absolute ==> r.absolute == p.absolute && r.parts == p.parts + q.parts
  {
    if q.absolute then q else Path(p.absolute, p.parts + q.parts)
  }

  /** `p / s` for a string `s`. */
  function Join(p: Path, s: string): (r: Path)
    ensures WellFormed(p) ==> WellFormed(r)
  {
    JoinPath(p, ParsePath(s))
  }

  /** `p.name`: the last component, or "" for a path without components. */
  function Name(p: Path): string
  {
    if p.parts == [] then "" else p.parts[|p.parts| - 1]
  }

  /** `p.parent`: the path without its last component; the root and `.` are their own parent. */
  function Parent(p: Path): (r: Path)
    ensures WellFormed(p) ==> WellFormed(r)
    ensures r.absolute == p.absolute
  {
    if p.parts == [] then p else Path(p.absolute, p.parts[..|p.parts| - 1])
  }

  /** Position of the last `.` in `s`, if any. */
  function LastDot(s: string): (r: Option<nat>)
    ensures r.Some? ==> r.value < |s| && s[r.value] == '.'
    ensures r.Some? ==> forall j :: r.value < j < |s| ==> s[j] != '.'
    ensures r.None? ==> '.' !in s
  {
    if s == [] then None
    else if s[|s| - 1] == '.' then Some(|s| - 1)
    else LastDot(s[..|s| - 1])
  }

  /** Two names of one length with their dots at the same places have their last dot at the same place. */
  lemma LastDotSameDots(a: string, b: string)
    requires |a| == |b| && forall i :: 0 <= i < |a| ==> (a[i] == '.' <==> b[i] == '.')
    ensures LastDot(a) == LastDot(b)
  {
    if LastDot(a).Some? {
      assert b[LastDot(a).value] == '.';
    }
    if LastDot(b).Some? {
      assert a[LastDot(b).value] == '.';
    }
  }

  /** pathlib's rule for where the suffix starts: a last dot that is neither
      the first nor the last character of the name. */
  function SuffixStart(name: string): (r: Option<nat>)
    ensures r.Some? ==> 0 < r.value < |name| - 1 && name[r.value] == '.'
  {
    match LastDot(name)
    case Some(i) => if 0 < i < |name| - 1 then Some(i) else None
    case None => None
  }

  /** `p.suffix`. */
  function Suffix(p: Path): (r: string)
    ensures r == "" || (|r| >= 2 && r[0] == '.' && '.' !in r[1..])
    ensures EndsWith(Name(p), r)
  {
    var name := Name(p);
    match SuffixStart(name)
    case Some(i) =>
      assert name[i..][1..] == name[i + 1..];
      name[i..]
    case None => ""
  }

  /** `p.stem`. */
  function Stem(p: Path): (r: string)
    ensures r + Suffix(p) == Name(p)
  {
    var name := Name(p);
    match SuffixStart(name)
    case Some(i) => name[..i]
    case None => name
  }

  lemma {:induction false} KeepComponentsIdentity(parts: seq<string>)
    requires forall i :: 0 <= i < |parts| ==> IsComponent(parts[i]) && '/' !in parts[i]
    ensures KeepComponents(parts) == parts
  {
    if parts != [] {
      KeepComponentsIdentity(parts[1..]);
      assert parts == [parts[0]] + parts[1..];
    }
  }

  /** `Path(str(p)) == p` for every path in normal form. */
  lemma {:induction false} ParsePathToString(p: Path)
    requires WellFormed(p)
    ensures ParsePath(PathToString(p)) == p
  {
    if p.parts == [] {
      if p.absolute {
        assert PathToString(p) == "/";
        assert Split("/", '/') == ["", ""];
      } else {
        assert Split(".", '/') == ["."];
      }
    } else {
      ParseJoined(p.parts);
      if p.absolute {
        ParseRooted(p.parts);
      } else {
        assert PathToString(p) == JoinWith(p.parts, '/');
      }
    }
  }

  lemma {:induction false} ParseJoined(parts: seq<string>)
    requires |parts| >= 1
    requires forall i :: 0 <= i < |parts| ==> IsComponent(parts[i])
    ensures KeepComponents(Split(JoinWith(parts, '/'), '/')) == parts
    ensures !StartsWith(JoinWith(parts, '/'), "/")
  {
    SplitJoin(parts, '/');
    KeepComponentsIdentity(parts);
    var j := JoinWith(parts, '/');
    var first := parts[0];
    assert IsComponent(first);
    assert StartsWith(j, first);
    assert j[0] == first[0];
    assert first[0] != '/';
  }

  lemma {:induction false} ParseRooted(parts: seq<string>)
    requires |parts| >= 1
    requires forall i :: 0 <= i < |parts| ==> IsComponent(parts[i])
    ensures KeepComponents(Split("/" + JoinWith(parts, '/'), '/')) == parts
  {
    var j := JoinWith(parts, '/');
    var s := "/" + j;
    IndexOfAfter("", '/', j);
    assert s[..0] == "" && s[1..] == j;
    assert Split(s, '/') == [""] + Split(j, '/');
    ParseJoined(parts);
  }

  /** A child's name is the component added, and its parent is where it was added. */
  lemma JoinComponent(p: Path, c: string)
    requires IsComponent(c)
    ensures Name(Join(p, c)) == c
    ensures Parent(Join(p, c)) == p
  {
    IndexOfAbsent(c, '/');
    assert Split(c, '/') == [c];
    assert ParsePath(c) == Path(false, [c]);
    assert Join(p, c).parts[..|p.parts|] == p.parts;
  }
}
