/**
 * File-system paths and file URLs as the viewer sees them.
 *
 * A path is the sequence of its components; the root directory "/" is the
 * empty sequence, so dropping the last component is `deletingLastPathComponent`.
 */
module Paths {
  import opened Wrappers

  type Path = seq<string>

  /** A component of a standardized path: non-empty, free of '/', and neither "." nor "..". */
  predicate ValidComponent(c: string) {
    c != "" && '/' !in c && c != "." && c != ".."
  }

  predicate ValidPath(p: Path) {
    forall i :: 0 <= i < |p| ==> ValidComponent(p[i])
  }

  /** "/c0/c1/.../ck" for a non-empty path, "" for the root. */
  function Join(p: Path): string {
    if p == [] then "" else Join(p[..|p| - 1]) + "/" + p[|p| - 1]
  }

  /** `URL.path`: the string under which a location is stored and looked up. */
  function PathString(p: Path): (s: string)
    ensures |s| >= 1 && s[0] == '/'
  {
    if p == [] then "/"
    else
      JoinStartsWithSlash(p);
      Join(p)
  }

  /** For a well-formed path, only the root renders as "/". */
  lemma PathStringIsRoot(p: Path)
    requires ValidPath(p)
    ensures PathString(p) == "/" <==> p == []
  {
    if p != [] {
      JoinStartsWithSlash(p);
      assert p[|p| - 1] != "";
    }
  }

  lemma {:induction false} JoinStartsWithSlash(p: Path)
    requires p != []
    ensures |Join(p)| >= |p[|p| - 1]| + 1 && Join(p)[0] == '/'
  {
    var init := p[..|p| - 1];
    if init != [] {
      JoinStartsWithSlash(init);
    }
  }

  /**
   * A strictly shorter prefix of a well-formed path has a strictly shorter
   * path string; in particular distinct prefixes are stored under distinct keys.
   */
  lemma {:induction false} PrefixPathStringShorter(b: Path, n: nat)
    requires ValidPath(b) && n < |b|
    ensures |PathString(b[..n])| < |PathString(b)|
  {
    var init := b[..|b| - 1];
    assert b[|b| - 1] != "";
    assert Join(b) == Join(init) + "/" + b[|b| - 1];
    if n == 0 {
      assert b[..n] == [];
    } else if n == |b| - 1 {
      assert b[..n] == init;
    } else {
      assert b[..n] == init[..n];
      assert ValidPath(init) by {
        forall i | 0 <= i < |init| ensures ValidComponent(init[i]) {
          assert init[i] == b[i];
        }
      }
      PrefixPathStringShorter(init, n);
    }
  }

  /** `deletingLastPathComponent`, which the ancestor walk never applies to the root. */
  function Parent(p: Path): (q: Path)
    requires p != []
    ensures |q| == |p| - 1 && q == p[..|q|]
  {
    p[..|p| - 1]
  }

  lemma ParentValid(p: Path)
    requires ValidPath(p) && p != []
    ensures ValidPath(Parent(p))
  {
    forall i | 0 <= i < |Parent(p)| ensures ValidComponent(Parent(p)[i]) {
      assert Parent(p)[i] == p[i];
    }
  }

  /**
   * The locations `restoreAccessForDirectory` tries, in order: the directory itself,
   * then each ancestor, ending with the root.
   */
  function Ancestors(p: Path): (r: seq<Path>)
    decreases |p|
    ensures |r| == |p| + 1
    ensures forall k :: 0 <= k < |r| ==> r[k] == p[..|p| - k]
  {
    if p == [] then [p] else [p] + Ancestors(Parent(p))
  }

  /** A file URL: its path and whether it is written as a directory (`hasDirectoryPath`). */
  datatype Url = Url(path: Path, hasDirectoryPath: bool)

  /** `lastPathComponent`: the file name, "/" for the root. */
  function LastPathComponent(u: Url): (name: string)
    ensures u.path != [] ==> name == u.path[|u.path| - 1]
    ensures u.path == [] ==> name == "/"
  {
    if u.path == [] then "/" else u.path[|u.path| - 1]
  }

  /** The position of the last `c` in `s`, if any. */
  function LastIndexOf(s: string, c: char): (r: Option<nat>)
    ensures r.None? <==> c !in s
    ensures r.Some? ==> r.value < |s| && s[r.value] == c
    ensures r.Some? ==> forall j :: r.value < j < |s| ==> s[j] != c
  {
    if s == [] then None
    else if s[|s| - 1] == c then Some(|s| - 1)
    else
      var r := LastIndexOf(s[..|s| - 1], c);
      assert forall j :: 0 <= j < |s| - 1 ==> s[..|s| - 1][j] == s[j];
      r
  }

  /**
   * `pathExtension` of a file name: what follows its last dot, or "" when the
   * name has no dot or its only dot is the leading one of a hidden name.
   */
  function PathExtension(name: string): (ext: string)
    ensures '.' !in ext
    ensures ext == "" || (|ext| + 1 < |name| && name[|name| - |ext| - 1] == '.' && name[|name| - |ext|..] == ext)
    ensures '.' !in name ==> ext == ""
    ensures forall i :: 0 < i < |name| && name[i] == '.' && '.' !in name[i + 1..] ==> ext == name[i + 1..]
    ensures |name| > 0 && '.' !in name[1..] ==> ext == ""
  {
    match LastIndexOf(name, '.')
    case None => ""
    case Some(i) =>
      if i == 0 then ""
      else name[i + 1..]
  }

  function LowerChar(c: char): char {
    if 'A' <= c <= 'Z' then (c as int + 32) as char else c
  }

  /** `lowercased()` on the ASCII letters. */
  function Lowercased(s: string): (r: string)
    ensures |r| == |s|
    ensures forall i :: 0 <= i < |s| ==> r[i] == LowerChar(s[i])
    ensures forall i :: 0 <= i < |r| ==> !('A' <= r[i] <= 'Z')
  {
    seq(|s|, i requires 0 <= i < |s| => LowerChar(s[i]))
  }
}
