/** The two ways the program takes an extension from a path: pathlib's
    `PurePath.suffix` (used when dispatching a stored file to a reader) and
    POSIX `os.path.splitext` (used when validating and renaming an upload).
    Paths are plain strings with `/` as the only separator. */
module Paths {

  /** Index of the last `c` in `s`, or -1 (`str.rfind`). */
  function LastIndexOf(s: string, c: char): (r: int)
    ensures -1 <= r < |s|
    ensures r >= 0 ==> s[r] == c
    ensures forall j :: r < j < |s| ==> s[j] != c
  {
    if s == [] then -1
    else if s[|s| - 1] == c then |s| - 1
    else LastIndexOf(s[..|s| - 1], c)
  }

  /** `s[i]` is the last `c` in `s`. */
  predicate IsLast(s: string, c: char, i: int) {
    0 <= i < |s| && s[i] == c && forall j :: i < j < |s| ==> s[j] != c
  }

  /** The final path component, `PurePath.name`: everything after the last `/`. */
  function Name(p: string): (n: string)
    ensures |n| <= |p| && n == p[|p| - |n|..]
    ensures forall j :: 0 <= j < |n| ==> n[j] != '/'
    ensures |n| < |p| ==> p[|p| - |n| - 1] == '/'
  {
    var i := LastIndexOf(p, '/') + 1;
    assert forall j :: 0 <= j < |p| - i ==> p[i..][j] == p[i + j];
    p[i..]
  }

  /** The suffix of a final component: from its last dot, provided that dot
      is neither the first nor the last character of the name. */
  function NameSuffix(name: string): (x: string)
    ensures |x| <= |name|
    ensures x == [] || (2 <= |x| && x[0] == '.' && x == name[|name| - |x|..])
    ensures forall j :: 0 < j < |x| ==> x[j] != '.'
    ensures x != [] <==> exists i :: 0 < i < |name| - 1 && IsLast(name, '.', i)
    ensures forall i :: 0 < i < |name| - 1 && IsLast(name, '.', i) ==> x == name[i..]
  {
    var i := LastIndexOf(name, '.');
    if 0 < i < |name| - 1 then
      assert IsLast(name, '.', i);
      name[i..]
    else ""
  }

  /** `PurePath(p).suffix`: the suffix of the path's name. */
  function Suffix(p: string): (x: string)
    ensures |x| <= |p|
    ensures x == [] || (2 <= |x| && x[0] == '.' && x == p[|p| - |x|..])
    ensures forall j :: 0 < j < |x| ==> x[j] != '.' && x[j] != '/'
  {
    NameSuffix(Name(p))
  }

  /** `os.path.splitext(p)` on POSIX: the extension starts at the last dot
      after the last `/`, unless everything between that `/` and the dot is
      dots (a leading-dot name such as ".pdf" has no extension). */
  function SplitExt(p: string): (parts: (string, string))
    ensures parts.0 + parts.1 == p
    ensures parts.1 == [] || parts.1[0] == '.'
    ensures forall j :: 0 < j < |parts.1| ==> parts.1[j] != '.' && parts.1[j] != '/'
    ensures parts.1 != [] ==> exists k :: LastIndexOf(p, '/') < k < |parts.0| && p[k] != '.'
    ensures parts.1 == [] ==> forall d, k :: IsLast(p, '.', d) && LastIndexOf(p, '/') < k < d ==> p[k] == '.'
  {
    var sep := LastIndexOf(p, '/');
    var dot := LastIndexOf(p, '.');
    if dot > sep && exists k :: sep < k < dot && p[k] != '.' then (p[..dot], p[dot..])
    else (p, "")
  }

  /** The extension part of `os.path.splitext(p)`. */
  function Ext(p: string): string {
    SplitExt(p).1
  }

  /** A dotless name has no extension, and neither does a name whose only dot
      leads it. */
  lemma NoExtension(name: string)
    requires forall j :: 0 <= j < |name| ==> name[j] != '/'
    requires forall j :: 0 < j < |name| ==> name[j] != '.'
    ensures Ext(name) == ""
  {
  }

  /** Only the last extension counts: whatever comes before the final dot is
      part of the root. */
  lemma LastExtensionOnly(root: string, ext: string)
    requires (exists k :: 0 <= k < |root| && root[k] != '.') && forall j :: 0 <= j < |root| ==> root[j] != '/'
    requires |ext| >= 1 && ext[0] == '.'
    requires forall j :: 0 < j < |ext| ==> ext[j] != '.' && ext[j] != '/'
    ensures Ext(root + ext) == ext
  {
    var p := root + ext;
    var sep := LastIndexOf(p, '/');
    var dot := LastIndexOf(p, '.');
    assert p[|root|] == '.';
    assert dot == |root|;
    var k :| 0 <= k < |root| && root[k] != '.';
    assert p[k] == root[k];
    assert sep < 0;
    assert p[..dot] == root;
  }

  /** A name ending in a proper extension has that extension as its pathlib
      suffix, whatever directory it is stored under. */
  lemma SuffixOfStoredName(dir: string, stem: string, ext: string)
    requires |stem| > 0 && forall j :: 0 <= j < |stem| ==> stem[j] != '/'
    requires |ext| >= 2 && ext[0] == '.'
    requires forall j :: 0 < j < |ext| ==> ext[j] != '.' && ext[j] != '/'
    ensures Suffix(dir + "/" + stem + ext) == ext
  {
    var p := dir + "/" + stem + ext;
    var name := stem + ext;
    var s := LastIndexOf(p, '/');
    assert p[|dir|] == '/';
    assert s == |dir| by {
      forall j | |dir| < j < |p| ensures p[j] != '/' {
        assert p[j] == name[j - |dir| - 1];
      }
    }
    assert Name(p) == name;
    var i := LastIndexOf(name, '.');
    assert name[|stem|] == '.';
    assert i == |stem|;
    assert name[i..] == ext;
  }
}
