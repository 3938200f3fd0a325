/**
  The POSIX flavour of Node's `path` module as the application uses it:
  `basename`, `dirname`, `extname` and a two-argument `join`. A path is a
  string whose separator is `/`.
 */
module Paths {
  import opened Optional
  import opened Text

  /** `p` with every trailing `/` removed. */
  function TrimTrailingSlashes(p: string): (r: string)
    ensures StartsWith(p, r)
    ensures |r| == 0 || r[|r| - 1] != '/'
    ensures forall i :: |r| <= i < |p| ==> p[i] == '/'
  {
    if |p| > 0 && p[|p| - 1] == '/' then TrimTrailingSlashes(p[..|p| - 1]) else p
  }

  /** The characters after the last `/` of `p` (all of `p` if it has none). */
  function LastSegment(p: string): (r: string)
    ensures '/' !in r
    ensures EndsWith(p, r)
    ensures |r| < |p| ==> p[|p| - |r| - 1] == '/'
  {
    if |p| == 0 || p[|p| - 1] == '/' then ""
    else LastSegment(p[..|p| - 1]) + [p[|p| - 1]]
  }

  /** `path.basename(p)`: the last segment, ignoring trailing separators. */
  function Basename(p: string): (r: string)
    ensures '/' !in r
  {
    LastSegment(TrimTrailingSlashes(p))
  }

  /** A file or directory name that `join` appends as a single segment. */
  predicate IsSegment(f: string) {
    f != "" && '/' !in f
  }

  /** `path.join(d, f)` for already-normal arguments: exactly one separator
      between the two parts, and an empty part contributes nothing. */
  function Join(d: string, f: string): string {
    if d == "" then f
    else if f == "" then d
    else if d[|d| - 1] == '/' then d + f
    else d + "/" + f
  }

  /** Scan of `path.dirname`: moving left from index `i`, past trailing
      separators and then past the last segment, to the separator before it;
      -1 when no such separator exists at an index of at least 1. */
  function DirEnd(p: string, i: int, matchedSlash: bool): (e: int)
    requires i < |p|
    ensures e == -1 || (1 <= e <= i && p[e] == '/')
    decreases i
  {
    if i < 1 then -1
    else if p[i] == '/' then (if !matchedSlash then i else DirEnd(p, i - 1, matchedSlash))
    else DirEnd(p, i - 1, false)
  }

  /** `path.dirname(p)`. */
  function Dirname(p: string): string {
    if |p| == 0 then "."
    else
      var end := DirEnd(p, |p| - 1, true);
      if end == -1 then (if p[0] == '/' then "/" else ".")
      else if p[0] == '/' && end == 1 then "//"
      else p[..end]
  }

  /** Index of the last occurrence of `c` in `s`. */
  function LastIndexOfChar(s: string, c: char): (r: Option<nat>)
    ensures r.Some? ==> r.value < |s| && s[r.value] == c
    ensures r.Some? ==> forall j :: r.value < j < |s| ==> s[j] != c
    ensures r.None? ==> c !in s
  {
    if |s| == 0 then None
    else if s[|s| - 1] == c then Some(|s| - 1)
    else LastIndexOfChar(s[..|s| - 1], c)
  }

  /** The extension of a file name: from its last `.` on, except that a
      name whose only leading dot is its first character (`.bashrc`), and
      the name `..`, have none. */
  function ExtOf(b: string): (r: string)
    ensures EndsWith(b, r)
    ensures r == "" || (r[0] == '.' && |r| < |b|)
  {
    match LastIndexOfChar(b, '.')
    case None => ""
    case Some(k) => if k == 0 || b == ".." then "" else b[k..]
  }

  /** `path.extname(p)`. */
  function Extname(p: string): string {
    ExtOf(Basename(p))
  }

  /** `path.basename(p, path.extname(p))`: the file name without its extension. */
  function Stem(p: string): string {
    var b := Basename(p);
    b[..|b| - |ExtOf(b)|]
  }

  /** Stem and extension together give back the file name. */
  lemma StemExtname(p: string)
    ensures Stem(p) + Extname(p) == Basename(p)
  {
    var b := Basename(p);
    assert b == b[..|b| - |ExtOf(b)|] + b[|b| - |ExtOf(b)|..];
  }

  /** The last segment of a path that ends in a segment is that segment. */
  lemma {:induction false} LastSegmentOfSuffix(d: string, f: string)
    requires '/' !in f
    requires d == "" || d[|d| - 1] == '/'
    ensures LastSegment(d + f) == f
    decreases |f|
  {
    if |f| == 0 {
      assert d + f == d;
    } else {
      var g := f[..|f| - 1];
      assert (d + f)[..|d + f| - 1] == d + g;
      LastSegmentOfSuffix(d, g);
      assert f == g + [f[|f| - 1]];
    }
  }

  /** Appending a segment makes that segment the basename. */
  lemma BasenameJoin(d: string, f: string)
    requires IsSegment(f)
    ensures Basename(Join(d, f)) == f
  {
    var p := Join(d, f);
    assert p[|p| - 1] == f[|f| - 1];
    assert TrimTrailingSlashes(p) == p;
    if d == "" {
      LastSegmentOfSuffix("", f);
      assert "" + f == f;
    } else if d[|d| - 1] == '/' {
      LastSegmentOfSuffix(d, f);
    } else {
      LastSegmentOfSuffix(d + "/", f);
      assert d + "/" + f == (d + "/") + f;
    }
  }

  /** The basename of a path without a trailing separator is its final,
      non-empty segment: the whole path, or what follows its last `/`. */
  lemma BasenameOfPlainPath(p: string)
    ensures p != "" && p[|p| - 1] != '/' ==>
      var b := Basename(p); b != "" && (b == p || EndsWith(p, "/" + b))
  {
    if p != "" && p[|p| - 1] != '/' {
      assert TrimTrailingSlashes(p) == p;
      var b := LastSegment(p);
      assert b == LastSegment(p[..|p| - 1]) + [p[|p| - 1]];
      if |b| < |p| {
        var k := |p| - |b| - 1;
        assert p[k..] == [p[k]] + p[k + 1..];
      }
    }
  }

  /** Scanning left through a trailing segment reaches the separator before it. */
  lemma {:induction false} DirEndThroughSegment(d: string, f: string, i: int)
    requires |d| >= 1 && IsSegment(f)
    requires |d| <= i < |d| + 1 + |f|
    ensures DirEnd(d + "/" + f, i, i == |d| + |f|) == |d|
    decreases i
  {
    var p := d + "/" + f;
    if i == |d| {
      assert p[i] == '/';
    } else {
      assert p[i] == f[i - |d| - 1];
      assert p[i] != '/';
      DirEndThroughSegment(d, f, i - 1);
    }
  }

  /** The parent of a joined path is the directory it was joined onto,
      for a directory written without a trailing separator. */
  lemma DirnameJoin(d: string, f: string)
    requires d != "" && d[|d| - 1] != '/'
    requires IsSegment(f)
    ensures Dirname(Join(d, f)) == d
  {
    var p := d + "/" + f;
    assert Join(d, f) == p;
    DirEndThroughSegment(d, f, |p| - 1);
    assert p[..|d|] == d;
    if d[0] == '/' {
      assert |d| != 1;
    }
  }
}
