/**
 * Path strings and the paths of the output tree.
 *
 * A location in the output tree is a `Path`: the sequence of its segments,
 * relative to the dist directory (the empty path is the dist directory
 * itself).  Ledger records and bundle names use forward-slash strings instead;
 * `Render` and `Segments` translate between the two.
 */
module Paths {

  type Name = string
  type Path = seq<Name>

  /** JavaScript's `String.prototype.startsWith` with a string argument. */
  predicate StartsWith(s: string, prefix: string): (b: bool)
    ensures b <==> |prefix| <= |s| && forall i :: 0 <= i < |prefix| ==> s[i] == prefix[i]
  {
    |prefix| <= |s| && s[..|prefix|] == prefix
  }

  /** `p` is a direct entry of directory `dir` (what `readdirSync(dir)` lists). */
  predicate ChildOf(dir: Path, p: Path) {
    |p| == |dir| + 1 && p[..|dir|] == dir
  }

  /** `p` lies strictly inside directory `dir`, at any depth. */
  predicate Below(dir: Path, p: Path) {
    |dir| < |p| && p[..|dir|] == dir
  }

  function Parent(p: Path): Path
    requires p != []
  {
    p[..|p| - 1]
  }

  /** The segments joined with '/', as `path.relative(distPath, p)` prints them on a POSIX system. */
  function Join(p: Path): string
  {
    if |p| == 0 then ""
    else if |p| == 1 then p[0]
    else p[0] + "/" + Join(p[1..])
  }

  /** `s.replace(/\\/g, '/')`: every backslash becomes a forward slash. */
  function Slashes(s: string): (r: string)
    ensures |r| == |s|
    ensures '\\' !in r
    ensures forall i :: 0 <= i < |s| && s[i] != '\\' ==> r[i] == s[i]
    ensures forall i :: 0 <= i < |s| && s[i] == '\\' ==> r[i] == '/'
  {
    seq(|s|, i requires 0 <= i < |s| => if s[i] == '\\' then '/' else s[i])
  }

  /** The dist-relative, forward-slash form of a tree path that the sweep compares with the ledger. */
  function Render(p: Path): (r: string)
    ensures |r| == |Join(p)| && '\\' !in r
    ensures forall i :: 0 <= i < |r| ==> r[i] == if Join(p)[i] == '\\' then '/' else Join(p)[i]
  {
    Slashes(Join(p))
  }

  /** Length of the leading run of `s` that holds no '/'. */
  function NameLength(s: string): (n: nat)
    ensures n <= |s|
    ensures '/' !in s[..n]
    ensures n < |s| ==> s[n] == '/'
  {
    if s == [] || s[0] == '/' then 0
    else
      var n := NameLength(s[1..]);
      assert s[1..][..n] == s[1..n + 1];
      1 + n
  }

  /**
   * The segments of a '/'-separated string, as `path.join` resolves them:
   * empty segments (a leading, doubled or trailing '/') disappear.
   */
  function Segments(s: string): (r: Path)
    ensures forall i :: 0 <= i < |r| ==> r[i] != "" && '/' !in r[i]
    decreases |s|
  {
    if s == "" then []
    else if s[0] == '/' then Segments(s[1..])
    else
      var n := NameLength(s);
      [s[..n]] + Segments(s[n..])
  }

  /** A single name has itself as its only segment. */
  lemma SegmentsOfName(name: string)
    requires name != "" && '/' !in name
    ensures Segments(name) == [name]
  {
    var n := NameLength(name);
    assert n == |name|;
    assert name[..n] == name && name[n..] == "";
  }

  /** A trailing '/' adds no segment. */
  lemma SegmentsOfDirectoryName(name: string)
    requires name != "" && '/' !in name
    ensures Segments(name + "/") == [name]
  {
    var s := name + "/";
    var n := NameLength(s);
    assert s[..|name|] == name && s[|name|] == '/';
    assert n == |name|;
    assert s[n..] == "/" && "/"[1..] == "";
  }

  /** A relative name with no empty segment: no leading, trailing or doubled '/'. */
  predicate CleanName(s: string) {
    && s != ""
    && s[0] != '/'
    && s[|s| - 1] != '/'
    && forall i :: 0 < i < |s| ==> !DoubleSlashAt(s, i)
  }

  /** Position `i` of `s` holds the second '/' of an empty segment. */
  predicate DoubleSlashAt(s: string, i: int)
    requires 0 < i < |s|
  {
    s[i] == '/' && s[i - 1] == '/'
  }

  /** A string whose first '/' is at `n > 0` splits into the name before it and the segments after it. */
  lemma SegmentsAtFirstSlash(s: string, n: nat)
    requires 0 < n < |s| && n == NameLength(s)
    ensures Segments(s) == [s[..n]] + Segments(s[n + 1..])
    ensures s == s[..n] + "/" + s[n + 1..]
  {
    SegmentsOfLeadingName(s);
    SplitAt(s, n);
    SegmentsAfterSlash(s[n..]);
  }

  /** A string is what comes before position `n`, the character there and what follows. */
  lemma SplitAt(s: string, n: nat)
    requires n < |s|
    ensures s[n..][1..] == s[n + 1..]
    ensures s == s[..n] + [s[n]] + s[n + 1..]
  {
  }

  /** A string with a name in front splits into that name and the segments of the rest. */
  lemma SegmentsOfLeadingName(s: string)
    requires 0 < NameLength(s)
    ensures Segments(s) == [s[..NameLength(s)]] + Segments(s[NameLength(s)..])
  {
    assert s[0] != '/';
  }

  /** A leading '/' adds no segment. */
  lemma SegmentsAfterSlash(t: string)
    requires t != "" && t[0] == '/'
    ensures Segments(t) == Segments(t[1..])
  {
  }

  /** Joining a first segment in front of a non-empty path puts a '/' between them. */
  lemma JoinFront(a: string, r: Path)
    requires r != []
    ensures Join([a] + r) == a + "/" + Join(r)
  {
    assert ([a] + r)[1..] == r;
  }

  /** Splitting a clean name into segments and joining them again gives the name back. */
  lemma {:induction false} JoinSegments(s: string)
    requires CleanName(s)
    ensures Segments(s) != []
    ensures Join(Segments(s)) == s
    decreases |s|
  {
    var n := NameLength(s);
    if n == |s| {
      assert s[..n] == s;
      SegmentsOfName(s);
    } else {
      var rest := s[n + 1..];
      CleanAfterFirstSlash(s, n);
      JoinSegments(rest);
      SegmentsAtFirstSlash(s, n);
      JoinFront(s[..n], Segments(rest));
    }
  }

  /** What follows the first '/' of a clean name is a clean name. */
  lemma CleanAfterFirstSlash(s: string, n: nat)
    requires CleanName(s) && n < |s| && s[n] == '/'
    ensures CleanName(s[n + 1..])
  {
    assert n + 1 < |s| && !DoubleSlashAt(s, n + 1);
    var rest := s[n + 1..];
    assert rest[0] == s[n + 1];
    forall i | 0 < i < |rest|
      ensures !DoubleSlashAt(rest, i)
    {
      assert !DoubleSlashAt(s, n + 1 + i);
      assert rest[i] == s[n + 1 + i] && rest[i - 1] == s[n + i];
    }
  }

  /** A clean name without backslashes is exactly what the sweep prints for the tree path it names. */
  lemma RenderSegments(s: string)
    requires CleanName(s) && '\\' !in s
    ensures Render(Segments(s)) == s
  {
    JoinSegments(s);
    var j := Join(Segments(s));
    assert Slashes(j) == j;
  }

  /** JavaScript's `s.replace('/', '')`: only the FIRST '/' is removed. */
  function RemoveFirstSlash(s: string): (r: string)
    ensures '/' !in s ==> r == s
    ensures '/' in s ==> |r| == |s| - 1 && exists k :: 0 <= k < |s| && s[k] == '/' && '/' !in s[..k] && r == s[..k] + s[k + 1..]
  {
    var n := NameLength(s);
    if n == |s| then
      assert s[..n] == s;
      s
    else
      s[..n] + s[n + 1..]
  }
}
