/**
 * The part of Python's posixpath module that the album script relies on:
 * str.rfind, os.path.join with two arguments, os.path.basename,
 * os.path.splitext, and the set of directories os.makedirs leaves behind.
 * Paths are plain strings; no normalisation is modelled.
 */
module PosixPath {

  type Path = string

  /** True when `b` is an absolute path, which os.path.join keeps as it is. */
  predicate Absolute(b: Path) {
    |b| > 0 && b[0] == '/'
  }

  /** `prefix` is an initial segment of `p`. */
  predicate StartsWith(p: Path, prefix: Path) {
    |prefix| <= |p| && p[..|prefix|] == prefix
  }

  /** str.rfind for one character: the last index of `c` in `s`, or -1. */
  function RFind(s: string, c: char): (r: int)
    ensures -1 <= r < |s|
    ensures 0 <= r ==> s[r] == c
    ensures forall k :: r < k < |s| ==> s[k] != c
  {
    if |s| == 0 then -1
    else if s[|s| - 1] == c then |s| - 1
    else RFind(s[..|s| - 1], c)
  }

  /** What os.path.join puts in front of a relative second component. */
  function JoinPrefix(a: Path): (r: Path)
    ensures r == [] || r[|r| - 1] == '/'
    ensures StartsWith(r, a) && |r| <= |a| + 1
  {
    if a == [] || a[|a| - 1] == '/' then a else a + "/"
  }

  /** os.path.join(a, b): an absolute `b` replaces `a`; otherwise a separator is inserted when `a` lacks one. */
  function Join(a: Path, b: Path): Path {
    if Absolute(b) then b
    else if a == [] || a[|a| - 1] == '/' then a + b
    else a + "/" + b
  }

  /** Joining two relative components, the first not ending in '/', puts one '/' between them. */
  lemma JoinComponents(a: Path, b: Path, c: Path)
    requires |b| > 0 && !Absolute(b) && b[|b| - 1] != '/'
    requires !Absolute(c)
    ensures Join(Join(a, b), c) == JoinPrefix(a) + b + "/" + c
  {
    JoinRelative(a, b);
    var ab := JoinPrefix(a) + b;
    assert ab[|ab| - 1] == b[|b| - 1];
  }

  /** Joining a relative component appends it to the directory prefix. */
  lemma JoinRelative(a: Path, b: Path)
    requires !Absolute(b)
    ensures Join(a, b) == JoinPrefix(a) + b
    ensures StartsWith(Join(a, b), JoinPrefix(a))
  {
    assert (JoinPrefix(a) + b)[..|JoinPrefix(a)|] == JoinPrefix(a);
  }

  /** Two relative components joined onto the same directory give the same path only if they are equal. */
  lemma JoinInjective(a: Path, b: Path, c: Path)
    requires !Absolute(b) && !Absolute(c)
    ensures Join(a, b) == Join(a, c) ==> b == c
  {
    JoinRelative(a, b);
    JoinRelative(a, c);
    if Join(a, b) == Join(a, c) {
      var n := |JoinPrefix(a)|;
      assert b == Join(a, b)[n..];
      assert c == Join(a, c)[n..];
    }
  }

  /** os.path.basename: everything after the last '/'. */
  function Basename(p: Path): (r: Path)
    ensures '/' !in r
    ensures |r| <= |p| && p[|p| - |r|..] == r
    ensures |r| < |p| ==> p[|p| - |r| - 1] == '/'
  {
    p[RFind(p, '/') + 1..]
  }

  /**
   * os.path.splitext: the extension is the suffix from the last '.' of the
   * final component, unless only dots precede that '.' in the component
   * (".bashrc" and "..x" have no extension).
   */
  function SplitExt(p: Path): (r: (Path, Path))
    ensures r.0 + r.1 == p
    ensures r.1 == [] || (r.1[0] == '.' && '.' !in r.1[1..] && '/' !in r.1)
    ensures '.' !in p ==> r == (p, [])
    ensures HasExtension(p) ==> r == (p[..RFind(p, '.')], p[RFind(p, '.')..])
    ensures !HasExtension(p) ==> r == (p, [])
  {
    var dotIndex := RFind(p, '.');
    if HasExtension(p) then
      assert p[dotIndex..][1..] == p[dotIndex + 1..];
      (p[..dotIndex], p[dotIndex..])
    else
      (p, [])
  }

  /** The last '.' of `p` lies in its final component with a character other than '.' before it there. */
  predicate HasExtension(p: Path) {
    var sepIndex := RFind(p, '/');
    var dotIndex := RFind(p, '.');
    dotIndex > sepIndex && exists k :: sepIndex < k < dotIndex && p[k] != '.'
  }

  /** The basename of dir/b is b, for a single component b. */
  lemma BasenameAfterSlash(dir: Path, b: Path)
    requires '/' !in b
    ensures Basename(dir + "/" + b) == b
  {
    var p := dir + "/" + b;
    assert p[|dir|] == '/';
    assert forall k :: |dir| < k < |p| ==> p[k] == b[k - |dir| - 1];
    assert RFind(p, '/') == |dir|;
    assert p[|dir| + 1..] == b;
  }

  /**
   * splitext gives back the name and the extension they were joined from,
   * when the extension is one '.' and a dot-free tail and the name holds
   * some character other than '.' (".a" + ".jpg" splits back too).
   */
  lemma SplitExtOfJoined(name: Path, ext: Path)
    requires (exists k :: 0 <= k < |name| && name[k] != '.') && '/' !in name
    requires |ext| > 0 && ext[0] == '.' && '/' !in ext && '.' !in ext[1..]
    ensures SplitExt(name + ext) == (name, ext)
  {
    var p := name + ext;
    assert forall k :: 0 <= k < |name| ==> p[k] == name[k];
    assert forall k :: |name| <= k < |p| ==> p[k] == ext[k - |name|];
    assert RFind(p, '/') == -1;
    assert p[|name|] == '.';
    forall k | |name| < k < |p|
      ensures p[k] != '.'
    {
      assert p[k] == ext[1..][k - |name| - 1];
    }
    assert RFind(p, '.') == |name|;
    var k :| 0 <= k < |name| && name[k] != '.';
    assert p[k] != '.';
    assert HasExtension(p);
    assert p[..|name|] == name && p[|name|..] == ext;
  }

  /** The directories os.makedirs(p) leaves behind: `p` and each ancestor named by a prefix of `p` that ends just before a '/'. */
  function Lineage(p: Path): (r: set<Path>)
    ensures p in r
    ensures forall q :: q in r ==> q == p || (|q| < |p| && p[|q|] == '/' && StartsWith(p, q))
    ensures forall i :: 0 < i < |p| && p[i] == '/' ==> p[..i] in r
  {
    {p} + set i | 0 < i < |p| && p[i] == '/' :: p[..i]
  }
}
