/**
 * The fragment of Python's `posixpath` the scripts use: `join` of two
 * components, `dirname`, `basename`, and `relpath` for a file strictly
 * under a normalised absolute directory. Normalisation of `.`, `..` and
 * repeated slashes is not modelled; the paths it would change are excluded
 * by `PlainRelative`.
 */
module PosixPath {

  import Text

  /** `os.path.join(a, b)`: an absolute `b` replaces `a`; otherwise one '/' separates them. */
  function Join(a: string, b: string): (p: string)
  {
    if b != [] && b[0] == '/' then b
    else if a == [] || a[|a| - 1] == '/' then a + b
    else a + "/" + b
  }

  /** Under a directory that has no trailing '/', joining a relative name inserts exactly one '/'. */
  lemma JoinRelative(a: string, b: string)
    requires a != [] && a[|a| - 1] != '/'
    requires b == [] || b[0] != '/'
    ensures Join(a, b) == a + "/" + b
  {
  }

  /** Joining relative names to one directory is injective. */
  lemma JoinInjective(a: string, b1: string, b2: string)
    requires b1 == [] || b1[0] != '/'
    requires b2 == [] || b2[0] != '/'
    requires Join(a, b1) == Join(a, b2)
    ensures b1 == b2
  {
    var p := Join(a, b1);
    if a == [] || a[|a| - 1] == '/' {
      assert b1 == p[|a|..] == b2;
    } else {
      assert b1 == p[|a| + 1..] == b2;
    }
  }

  /** The index just after the last '/' of `p[..j]`, or 0 when it has none. */
  function SlashEnd(p: string, j: nat): (k: nat)
    requires j <= |p|
    ensures k <= j
  {
    if j == 0 then 0
    else if p[j - 1] == '/' then j
    else SlashEnd(p, j - 1)
  }

  /** `SlashEnd(p, j)` is 0 or just after a '/', and no '/' follows it before `j`. */
  lemma {:induction false} SlashEndSpec(p: string, j: nat)
    requires j <= |p|
    ensures var k := SlashEnd(p, j);
            (k == 0 || p[k - 1] == '/') && forall i :: k <= i < j ==> p[i] != '/'
  {
    if j != 0 && p[j - 1] != '/' {
      SlashEndSpec(p, j - 1);
    }
  }

  /** The index just after the last '/' of `p`, or 0 when there is none (`p.rfind('/') + 1`). */
  function AfterLastSlash(p: string): (k: nat)
    ensures k <= |p|
  {
    SlashEnd(p, |p|)
  }

  /** `AfterLastSlash(p)` is 0 or just after a '/', and no '/' follows it. */
  lemma AfterLastSlashSpec(p: string)
    ensures var k := AfterLastSlash(p);
            (k == 0 || p[k - 1] == '/') && forall i :: k <= i < |p| ==> p[i] != '/'
  {
    SlashEndSpec(p, |p|);
  }

  /** The length of `p[..j].rstrip('/')`. */
  function TrimSlashes(p: string, j: nat): (e: nat)
    requires j <= |p|
    ensures e <= j
  {
    if j > 0 && p[j - 1] == '/' then TrimSlashes(p, j - 1) else j
  }

  /** `p[..j].rstrip('/')` ends in something other than '/' and drops only slashes. */
  lemma {:induction false} TrimSlashesSpec(p: string, j: nat)
    requires j <= |p|
    ensures var e := TrimSlashes(p, j);
            (e == 0 || p[e - 1] != '/') && forall i :: e <= i < j ==> p[i] == '/'
  {
    if j > 0 && p[j - 1] == '/' {
      TrimSlashesSpec(p, j - 1);
    }
  }

  /**
   * `os.path.dirname(p)`: the text before the last '/', with its trailing
   * slashes removed unless it consists of slashes only.
   */
  function Dirname(p: string): string
  {
    var k := AfterLastSlash(p);
    var e := TrimSlashes(p, k);
    if e == 0 then p[..k] else p[..e]
  }

  /** `os.path.basename(p)`: the text after the last '/'. */
  function Basename(p: string): string
  {
    p[AfterLastSlash(p)..]
  }

  /** The directory part of `d/name` is `d`, and its base name is `name`. */
  lemma DirnameOfChild(d: string, name: string)
    requires d != [] && d[|d| - 1] != '/'
    requires '/' !in name
    ensures Dirname(d + "/" + name) == d
    ensures Basename(d + "/" + name) == name
  {
    var p := d + "/" + name;
    AfterLastSlashSpec(p);
    assert p[|d|] == '/';
    assert forall i :: |d| + 1 <= i < |p| ==> p[i] == name[i - |d| - 1];
    assert AfterLastSlash(p) == |d| + 1;
    assert p[|d| - 1] == d[|d| - 1];
    assert TrimSlashes(p, |d|) == |d|;
    assert p[..|d|] == d;
  }

  /**
   * A relative path that `normpath` leaves alone: non-empty, no leading,
   * trailing or doubled '/', and no `.` or `..` segment.
   */
  predicate PlainRelative(r: string)
  {
    WellSlashed(r) && NoDotSegment(r)
  }

  /** Non-empty, with no leading, trailing or doubled '/'. */
  predicate WellSlashed(r: string)
  {
    && r != []
    && r[0] != '/'
    && r[|r| - 1] != '/'
    && (forall i :: 1 <= i < |r| && r[i] == '/' ==> r[i - 1] != '/')
  }

  predicate NoDotSegment(r: string)
  {
    forall seg :: seg in Text.Split(r, '/') ==> seg != "." && seg != ".."
  }

  /** A normalised absolute directory other than the file-system root. */
  predicate NormalAbsolute(root: string)
  {
    |root| >= 2 && root[0] == '/' && PlainRelative(root[1..])
  }

  /** `p` names a file strictly under the directory `root`. */
  predicate Under(root: string, p: string)
  {
    |p| > |root| + 1 && p[..|root| + 1] == root + "/" && PlainRelative(p[|root| + 1..])
  }

  /** `os.path.relpath(p, root)` for a file strictly under a normalised absolute directory. */
  function RelPath(root: string, p: string): (r: string)
    requires NormalAbsolute(root) && Under(root, p)
    ensures PlainRelative(r)
    ensures root + "/" + r == p
  {
    p[|root| + 1..]
  }

  /** A plain relative path splits at its last '/' into a directory part and a non-empty name. */
  lemma SplitLastSegment(r: string)
    requires WellSlashed(r)
    ensures var k := AfterLastSlash(r);
            k < |r| && '/' !in r[k..] && (k == 0 || (k >= 2 && r[k - 2] != '/'))
  {
    var k := AfterLastSlash(r);
    AfterLastSlashSpec(r);
    if k >= 1 {
      assert r[k - 1] == '/';
      assert k != 1;
    }
    forall i | 0 <= i < |r[k..]| ensures r[k..][i] != '/' {
      assert r[k..][i] == r[k + i];
    }
  }

  /**
   * Under a directory without a trailing '/', `dirname` of a joined plain
   * relative path is the directory that holds the file, and `basename` is
   * the last segment of the relative path.
   */
  lemma DirnameOfJoin(local: string, r: string)
    requires local != [] && local[|local| - 1] != '/'
    requires WellSlashed(r)
    ensures var p := Join(local, r);
            p == Dirname(p) + "/" + Basename(p) && Basename(p) == Basename(r)
            && Basename(p) != [] && '/' !in Basename(p)
  {
    JoinRelative(local, r);
    SplitLastSegment(r);
    AfterLastSlashSpec(r);
    var k := AfterLastSlash(r);
    var name := r[k..];
    if k == 0 {
      assert r == name;
      DirnameOfChild(local, name);
    } else {
      var d := local + "/" + r[..k - 1];
      assert r == r[..k - 1] + "/" + name;
      assert local + "/" + r == d + "/" + name;
      assert d[|d| - 1] == r[k - 2];
      DirnameOfChild(d, name);
    }
  }
}
