/**
 * POSIX path helpers as Python's `os.path` computes them on the strings the runner handles
 * (`os.sep == '/'`; no normalisation, no access to the filesystem).
 */
module Paths {
  import opened Strings

  /** `os.path.basename(p)`: everything after the last '/'. */
  function Basename(p: string): string {
    p[LastIndexOf(p, '/') + 1..]
  }

  /** The base name is the longest suffix free of '/': all of `p`, or what follows its last '/'. */
  lemma BasenameIsLastComponent(p: string)
    ensures EndsWith(p, Basename(p)) && '/' !in Basename(p)
    ensures |Basename(p)| < |p| ==> p[|p| - |Basename(p)| - 1] == '/'
  {
    var k := LastIndexOf(p, '/');
    assert forall i :: 0 <= i < |p| - k - 1 ==> Basename(p)[i] == p[k + 1 + i];
  }

  /** `os.path.join(a, b)` for two components. */
  function PathJoin(a: string, b: string): string {
    if StartsWith(b, "/") then b
    else if a == "" || EndsWith(a, "/") then a + b
    else a + "/" + b
  }

  /** `os.sep.join([a, b])`, which always inserts the separator. */
  function SepJoin(a: string, b: string): string {
    a + "/" + b
  }

  /**
   * `os.path.splitext(p)[0]`: drop the last `.suffix` of the final path component, unless every
   * character of that component before its last dot is itself a dot (so `.bashrc` keeps its name).
   */
  function StripExt(p: string): (r: string)
    ensures StartsWith(p, r)
    ensures r != p ==> p[|r|] == '.' && forall i :: |r| < i < |p| ==> p[i] != '.' && p[i] != '/'
    ensures r != p <==> exists i, j :: LastIndexOf(p, '/') < j < i < |p| && p[i] == '.' && p[j] != '.'
  {
    var sepIndex := LastIndexOf(p, '/');
    var dotIndex := LastIndexOf(p, '.');
    if dotIndex > sepIndex && exists i :: sepIndex + 1 <= i < dotIndex && p[i] != '.' then
      p[..dotIndex]
    else
      p
  }

  /** A path split after its last '/' has the second part as base name. */
  lemma BasenameAfterSeparator(a: string, b: string)
    requires '/' !in b
    ensures StartsWith(SepJoin(a, b), a) && Basename(SepJoin(a, b)) == b
  {
    var s := SepJoin(a, b);
    var r := LastIndexOf(s, '/');
    assert s[|a|] == '/';
    assert forall i :: |a| < i < |s| ==> s[i] == b[i - |a| - 1];
    assert r == |a|;
    assert s[r + 1..] == b;
    assert s[..|a|] == a;
  }

  /** Joining a plain file name onto a directory keeps that name as the base name. */
  lemma BasenamePathJoin(a: string, b: string)
    requires '/' !in b
    ensures StartsWith(PathJoin(a, b), a) && Basename(PathJoin(a, b)) == b
  {
    assert !StartsWith(b, "/") by {
      if |b| > 0 { assert b[0] in b; }
    }
    if a == "" {
      assert PathJoin(a, b) == b;
      assert LastIndexOf(b, '/') == -1;
    } else if EndsWith(a, "/") {
      var a' := a[..|a| - 1];
      assert a == a' + "/";
      assert PathJoin(a, b) == SepJoin(a', b);
      BasenameAfterSeparator(a', b);
      assert PathJoin(a, b)[..|a|] == a;
    } else {
      BasenameAfterSeparator(a, b);
    }
  }

  /** A name without a dot has no extension to strip. */
  lemma StripExtNoDot(p: string)
    requires '.' !in p
    ensures StripExt(p) == p
  {
    assert LastIndexOf(p, '.') == -1;
  }

  lemma StripExtExamples()
    ensures StripExt("foo_2.zip") == "foo_2"
  {
    var zip := "foo_2.zip";
    assert zip[5] == '.' && zip[6] != '.' && zip[7] != '.' && zip[8] != '.';
    assert LastIndexOf(zip, '.') == 5;
    assert zip[0] != '.';
  }

  /** Only the last extension is stripped. */
  lemma StripExtLastOnlyExample()
    ensures StripExt("a.tar.gz") == "a.tar"
  {
    assert LastIndexOf("a.tar.gz", '.') == 5;
    assert "a.tar.gz"[0] != '.';
  }

  /** A leading dot is not an extension, and a dot before the last '/' is not one either. */
  lemma StripExtUnchangedExamples()
    ensures StripExt(".bashrc") == ".bashrc"
    ensures StripExt("pkg.d/") == "pkg.d/"
  {
    var rc := ".bashrc";
    assert rc[0] == '.' && forall i :: 0 < i < |rc| ==> rc[i] != '.';
    assert LastIndexOf(rc, '.') == 0;
    assert LastIndexOf("pkg.d/", '/') == 5;
  }
}
