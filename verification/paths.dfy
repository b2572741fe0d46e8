/** POSIX path handling as `os.path.join`, `os.path.basename` and `os.makedirs` do it. */
module Paths {
  import opened Wrappers

  /** `os.path.join(a, b)`: an absolute `b` replaces `a`; otherwise one separator is inserted when needed. */
  function JoinPath(a: string, b: string): (r: string)
    ensures |b| > 0 && b[0] == '/' ==> r == b
    ensures !(|b| > 0 && b[0] == '/') ==> |a| + |b| <= |r| && r[..|a|] == a && r[|r| - |b|..] == b
  {
    if |b| > 0 && b[0] == '/' then b
    else if a == [] || a[|a| - 1] == '/' then a + b
    else a + "/" + b
  }

  /** Joining a relative name onto a directory without a trailing separator inserts exactly one. */
  lemma PlainJoin(a: string, b: string)
    requires a != [] && a[|a| - 1] != '/' && (b == [] || b[0] != '/')
    ensures JoinPath(a, b) == a + "/" + b
  {
  }

  /** The position of the last separator, if any. */
  function LastSlash(p: string): (r: Option<nat>)
    ensures r.None? <==> '/' !in p
    ensures r.Some? ==> r.value < |p| && p[r.value] == '/' && '/' !in p[r.value + 1..]
  {
    if p == [] then None
    else if p[|p| - 1] == '/' then Some(|p| - 1)
    else
      var r := LastSlash(p[..|p| - 1]);
      assert p == p[..|p| - 1] + [p[|p| - 1]];
      if r.Some? then
        assert p[r.value + 1..] == p[..|p| - 1][r.value + 1..] + [p[|p| - 1]];
        r
      else r
  }

  /** `os.path.basename`: everything after the last separator. */
  function BaseName(p: string): (r: string)
    ensures '/' !in r
    ensures |r| <= |p| && r == p[|p| - |r|..]
    ensures LastSlash(p).None? ==> r == p
    ensures LastSlash(p).Some? ==> r == p[LastSlash(p).value + 1..]
  {
    match LastSlash(p)
    case None => p
    case Some(i) => p[i + 1..]
  }

  /** Joining a plain file name onto any directory, the base name gives the file name back. */
  lemma BaseNameOfJoin(dir: string, name: string)
    requires '/' !in name && name != []
    ensures BaseName(JoinPath(dir, name)) == name
  {
    var p := JoinPath(dir, name);
    assert p[|p| - |name|..] == name;
    var i := |p| - |name|;
    if i > 0 {
      assert p[i - 1] == '/';
      LastSlashOfSuffix(p, i - 1);
    } else {
      assert p == name;
    }
  }

  lemma {:induction false} LastSlashOfSuffix(p: string, i: nat)
    requires i < |p| && p[i] == '/' && '/' !in p[i + 1..]
    ensures LastSlash(p) == Some(i)
    decreases |p|
  {
    var n := |p| - 1;
    if i < n {
      assert p[n] == p[i + 1..][n - i - 1];
      var q := p[..n];
      assert q[i + 1..] == p[i + 1..][..n - i - 1];
      LastSlashOfSuffix(q, i);
    }
  }

  /** The directories `os.makedirs(p)` ensures exist: every proper prefix ending before a separator, and `p` itself. */
  function Ancestors(p: string): (r: set<string>)
    ensures p in r
    ensures forall i :: 0 < i < |p| && p[i] == '/' ==> p[..i] in r
    ensures forall d :: d in r ==> |d| <= |p| && d == p[..|d|]
    ensures forall d :: d in r ==> d == p || (0 < |d| < |p| && p[|d|] == '/')
  {
    (set i | 0 < i < |p| && p[i] == '/' :: p[..i]) + {p}
  }
}
