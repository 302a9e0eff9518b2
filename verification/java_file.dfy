/** The parts of `java.io.File` on a Unix file system that the application relies on:
    splitting a path into its parent and name, resolving a child against a parent, and
    making a path absolute against the working directory. Paths are strings in the
    normal form `File` keeps them in. */
module JavaFile {
  import opened Wrappers

  /** The normal form of a Unix path: no two slashes in a row and no trailing slash
      except for the root itself. */
  ghost predicate Normal(p: string) {
    && (forall i :: 0 <= i < |p| - 1 ==> !(p[i] == '/' && p[i + 1] == '/'))
    && (|p| > 1 ==> p[|p| - 1] != '/')
  }

  predicate IsAbsolute(p: string) { |p| > 0 && p[0] == '/' }

  /** The index of the last `/`, if any. */
  function LastSlash(p: string): (r: Option<nat>)
    ensures r.Some? ==> r.value < |p| && p[r.value] == '/' && '/' !in p[r.value + 1..]
    ensures r.None? ==> '/' !in p
  {
    if p == [] then None
    else if p[|p| - 1] == '/' then Some(|p| - 1)
    else
      var r := LastSlash(p[..|p| - 1]);
      assert r.Some? ==> p[r.value + 1..] == p[..|p| - 1][r.value + 1..] + [p[|p| - 1]];
      assert p == p[..|p| - 1] + [p[|p| - 1]];
      r
  }

  /** The length of the root prefix: one for an absolute path, else none. */
  function PrefixLength(p: string): (n: nat)
    ensures n <= |p|
    ensures n == 1 <==> IsAbsolute(p)
  {
    if IsAbsolute(p) then 1 else 0
  }

  /** `getName()`: everything after the last slash. */
  function Name(p: string): (r: string)
    ensures '/' !in r
    ensures |r| <= |p| && p[|p| - |r|..] == r
  {
    match LastSlash(p)
    case None => p
    case Some(k) => p[k + 1..]
  }

  /** `getParent()`: everything before the last slash, the root when that slash is the
      root of a longer path, and null when there is no slash or the path is the root. */
  function Parent(p: string): (r: Option<string>)
    ensures r.Some? ==> |r.value| < |p| && p[..|r.value|] == r.value
    ensures LastSlash(p).None? ==> r.None?
  {
    var prefix := PrefixLength(p);
    match LastSlash(p)
    case None => None
    case Some(k) =>
      if k < prefix then
        if prefix > 0 && |p| > prefix then Some(p[..prefix]) else None
      else Some(p[..k])
  }

  /** Resolving a child path against a parent path, as the Unix file system does for
      `new File(parent, child)`. */
  function Resolve(parent: string, child: string): (r: string)
    ensures child != [] && child[0] != '/' && parent != "/" ==> r == parent + "/" + child
    ensures child != [] ==> |r| >= |child| && r[|r| - |child|..] == child
  {
    if child == [] then parent
    else if child[0] == '/' then (if parent == "/" then child else parent + child)
    else if parent == "/" then parent + child
    else parent + "/" + child
  }

  /** `getAbsolutePath()`: an absolute path as it is, otherwise resolved against the
      working directory. */
  function AbsolutePath(p: string, userDir: string): (r: string)
    ensures IsAbsolute(p) ==> r == p
  {
    if IsAbsolute(p) then p else Resolve(userDir, p)
  }

  /** A normal path with a parent is that parent resolved with its name. */
  lemma ParentNameRoundTrip(p: string)
    requires Normal(p) && Parent(p).Some?
    ensures Name(p) != [] && Resolve(Parent(p).value, Name(p)) == p
  {
    var k := LastSlash(p).value;
    if k < PrefixLength(p) {
      assert k == 0 && p == "/" + p[1..];
    } else {
      assert k > 0 && k != |p| - 1;
      if k == 1 {
        assert !(p[1] == '/' && p[0] == '/');
      }
      assert p[..k] != "/";
      assert p[k + 1] != '/';
      assert p == p[..k] + "/" + p[k + 1..];
    }
  }

  /** A slash with no slash after it is the last slash. */
  lemma {:induction false} LastSlashAt(p: string, j: nat)
    requires j < |p| && p[j] == '/' && '/' !in p[j + 1..]
    ensures LastSlash(p) == Some(j)
  {
    if j < |p| - 1 {
      var init := p[..|p| - 1];
      assert p[|p| - 1] == p[j + 1..][|p| - 2 - j];
      assert init[j + 1..] == p[j + 1..][..|p| - 2 - j];
      LastSlashAt(init, j);
    }
  }

  /** Resolving a plain name against a directory gives a path whose name is that name and
      whose parent is that directory. */
  lemma ResolveNameParent(dir: string, name: string)
    requires name != [] && '/' !in name && dir != [] && dir != "/"
    ensures Name(Resolve(dir, name)) == name
    ensures Parent(Resolve(dir, name)) == Some(dir)
  {
    var p := Resolve(dir, name);
    assert p == dir + "/" + name;
    assert p[|dir|] == '/';
    assert p[|dir| + 1..] == name;
    LastSlashAt(p, |dir|);
    var k := |dir|;
    assert p[..k] == dir;
  }
}
