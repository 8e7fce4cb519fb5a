/**
 Paths of the file system. A path is the sequence of its components; the current directory is the
 empty path.
 */
module Paths {

  type Path = seq<string>

  function Parent(p: Path): Path
    requires p != []
  {
    p[..|p| - 1]
  }

  function Base(p: Path): string
    requires p != []
  {
    p[|p| - 1]
  }

  function Join(p: Path, key: string): (r: Path)
    ensures r != [] && Parent(r) == p && Base(r) == key
  {
    p + [key]
  }

  predicate IsPrefix(r: Path, p: Path) {
    |r| <= |p| && p[..|r|] == r
  }

  predicate HasSuffix(s: string, suffix: string) {
    |suffix| <= |s| && s[|s| - |suffix|..] == suffix
  }

  // A .json file at or below the directory: what a walk of it looks for
  predicate JsonBelow(d: Path, p: Path) {
    IsPrefix(d, p) && p != [] && HasSuffix(Base(p), ".json")
  }

  /** Paths and texts are taken apart as they were put together. */
  lemma PathParts(p: Path, q: Path, key: string, s: string, suffix: string)
    ensures Join(p, key) == p + [key]
    ensures p != [] ==> p == Parent(p) + [Base(p)]
    ensures IsPrefix(p, q) <==> exists rest :: q == p + rest
    ensures HasSuffix(s, suffix) <==> exists front :: s == front + suffix
  {
    if IsPrefix(p, q) { assert q == p + q[|p|..]; }
    if rest :| q == p + rest { assert q[..|p|] == p; }
    if HasSuffix(s, suffix) { assert s == s[..|s| - |suffix|] + suffix; }
    if front :| s == front + suffix { assert s[|s| - |suffix|..] == suffix; }
  }

  /** What a walk of a directory looks for: paths that go on from it, and whose last component ends in .json. */
  lemma WalkedPaths(d: Path, p: Path)
    ensures JsonBelow(d, p) <==> (exists rest :: p == d + rest) && exists up, front :: p == up + [front + ".json"]
  {
    if p != [] { PathParts(p, p, "", Base(p), ".json"); }
    PathParts(d, p, "", "", "");
    if JsonBelow(d, p) {
      var front :| Base(p) == front + ".json";
      assert p == Parent(p) + [front + ".json"];
    }
    if up, front :| p == up + [front + ".json"] { assert Base(p) == front + ".json"; }
  }

  lemma JoinParts(p: Path)
    requires p != []
    ensures Join(Parent(p), Base(p)) == p
  {
  }

  lemma PrefixOfJoin(r: Path, p: Path, key: string)
    ensures IsPrefix(r, Join(p, key)) <==> IsPrefix(r, p) || r == Join(p, key)
  {
    var j := Join(p, key);
    if |r| <= |p| {
      assert j[..|r|] == p[..|r|];
    } else if |r| == |j| {
      assert j[..|r|] == j;
    }
  }

  // A path lies below `Join(a, k)` exactly when it lies below `a` and continues with `k`.
  lemma BelowJoin(a: Path, k: string, p: Path)
    ensures IsPrefix(Join(a, k), p) <==> IsPrefix(a, p) && |p| > |a| && p[|a|] == k
  {
    if |p| > |a| {
      assert p[..|a| + 1] == p[..|a|] + [p[|a|]];
      if IsPrefix(Join(a, k), p) { assert p[..|a|] == Join(a, k)[..|a|]; }
    }
  }

  lemma PrefixTransitive(a: Path, b: Path, c: Path)
    requires IsPrefix(a, b) && IsPrefix(b, c)
    ensures IsPrefix(a, c)
  {
    assert c[..|a|] == c[..|b|][..|a|];
  }

  // Two prefixes of one path lie on one line.
  lemma PrefixesAreNested(a: Path, b: Path, c: Path)
    requires IsPrefix(a, c) && IsPrefix(b, c) && |a| <= |b|
    ensures IsPrefix(a, b)
  {
    assert b[..|a|] == c[..|b|][..|a|] == c[..|a|];
  }

  // ------------------------------------------------------------ where objects are kept

  // filepath.Join drops empty components.
  function JoinName(p: Path, key: string): Path {
    if key == "" then p else Join(p, key)
  }

  // The directory of a resource's objects, for a request in namespace `ns`
  function ObjectDirName(root: Path, namespaced: bool, ns: string): Path {
    if namespaced then JoinName(root, ns) else root
  }

  function ObjectFileName(root: Path, namespaced: bool, ns: string, name: string): Path {
    Join(ObjectDirName(root, namespaced, ns), name + ".json")
  }

  /** Where an object is: in its resource's directory, or in the directory of its namespace there. */
  lemma ObjectPlaces(root: Path, ns: string, name: string)
    ensures ObjectFileName(root, false, ns, name) == root + [name + ".json"]
    ensures ns != "" ==> ObjectFileName(root, true, ns, name) == root + [ns, name + ".json"]
    ensures ObjectDirName(root, false, ns) == root && ObjectDirName(root, true, "") == root
    ensures ns != "" ==> ObjectDirName(root, true, ns) == root + [ns]
  {
  }

  lemma ObjectFileIsBelow(root: Path, namespaced: bool, ns: string, name: string)
    ensures JsonBelow(ObjectDirName(root, namespaced, ns), ObjectFileName(root, namespaced, ns, name))
    ensures JsonBelow(root, ObjectFileName(root, namespaced, ns, name))
  {
    var d := ObjectDirName(root, namespaced, ns);
    PrefixOfJoin(d, d, name + ".json");
    PrefixOfJoin(root, root, ns);
    PrefixOfJoin(root, d, name + ".json");
    assert (name + ".json")[|name + ".json"| - 5..] == ".json";
  }

  // Different objects of a resource have different files.
  lemma ObjectFileNameInjective(root: Path, namespaced: bool, ns1: string, m: string, ns2: string, n: string)
    requires namespaced ==> ns1 != "" && ns2 != ""
    requires ObjectFileName(root, namespaced, ns1, m) == ObjectFileName(root, namespaced, ns2, n)
    ensures m == n && (namespaced ==> ns1 == ns2)
  {
    var d, e := ObjectDirName(root, namespaced, ns1), ObjectDirName(root, namespaced, ns2);
    var a, b := m + ".json", n + ".json";
    assert Base(Join(d, a)) == a && Base(Join(e, b)) == b && Parent(Join(d, a)) == d && Parent(Join(e, b)) == e;
    assert m == a[..|a| - 5] && n == b[..|b| - 5];
    if namespaced { assert Base(d) == ns1 && Base(e) == ns2; }
  }
}
