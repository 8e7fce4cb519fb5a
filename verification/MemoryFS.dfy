/**
 MemoryFS (pkg/storage/filepath/fs.go): nested mutable directory maps with versioned leaves and one
 revision counter. Every method is proved to act on its tree view as the functions in Trees say.
 Each method body runs under the file system's mutex.
 */
module MemoryFS {
  import opened Wrappers
  import opened Objects
  import opened Paths
  import opened Stores
  import opened Trees

  datatype Entry = Dir(node: DirNode) | File(file: Stored)

  type Entries = map<string, Entry>

  class DirNode {
    var entries: Entries
    ghost const path: Path  // where this directory was created

    constructor (ghost path: Path)
      ensures entries == map[] && this.path == path
    {
      entries := map[];
      this.path := path;
    }
  }

  // ------------------------------------------------------------ the shape of the heap, as a value

  /** All directories by path, what each holds, and all files by path. */
  datatype Shape = Shape(nodes: map<Path, DirNode>, contents: map<Path, Entries>, files: map<Path, Stored>)

  ghost predicate Holds(h: Shape, p: Path, e: Entry) {
    p != [] && Parent(p) in h.contents && Base(p) in h.contents[Parent(p)] && h.contents[Parent(p)][Base(p)] == e
  }

  ghost predicate Known(h: Shape, p: Path, e: Entry) {
    match e
    case Dir(n) => p in h.nodes && h.nodes[p] == n
    case File(st) => p in h.files && h.files[p] == st
  }

  ghost predicate KeyKnown(h: Shape, p: Path, k: string)
    requires p in h.contents && k in h.contents[p]
  {
    Known(h, Join(p, k), h.contents[p][k])
  }

  /**
   The heap is a tree: each directory is reached by its own path and by no other, and the entries
   of the directories are exactly the known directories and files.
   */
  ghost predicate IsTree(h: Shape) {
    && h.contents.Keys == h.nodes.Keys
    && [] in h.nodes && [] !in h.files
    && (forall p {:trigger h.nodes[p]} :: p in h.nodes ==> h.nodes[p].path == p)
    && (forall p {:trigger Holds(h, p, Dir(h.nodes[p]))} :: p in h.nodes && p != [] ==> Holds(h, p, Dir(h.nodes[p])))
    && (forall p {:trigger Holds(h, p, File(h.files[p]))} :: p in h.files ==> Holds(h, p, File(h.files[p])))
    && (forall p, k {:trigger KeyKnown(h, p, k)} :: p in h.contents && k in h.contents[p] ==> KeyKnown(h, p, k))
  }

  ghost function ViewOf(h: Shape, rev: nat): Tree {
    Tree(h.nodes.Keys, h.files, rev)
  }

  lemma ViewWellFormed(h: Shape, rev: nat)
    requires IsTree(h)
    ensures WellFormed(ViewOf(h, rev))
  {
    forall p | p in h.files ensures p !in h.nodes && Parent(p) in h.nodes {
      assert Holds(h, p, File(h.files[p]));
      assert p in h.nodes ==> Holds(h, p, Dir(h.nodes[p]));
    }
    forall p | p in h.nodes && p != [] ensures Parent(p) in h.nodes {
      assert Holds(h, p, Dir(h.nodes[p]));
    }
  }

  // An entry exists under a name exactly when that path is a known directory or file.
  lemma EntryIffKnown(h: Shape, p: Path, k: string)
    requires IsTree(h) && p in h.nodes
    ensures k in h.contents[p] <==> Join(p, k) in h.nodes || Join(p, k) in h.files
    ensures k in h.contents[p] ==> Known(h, Join(p, k), h.contents[p][k])
  {
    var j := Join(p, k);
    assert k in h.contents[p] ==> KeyKnown(h, p, k);
    assert j in h.nodes ==> Holds(h, j, Dir(h.nodes[j]));
    assert j in h.files ==> Holds(h, j, File(h.files[j]));
  }

  ghost function WithDir(h: Shape, p: Path, k: string, n: DirNode): Shape
    requires p in h.contents
  {
    Shape(h.nodes[Join(p, k) := n], h.contents[p := h.contents[p][k := Dir(n)]][Join(p, k) := map[]], h.files)
  }

  lemma WithDirIsTree(h: Shape, p: Path, k: string, n: DirNode)
    requires IsTree(h) && p in h.nodes && k !in h.contents[p] && n.path == Join(p, k)
    ensures IsTree(WithDir(h, p, k, n))
  {
    var j, h' := Join(p, k), WithDir(h, p, k, n);
    EntryIffKnown(h, p, k);
    assert |j| == |p| + 1;
    forall q | q in h'.nodes && q != [] ensures Holds(h', q, Dir(h'.nodes[q])) {
      if q != j { HoldsStays(h, p, k, n, q, Dir(h.nodes[q])); }
    }
    forall q | q in h'.files ensures Holds(h', q, File(h'.files[q])) {
      HoldsStays(h, p, k, n, q, File(h.files[q]));
    }
    forall q, m | q in h'.contents && m in h'.contents[q] ensures KeyKnown(h', q, m) {
      if q in h.contents && m in h.contents[q] { assert KeyKnown(h, q, m); }
    }
  }

  lemma MakeRoom(h: Shape, p: Path, k: string, n: DirNode) returns (grown: Shape)
    requires IsTree(h) && p in h.nodes && k !in h.contents[p] && n.path == Join(p, k)
    ensures IsTree(grown) && grown.files == h.files && grown.nodes == h.nodes[Join(p, k) := n]
    ensures Join(p, k) !in h.nodes && grown.contents[Join(p, k)] == map[]
    ensures forall q :: q in h.nodes ==>
              grown.contents[q] == if q == p then h.contents[p][k := Dir(n)] else h.contents[q]
  {
    grown := WithDir(h, p, k, n);
    WithDirIsTree(h, p, k, n);
    EntryIffKnown(h, p, k);
    assert |Join(p, k)| == |p| + 1;
  }

  // Adding a directory moves no other entry.
  lemma HoldsStays(h: Shape, p: Path, k: string, n: DirNode, q: Path, e: Entry)
    requires IsTree(h) && p in h.nodes && k !in h.contents[p]
    requires (q in h.nodes && q != [] && e == Dir(h.nodes[q])) || (q in h.files && e == File(h.files[q]))
    ensures Holds(WithDir(h, p, k, n), q, e)
  {
    EntryIffKnown(h, p, k);
    assert Holds(h, q, e) by {
      assert q in h.nodes && q != [] ==> Holds(h, q, Dir(h.nodes[q]));
      assert q in h.files ==> Holds(h, q, File(h.files[q]));
    }
    JoinParts(q);
  }

  // The shape after the entry `k` of directory `p` is overwritten by a file, or deleted
  ghost function Cut(h: Shape, p: Path, k: string, st: Option<Stored>): Shape
    requires p in h.contents
  {
    var j := Join(p, k);
    var kept := map q | q in h.files && !IsPrefix(j, q) :: h.files[q];
    var c := h.contents[p := NewEntries(h.contents[p], k, st)];
    Shape(map q | q in h.nodes && !IsPrefix(j, q) :: h.nodes[q],
          map q | q in c && !IsPrefix(j, q) :: c[q],
          if st.Some? then kept[j := st.value] else kept)
  }

  lemma CutIsTree(h: Shape, p: Path, k: string, st: Option<Stored>)
    requires IsTree(h) && p in h.nodes
    ensures IsTree(Cut(h, p, k, st))
  {
    var j, h' := Join(p, k), Cut(h, p, k, st);
    assert |j| == |p| + 1 && !IsPrefix(j, p) && !IsPrefix(j, []);
    forall q | q in h'.nodes && q != [] ensures Holds(h', q, Dir(h'.nodes[q])) {
      assert Holds(h, q, Dir(h.nodes[q]));
      JoinParts(q);
      PrefixOfJoin(j, Parent(q), Base(q));
    }
    forall q | q in h'.files ensures Holds(h', q, File(h'.files[q])) {
      if q != j {
        assert Holds(h, q, File(h.files[q]));
        JoinParts(q);
        PrefixOfJoin(j, Parent(q), Base(q));
      }
    }
    forall q, m | q in h'.contents && m in h'.contents[q] ensures KeyKnown(h', q, m) {
      PrefixOfJoin(j, q, m);
      if m in h.contents[q] { assert KeyKnown(h, q, m); }
      if Join(q, m) == j { assert q == Parent(j) == p && m == Base(j) == k; }
    }
  }

  lemma CutView(h: Shape, p: Path, k: string, st: Option<Stored>, rev: nat)
    requires IsTree(h) && p in h.nodes
    ensures var t := ViewOf(h, rev);
            ViewOf(Cut(h, p, k, st), rev)
            == if st.Some? then Planted(t, Join(p, k), st.value) else Pruned(t, Join(p, k))
  {
  }

  function NewEntries(entries: Entries, k: string, st: Option<Stored>): Entries {
    if st.Some? then entries[k := File(st.value)] else entries - {k}
  }

  lemma MakeCut(h: Shape, p: Path, k: string, st: Option<Stored>, rev: nat) returns (cut: Shape)
    requires IsTree(h) && p in h.nodes
    ensures IsTree(cut) && p in cut.nodes
    ensures forall q :: q in cut.nodes ==>
              && q in h.nodes && cut.nodes[q] == h.nodes[q]
              && cut.contents[q] == if q == p then NewEntries(h.contents[p], k, st) else h.contents[q]
    ensures var t, j := ViewOf(h, rev), Join(p, k);
            ViewOf(cut, rev) == if st.Some? then Planted(t, j, st.value) else Pruned(t, j)
  {
    cut := Cut(h, p, k, st);
    CutIsTree(h, p, k, st);
    CutView(h, p, k, st, rev);
    assert |Join(p, k)| == |p| + 1;
  }

  // ------------------------------------------------------------ the mutable file system

  class MemFS {
    var dir: DirNode
    var rev: nat
    ghost var nodes: map<Path, DirNode>
    ghost var files: map<Path, Stored>
    ghost var repr: set<DirNode>  // every directory ever made

    ghost predicate Owns()
      reads this
    {
      forall p :: p in nodes ==> nodes[p] in repr
    }

    ghost function TheShape(): Shape
      requires Owns()
      reads this, repr
    {
      Shape(nodes, map p | p in nodes :: nodes[p].entries, files)
    }

    ghost predicate Valid()
      reads this, repr
    {
      Owns() && IsTree(TheShape()) && nodes[[]] == dir
    }

    ghost function View(): Tree
      reads this
    {
      Tree(nodes.Keys, files, rev)
    }

    constructor ()
      ensures Valid() && fresh(repr)
      ensures View() == NEW_TREE
    {
      var root := new DirNode([]);
      dir := root;
      rev := 1;
      nodes := map[[] := root];
      files := map[];
      repr := {root};
    }

    ghost predicate IsNode(n: DirNode)
      reads this
    {
      n.path in nodes && nodes[n.path] == n
    }

    // Directories are only ever added, and they are new.
    twostate predicate Grew()
      reads this
    {
      old(repr) <= repr && forall n :: n in repr ==> n in old(repr) || fresh(n)
    }

    // Replaces the entries of one directory, so that the heap has the given shape.
    method Edit(here: DirNode, entries: Entries, ghost shape: Shape)
      requires IsTree(shape) && shape.files == files && shape.nodes[[]] == dir
      requires here.path in shape.nodes && shape.nodes[here.path] == here
      requires forall q :: q in shape.nodes ==>
                 && shape.nodes[q] in repr
                 && shape.contents[q] == if q == here.path then entries else shape.nodes[q].entries
      modifies this`nodes, here
      ensures Valid() && TheShape() == shape
    {
      assert forall q :: q in shape.nodes ==> shape.nodes[q].path == q;
      here.entries := entries;
      assert forall q :: q in shape.nodes ==> shape.nodes[q].entries == shape.contents[q];
      nodes := shape.nodes;
      assert TheShape() == shape;
    }

    method MakeDir(here: DirNode, k: string) returns (n: DirNode)
      requires Valid() && IsNode(here) && k !in here.entries
      modifies this`nodes, this`repr, here
      ensures Valid() && fresh(n) && n.path == Join(here.path, k)
      ensures nodes == old(nodes)[Join(here.path, k) := n] && repr == old(repr) + {n}
    {
      ghost var h := TheShape();
      EntryIffKnown(h, here.path, k);
      n := new DirNode(Join(here.path, k));
      ghost var grown := MakeRoom(h, here.path, k, n);
      repr := repr + {n};
      Edit(here, here.entries[k := Dir(n)], grown);
    }

    // One step down, creating the directory if nothing is there
    method Child(here: DirNode, k: string) returns (r: Result<DirNode, FsError>)
      requires Valid() && IsNode(here)
      modifies this`nodes, this`repr, here
      ensures Valid() && Grew()
      ensures r.Failure? <==> Join(here.path, k) in files
      ensures r.Failure? ==> r.error == PathConflict
      ensures r.Failure? || Join(here.path, k) in old(nodes) ==> TheShape() == old(TheShape())
      ensures r.Success? ==> r.value.path == Join(here.path, k) && IsNode(r.value)
      ensures View() == old(View()).(dirs := old(View()).dirs + if r.Success? then {Join(here.path, k)} else {})
    {
      EntryIffKnown(TheShape(), here.path, k);
      ViewWellFormed(TheShape(), rev);
      if k !in here.entries {
        var n := MakeDir(here, k);
        return Success(n);
      }
      match here.entries[k]
      case File(_) => return Failure(PathConflict);
      case Dir(n) => return Success(n);
    }

    // `here` is the directory of the first `i` components, made on the way from `shape`.
    ghost predicate Descended(shape: Shape, d: Path, i: nat, here: DirNode)
      requires i <= |d|
      reads this, repr
    {
      var view := ViewOf(shape, rev);
      && Valid() && IsNode(here) && here.path == d[..i]
      && View() == GrownTo(view, d, i) && ReachesTo(view, d, i)
      && (d[..i] in shape.nodes ==> TheShape() == shape)
    }

    method Descend(ghost shape: Shape, d: Path, i: nat, here: DirNode) returns (r: Result<DirNode, FsError>)
      requires i < |d| && IsTree(shape) && Descended(shape, d, i, here)
      modifies this`nodes, this`repr, here
      ensures Grew()
      ensures r.Success? ==> Descended(shape, d, i + 1, r.value)
      ensures r.Failure? ==> !Reaches(ViewOf(shape, rev), d) && r.error == PathConflict
      ensures r.Failure? ==> Valid() && TheShape() == shape
    {
      GrowStep(ViewOf(shape, rev), d, i);
      StepDown(shape, d, i);
      r := Child(here, d[i]);
    }

    /**
     ensureDir: walks down, creating what is missing; fails on a component that is a file, and then
     nothing has been created.
     */
    method EnsureDirNode(d: Path) returns (r: Result<DirNode, FsError>)
      requires Valid()
      modifies this`nodes, this`repr, repr
      ensures Valid() && Grew()
      ensures View() == EnsureDirTree(old(View()), d)
      ensures match r
              case Success(n) => Reaches(old(View()), d) && n.path == d && IsNode(n)
              case Failure(e) => !Reaches(old(View()), d) && e == PathConflict
      ensures d in old(nodes) || r.Failure? ==> TheShape() == old(TheShape())
    {
      var here := dir;
      var i := 0;
      ghost var shape := TheShape();
      GrowStart(View(), d);
      assert d[..0] == [];
      while i < |d|
        invariant 0 <= i <= |d| && Descended(shape, d, i, here)
        invariant Grew()
      {
        var next := Descend(shape, d, i, here);
        if next.Failure? {
          return next;
        }
        here := next.value;
        i := i + 1;
      }
      assert d[..|d|] == d;
      return Success(here);
    }

    method EnsureDir(d: Path) returns (error: Option<FsError>)
      requires Valid()
      modifies this, repr
      ensures Valid() && Grew()
      ensures View() == EnsureDirTree(old(View()), d)
      ensures error == EnsureDirError(old(View()), d)
    {
      var r := EnsureDirNode(d);
      return if r.Success? then None else Some(r.error);
    }

    /** The lookup under Read and Write; it creates the file's directory but never a file. */
    method ReadBuffer(p: Path) returns (r: Result<Stored, FsError>)
      requires Valid() && p != []
      modifies this`nodes, this`repr, repr
      ensures Valid() && Grew()
      ensures View() == EnsureDirTree(old(View()), Parent(p))
      ensures r == LookupResult(old(View()), p)
      ensures Parent(p) in old(nodes) ==> TheShape() == old(TheShape())
    {
      var here := EnsureDirNode(Parent(p));
      if here.Failure? {
        return Failure(here.error);
      }
      JoinParts(p);
      EntryIffKnown(TheShape(), Parent(p), Base(p));
      ViewWellFormed(TheShape(), rev);
      if Base(p) !in here.value.entries {
        return Failure(NoEntry);
      }
      match here.value.entries[Base(p)]
      case Dir(_) => return Failure(NoEntry);
      case File(st) => return Success(st);
    }

    method Exists(p: Path) returns (found: bool)
      requires Valid() && p != []
      modifies this, repr
      ensures Valid() && Grew()
      ensures View() == EnsureDirTree(old(View()), Parent(p))
      ensures found == EntryExists(old(View()), p)
    {
      var here := EnsureDirNode(Parent(p));
      if here.Failure? {
        return false;
      }
      JoinParts(p);
      EntryIffKnown(TheShape(), Parent(p), Base(p));
      NotOwnPrefix(p);
      return Base(p) in here.value.entries;
    }

    // Overwrites the entry with a file, or deletes it, whatever it was.
    method SetEntry(here: DirNode, k: string, st: Option<Stored>)
      requires Valid() && IsNode(here)
      modifies this`nodes, this`files, here
      ensures Valid()
      ensures var j := Join(here.path, k);
              View() == if st.Some? then Planted(old(View()), j, st.value) else Pruned(old(View()), j)
    {
      ghost var cut := MakeCut(TheShape(), here.path, k, st, rev);
      files := cut.files;
      Edit(here, NewEntries(here.entries, k, st), cut);
    }

    method Remove(p: Path) returns (error: Option<FsError>)
      requires Valid() && p != []
      modifies this, repr
      ensures Valid() && Grew()
      ensures View() == RemoveTree(old(View()), p)
      ensures error == RemoveError(old(View()), p)
    {
      var here := EnsureDirNode(Parent(p));
      if here.Failure? {
        return Some(here.error);
      }
      JoinParts(p);
      EntryIffKnown(TheShape(), Parent(p), Base(p));
      NotOwnPrefix(p);
      if Base(p) !in here.value.entries {
        return Some(NoEntry);
      }
      SetEntry(here.value, Base(p), None);
      return None;
    }

    /**
     Write: a compare-and-swap on the stored version. Version 0 means create; identical bytes are
     skipped without a new version.
     */
    method Write(p: Path, data: Bytes, version: nat) returns (r: TreeWrite)
      requires Valid() && p != []
      modifies this, repr
      ensures Valid() && Grew()
      ensures View() == WriteTree(old(View()), p, data, version)
      ensures r == WriteResult(old(View()), p, data, version)
    {
      WriteByCases(View(), p, data, version);
      var found := ReadBuffer(p);
      if found.Failure? {
        if found.error != NoEntry || version != 0 {
          return Refused(found.error);
        }
      } else if found.value.version != version {
        return Refused(Outdated);
      } else if found.value.data == data {
        return Skipped;
      }
      StampedReaches(old(View()), p, data, version);
      var v := Place(p, data);
      return Stamped(v);
    }

    // The directories at or below a path; a walk goes down this set.
    ghost function Below(d: Path): set<Path>
      reads this
    {
      set q | q in nodes && IsPrefix(d, q)
    }

    /**
     The recursive walk of readDir, for any order in which the entries come. Each file found is read
     again from the root by its joined path; that reaches the very file being visited, so the error
     returns of the walk are unreachable, and it changes nothing.
     */
    method Walk(ancestor: Path, here: DirNode) returns (keyPaths: seq<Path>, buffers: seq<Stored>)
      requires Valid() && IsNode(here) && here.path == ancestor
      modifies this`nodes, this`repr, repr
      ensures Valid() && Grew() && TheShape() == old(TheShape())
      ensures ExactWalk(View().files, ancestor, keyPaths, buffers)
      decreases Below(ancestor)
    {
      keyPaths, buffers := [], [];
      var todo := here.entries.Keys;
      ghost var h, done := TheShape(), {};
      ViewWellFormed(h, rev);
      while todo != {}
        invariant Valid() && Grew() && TheShape() == h
        invariant done !! todo && done + todo == h.contents[ancestor].Keys
        invariant PartialWalk(View().files, ancestor, done, keyPaths, buffers)
        decreases todo
      {
        var key :| key in todo;
        assert here.entries == h.contents[ancestor];
        assert KeyKnown(h, ancestor, key);
        var keyPath := Join(ancestor, key);
        match here.entries[key] {
          case Dir(inner) =>
            ChildBelow(ancestor, key);
            var more, moreBuffers := Walk(keyPath, inner);
            WalkSubdir(View().files, ancestor, done, key, keyPaths, buffers, more, moreBuffers);
            keyPaths, buffers := keyPaths + more, buffers + moreBuffers;
          case File(_) =>
            WalkFile(View(), ancestor, done, key, keyPaths, buffers);
            if HasSuffix(key, ".json") {
              LookupKnown(h, rev, keyPath);
              var raw := ReadBuffer(keyPath);
              keyPaths, buffers := keyPaths + [keyPath], buffers + [raw.value];
            }
        }
        todo := todo - {key};
        done := done + {key};
      }
      WalkDone(h, rev, ancestor, keyPaths, buffers);
    }

    lemma ChildBelow(d: Path, k: string)
      requires d in nodes
      ensures Below(Join(d, k)) < Below(d)
    {
      assert d in Below(d) && d !in Below(Join(d, k));
      forall q | q in Below(Join(d, k)) ensures q in Below(d) {
        BelowJoin(d, k, q);
      }
    }

    /** readDir: the directory is created if missing; otherwise the walk leaves all as it was. */
    method ReadDir(d: Path) returns (keyPaths: seq<Path>, buffers: seq<Stored>, error: Option<FsError>)
      requires Valid()
      modifies this, repr
      ensures Valid() && Grew()
      ensures View() == EnsureDirTree(old(View()), d)
      ensures error == EnsureDirError(old(View()), d)
      ensures error.None? ==> ExactWalk(old(View()).files, d, keyPaths, buffers)
    {
      var here := EnsureDirNode(d);
      if here.Failure? {
        return [], [], Some(here.error);
      }
      error := None;
      keyPaths, buffers := Walk(d, here.value);
    }

    // Stores the bytes under the next version, in a directory known to be reachable.
    method Place(p: Path, data: Bytes) returns (v: nat)
      requires Valid() && p != [] && Reaches(View(), Parent(p)) && Grown(View(), Parent(p)) == View()
      modifies this, repr
      ensures Valid() && Grew()
      ensures v == old(rev) + 1 && View() == Planted(old(View()), p, Stored(v, data)).(rev := v)
    {
      var here := EnsureDirNode(Parent(p));
      ghost var h := TheShape();
      rev := rev + 1;
      assert TheShape() == h;
      JoinParts(p);
      SetEntry(here.value, Base(p), Some(Stored(rev, data)));
      v := rev;
    }
  }

  // A directory or file one level down implies the directory above.
  lemma StepDown(h: Shape, d: Path, i: nat)
    requires IsTree(h) && i < |d|
    ensures d[..i + 1] in h.nodes || d[..i + 1] in h.files ==> d[..i] in h.nodes
  {
    var p := d[..i + 1];
    assert Parent(p) == d[..i];
    if p in h.nodes {
      assert Holds(h, p, Dir(h.nodes[p]));
    } else if p in h.files {
      assert Holds(h, p, File(h.files[p]));
    }
  }

  // A known file is found again by its path.
  lemma LookupKnown(h: Shape, rev: nat, p: Path)
    requires IsTree(h) && p in h.files
    ensures p != [] && Parent(p) in h.nodes
    ensures LookupResult(ViewOf(h, rev), p) == Success(h.files[p])
  {
    assert Holds(h, p, File(h.files[p]));
    ViewWellFormed(h, rev);
    DirsReach(ViewOf(h, rev), Parent(p));
  }

  // When all entries of a directory are done, every file below it has been found.
  lemma WalkDone(h: Shape, rev: nat, d: Path, paths: seq<Path>, buffers: seq<Stored>)
    requires IsTree(h) && d in h.nodes
    requires PartialWalk(h.files, d, h.contents[d].Keys, paths, buffers)
    ensures ExactWalk(h.files, d, paths, buffers)
  {
    var t := ViewOf(h, rev);
    ViewWellFormed(h, rev);
    forall p | Listed(t.files, d, p) ensures |p| > |d| && p[|d|] in h.contents[d] {
      assert |p| == |d| ==> p == d;
      var j := p[..|d| + 1];
      assert j == Join(d, p[|d|]);
      if |p| == |d| + 1 {
        assert j == p;
      } else {
        PrefixInDirs(t, Parent(p), |d| + 1);
        assert Parent(p)[..|d| + 1] == j;
      }
      EntryIffKnown(h, d, p[|d|]);
    }
  }
}
