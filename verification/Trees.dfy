/**
 The file system as a value: a set of directories and a map from file paths to versioned bytes.
 Each function is the exact effect of one MemoryFS operation on every tree, also where a path names
 a directory or runs through a file. Where no file path runs through another, the tree behaves as
 the flat store.
 */
module Trees {
  import opened Wrappers
  import opened Objects
  import opened Paths
  import opened Stores

  datatype Tree = Tree(dirs: set<Path>, files: map<Path, Stored>, rev: nat)

  datatype FsError = PathConflict | NoEntry | Outdated

  ghost predicate WellFormed(t: Tree) {
    && [] in t.dirs && [] !in t.files
    && (forall p :: p in t.dirs && p != [] ==> Parent(p) in t.dirs)
    && (forall p :: p in t.files ==> p !in t.dirs && Parent(p) in t.dirs)
  }

  // None of the first `n` components of `d` is a file.
  predicate ReachesTo(t: Tree, d: Path, n: nat)
    requires n <= |d|
  {
    forall i :: 0 < i <= n ==> d[..i] !in t.files
  }

  predicate Reaches(t: Tree, d: Path) {
    ReachesTo(t, d, |d|)
  }

  function Prefixes(d: Path, n: nat): set<Path>
    requires n <= |d|
  {
    set i | 0 <= i <= n :: d[..i]
  }

  function GrownTo(t: Tree, d: Path, n: nat): Tree
    requires n <= |d|
  {
    t.(dirs := t.dirs + Prefixes(d, n))
  }

  // Looking up a directory creates it, and all directories on the way.
  function Grown(t: Tree, d: Path): Tree {
    GrownTo(t, d, |d|)
  }

  lemma GrowStep(t: Tree, d: Path, n: nat)
    requires n < |d|
    ensures d[..n + 1] == Join(d[..n], d[n])
    ensures GrownTo(t, d, n + 1) == GrownTo(t, d, n).(dirs := GrownTo(t, d, n).dirs + {d[..n + 1]})
    ensures ReachesTo(t, d, n + 1) <==> ReachesTo(t, d, n) && d[..n + 1] !in t.files
    ensures d[..n + 1] in t.files ==> !Reaches(t, d)
  {
    assert Prefixes(d, n + 1) == Prefixes(d, n) + {d[..n + 1]};
  }

  lemma GrowStart(t: Tree, d: Path)
    requires [] in t.dirs
    ensures GrownTo(t, d, 0) == t && ReachesTo(t, d, 0)
  {
    assert d[..0] == [];
    assert Prefixes(d, 0) == {[]};
    assert t.dirs + {[]} == t.dirs;
  }

  // Deleting an entry takes along everything below it.
  function Pruned(t: Tree, p: Path): Tree {
    Tree(set q | q in t.dirs && !IsPrefix(p, q), map q | q in t.files && !IsPrefix(p, q) :: t.files[q], t.rev)
  }

  function Planted(t: Tree, p: Path, st: Stored): Tree {
    var u := Pruned(t, p);
    Tree(u.dirs, u.files[p := st], u.rev)
  }

  function EnsureDirError(t: Tree, d: Path): Option<FsError> {
    if Reaches(t, d) then None else Some(PathConflict)
  }

  function EnsureDirTree(t: Tree, d: Path): Tree {
    if Reaches(t, d) then Grown(t, d) else t
  }

  function LookupResult(t: Tree, p: Path): Result<Stored, FsError>
    requires p != []
  {
    if !Reaches(t, Parent(p)) then Failure(PathConflict)
    else if p in t.files then Success(t.files[p])
    else Failure(NoEntry)
  }

  predicate EntryExists(t: Tree, p: Path)
    requires p != []
  {
    Reaches(t, Parent(p)) && (p in t.files || p in t.dirs)
  }

  function RemoveError(t: Tree, p: Path): Option<FsError>
    requires p != []
  {
    if !Reaches(t, Parent(p)) then Some(PathConflict)
    else if !EntryExists(t, p) then Some(NoEntry)
    else None
  }

  function RemoveTree(t: Tree, p: Path): Tree
    requires p != []
  {
    var t1 := EnsureDirTree(t, Parent(p));
    if RemoveError(t, p).None? then Pruned(t1, p) else t1
  }

  datatype TreeWrite = Stamped(version: nat) | Skipped | Refused(error: FsError)

  // What becomes of a write, given what the lookup found
  function Judge(found: Result<Stored, FsError>, rev: nat, data: Bytes, version: nat): TreeWrite {
    match found
    case Failure(e) =>
      // version 0 creates; any other version means the object has been deleted meanwhile
      if e != NoEntry || version != 0 then Refused(e) else Stamped(rev + 1)
    case Success(st) =>
      if st.version != version then Refused(Outdated)
      else if st.data == data then Skipped
      else Stamped(rev + 1)
  }

  function WriteResult(t: Tree, p: Path, data: Bytes, version: nat): TreeWrite
    requires p != []
  {
    Judge(LookupResult(t, p), t.rev, data, version)
  }

  function WriteTree(t: Tree, p: Path, data: Bytes, version: nat): Tree
    requires p != []
  {
    var t1 := EnsureDirTree(t, Parent(p));
    match WriteResult(t, p, data, version)
    case Stamped(v) => Planted(t1, p, Stored(v, data)).(rev := v)
    case _ => t1
  }

  // The effect of a write, case by case as the lookup found it
  lemma WriteByCases(t: Tree, p: Path, data: Bytes, version: nat)
    requires p != []
    ensures var t1, found := EnsureDirTree(t, Parent(p)), LookupResult(t, p);
            var r, t' := WriteResult(t, p, data, version), WriteTree(t, p, data, version);
            match found
            case Failure(e) =>
              if e != NoEntry || version != 0 then r == Refused(e) && t' == t1
              else r == Stamped(t.rev + 1) && t' == Planted(t1, p, Stored(t.rev + 1, data)).(rev := t.rev + 1)
            case Success(st) =>
              if st.version != version then r == Refused(Outdated) && t' == t1
              else if st.data == data then r == Skipped && t' == t1
              else r == Stamped(t.rev + 1) && t' == Planted(t1, p, Stored(t.rev + 1, data)).(rev := t.rev + 1)
  {
  }

  // A write that goes through happens in a directory that is there once it has been looked up.
  lemma StampedReaches(t: Tree, p: Path, data: Bytes, version: nat)
    requires p != [] && WriteResult(t, p, data, version).Stamped?
    ensures var t1 := EnsureDirTree(t, Parent(p));
            Reaches(t1, Parent(p)) && Grown(t1, Parent(p)) == t1
  {
  }

  type Files = map<Path, Stored>

  // What a walk of directory `d` has to find
  predicate Listed(files: Files, d: Path, p: Path) {
    p in files && JsonBelow(d, p)
  }

  ghost predicate Distinct(paths: seq<Path>) {
    forall i, j :: 0 <= i < j < |paths| ==> paths[i] != paths[j]
  }

  ghost predicate Buffered(files: Files, paths: seq<Path>, buffers: seq<Stored>) {
    |paths| == |buffers| && forall i :: 0 <= i < |paths| ==> paths[i] in files && buffers[i] == files[paths[i]]
  }

  /** Every .json file below `d` exactly once, with its current bytes. */
  ghost predicate ExactWalk(files: Files, d: Path, paths: seq<Path>, buffers: seq<Stored>) {
    Distinct(paths) && Buffered(files, paths, buffers) && forall p :: p in paths <==> Listed(files, d, p)
  }

  // The same, so far only for the files below the entries `done` of `d`
  ghost predicate PartialWalk(files: Files, d: Path, done: set<string>, paths: seq<Path>, buffers: seq<Stored>) {
    && Distinct(paths) && Buffered(files, paths, buffers)
    && forall p :: p in paths <==> Listed(files, d, p) && |p| > |d| && p[|d|] in done
  }

  // Files found below another entry are other files.
  lemma BranchesDiffer(files: Files, d: Path, done: set<string>, k: string, p: Path, q: Path)
    requires Listed(files, d, p) && |p| > |d| && p[|d|] in done && k !in done && Listed(files, Join(d, k), q)
    ensures p != q
  {
    BelowJoin(d, k, q);
  }

  lemma DistinctConcat(paths: seq<Path>, more: seq<Path>)
    requires Distinct(paths) && Distinct(more)
    requires forall p, q :: p in paths && q in more ==> p != q
    ensures Distinct(paths + more)
  {
    var all := paths + more;
    forall i, j | 0 <= i < j < |all| ensures all[i] != all[j] {
      if i < |paths| <= j {
        assert paths[i] in paths && more[j - |paths|] in more;
      }
    }
  }

  lemma BufferedConcat(files: Files, paths: seq<Path>, buffers: seq<Stored>, more: seq<Path>, moreBuffers: seq<Stored>)
    requires Buffered(files, paths, buffers) && Buffered(files, more, moreBuffers)
    ensures Buffered(files, paths + more, buffers + moreBuffers)
  {
  }

  lemma WalkSubdir(files: Files, d: Path, done: set<string>, k: string,
                   paths: seq<Path>, buffers: seq<Stored>, more: seq<Path>, moreBuffers: seq<Stored>)
    requires PartialWalk(files, d, done, paths, buffers) && k !in done
    requires ExactWalk(files, Join(d, k), more, moreBuffers)
    ensures PartialWalk(files, d, done + {k}, paths + more, buffers + moreBuffers)
  {
    forall p, q | p in paths && q in more ensures p != q {
      BranchesDiffer(files, d, done, k, p, q);
    }
    DistinctConcat(paths, more);
    BufferedConcat(files, paths, buffers, more, moreBuffers);
    forall p ensures p in paths + more <==> Listed(files, d, p) && |p| > |d| && p[|d|] in done + {k} {
      BelowJoin(d, k, p);
      assert p in paths + more <==> p in paths || p in more;
    }
  }

  lemma WalkFile(t: Tree, d: Path, done: set<string>, k: string, paths: seq<Path>, buffers: seq<Stored>)
    requires PartialWalk(t.files, d, done, paths, buffers) && k !in done
    requires WellFormed(t) && Join(d, k) in t.files
    ensures var j := Join(d, k);
            if HasSuffix(k, ".json") then PartialWalk(t.files, d, done + {k}, paths + [j], buffers + [t.files[j]])
            else PartialWalk(t.files, d, done + {k}, paths, buffers)
  {
    var j := Join(d, k);
    var more := if HasSuffix(k, ".json") then [j] else [];
    var moreBuffers := if HasSuffix(k, ".json") then [t.files[j]] else [];
    forall p ensures p in more <==> Listed(t.files, j, p) {
      if Listed(t.files, j, p) { FilesAreLeaves(t, j, p); }
    }
    WalkSubdir(t.files, d, done, k, paths, buffers, more, moreBuffers);
    assert paths + [] == paths && buffers + [] == buffers;
  }

  // Making the parent directory does not make the path itself a directory.
  lemma NotOwnPrefix(p: Path)
    requires p != []
    ensures p !in Prefixes(Parent(p), |Parent(p)|)
  {
  }

  // No file lies below a file.
  lemma FilesAreLeaves(t: Tree, f: Path, p: Path)
    requires WellFormed(t) && f in t.files && p in t.files && IsPrefix(f, p)
    ensures p == f
  {
    if |f| < |p| {
      assert Parent(p)[..|f|] == p[..|f|] == f;
      PrefixInDirs(t, Parent(p), |f|);
    }
  }

  // A directory of the tree is found by its path, and looking it up creates nothing.
  lemma {:induction false} DirsReach(t: Tree, d: Path)
    requires WellFormed(t) && d in t.dirs
    ensures Reaches(t, d) && Grown(t, d) == t
    decreases |d|
  {
    forall i | 0 <= i <= |d| ensures d[..i] in t.dirs {
      PrefixInDirs(t, d, i);
    }
    assert Prefixes(d, |d|) <= t.dirs;
    assert t.dirs + Prefixes(d, |d|) == t.dirs;
  }

  lemma {:induction false} PrefixInDirs(t: Tree, d: Path, i: nat)
    requires WellFormed(t) && d in t.dirs && i <= |d|
    ensures d[..i] in t.dirs
    decreases |d|
  {
    if i < |d| {
      PrefixInDirs(t, Parent(d), i);
      assert Parent(d)[..i] == d[..i];
    } else {
      assert d[..i] == d;
    }
  }

  lemma PruneWellFormed(t: Tree, p: Path)
    requires WellFormed(t) && p != []
    ensures WellFormed(Pruned(t, p))
  {
    forall q | q in t.dirs + t.files.Keys && q != [] && !IsPrefix(p, q) ensures !IsPrefix(p, Parent(q)) {
      JoinParts(q);
      PrefixOfJoin(p, Parent(q), Base(q));
    }
  }

  lemma GrownWellFormed(t: Tree, d: Path)
    requires WellFormed(t) && Reaches(t, d)
    ensures WellFormed(Grown(t, d))
  {
    forall q | q in Prefixes(d, |d|) && q != [] ensures Parent(q) in Prefixes(d, |d|) && q !in t.files {
      assert q == d[..|q|];
      assert Parent(q) == d[..|q| - 1];
    }
  }

  // ------------------------------------------------------------ the flat view

  /** The paths in use on a file system: object files, and directories that are made or listed. */
  datatype Layout = Layout(files: iset<Path>, dirs: iset<Path>)

  /** No file path in use runs through another: none is a proper prefix of a file or prefix of a directory. */
  ghost predicate Disciplined(l: Layout) {
    && [] !in l.files
    && (forall p, q :: p in l.files && q in l.files && IsPrefix(p, q) ==> p == q)
    && (forall p, d :: p in l.files && d in l.dirs ==> !IsPrefix(p, d))
  }

  /** A tree that operations on the layout's paths can produce. */
  ghost predicate Within(t: Tree, l: Layout) {
    && WellFormed(t)
    && (forall p :: p in t.files ==> p in l.files)
    && (forall d :: d in t.dirs ==> d !in l.files)
  }

  // Directories forgotten
  function Flat(t: Tree): Store {
    Store(t.files, t.rev)
  }

  // A path that may be looked up as a directory: one in use, or the directory of a file in use
  ghost predicate IsDirOf(l: Layout, d: Path) {
    d in l.dirs || exists p :: p in l.files && p != [] && Parent(p) == d
  }

  lemma NoFileAbove(l: Layout, d: Path, i: nat)
    requires Disciplined(l) && IsDirOf(l, d) && i <= |d|
    ensures d[..i] !in l.files
  {
    var f := d[..i];
    assert IsPrefix(f, d);
    if f in l.files && d !in l.dirs {
      var p :| p in l.files && p != [] && Parent(p) == d;
      assert p[..i] == f;
      assert IsPrefix(f, p);
    }
  }

  /** Looking up a directory in use succeeds and changes no file: EnsureDir, and every lookup on the way. */
  lemma EnsureDirRefines(t: Tree, l: Layout, d: Path)
    requires Disciplined(l) && Within(t, l) && IsDirOf(l, d)
    ensures EnsureDirError(t, d).None? && Within(EnsureDirTree(t, d), l) && Flat(EnsureDirTree(t, d)) == Flat(t)
    ensures d in EnsureDirTree(t, d).dirs
  {
    forall i | 0 <= i <= |d| ensures d[..i] !in l.files {
      NoFileAbove(l, d, i);
    }
    GrownWellFormed(t, d);
    assert d[..|d|] == d;
  }

  /** Read and Exists are those of the flat store. */
  lemma ReadRefines(t: Tree, l: Layout, p: Path)
    requires Disciplined(l) && Within(t, l) && p in l.files
    ensures p != [] && Reaches(t, Parent(p))
    ensures EntryExists(t, p) <==> p in Flat(t).files
    ensures LookupResult(t, p) == if p in Flat(t).files then Success(Flat(t).files[p]) else Failure(NoEntry)
  {
    EnsureDirRefines(t, l, Parent(p));
  }

  // Pruning at a file in use takes that file and no other.
  lemma PruneTakesOne(t: Tree, l: Layout, p: Path)
    requires Disciplined(l) && Within(t, l) && p in l.files
    ensures Pruned(t, p).files == t.files - {p}
    ensures Within(Pruned(t, p), l)
  {
    assert IsPrefix(p, p);
    PruneWellFormed(t, p);
  }

  /** Remove is that of the flat store, with its error. */
  lemma RemoveRefines(t: Tree, l: Layout, p: Path)
    requires Disciplined(l) && Within(t, l) && p in l.files
    ensures p != [] && RemoveError(t, p) == if p in Flat(t).files then None else Some(NoEntry)
    ensures Within(RemoveTree(t, p), l)
    ensures Flat(RemoveTree(t, p)) == Remove(Flat(t), p)
  {
    ReadRefines(t, l, p);
    EnsureDirRefines(t, l, Parent(p));
    PruneTakesOne(EnsureDirTree(t, Parent(p)), l, p);
    if p !in t.files { assert t.files - {p} == t.files; }
  }

  lemma PlantKeepsWithin(t: Tree, l: Layout, p: Path, st: Stored)
    requires Disciplined(l) && Within(t, l) && p in l.files && p != [] && Parent(p) in t.dirs
    ensures Within(Planted(t, p, st), l)
    ensures Planted(t, p, st).files == t.files[p := st]
  {
    PruneTakesOne(t, l, p);
    assert |Parent(p)| < |p|;
    assert Parent(p) in Pruned(t, p).dirs;
  }

  function FlatOutcome(r: TreeWrite): WriteOutcome {
    match r
    case Stamped(v) => Assigned(v)
    case Skipped => Identical
    case Refused(Outdated) => VersionError
    case Refused(_) => NotExist
  }

  lemma OutcomeRefines(t: Tree, l: Layout, p: Path, doc: Doc, version: nat)
    requires Disciplined(l) && Within(t, l) && p in l.files
    ensures p != [] && FlatOutcome(WriteResult(t, p, Encode(doc), version)) == WriteOutcomeOf(Flat(t), p, doc, version)
  {
    ReadRefines(t, l, p);
  }

  /** Write is that of the flat store, with all its outcomes. */
  lemma WriteRefines(t: Tree, l: Layout, p: Path, doc: Doc, version: nat)
    requires Disciplined(l) && Within(t, l) && p in l.files
    ensures p != [] && FlatOutcome(WriteResult(t, p, Encode(doc), version)) == WriteOutcomeOf(Flat(t), p, doc, version)
    ensures Within(WriteTree(t, p, Encode(doc), version), l)
    ensures Flat(WriteTree(t, p, Encode(doc), version)) == Write(Flat(t), p, doc, version)
  {
    OutcomeRefines(t, l, p, doc, version);
    EnsureDirRefines(t, l, Parent(p));
    PlantKeepsWithin(EnsureDirTree(t, Parent(p)), l, p, Stored(t.rev + 1, Encode(doc)));
  }

  // ------------------------------------------------------------ whole runs

  datatype FsOp =
    | OpRead(p: Path)
    | OpExists(p: Path)
    | OpWrite(p: Path, doc: Doc, version: nat)
    | OpRemove(p: Path)
    | OpEnsureDir(d: Path)
    | OpVisitDir(d: Path)

  datatype Answer =
    | Found(r: Result<Stored, FsError>)
    | Yes(found: bool)
    | Outcome(w: WriteOutcome)
    | Error(e: Option<FsError>)
    | Visited(files: Files, rev: nat)  // what the walk has to find, and the revision

  ghost predicate Uses(l: Layout, op: FsOp) {
    if op.OpEnsureDir? || op.OpVisitDir? then op.d in l.dirs else op.p in l.files
  }

  // A file has a name.
  predicate Named(op: FsOp) {
    op.OpEnsureDir? || op.OpVisitDir? || op.p != []
  }

  predicate AllNamed(ops: seq<FsOp>) {
    forall i :: 0 <= i < |ops| ==> Named(ops[i])
  }

  // The files an exact walk returns
  function FilesBelow(files: Files, d: Path): Files {
    map p | p in files && JsonBelow(d, p) :: files[p]
  }

  function TreeStep(t: Tree, op: FsOp): (Tree, Answer)
    requires Named(op)
  {
    match op
    case OpRead(p) => (EnsureDirTree(t, Parent(p)), Found(LookupResult(t, p)))
    case OpExists(p) => (EnsureDirTree(t, Parent(p)), Yes(EntryExists(t, p)))
    case OpWrite(p, doc, version) =>
      (WriteTree(t, p, Encode(doc), version), Outcome(FlatOutcome(WriteResult(t, p, Encode(doc), version))))
    case OpRemove(p) => (RemoveTree(t, p), Error(RemoveError(t, p)))
    case OpEnsureDir(d) => (EnsureDirTree(t, d), Error(EnsureDirError(t, d)))
    case OpVisitDir(d) =>
      if EnsureDirError(t, d).None? then (EnsureDirTree(t, d), Visited(FilesBelow(t.files, d), t.rev))
      else (t, Error(EnsureDirError(t, d)))
  }

  // The same operations on a flat map: no directories, and nothing that could be in the way
  function FlatStep(s: Store, op: FsOp): (Store, Answer) {
    match op
    case OpRead(p) => (s, Found(if p in s.files then Success(s.files[p]) else Failure(NoEntry)))
    case OpExists(p) => (s, Yes(p in s.files))
    case OpWrite(p, doc, version) => (Write(s, p, doc, version), Outcome(WriteOutcomeOf(s, p, doc, version)))
    case OpRemove(p) => (Remove(s, p), Error(if p in s.files then None else Some(NoEntry)))
    case OpEnsureDir(d) => (s, Error(None))
    case OpVisitDir(d) => (s, Visited(FilesBelow(s.files, d), s.rev))
  }

  /** One operation on paths in use answers as on the flat map, and keeps the tree and the map in step. */
  lemma StepRefines(t: Tree, l: Layout, op: FsOp)
    requires Disciplined(l) && Within(t, l) && Uses(l, op)
    ensures Named(op)
    ensures var (t', answer) := TreeStep(t, op);
            Within(t', l) && (Flat(t'), answer) == FlatStep(Flat(t), op)
  {
    match op
    case OpRead(p) => ReadRefines(t, l, p); EnsureDirRefines(t, l, Parent(p));
    case OpExists(p) => ReadRefines(t, l, p); EnsureDirRefines(t, l, Parent(p));
    case OpWrite(p, doc, version) => WriteRefines(t, l, p, doc, version);
    case OpRemove(p) => RemoveRefines(t, l, p);
    case OpEnsureDir(d) => EnsureDirRefines(t, l, d);
    case OpVisitDir(d) => EnsureDirRefines(t, l, d);
  }

  ghost predicate AllUse(l: Layout, ops: seq<FsOp>) {
    forall i :: 0 <= i < |ops| ==> Uses(l, ops[i])
  }

  function FlatAnswers(s: Store, ops: seq<FsOp>): seq<Answer>
    decreases |ops|
  {
    if ops == [] then []
    else
      var (s', answer) := FlatStep(s, ops[0]);
      [answer] + FlatAnswers(s', ops[1..])
  }

  function TreeAnswers(t: Tree, ops: seq<FsOp>): seq<Answer>
    requires AllNamed(ops)
    decreases |ops|
  {
    if ops == [] then []
    else
      var (t', answer) := TreeStep(t, ops[0]);
      [answer] + TreeAnswers(t', ops[1..])
  }

  /**
   The tree refines the flat map: every sequence of operations on paths in use is answered exactly
   as by the map, although reads create directories.
   */
  lemma {:induction false} TreeRefinesFlat(t: Tree, l: Layout, ops: seq<FsOp>)
    requires Disciplined(l) && Within(t, l) && AllUse(l, ops)
    ensures AllNamed(ops) && TreeAnswers(t, ops) == FlatAnswers(Flat(t), ops)
    decreases |ops|
  {
    if ops != [] {
      StepRefines(t, l, ops[0]);
      TreeRefinesFlat(TreeStep(t, ops[0]).0, l, ops[1..]);
      assert forall i :: 1 <= i < |ops| ==> ops[i] == ops[1..][i - 1];
    }
  }

  const NEW_TREE := Tree({[]}, map[], 1)

  lemma NewIsWithin(l: Layout)
    requires [] !in l.files
    ensures Within(NEW_TREE, l) && Flat(NEW_TREE) == EMPTY
  {
  }

  ghost predicate AnswersAsFlat(l: Layout)
    requires [] !in l.files
  {
    forall ops :: AllUse(l, ops) ==> AllNamed(ops) && TreeAnswers(NEW_TREE, ops) == FlatAnswers(EMPTY, ops)
  }

  // A new file system holding one file
  lemma OneFile(p: Path, doc: Doc)
    requires p != []
    ensures TreeStep(NEW_TREE, OpWrite(p, doc, 0)).0.files == map[p := Stored(2, Encode(doc))]
  {
  }

  lemma TwoAnswers(t: Tree, s: Store, a: FsOp, b: FsOp)
    requires AllNamed([a, b]) && Named(a) && Named(b)
    ensures TreeAnswers(t, [a, b]) == [TreeStep(t, a).1, TreeStep(TreeStep(t, a).0, b).1]
    ensures FlatAnswers(s, [a, b]) == [FlatStep(s, a).1, FlatStep(FlatStep(s, a).0, b).1]
  {
    assert [a, b][1..] == [b] && [b][1..] == [];
    assert TreeAnswers(TreeStep(t, a).0, [b]) == [TreeStep(TreeStep(t, a).0, b).1];
    assert FlatAnswers(FlatStep(s, a).0, [b]) == [FlatStep(FlatStep(s, a).0, b).1];
  }

  /** Layouts that are not disciplined are told apart: after one write, a lookup runs into the file. */
  lemma ConflictIsSeen(l: Layout, p: Path, op: FsOp, doc: Doc)
    requires p in l.files && p != [] && Uses(l, op)
    requires (op.OpEnsureDir? && IsPrefix(p, op.d)) || (op.OpRead? && IsPrefix(p, op.p) && op.p != p)
    ensures var ops := [OpWrite(p, doc, 0), op];
            AllUse(l, ops) && (AllNamed(ops) ==> TreeAnswers(NEW_TREE, ops) != FlatAnswers(EMPTY, ops))
  {
    var ops := [OpWrite(p, doc, 0), op];
    OneFile(p, doc);
    var t := TreeStep(NEW_TREE, ops[0]).0;
    var d := if op.OpRead? then Parent(op.p) else op.d;
    assert d[..|p|] == p && p in t.files && !Reaches(t, d);
    var s := FlatStep(EMPTY, ops[0]).0;
    assert TreeStep(t, op).1 != FlatStep(s, op).1;
    TwoAnswers(NEW_TREE, EMPTY, ops[0], op);
  }

  /** A new file system answers as a flat map on the paths in use if and only if no file runs through another. */
  lemma FlatIffDisciplined(l: Layout)
    requires [] !in l.files
    ensures AnswersAsFlat(l) <==> Disciplined(l)
  {
    var doc := Doc(Identity("", None, 0), map[], "", [], None, None, "", "");
    if Disciplined(l) {
      NewIsWithin(l);
      forall ops | AllUse(l, ops) ensures AllNamed(ops) && TreeAnswers(NEW_TREE, ops) == FlatAnswers(EMPTY, ops) {
        TreeRefinesFlat(NEW_TREE, l, ops);
      }
    } else if p, q :| p in l.files && q in l.files && IsPrefix(p, q) && p != q {
      ConflictIsSeen(l, p, OpRead(q), doc);
    } else {
      var p, d :| p in l.files && d in l.dirs && IsPrefix(p, d);
      ConflictIsSeen(l, p, OpEnsureDir(d), doc);
    }
  }

  // ------------------------------------------------------------ the layout of a server

  /** A resource registered on the file system. */
  datatype Resource = Resource(root: Path, namespaced: bool)

  ghost predicate IsFileOf(res: Resource, p: Path) {
    exists ns, name :: (res.namespaced ==> ns != "") && p == ObjectFileName(res.root, res.namespaced, ns, name)
  }

  ghost predicate IsListDirOf(res: Resource, d: Path) {
    exists ns :: d == ObjectDirName(res.root, res.namespaced, ns)
  }

  /** All object files and directories of the resources of a server */
  ghost function ServerLayout(resources: set<Resource>): Layout {
    Layout(iset p: Path | HasFile(resources, p), iset d: Path | HasDir(resources, d))
  }

  ghost predicate HasFile(resources: set<Resource>, p: Path) {
    exists res :: res in resources && IsFileOf(res, p)
  }

  ghost predicate HasDir(resources: set<Resource>, d: Path) {
    exists res :: res in resources && IsListDirOf(res, d)
  }

  // No resource lies inside another, or shares its directory.
  ghost predicate Separate(resources: set<Resource>) {
    forall a, b :: a in resources && b in resources && IsPrefix(a.root, b.root) ==> a == b
  }

  // All files of a resource have the same number of components, more than any of its directories.
  function Depth(res: Resource): nat {
    |res.root| + if res.namespaced then 2 else 1
  }

  lemma FileOfResource(res: Resource, p: Path)
    requires IsFileOf(res, p)
    ensures IsPrefix(res.root, p) && |p| == Depth(res)
  {
    var ns, name :| (res.namespaced ==> ns != "") && p == ObjectFileName(res.root, res.namespaced, ns, name);
    ObjectFileIsBelow(res.root, res.namespaced, ns, name);
  }

  lemma DirOfResource(res: Resource, d: Path)
    requires IsListDirOf(res, d)
    ensures IsPrefix(res.root, d) && |d| < Depth(res)
  {
    var ns :| d == ObjectDirName(res.root, res.namespaced, ns);
    PrefixOfJoin(res.root, res.root, ns);
  }

  // What lies below two resources' roots makes them one resource.
  lemma OneResource(resources: set<Resource>, a: Resource, b: Resource, p: Path, q: Path)
    requires Separate(resources) && a in resources && b in resources
    requires IsPrefix(a.root, p) && IsPrefix(b.root, q) && IsPrefix(p, q)
    ensures a == b
  {
    PrefixTransitive(a.root, p, q);
    if |a.root| <= |b.root| {
      PrefixesAreNested(a.root, b.root, q);
    } else {
      PrefixesAreNested(b.root, a.root, q);
    }
  }

  /**
   The object files of any set of separate resources, cluster-scoped or namespaced, never run
   through one another, so the file system they share is a flat map.
   */
  lemma ServerIsDisciplined(resources: set<Resource>)
    requires Separate(resources)
    ensures Disciplined(ServerLayout(resources))
  {
    var l := ServerLayout(resources);
    forall p | p in l.files ensures p != [] {
      var a :| a in resources && IsFileOf(a, p);
      FileOfResource(a, p);
    }
    forall p, q | p in l.files && q in l.files && IsPrefix(p, q) ensures p == q {
      var a :| a in resources && IsFileOf(a, p);
      var b :| b in resources && IsFileOf(b, q);
      FileOfResource(a, p);
      FileOfResource(b, q);
      OneResource(resources, a, b, p, q);
      assert q[..|p|] == q;
    }
    forall p, d | p in l.files && d in l.dirs ensures !IsPrefix(p, d) {
      var a :| a in resources && IsFileOf(a, p);
      var b :| b in resources && IsListDirOf(b, d);
      FileOfResource(a, p);
      DirOfResource(b, d);
      if IsPrefix(p, d) { OneResource(resources, a, b, p, d); }
    }
  }

  lemma RootIsUsed(resources: set<Resource>, res: Resource)
    requires res in resources
    ensures res.root in ServerLayout(resources).dirs
  {
    assert ObjectDirName(res.root, res.namespaced, "") == res.root;
    assert IsListDirOf(res, res.root);
  }

  /** The layout of a server has the file of every object of its resources, and the directories it lists. */
  lemma ServerUsesItsFiles(resources: set<Resource>, res: Resource, ns: string, name: string)
    requires res in resources && (res.namespaced ==> ns != "")
    ensures ObjectFileName(res.root, res.namespaced, ns, name) in ServerLayout(resources).files
    ensures ObjectDirName(res.root, res.namespaced, ns) in ServerLayout(resources).dirs
  {
    assert IsFileOf(res, ObjectFileName(res.root, res.namespaced, ns, name));
    assert IsListDirOf(res, ObjectDirName(res.root, res.namespaced, ns));
  }

  /** Below a resource's root lie its own objects only, so walking it lists exactly those. */
  lemma OwnObjectsBelow(resources: set<Resource>, res: Resource, p: Path)
    requires Separate(resources) && res in resources && p in ServerLayout(resources).files
    ensures IsPrefix(res.root, p) <==> IsFileOf(res, p)
  {
    var a :| a in resources && IsFileOf(a, p);
    FileOfResource(a, p);
    if IsPrefix(res.root, p) {
      assert IsPrefix(p, p);
      OneResource(resources, res, a, p, p);
    } else if IsFileOf(res, p) {
      FileOfResource(res, p);
    }
  }
}
