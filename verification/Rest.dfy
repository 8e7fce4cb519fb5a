/**
 filepathREST (pkg/storage/filepath/jsonfile_rest.go) over MemoryFS. Several resources, each with
 its main and status endpoints, share one file system; other requests, on any of them, run between
 a handler's critical sections. What they do there is a parameter, so each contract holds for every
 interference. The paths in use never run through one another, and the file system is then a store.
 */
module Rest {
  import opened Wrappers
  import opened Objects
  import opened Paths
  import opened Stores
  import opened Trees
  import opened MemoryFS
  import opened Interference
  import R = Requests
  import H = History

  // `Gone` is the file system's own error for a missing file, passed on as it is.
  datatype Fault = NotFound | AlreadyExists | Conflict | Invalid | Cancelled | Exhausted | Gone

  // What Update's closure makes of the stored object: `propose` is the caller's change.
  function TryUpdate(ep: Endpoint, propose: Obj -> Option<Obj>, input: Option<Obj>): Result<Obj, Fault> {
    if input.None? then Failure(NotFound)
    else
      var p := propose(input.value);
      if p.None? then Failure(Invalid)
      else if p.value.version != input.value.version then Failure(Conflict)
      else
        var out := BeforeUpdate(ep, p.value, input.value);
        if out.None? then Failure(Invalid) else Success(out.value)
  }

  function Closure(ep: Endpoint, propose: Obj -> Option<Obj>): Option<Obj> -> Result<Obj, Fault> {
    input => TryUpdate(ep, propose, input)
  }

  /**
   What a change is worth, case by case: nothing is changed that is not there; the caller may decline; a
   proposal at another version than the stored one is a conflict; a main update must leave alone what
   the system keeps. What passes is stored as proposed, or, for the status, as it was but for the status.
   */
  lemma ChangesAreJudged(ep: Endpoint, propose: Obj -> Option<Obj>, stored: Obj)
    ensures Closure(ep, propose)(None) == Failure(NotFound)
    ensures propose(stored).None? ==> Closure(ep, propose)(Some(stored)) == Failure(Invalid)
    ensures propose(stored).Some? && propose(stored).value.version != stored.version ==>
              Closure(ep, propose)(Some(stored)) == Failure(Conflict)
    ensures propose(stored).Some? && propose(stored).value.version == stored.version ==>
              var p := propose(stored).value.doc;
              if ep.Status? then
                Closure(ep, propose)(Some(stored)) == Success(Obj(stored.doc.(status := p.status), stored.version))
              else if !MayReplace(p, stored.doc) then Closure(ep, propose)(Some(stored)) == Failure(Invalid)
              else Closure(ep, propose)(Some(stored)) == Success(Obj(Replaced(p, stored.doc), stored.version))
  {
  }

  // A proposed object with what the system keeps
  function Replaced(p: Doc, stored: Doc): Doc {
    p.(identity := stored.identity, deletion := stored.deletion, grace := stored.grace, status := stored.status)
  }

  datatype Persist = Persisted(obj: Obj) | Abandoned(fault: Fault) | GaveUp

  /** The store `s'` and the returned object are those of one atomic application of tryUpdate to `at`. */
  ghost predicate AppliedTo(at: Store, p: Path, tryUpdate: Option<Obj> -> Result<Obj, Fault>, obj: Obj, s': Store) {
    var input := Read(at, p);
    && tryUpdate(input).Success?
    && var out := tryUpdate(input).value;
       var w := WriteOutcomeOf(at, p, out.doc, InputVersion(input));
       Accepted(w) && obj == Stamp(out, w) && s' == Stores.Write(at, p, out.doc, InputVersion(input))
  }

  // All files touched are files in use.
  ghost predicate Regular(l: Layout, ops: seq<Op>) {
    forall i :: 0 <= i < |ops| ==> ops[i].name in l.files
  }

  // A file system whose paths are in order and whose versions are as writes assign them
  ghost predicate Sound(t: Tree, l: Layout) {
    Disciplined(l) && Within(t, l) && H.WellVersioned(Flat(t))
  }

  lemma WriteKeepsSound(t: Tree, l: Layout, p: Path, doc: Doc, version: nat)
    requires Sound(t, l) && p in l.files
    ensures p != [] && Sound(WriteTree(t, p, Encode(doc), version), l)
    ensures Flat(WriteTree(t, p, Encode(doc), version)) == Stores.Write(Flat(t), p, doc, version)
    ensures FlatOutcome(WriteResult(t, p, Encode(doc), version)) == WriteOutcomeOf(Flat(t), p, doc, version)
  {
    WriteRefines(t, l, p, doc, version);
    WriteKeepsVersions(Flat(t), p, doc, version);
  }

  class FilepathREST {
    const fs: MemFS
    const root: Path
    const namespaced: bool
    ghost const layout: Layout  // all paths in use on the file system

    ghost predicate Valid()
      reads fs, fs.repr
    {
      fs.Valid() && Sound(fs.View(), layout)
    }

    // The objects of every resource on the file system
    ghost function TheStore(): Store
      reads fs
    {
      Flat(fs.View())
    }

    function FileOf(ns: string, name: string): (p: Path)
      ensures !namespaced || ns == "" ==> p == root + [name + ".json"]
      ensures namespaced && ns != "" ==> p == root + [ns, name + ".json"]
    {
      ObjectFileName(root, namespaced, ns, name)
    }

    /** NewFilepathREST: it would panic if the resource directory could not be made. */
    constructor (fs: MemFS, root: Path, namespaced: bool, ghost layout: Layout)
      requires fs.Valid() && EnsureDirError(fs.View(), root).None?
      modifies fs, fs.repr
      ensures this.fs == fs && this.root == root && this.namespaced == namespaced && this.layout == layout
      ensures fs.Valid() && fs.Grew() && fs.View() == EnsureDirTree(old(fs.View()), root)
      ensures old(Sound(fs.View(), layout)) && root in layout.dirs ==> Valid() && TheStore() == old(Flat(fs.View()))
    {
      this.fs := fs;
      this.root := root;
      this.namespaced := namespaced;
      this.layout := layout;
      new;
      var error := fs.EnsureDir(root);
      if old(Sound(fs.View(), layout)) && root in layout.dirs {
        EnsureDirRefines(old(fs.View()), layout, root);
      }
    }

    // ---------------------------------------------------------- critical sections

    method ReadFile(p: Path) returns (r: Option<Obj>)
      requires Valid() && p in layout.files
      modifies fs, fs.repr
      ensures Valid() && fs.Grew() && TheStore() == old(TheStore())
      ensures r == Read(TheStore(), p)
    {
      ReadRefines(fs.View(), layout, p);
      EnsureDirRefines(fs.View(), layout, Parent(p));
      var found := fs.ReadBuffer(p);
      return if found.Success? then Some(Obj(Decode(found.value.data), found.value.version)) else None;
    }

    method FileExists(p: Path) returns (found: bool)
      requires Valid() && p in layout.files
      modifies fs, fs.repr
      ensures Valid() && fs.Grew() && TheStore() == old(TheStore())
      ensures found <==> p in TheStore().files
    {
      ReadRefines(fs.View(), layout, p);
      EnsureDirRefines(fs.View(), layout, Parent(p));
      found := fs.Exists(p);
    }

    method WriteFile(p: Path, doc: Doc, version: nat) returns (w: WriteOutcome)
      requires Valid() && p in layout.files
      modifies fs, fs.repr
      ensures Valid() && fs.Grew()
      ensures TheStore() == Stores.Write(old(TheStore()), p, doc, version)
      ensures w == WriteOutcomeOf(old(TheStore()), p, doc, version)
    {
      WriteKeepsSound(fs.View(), layout, p, doc, version);
      var r := fs.Write(p, Encode(doc), version);
      w := FlatOutcome(r);
    }

    method RemoveFile(p: Path) returns (existed: bool)
      requires Valid() && p in layout.files
      modifies fs, fs.repr
      ensures Valid() && fs.Grew()
      ensures TheStore() == Stores.Remove(old(TheStore()), p)
      ensures existed <==> p in old(TheStore()).files
    {
      RemoveRefines(fs.View(), layout, p);
      var error := fs.Remove(p);
      existed := error.None?;
    }

    // One turn of another request, on this resource or another
    method Other(op: Op)
      requires Valid() && op.name in layout.files
      modifies fs, fs.repr
      ensures Valid() && fs.Grew()
      ensures TheStore() == Do(old(TheStore()), op)
    {
      match op
      case OtherWrite(p, doc, version) => var _ := WriteFile(p, doc, version);
      case OtherRemove(p) => var _ := RemoveFile(p);
    }

    // Other requests take their turns.
    method Others(ops: seq<Op>)
      requires Valid() && Regular(layout, ops)
      modifies fs, fs.repr
      ensures Valid() && fs.Grew()
      ensures TheStore() == DoAll(old(TheStore()), ops)
    {
      var i := 0;
      while i < |ops|
        invariant 0 <= i <= |ops| && Valid() && fs.Grew()
        invariant TheStore() == DoAll(old(TheStore()), ops[..i])
      {
        assert ops[..i + 1][..i] == ops[..i];
        Other(ops[i]);
        i := i + 1;
      }
      assert ops[..|ops|] == ops;
    }

    // Others take their turns before the next critical section.
    method OthersThenRead(ops: seq<Op>, p: Path) returns (r: Option<Obj>)
      requires Valid() && Regular(layout, ops) && p in layout.files
      modifies fs, fs.repr
      ensures Valid() && fs.Grew()
      ensures TheStore() == DoAll(old(TheStore()), ops) && r == Read(TheStore(), p)
    {
      Others(ops);
      r := ReadFile(p);
    }

    method OthersThenWrite(ops: seq<Op>, p: Path, doc: Doc, version: nat) returns (w: WriteOutcome)
      requires Valid() && Regular(layout, ops) && p in layout.files
      modifies fs, fs.repr
      ensures Valid() && fs.Grew()
      ensures TheStore() == Stores.Write(DoAll(old(TheStore()), ops), p, doc, version)
      ensures w == WriteOutcomeOf(DoAll(old(TheStore()), ops), p, doc, version)
    {
      Others(ops);
      w := WriteFile(p, doc, version);
    }

    method OthersThenRemove(ops: seq<Op>, p: Path) returns (existed: bool)
      requires Valid() && Regular(layout, ops) && p in layout.files
      modifies fs, fs.repr
      ensures Valid() && fs.Grew()
      ensures TheStore() == Stores.Remove(DoAll(old(TheStore()), ops), p)
      ensures existed <==> p in DoAll(old(TheStore()), ops).files
    {
      Others(ops);
      existed := RemoveFile(p);
    }

    // ---------------------------------------------------------- the handlers

    method Get(ns: string, name: string) returns (r: Result<Obj, Fault>)
      requires Valid() && FileOf(ns, name) in layout.files
      modifies fs, fs.repr
      ensures Valid() && fs.Grew() && TheStore() == old(TheStore())
      ensures var o := Read(TheStore(), FileOf(ns, name));
              r == if o.Some? then Success(o.value) else Failure(NotFound)
    {
      var o := ReadFile(FileOf(ns, name));
      return if o.Some? then Success(o.value) else Failure(NotFound);
    }

    // One attempt: Get, tryUpdate, Write, with others acting before the Get and before the Write
    method Attempt(p: Path, tryUpdate: Option<Obj> -> Result<Obj, Fault>, pre: seq<Op>, mid: seq<Op>)
      returns (r: Persist)
      requires Valid() && p in layout.files && Regular(layout, pre) && Regular(layout, mid)
      modifies fs, fs.repr
      ensures Valid() && fs.Grew()
      ensures Attempted(DoAll(old(TheStore()), pre), p, tryUpdate, mid, r, TheStore())
    {
      var input := OthersThenRead(pre, p);
      var out := tryUpdate(input);
      if out.Failure? {
        return Abandoned(out.error);
      }
      TryOutcome(TheStore(), p, tryUpdate, mid);
      var w := OthersThenWrite(mid, p, out.value.doc, InputVersion(input));
      r := WriteResultOf(out.value, w);
    }

    /**
     guaranteedUpdate: retries the compare-and-swap at most 100 times, and only as long as each
     attempt finds the object changed between its Get and its Write. An attempt that finds it untouched
     persists, as one atomic application of tryUpdate to the store of the moment of its Write. A call
     that does not persist changes nothing itself, and has one of four causes: the context is
     cancelled, tryUpdate refuses the object read, the object is gone at the Write, or all attempts
     were refused.
     */
    method GuaranteedUpdate(p: Path, tryUpdate: Option<Obj> -> Result<Obj, Fault>, env: Env)
      returns (r: Persist, attempts: nat)
      requires Valid() && p in layout.files
      requires forall n :: Regular(layout, env.before(n)) && Regular(layout, env.during(n))
      modifies fs, fs.repr
      ensures Valid() && fs.Grew()
      ensures Guaranteed(old(TheStore()), p, tryUpdate, env, r, attempts, TheStore())
    {
      r, attempts := GaveUp, 0;
      while attempts < R.MAX_ATTEMPTS
        invariant attempts <= R.MAX_ATTEMPTS && Valid() && fs.Grew() && r.GaveUp?
        invariant TheStore() == StoreAt(old(TheStore()), env, attempts)
        invariant AllRefused(old(TheStore()), p, tryUpdate, env, attempts)
      {
        if env.cancelled(attempts) {
          r := Abandoned(Cancelled);
          return;
        }
        r := Attempt(p, tryUpdate, env.before(attempts), env.during(attempts));
        AttemptFollows(old(TheStore()), p, tryUpdate, env, attempts, r, TheStore());
        attempts := attempts + 1;
        if !r.GaveUp? {
          return;
        }
      }
    }

    /**
     Create: the check and the write are separate, yet the object is only ever created from nothing. It
     is stored as given, with the UID and the creation time filled in, and then announced.
     */
    method Create(ns: string, name: string, obj: Doc, uid: string, now: Time, valid: bool, gap: seq<Op>)
      returns (r: Result<Obj, Fault>, ev: Option<R.Event>)
      requires Valid() && FileOf(ns, name) in layout.files && Regular(layout, gap)
      modifies fs, fs.repr
      ensures Valid() && fs.Grew()
      ensures Created(old(TheStore()), FileOf(ns, name), Filled(obj, uid, now), valid, gap, r, TheStore())
      ensures r.Success? ==>
                && r.value.doc.labels == obj.labels && r.value.doc.meta == obj.meta
                && r.value.doc.finalizers == obj.finalizers && r.value.doc.deletion == obj.deletion
                && r.value.doc.grace == obj.grace && r.value.doc.spec == obj.spec && r.value.doc.status == obj.status
                && r.value.doc.identity == Identity(uid, Some(now), obj.identity.generation)
      ensures ev == if r.Success? then Some(R.Event(R.Added, FileOf(ns, name), r.value)) else None
    {
      var doc := Filled(obj, uid, now);
      if !valid {
        return Failure(Invalid), None;
      }
      var p := FileOf(ns, name);
      var found := Check(p);
      if found {
        return Failure(AlreadyExists), None;
      }
      CreateOutcome(TheStore(), p, doc, gap);
      var w := OthersThenWrite(gap, p, doc, 0);
      if w == VersionError {
        return Failure(Conflict), None;
      }
      var created := Stamp(Obj(doc, 0), w);
      return Success(created), Some(R.Event(R.Added, p, created));
    }

    // The critical sections before the write
    method Check(p: Path) returns (found: bool)
      requires Valid() && p in layout.files
      modifies fs, fs.repr
      ensures Valid() && fs.Grew() && TheStore() == old(TheStore())
      ensures found <==> p in TheStore().files
    {
      if namespaced {
        EnsureNamespace(p);
      }
      found := FileExists(p);
    }

    // The directory of a namespace is made before its first object.
    method EnsureNamespace(p: Path)
      requires Valid() && p in layout.files
      modifies fs, fs.repr
      ensures Valid() && fs.Grew() && TheStore() == old(TheStore())
    {
      ReadRefines(fs.View(), layout, p);
      EnsureDirRefines(fs.View(), layout, Parent(p));
      var error := fs.EnsureDir(Parent(p));
    }

    /**
     Delete: an object with finalizers is only marked, and the mark is accepted exactly when nobody
     touched the object since it was read; an object without finalizers is removed outright.
     */
    method Delete(ns: string, name: string, valid: bool, now: Time, gap: seq<Op>)
      returns (r: Result<Obj, Fault>, immediate: bool, ev: Option<R.Event>)
      requires Valid() && FileOf(ns, name) in layout.files && Regular(layout, gap)
      modifies fs, fs.repr
      ensures Valid() && fs.Grew()
      ensures Deleted(old(TheStore()), FileOf(ns, name), valid, now, gap, r, TheStore())
      ensures immediate <==> r.Success? && FileOf(ns, name) !in TheStore().files
      ensures ev == if r.Failure? then None
                    else Some(R.Event(if immediate then R.Deleted else R.Modified, FileOf(ns, name), r.value))
    {
      var p := FileOf(ns, name);
      immediate, ev := false, None;
      var o := ReadFile(p);
      if o.None? {
        r := Failure(NotFound);
      } else if !valid {
        r := Failure(Invalid);
      } else if o.value.doc.finalizers != [] {
        r := Mark(p, o.value, now, gap);
        if r.Success? { ev := Some(R.Event(R.Modified, p, r.value)); }
      } else {
        immediate := OthersThenRemove(gap, p);
        r := if immediate then Success(o.value) else Failure(NotFound);
        if immediate { ev := Some(R.Event(R.Deleted, p, o.value)); }
      }
    }

    // The first phase of a deletion: `obj` is the object as it was read.
    method Mark(p: Path, obj: Obj, now: Time, gap: seq<Op>) returns (r: Result<Obj, Fault>)
      requires Valid() && p in layout.files && Regular(layout, gap)
      requires Read(TheStore(), p) == Some(obj) && obj.doc.finalizers != []
      modifies fs, fs.repr
      ensures Valid() && fs.Grew()
      ensures Deleted(old(TheStore()), p, true, now, gap, r, TheStore())
    {
      var marked := obj.(doc := MarkDeleted(obj.doc, now));
      MarkOutcome(TheStore(), p, now, gap);
      var w := OthersThenWrite(gap, p, marked.doc, marked.version);
      r := if Accepted(w) then Success(Stamp(marked, w)) else Failure(if w == VersionError then Conflict else Gone);
    }

    /**
     Update: an update that persists is one atomic application of the caller's change. Once the last
     finalizer of an object marked for deletion is gone, the update that drained it removes the
     object, and watchers see a deletion; otherwise they see the object as stored. An update that
     does not persist leaves the store as the others made it, for one of the causes named above.
     */
    method Update(ep: Endpoint, ns: string, name: string, propose: Obj -> Option<Obj>, env: Env, gap: seq<Op>)
      returns (r: Result<Obj, Fault>, ev: Option<R.Event>, ghost done: Persist, ghost attempts: nat, ghost after: Store)
      requires Valid() && FileOf(ns, name) in layout.files && Regular(layout, gap)
      requires forall n :: Regular(layout, env.before(n)) && Regular(layout, env.during(n))
      modifies fs, fs.repr
      ensures Valid() && fs.Grew()
      ensures Guaranteed(old(TheStore()), FileOf(ns, name), Closure(ep, propose), env, done, attempts, after)
      ensures done.Persisted? ==>
                && attempts > 0
                && var at := AtWrite(old(TheStore()), env, attempts - 1);
                   StoresChange(at, FileOf(ns, name), ep, propose, done.obj, after)
      ensures forall i: nat :: StaleAt(old(TheStore()), FileOf(ns, name), ep, propose, env, i) ==>
                r == Failure(Conflict) && ev == None && TheStore() == AtGet(old(TheStore()), env, i)
      ensures Updated(after, FileOf(ns, name), done, gap, r, ev, TheStore())
    {
      var p := FileOf(ns, name);
      var persist, n := GuaranteedUpdate(p, Closure(ep, propose), env);
      done, attempts, after := persist, n, TheStore();
      PersistedIsStored(old(TheStore()), p, ep, propose, env, done, attempts, after);
      forall i: nat | StaleAt(old(TheStore()), p, ep, propose, env, i)
        ensures done == Abandoned(Conflict) && after == AtGet(old(TheStore()), env, i)
      {
        StaleIsRefused(old(TheStore()), p, ep, propose, env, i, done, attempts, after);
      }
      if !persist.Persisted? {
        r, ev := Failure(if persist.GaveUp? then Exhausted else persist.fault), None;
        return;
      }
      if !Doomed(persist.obj.doc) {
        r, ev := Success(persist.obj), Some(R.Event(R.Modified, p, persist.obj));
        return;
      }
      var existed := OthersThenRemove(gap, p);
      if existed {
        r, ev := Success(persist.obj), Some(R.Event(R.Deleted, p, persist.obj));
      } else {
        r, ev := Failure(NotFound), None;
      }
    }

    // ---------------------------------------------------------- List

    // The part of VisitDir under the mutex
    method Snapshot(d: Path) returns (paths: seq<Path>, buffers: seq<Stored>, version: nat)
      requires Valid() && d in layout.dirs
      modifies fs, fs.repr
      ensures Valid() && fs.Grew() && TheStore() == old(TheStore())
      ensures ExactWalk(TheStore().files, d, paths, buffers) && version == TheStore().rev
    {
      EnsureDirRefines(fs.View(), layout, d);
      var error;
      paths, buffers, error := fs.ReadDir(d);
      version := fs.rev;
    }

    /**
     List: exactly the matching objects stored at the instant of the snapshot, each once, with the
     revision of that instant, although decoding and filtering run while others go on. Whatever is
     stored differently when List returns has a version above the list's.
     */
    method List(ns: string, sel: Selector, gap: seq<Op>) returns (items: seq<(Path, Obj)>, version: nat)
      requires Valid() && ObjectDirName(root, namespaced, ns) in layout.dirs && Regular(layout, gap)
      modifies fs, fs.repr
      ensures Valid() && fs.Grew()
      ensures TheStore() == DoAll(old(TheStore()), gap) && version == old(TheStore()).rev
      ensures IsListing(old(TheStore()), ObjectDirName(root, namespaced, ns), sel, items)
      ensures forall i :: 0 <= i < |items| ==> items[i].1.version <= version
      ensures forall p :: p in TheStore().files && Read(TheStore(), p) != Read(old(TheStore()), p) ==>
                TheStore().files[p].version > version
    {
      var d := ObjectDirName(root, namespaced, ns);
      var paths, buffers;
      paths, buffers, version := Snapshot(d);
      DifferentIsNewer(TheStore(), gap);
      Others(gap);
      items := Collect(sel, paths, buffers, d, old(TheStore()));
    }
  }

  // ------------------------------------------------------------ what an update may do

  /**
   What one attempt that read the object in `g` does, others having acted before its Write: it stops
   where tryUpdate refuses the object read, persists exactly if the object is untouched, and is refused
   otherwise, for good if the object is gone.
   */
  ghost predicate Attempted(g: Store, p: Path, tryUpdate: Option<Obj> -> Result<Obj, Fault>, mid: seq<Op>,
                            r: Persist, s': Store) {
    var input, at := Read(g, p), DoAll(g, mid);
    if tryUpdate(input).Failure? then r == Abandoned(tryUpdate(input).error) && s' == g
    else if Read(at, p) == input then r.Persisted? && AppliedTo(at, p, tryUpdate, r.obj, s')
    else r == (if p in at.files then GaveUp else Abandoned(NotFound)) && s' == at
  }

  function WriteResultOf(out: Obj, w: WriteOutcome): Persist {
    if Accepted(w) then Persisted(Stamp(out, w)) else if w == NotExist then Abandoned(NotFound) else GaveUp
  }

  lemma TryOutcome(g: Store, p: Path, tryUpdate: Option<Obj> -> Result<Obj, Fault>, mid: seq<Op>)
    requires H.WellVersioned(g) && tryUpdate(Read(g, p)).Success?
    ensures var out, v, at := tryUpdate(Read(g, p)).value, InputVersion(Read(g, p)), DoAll(g, mid);
            Attempted(g, p, tryUpdate, mid, WriteResultOf(out, WriteOutcomeOf(at, p, out.doc, v)),
                      Stores.Write(at, p, out.doc, v))
  {
    AttemptOutcome(g, mid, p, tryUpdate(Read(g, p)).value.doc);
    OthersAdvance(g, mid, p);
  }

  // Attempt `i` went as far as its Write, and there found that another request had changed the object.
  ghost predicate RefusedAt(s: Store, p: Path, tryUpdate: Option<Obj> -> Result<Obj, Fault>, env: Env, i: nat) {
    && !env.cancelled(i) && tryUpdate(Read(AtGet(s, env, i), p)).Success?
    && p in AtWrite(s, env, i).files && Read(AtWrite(s, env, i), p) != Read(AtGet(s, env, i), p)
  }

  ghost predicate AllRefused(s: Store, p: Path, tryUpdate: Option<Obj> -> Result<Obj, Fault>, env: Env, n: nat) {
    forall i: nat :: i < n ==> RefusedAt(s, p, tryUpdate, env, i)
  }

  // The last attempt was made, after all before it were refused, and ended as attempts do.
  ghost predicate EndsAt(s: Store, p: Path, tryUpdate: Option<Obj> -> Result<Obj, Fault>, env: Env,
                         r: Persist, i: nat, s': Store) {
    && i < R.MAX_ATTEMPTS && AllRefused(s, p, tryUpdate, env, i) && !env.cancelled(i)
    && Attempted(AtGet(s, env, i), p, tryUpdate, env.during(i), r, s')
  }

  /** What guaranteedUpdate makes of the store `s`, and why */
  ghost predicate Guaranteed(s: Store, p: Path, tryUpdate: Option<Obj> -> Result<Obj, Fault>, env: Env,
                             r: Persist, attempts: nat, s': Store) {
    if r.GaveUp? then
      attempts == R.MAX_ATTEMPTS && AllRefused(s, p, tryUpdate, env, attempts) && s' == StoreAt(s, env, attempts)
    else
      || (attempts > 0 && EndsAt(s, p, tryUpdate, env, r, attempts - 1, s'))
      || (&& attempts < R.MAX_ATTEMPTS && AllRefused(s, p, tryUpdate, env, attempts) && env.cancelled(attempts)
          && r == Abandoned(Cancelled) && s' == StoreAt(s, env, attempts))
  }

  // Another attempt, after some that were refused
  lemma AttemptFollows(s: Store, p: Path, tryUpdate: Option<Obj> -> Result<Obj, Fault>, env: Env, n: nat,
                       r: Persist, s': Store)
    requires n < R.MAX_ATTEMPTS && AllRefused(s, p, tryUpdate, env, n) && !env.cancelled(n)
    requires Attempted(AtGet(s, env, n), p, tryUpdate, env.during(n), r, s')
    ensures if r.GaveUp? then AllRefused(s, p, tryUpdate, env, n + 1) && s' == StoreAt(s, env, n + 1)
            else Guaranteed(s, p, tryUpdate, env, r, n + 1, s')
  {
    if r.GaveUp? { assert RefusedAt(s, p, tryUpdate, env, n); }
  }

  /** An attempt that is not cancelled, whose tryUpdate succeeds and whose object is untouched, persists. */
  lemma UntouchedAttemptPersists(s: Store, p: Path, tryUpdate: Option<Obj> -> Result<Obj, Fault>, env: Env, i: nat,
                                 r: Persist, attempts: nat, s': Store)
    requires Guaranteed(s, p, tryUpdate, env, r, attempts, s')
    requires i < R.MAX_ATTEMPTS && AllRefused(s, p, tryUpdate, env, i) && !env.cancelled(i)
    requires tryUpdate(Read(AtGet(s, env, i), p)).Success?
    requires Read(AtWrite(s, env, i), p) == Read(AtGet(s, env, i), p)
    ensures r.Persisted? && attempts == i + 1 && AppliedTo(AtWrite(s, env, i), p, tryUpdate, r.obj, s')
  {
    LastAttempt(s, p, tryUpdate, env, i, r, attempts, s');
  }

  // An attempt that would not be refused is the last one.
  lemma LastAttempt(s: Store, p: Path, tryUpdate: Option<Obj> -> Result<Obj, Fault>, env: Env, i: nat,
                    r: Persist, attempts: nat, s': Store)
    requires Guaranteed(s, p, tryUpdate, env, r, attempts, s')
    requires i < R.MAX_ATTEMPTS && AllRefused(s, p, tryUpdate, env, i) && !RefusedAt(s, p, tryUpdate, env, i)
    ensures !r.GaveUp?
    ensures if env.cancelled(i) then attempts == i && r == Abandoned(Cancelled) && s' == StoreAt(s, env, i)
            else attempts == i + 1 && Attempted(AtGet(s, env, i), p, tryUpdate, env.during(i), r, s')
  {
    assert attempts < i ==> RefusedAt(s, p, tryUpdate, env, attempts);
    assert 0 < attempts <= i ==> RefusedAt(s, p, tryUpdate, env, attempts - 1);
  }

  /** The contract leaves nothing open: the result, the number of attempts and the store are determined. */
  lemma GuaranteedIsExact(s: Store, p: Path, tryUpdate: Option<Obj> -> Result<Obj, Fault>, env: Env,
                          r1: Persist, n1: nat, s1: Store, r2: Persist, n2: nat, s2: Store)
    requires Guaranteed(s, p, tryUpdate, env, r1, n1, s1) && Guaranteed(s, p, tryUpdate, env, r2, n2, s2)
    ensures r1 == r2 && n1 == n2 && s1 == s2
  {
    if i: nat :| i < R.MAX_ATTEMPTS && AllRefused(s, p, tryUpdate, env, i) && !RefusedAt(s, p, tryUpdate, env, i) {
      LastAttempt(s, p, tryUpdate, env, i, r1, n1, s1);
      LastAttempt(s, p, tryUpdate, env, i, r2, n2, s2);
    } else {
      NeverRefusedOtherwise(s, p, tryUpdate, env, R.MAX_ATTEMPTS);
      AllRefusedGivesUp(s, p, tryUpdate, env, r1, n1, s1);
      AllRefusedGivesUp(s, p, tryUpdate, env, r2, n2, s2);
    }
  }

  lemma {:induction false} NeverRefusedOtherwise(s: Store, p: Path, tryUpdate: Option<Obj> -> Result<Obj, Fault>,
                                                 env: Env, n: nat)
    requires n <= R.MAX_ATTEMPTS
    requires forall i: nat :: i < R.MAX_ATTEMPTS && AllRefused(s, p, tryUpdate, env, i) ==>
               RefusedAt(s, p, tryUpdate, env, i)
    ensures AllRefused(s, p, tryUpdate, env, n)
  {
    if n > 0 { NeverRefusedOtherwise(s, p, tryUpdate, env, n - 1); }
  }

  lemma AllRefusedGivesUp(s: Store, p: Path, tryUpdate: Option<Obj> -> Result<Obj, Fault>, env: Env,
                          r: Persist, attempts: nat, s': Store)
    requires Guaranteed(s, p, tryUpdate, env, r, attempts, s') && AllRefused(s, p, tryUpdate, env, R.MAX_ATTEMPTS)
    ensures r.GaveUp? && attempts == R.MAX_ATTEMPTS && s' == StoreAt(s, env, attempts)
  {
    assert attempts < R.MAX_ATTEMPTS ==> RefusedAt(s, p, tryUpdate, env, attempts);
    assert 0 < attempts <= R.MAX_ATTEMPTS ==> RefusedAt(s, p, tryUpdate, env, attempts - 1);
  }

  /**
   Each refused attempt takes a write of another request to the same file, between its Get and its
   Write, that gave the file new content.
   */
  lemma RefusalNeedsChange(s: Store, p: Path, tryUpdate: Option<Obj> -> Result<Obj, Fault>, env: Env, i: nat)
    returns (k: nat)
    requires H.WellVersioned(s) && RefusedAt(s, p, tryUpdate, env, i)
    ensures k < |env.during(i)| && env.during(i)[k].OtherWrite? && env.during(i)[k].name == p
    ensures var at, op := DoAll(AtGet(s, env, i), env.during(i)[..k]), env.during(i)[k];
            WriteOutcomeOf(at, p, op.doc, op.version) == Assigned(at.rev + 1)
  {
    AttemptsKeepVersions(s, env, i);
    OthersAdvance(AtGet(s, env, i), env.during(i), p);
    k := SomeContentWrite(AtGet(s, env, i), env.during(i), p);
  }

  // ------------------------------------------------------------ what the handlers do

  /** What Create makes of the store `s`, others having acted between its check and its write. */
  ghost predicate Created(s: Store, p: Path, doc: Doc, valid: bool, gap: seq<Op>, r: Result<Obj, Fault>, s': Store) {
    var at := DoAll(s, gap);
    if !valid then r == Failure(Invalid) && s' == s
    else if p in s.files then r == Failure(AlreadyExists) && s' == s
    else if p in at.files then r == Failure(Conflict) && s' == at
    else
      && r == Success(Obj(doc, at.rev + 1))
      && s' == Store(at.files[p := Stored(at.rev + 1, Encode(doc))], at.rev + 1)
  }

  lemma CreateOutcome(s: Store, p: Path, doc: Doc, gap: seq<Op>)
    requires H.WellVersioned(s) && p !in s.files
    ensures var at := DoAll(s, gap);
            var w := WriteOutcomeOf(at, p, doc, 0);
            var r := if w == VersionError then Failure(Conflict) else Success(Stamp(Obj(doc, 0), w));
            Created(s, p, doc, true, gap, r, Stores.Write(at, p, doc, 0))
  {
    OthersAdvance(s, gap, p);
  }

  /** What Delete makes of the store `s`, others having acted between its Get and its last section. */
  ghost predicate Deleted(s: Store, p: Path, valid: bool, now: Time, gap: seq<Op>, r: Result<Obj, Fault>, s': Store) {
    var o, at := Read(s, p), DoAll(s, gap);
    if o.None? then r == Failure(NotFound) && s' == s
    else if !valid then r == Failure(Invalid) && s' == s
    else if o.value.doc.finalizers == [] then
      && s' == Stores.Remove(at, p)
      && r == if p in at.files then Success(o.value) else Failure(NotFound)
    else
      && (r.Success? <==> Read(at, p) == o)
      && (r.Failure? ==> s' == at && r.error == if p in at.files then Conflict else Gone)
      && (r.Success? ==>
            && p in s'.files && s'.files == at.files[p := s'.files[p]]
            && r.value.version == s'.files[p].version
            && r.value.doc == o.value.doc.(deletion := r.value.doc.deletion, grace := Some(0))
            && r.value.doc.deletion == (if o.value.doc.deletion.Some? && o.value.doc.deletion.value <= now
                                        then o.value.doc.deletion else Some(now))
            && s'.files[p].data == Encode(r.value.doc))
  }

  lemma MarkOutcome(s: Store, p: Path, now: Time, gap: seq<Op>)
    requires H.WellVersioned(s) && p in s.files && Decode(s.files[p].data).finalizers != []
    ensures var at, obj := DoAll(s, gap), Read(s, p).value;
            var marked := obj.(doc := MarkDeleted(obj.doc, now));
            var w := WriteOutcomeOf(at, p, marked.doc, marked.version);
            var r := if Accepted(w) then Success(Stamp(marked, w))
                     else Failure(if w == VersionError then Conflict else Gone);
            Deleted(s, p, true, now, gap, r, Stores.Write(at, p, marked.doc, marked.version))
  {
    var at, doc := DoAll(s, gap), MarkDeleted(Decode(s.files[p].data), now);
    AttemptOutcome(s, gap, p, doc);
    if p in at.files { assert at.files == at.files[p := at.files[p]]; }
  }

  /**
   The change was made to what was stored under the name in `at`: the caller proposed it at the stored
   version, and the store holds what was proposed, but for what an endpoint may not touch.
   */
  ghost predicate StoresChange(at: Store, p: Path, ep: Endpoint, propose: Obj -> Option<Obj>, obj: Obj, after: Store) {
    && p in at.files
    && var stored := Obj(Decode(at.files[p].data), at.files[p].version);
       && propose(stored).Some? && propose(stored).value.version == stored.version
       && var d, proposed := stored.doc, propose(stored).value.doc;
          && obj.doc == (if ep.Status? then d.(status := proposed.status)
                         else proposed.(identity := d.identity, deletion := d.deletion, grace := d.grace,
                                        status := d.status))
          && (ep.Main? ==> MayReplace(proposed, d))
          && obj.version == (if at.files[p].data == Encode(obj.doc) then stored.version else at.rev + 1)
          && after.files == at.files[p := Stored(obj.version, Encode(obj.doc))]
  }

  lemma PersistedIsStored(s: Store, p: Path, ep: Endpoint, propose: Obj -> Option<Obj>, env: Env,
                          r: Persist, attempts: nat, after: Store)
    requires Guaranteed(s, p, Closure(ep, propose), env, r, attempts, after)
    ensures r.Persisted? ==> attempts > 0 && StoresChange(AtWrite(s, env, attempts - 1), p, ep, propose, r.obj, after)
  {
    if r.Persisted? {
      var at := AtWrite(s, env, attempts - 1);
      assert AppliedTo(at, p, Closure(ep, propose), r.obj, after);
      if p in at.files {
        ChangesAreJudged(ep, propose, Read(at, p).value);
        assert at.files == at.files[p := at.files[p]];
      }
    }
  }

  // Attempt `i` reads an object, and the caller proposes a change to another version of it.
  ghost predicate StaleAt(s: Store, p: Path, ep: Endpoint, propose: Obj -> Option<Obj>, env: Env, i: nat) {
    && i < R.MAX_ATTEMPTS && AllRefused(s, p, Closure(ep, propose), env, i) && !env.cancelled(i)
    && p in AtGet(s, env, i).files
    && var stored := Read(AtGet(s, env, i), p).value;
       propose(stored).Some? && propose(stored).value.version != stored.version
  }

  /** A change to another version than the stored one is a conflict, and stores nothing. */
  lemma StaleIsRefused(s: Store, p: Path, ep: Endpoint, propose: Obj -> Option<Obj>, env: Env, i: nat,
                       r: Persist, attempts: nat, s': Store)
    requires Guaranteed(s, p, Closure(ep, propose), env, r, attempts, s') && StaleAt(s, p, ep, propose, env, i)
    ensures r == Abandoned(Conflict) && attempts == i + 1 && s' == AtGet(s, env, i)
  {
    ChangesAreJudged(ep, propose, Read(AtGet(s, env, i), p).value);
    LastAttempt(s, p, Closure(ep, propose), env, i, r, attempts, s');
  }

  /** What Update makes of the store `after` its retry loop, and what it returns and announces */
  ghost predicate Updated(after: Store, p: Path, done: Persist, gap: seq<Op>,
                          r: Result<Obj, Fault>, ev: Option<R.Event>, s': Store) {
    match done
    case GaveUp => r == Failure(Exhausted) && ev == None && s' == after
    case Abandoned(fault) => r == Failure(fault) && ev == None && s' == after
    case Persisted(obj) =>
      if obj.doc.finalizers != [] || obj.doc.deletion.None? then
        r == Success(obj) && ev == Some(R.Event(R.Modified, p, obj)) && s' == after
      else
        && s' == Stores.Remove(DoAll(after, gap), p)
        && (if p in DoAll(after, gap).files then r == Success(obj) && ev == Some(R.Event(R.Deleted, p, obj))
            else r == Failure(NotFound) && ev == None)
  }

  // ------------------------------------------------------------ listing

  lemma DifferentIsNewer(s: Store, gap: seq<Op>)
    requires H.WellVersioned(s)
    ensures forall p :: p in DoAll(s, gap).files && Read(DoAll(s, gap), p) != Read(s, p) ==>
              DoAll(s, gap).files[p].version > s.rev
  {
    forall p | p in DoAll(s, gap).files && Read(DoAll(s, gap), p) != Read(s, p)
      ensures DoAll(s, gap).files[p].version > s.rev
    {
      OthersAdvance(s, gap, p);
    }
  }

  ghost predicate OneEach(items: seq<(Path, Obj)>) {
    forall i, j :: 0 <= i < j < |items| ==> items[i].0 != items[j].0
  }

  /** Exactly the stored objects below the directory that match, each once. */
  ghost predicate IsListing(s: Store, d: Path, sel: Selector, items: seq<(Path, Obj)>) {
    OneEach(items) &&
    forall p, o :: (p, o) in items <==> JsonBelow(d, p) && Read(s, p) == Some(o) && sel(p, o.doc.labels)
  }

  // The same, so far only for the files visited
  ghost predicate IsPartialListing(s: Store, sel: Selector, visited: seq<Path>, items: seq<(Path, Obj)>) {
    OneEach(items) && forall p, o :: (p, o) in items <==> p in visited && Read(s, p) == Some(o) && sel(p, o.doc.labels)
  }

  /** The visitor of List: decodes each buffer and keeps what matches. */
  method Collect(sel: Selector, paths: seq<Path>, buffers: seq<Stored>, ghost d: Path, ghost s: Store)
    returns (items: seq<(Path, Obj)>)
    requires H.WellVersioned(s) && ExactWalk(s.files, d, paths, buffers)
    ensures IsListing(s, d, sel, items)
    ensures forall i :: 0 <= i < |items| ==> items[i].1.version <= s.rev
  {
    items := [];
    var i := 0;
    while i < |paths|
      invariant 0 <= i <= |paths| && |buffers| == |paths|
      invariant IsPartialListing(s, sel, paths[..i], items)
    {
      var obj := Obj(Decode(buffers[i].data), buffers[i].version);
      ListingGrows(s, sel, paths, i, items, obj);
      if sel(paths[i], obj.doc.labels) {
        items := items + [(paths[i], obj)];
      }
      i := i + 1;
    }
    assert paths[..|paths|] == paths;
    forall k | 0 <= k < |items| ensures items[k].1.version <= s.rev {
      assert (items[k].0, items[k].1) in items;
    }
  }

  lemma ListingGrows(s: Store, sel: Selector, paths: seq<Path>, i: nat, items: seq<(Path, Obj)>, obj: Obj)
    requires i < |paths| && Distinct(paths) && IsPartialListing(s, sel, paths[..i], items)
    requires Read(s, paths[i]) == Some(obj)
    ensures IsPartialListing(s, sel, paths[..i + 1],
                             if sel(paths[i], obj.doc.labels) then items + [(paths[i], obj)] else items)
  {
    var p := paths[i];
    assert paths[..i + 1] == paths[..i] + [p];
    forall j | 0 <= j < |items| ensures items[j].0 != p {
      assert (items[j].0, items[j].1) in items;
    }
  }

  // ------------------------------------------------------------ registration

  /**
   WithResourceMemoryStorage: the main and the status endpoint of a resource are set up on the file
   system that all resources of the server share, whatever has been stored on it.
   */
  method Register(fs: MemFS, ghost resources: set<Resource>, res: Resource)
    returns (main: FilepathREST, status: FilepathREST)
    requires fs.Valid() && Separate(resources) && res in resources
    requires Within(fs.View(), ServerLayout(resources)) && H.WellVersioned(Flat(fs.View()))
    modifies fs, fs.repr
    ensures main.fs == status.fs == fs && main.root == status.root == res.root
    ensures main.layout == status.layout == ServerLayout(resources)
    ensures main.Valid() && status.Valid() && main.TheStore() == old(Flat(fs.View()))
  {
    ghost var layout := ServerLayout(resources);
    ServerIsDisciplined(resources);
    RootIsUsed(resources, res);
    EnsureDirRefines(fs.View(), layout, res.root);
    main := new FilepathREST(fs, res.root, res.namespaced, layout);
    EnsureDirRefines(fs.View(), layout, res.root);
    status := new FilepathREST(fs, res.root, res.namespaced, layout);
  }
}
