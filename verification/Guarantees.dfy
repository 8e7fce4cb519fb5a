/** What the request protocol promises over every interleaved run. */
module Guarantees {
  import opened Wrappers
  import opened Objects
  import opened Paths
  import opened Stores
  import opened History
  import opened Requests

  /**
   Every interleaving of creates, updates through either endpoint, deletes and collection deletes
   has a history of atomic reads-and-writes that yields the store.
   */
  lemma EveryRunIsSerializable(acts: seq<Action>)
    ensures LegalLog(Run(acts).log)
    ensures Run(acts).store == At(Run(acts).log, |Run(acts).log|)
  {
    ReachableInv(acts);
  }

  /**
   Every outcome is true at an instant between the call's beginning and its end: success means that
   this very call made the entry; NotFound, that the object was absent (again absent, if the call had
   written it before); AlreadyExists, that it was stored; a conflict, that it was stored at another
   version, or moved on after it was read; and every refused call has left no entry at all.
   */
  lemma EveryOutcomeIsTrue(acts: seq<Action>, r: nat)
    requires r < |Run(acts).reqs| && Run(acts).reqs[r].Done?
    ensures var log, Done(name, began, ended, outcome) := Run(acts).log, Run(acts).reqs[r];
            && began <= ended <= |log|
            && match outcome
               case Succeeded(kind, obj) =>
                 exists k :: began <= k < ended && DoneAt(log, began, k, r, Event(kind, name, obj))
               case NotFound => exists i :: began <= i <= ended && name !in At(log, i).files
               case Vanished(obj) =>
                 && (exists k :: began <= k < ended && DoneAt(log, began, k, r, Event(Modified, name, obj)))
                 && (exists i :: began <= i <= ended && name !in At(log, i).files)
               case AlreadyExists => exists i :: began <= i <= ended && name in At(log, i).files
               case Stale(version) =>
                 exists i :: began <= i <= ended
                             && name in At(log, i).files && At(log, i).files[name].version != version
               case Overtaken(version) =>
                 exists i, j :: began <= i <= j <= ended && VersionAt(log, i, name) == version
                                && VersionAt(log, j, name) !in {0, version}
               case Gone => exists i :: began <= i <= ended && name !in At(log, i).files
               case Failed => true
               case Exhausted => Changes(log, began, ended, name) >= 100
    ensures var log, Done(name, began, ended, outcome) := Run(acts).log, Run(acts).reqs[r];
            !outcome.Succeeded? && !outcome.Vanished? ==> forall k :: began <= k < |log| ==> log[k].author != Caller(r)
  {
    ReachableInv(acts);
    var log := Run(acts).log;
    var Done(name, began, ended, outcome) := Run(acts).reqs[r];
    assert ReqOk(log, r, Run(acts).reqs[r]);
    match outcome
    case NotFound => AbsentInstant(log, began, ended, name);
    case Vanished(_) => AbsentInstant(log, began, ended, name);
    case Gone => AbsentInstant(log, began, ended, name);
    case AlreadyExists => StoredInstant(log, began, ended, name, 0);
    case Stale(version) => StoredInstant(log, began, ended, name, version);
    case Overtaken(version) =>
      var i :| began <= i <= ended && VersionAt(log, i, name) == version && StoredDuring(log, i, ended, name, version);
      var j :| i <= j <= ended && VersionAt(log, j, name) !in {0, version};
    case _ =>
  }

  lemma AbsentInstant(log: Log, began: nat, ended: nat, name: Path)
    requires LegalLog(log) && ended <= |log| && AbsentDuring(log, began, ended, name)
    ensures exists i :: began <= i <= ended && name !in At(log, i).files
  {
    var i :| began <= i <= ended && VersionAt(log, i, name) == 0;
    VersionsInRange(log, i);
    assert name !in At(log, i).files;
  }

  lemma StoredInstant(log: Log, began: nat, ended: nat, name: Path, other: nat)
    requires ended <= |log| && StoredDuring(log, began, ended, name, other)
    ensures exists i :: began <= i <= ended && name in At(log, i).files && At(log, i).files[name].version != other
  {
    var i :| began <= i <= ended && VersionAt(log, i, name) !in {0, other};
    assert name in At(log, i).files;
  }

  lemma StepExtendsLog(c: Core, a: Action)
    ensures c.log <= Step(c, a).log && |c.reqs| <= |Step(c, a).reqs|
  {
  }

  lemma {:induction false} RunsExtendLogs(acts: seq<Action>, more: seq<Action>)
    ensures Run(acts).log <= Run(acts + more).log
  {
    if more == [] {
      assert acts + more == acts;
    } else {
      RunsExtendLogs(acts, more[..|more| - 1]);
      assert (acts + more)[..|acts + more| - 1] == acts + more[..|more| - 1];
      StepExtendsLog(Run(acts + more[..|more| - 1]), more[|more| - 1]);
    }
  }

  // ------------------------------------------------------------ guaranteed update

  /**
   An attempt whose proposal passes validation and carries the version it was given is accepted exactly when the store
   holds, at the Write, the very object that was given to tryUpdate. Then the whole call equals one
   atomic application to the current state, and the caller's object carries the stored version.
   */
  lemma UpdateIsAtomicReadModifyWrite(acts: seq<Action>, r: nat, proposed: Obj)
    requires ReqAt(Run(acts), r).UpdateGot? && Run(acts).reqs[r].input.Some?
    requires proposed.version == Run(acts).reqs[r].input.value.version
    requires BeforeUpdate(Run(acts).reqs[r].ep, proposed, Run(acts).reqs[r].input.value).Some?
    ensures var c, c' := Run(acts), Step(Run(acts), UpdateTry(r, Some(proposed)));
            var q := c.reqs[r];
            var out := BeforeUpdate(q.ep, proposed, q.input.value).value;
            && (c'.log != c.log <==> Read(c.store, q.name) == q.input)
            && (c'.log == c.log ==> c'.store == c.store)
            && (c'.log != c.log ==>
                  && c'.store.files == c.store.files[q.name := c'.store.files[q.name]]
                  && c'.store.files[q.name].data == Encode(out.doc)
                  && (c'.reqs[r].OwesRemove? || c'.reqs[r].Notify?)
                  && var obj := if c'.reqs[r].OwesRemove? then c'.reqs[r].obj else c'.reqs[r].ev.obj;
                     obj == out.(version := c'.store.files[q.name].version))
  {
    var c, q := Run(acts), Run(acts).reqs[r];
    var out := BeforeUpdate(q.ep, proposed, q.input.value).value;
    ReachableInv(acts);
    AcceptedIffUntouched(c, r, out.doc);
    AcceptedEffect(c.store, q.name, out, q.input.value.version);
  }

  // Write accepts the version read by an attempt exactly when the object is still the one it read.
  lemma AcceptedIffUntouched(c: Core, r: nat, doc: Doc)
    requires Inv(c) && ReqAt(c, r).UpdateGot? && c.reqs[r].input.Some?
    ensures var q := c.reqs[r];
            WriteOutcomeOf(c.store, q.name, doc, q.input.value.version) !in {VersionError, NotExist}
            <==> Read(c.store, q.name) == q.input
  {
    var q := c.reqs[r];
    assert ReqOk(c.log, r, q);
    VersionsInRange(c.log, q.since);
    if q.name in c.store.files && c.store.files[q.name].version == q.input.value.version {
      SameVersionUntouched(c.log, q.since, |c.log|, q.name);
    }
  }

  // An accepted write changes one name, to the bytes and under the version that its caller is told.
  lemma AcceptedEffect(s: Store, name: Path, out: Obj, version: nat)
    requires out.version == version
    ensures var w := WriteOutcomeOf(s, name, out.doc, version);
            w !in {VersionError, NotExist} ==>
              && name in Write(s, name, out.doc, version).files
              && Write(s, name, out.doc, version).files
                 == s.files[name := Stored(Stamp(out, w).version, Encode(out.doc))]
  {
    if name in s.files { assert s.files == s.files[name := s.files[name]]; }
  }

  /**
   Every retry is caused by another request's content-changing write to the same object between
   this attempt's Get and its Write; an undisturbed attempt never retries.
   */
  lemma RetryIsCausedByAnother(acts: seq<Action>, r: nat, proposed: Option<Obj>) returns (k: nat)
    requires ReqAt(Run(acts), r).UpdateGot?
    requires var q := Step(Run(acts), UpdateTry(r, proposed)).reqs[r];
             q.UpdateTop? || (q.Done? && q.outcome.Exhausted?)
    ensures var c := Run(acts);
            && c.reqs[r].since <= k < |c.log|
            && IsChange(c.log[k]) && c.log[k].name == c.reqs[r].name && c.log[k].author != Caller(r)
  {
    var c := Run(acts);
    ReachableInv(acts);
    assert ReqOk(c.log, r, c.reqs[r]);
    ConflictMeansChange(c, r, BeforeUpdate(c.reqs[r].ep, proposed.value, c.reqs[r].input.value).value.doc);
    k := SomeChange(c.log, c.reqs[r].since, |c.log|, c.reqs[r].name);
  }

  // The changes counted are that many entries of the history.
  lemma {:induction false} ChangesAreEntries(log: Log, lo: nat, hi: nat, name: Path) returns (ks: seq<nat>)
    requires lo <= hi <= |log|
    ensures |ks| == Changes(log, lo, hi, name)
    ensures forall i :: 0 <= i < |ks| ==> lo <= ks[i] < hi && IsChange(log[ks[i]]) && log[ks[i]].name == name
    ensures forall i, j :: 0 <= i < j < |ks| ==> ks[i] < ks[j]
    decreases hi
  {
    if lo == hi {
      ks := [];
    } else {
      ks := ChangesAreEntries(log, lo, hi - 1, name);
      if IsChange(log[hi - 1]) && log[hi - 1].name == name { ks := ks + [hi - 1]; }
    }
  }

  /** Giving up means that at least one hundred other writes changed the object during the call. */
  lemma ExhaustionMeansHundredChanges(acts: seq<Action>, r: nat) returns (ks: seq<nat>)
    requires r < |Run(acts).reqs| && Run(acts).reqs[r].Done? && Run(acts).reqs[r].outcome.Exhausted?
    ensures var c, o := Run(acts), Run(acts).reqs[r];
            && o.began <= o.ended <= |c.log|
            && |ks| >= 100 && (forall i, j :: 0 <= i < j < |ks| ==> ks[i] < ks[j])
            && forall i :: 0 <= i < |ks| ==>
                 && o.began <= ks[i] < o.ended && IsChange(c.log[ks[i]])
                 && c.log[ks[i]].name == o.name && c.log[ks[i]].author != Caller(r)
  {
    ReachableInv(acts);
    var c, o := Run(acts), Run(acts).reqs[r];
    assert ReqOk(c.log, r, o);
    ks := ChangesAreEntries(c.log, o.began, o.ended, o.name);
  }

  /**
   An attempt that finds the object changed goes round again, with the same request and nothing
   stored, up to the hundredth.
   */
  lemma ConflictGoesRoundAgain(c: Core, r: nat, proposed: Obj)
    requires ReqAt(c, r).UpdateGot? && c.reqs[r].input.Some?
    requires var q := c.reqs[r];
             && proposed.version == q.input.value.version
             && (q.ep.Status? || MayReplace(proposed.doc, q.input.value.doc))
             && q.name in c.store.files && c.store.files[q.name].version != q.input.value.version
    ensures var q, c' := c.reqs[r], Step(c, UpdateTry(r, Some(proposed)));
            && c'.store == c.store && c'.log == c.log
            && c'.reqs[r] == if q.attempt < 99 then UpdateTop(q.name, q.began, q.ep, q.attempt + 1)
                             else Done(q.name, q.began, |c.log|, Exhausted)
  {
  }

  /**
   A writer that read the object before it was deleted is refused, even if the object has been
   re-created with the very same content: its attempt leaves the store as it is.
   */
  lemma WriterFromBeforeDeleteIsRefused(acts: seq<Action>, r: nat, proposed: Option<Obj>, k: nat)
    requires ReqAt(Run(acts), r).UpdateGot?
    requires Run(acts).reqs[r].since <= k < |Run(acts).log|
    requires Run(acts).log[k] == Removed(Run(acts).log[k].author, Run(acts).reqs[r].name)
    ensures Step(Run(acts), UpdateTry(r, proposed)).store == Run(acts).store
  {
    var c, q := Run(acts), Run(acts).reqs[r];
    ReachableInv(acts);
    assert ReqOk(c.log, r, q);
    if q.input.Some? && proposed.Some? && BeforeUpdate(q.ep, proposed.value, q.input.value).Some? {
      NoZombieWrites(c.log, q.since, k, |c.log|, q.name, BeforeUpdate(q.ep, proposed.value, q.input.value).value.doc);
    }
  }

  /**
   A notification says what its request did: Added for an object it created, Modified for one it
   wrote, at the version and with the bytes recorded; Deleted only after it removed the object, which
   had been stored, as the event shows it, at an instant inside the call.
   */
  lemma NotificationsAreTrue(acts: seq<Action>, r: nat)
    requires ReqAt(Run(acts), r).Notify?
    ensures var log, Notify(began, ev) := Run(acts).log, Run(acts).reqs[r];
            exists k :: began <= k < |log| && log[k].author == Caller(r) && log[k].name == ev.name
                        && if ev.kind == Deleted then log[k].Removed? && SeenDuring(log, began, k, ev.name, ev.obj)
                           else IsRecord(log[k], ev.name, ev.obj, ev.kind == Added)
  {
    ReachableInv(acts);
    var log := Run(acts).log;
    var Notify(began, ev) := Run(acts).reqs[r];
    assert ReqOk(log, r, Run(acts).reqs[r]);
    var k :| began <= k < |log| && DoneAt(log, began, k, r, ev);
  }

  // ------------------------------------------------------------ two-phase delete

  /**
   In every state of every run, an object marked for deletion with no finalizers left has an
   update in flight that wrote its version and still owes the Remove, or it is exactly as a create
   stored it whose own object was already marked and without finalizers.
   */
  lemma StrandedOnlyByCreate(acts: seq<Action>, name: Path)
    requires name in Run(acts).store.files
    requires var d := Decode(Run(acts).store.files[name].data); d.finalizers == [] && d.deletion.Some?
    ensures var c := Run(acts);
            || Owed(c.reqs, name, c.store.files[name].version)
            || exists k :: 0 <= k < |c.log| && IsCreateOf(c.log[k], name, c.store.files[name].version)
                           && c.log[k].proposed.doc.finalizers == [] && c.log[k].proposed.doc.deletion.Some?
  {
    ReachableInv(acts);
    var c := Run(acts);
    assert DoomedIn(c.store, name);
    if !Owed(c.reqs, name, c.store.files[name].version) {
      var k :| 0 <= k < |c.log| && IsCreateOf(c.log[k], name, c.store.files[name].version);
      CreatedAsStored(c.log, name, k);
    }
  }

  // The create that assigned the stored version stored what is there.
  lemma CreatedAsStored(log: Log, name: Path, k: nat)
    requires LegalLog(log) && name in At(log, |log|).files && k < |log|
    requires IsCreateOf(log[k], name, At(log, |log|).files[name].version)
    ensures At(log, |log|).files[name].data == Encode(log[k].proposed.doc)
  {
    assert LegalAt(log, k);
    var j := StoredWasWritten(log, |log|, name);
    if k < j { VersionsNeverReused(log, k, j); }
  }

  // Every create of the run proposes one of `docs`.
  ghost predicate CreatesFrom(acts: seq<Action>, docs: iset<Doc>) {
    forall i :: 0 <= i < |acts| && acts[i].BeginCreate? ==> acts[i].doc in docs
  }

  predicate IsCreating(q: Req) {
    q.CreateStart? || q.CreateChecked?
  }

  ghost predicate CreatingFrom(c: Core, docs: iset<Doc>) {
    && (forall r :: 0 <= r < |c.reqs| && IsCreating(c.reqs[r]) ==> c.reqs[r].doc in docs)
    && (forall k :: 0 <= k < |c.log| && c.log[k].Wrote? && c.log[k].kind.ByCreate? ==> c.log[k].proposed.doc in docs)
  }

  // A new entry of a create carries the object of its request.
  lemma CreateEntryIsFrom(c: Core, a: Action)
    ensures var c' := Step(c, a);
            |c'.log| > |c.log| && c'.log[|c.log|].Wrote? && c'.log[|c.log|].kind.ByCreate? ==>
              a.CreateWrite? && ReqAt(c, a.r).CreateChecked? && c'.log[|c.log|].proposed.doc == c.reqs[a.r].doc
    ensures |Step(c, a).log| <= |c.log| + 1
  {
  }

  // A create under way carries the object it began with.
  lemma CreateReqIsFrom(c: Core, a: Action, r: nat)
    requires IsCreating(ReqAt(Step(c, a), r))
    ensures (a.BeginCreate? && Step(c, a).reqs[r].doc == a.doc)
         || (IsCreating(ReqAt(c, r)) && Step(c, a).reqs[r].doc == c.reqs[r].doc)
  {
  }

  lemma StepKeepsCreating(c: Core, a: Action, docs: iset<Doc>)
    requires CreatingFrom(c, docs) && (a.BeginCreate? ==> a.doc in docs)
    ensures CreatingFrom(Step(c, a), docs)
  {
    StepExtendsLog(c, a);
    CreateEntryIsFrom(c, a);
    forall r | 0 <= r < |Step(c, a).reqs| && IsCreating(Step(c, a).reqs[r]) ensures Step(c, a).reqs[r].doc in docs {
      CreateReqIsFrom(c, a, r);
    }
  }

  lemma {:induction false} RunKeepsCreating(acts: seq<Action>, docs: iset<Doc>)
    requires CreatesFrom(acts, docs)
    ensures CreatingFrom(Run(acts), docs)
  {
    if acts != [] {
      RunKeepsCreating(acts[..|acts| - 1], docs);
      StepKeepsCreating(Run(acts[..|acts| - 1]), acts[|acts| - 1], docs);
    }
  }

  /**
   If no create proposes an object that is marked for deletion and has no finalizers, then in every
   state of the run each such object that is stored has an update in flight that wrote its version
   and still owes the Remove; when no request is in flight none is stored.
   */
  lemma NoObjectIsStranded(acts: seq<Action>, name: Path)
    requires CreatesFrom(acts, iset d: Doc | !(d.finalizers == [] && d.deletion.Some?))
    requires name in Run(acts).store.files
    requires var d := Decode(Run(acts).store.files[name].data); d.finalizers == [] && d.deletion.Some?
    ensures exists r :: 0 <= r < |Run(acts).reqs| && Owes(Run(acts).reqs[r], name, Run(acts).store.files[name].version)
    ensures !(forall r :: 0 <= r < |Run(acts).reqs| ==> Run(acts).reqs[r].Done?)
  {
    StrandedOnlyByCreate(acts, name);
    RunKeepsCreating(acts, iset d: Doc | !(d.finalizers == [] && d.deletion.Some?));
    assert Owed(Run(acts).reqs, name, Run(acts).store.files[name].version);
  }

  lemma RunStep(acts: seq<Action>, k: nat)
    requires k < |acts|
    ensures Run(acts[..k + 1]) == Step(Run(acts[..k]), acts[k])
  {
    assert acts[..k + 1][..k] == acts[..k];
  }

  // A create from start to end, with nothing else going on
  function CreateAlone(name: Path, doc: Doc): seq<Action> {
    [BeginCreate(name, doc), CheckExists(0), CreateWrite(0), NotifyDone(0)]
  }

  /** A create of such an object strands it: the call has returned and nobody owes the Remove. */
  lemma DoomedCreateIsStranded(name: Path, doc: Doc)
    requires doc.finalizers == [] && doc.deletion.Some?
    ensures var c := Run(CreateAlone(name, doc));
            && name in c.store.files && c.store.files[name].data == Encode(doc)
            && (forall r :: 0 <= r < |c.reqs| ==> c.reqs[r].Done?)
            && !NoneStranded(c)
  {
    var acts := CreateAlone(name, doc);
    RunStep(acts, 0); RunStep(acts, 1); RunStep(acts, 2); RunStep(acts, 3);
    assert acts[..4] == acts && name in Run(acts).store.files;
  }

  /** Objects are never stranded, in any run whose creates propose `docs`, iff none of `docs` is doomed. */
  lemma NeverStrandedIff(docs: iset<Doc>)
    ensures (forall acts :: CreatesFrom(acts, docs) ==> NoneStranded(Run(acts)))
            <==> forall d :: d in docs ==> !(d.finalizers == [] && d.deletion.Some?)
  {
    if d :| d in docs && d.finalizers == [] && d.deletion.Some? {
      DoomedCreateIsStranded([], d);
      assert CreatesFrom(CreateAlone([], d), docs);
    } else {
      forall acts | CreatesFrom(acts, docs) ensures NoneStranded(Run(acts)) {
        assert CreatesFrom(acts, iset d: Doc | !(d.finalizers == [] && d.deletion.Some?));
        forall n | n in Run(acts).store.files && Decode(Run(acts).store.files[n].data).finalizers == []
                   && Decode(Run(acts).store.files[n].data).deletion.Some?
          ensures Owed(Run(acts).reqs, n, Run(acts).store.files[n].version)
        {
          NoObjectIsStranded(acts, n);
        }
      }
    }
  }

  // No write was told a version beyond the current revision.
  lemma RecordedVersionsInRange(log: Log, k: nat)
    requires LegalLog(log) && k < |log| && log[k].Wrote?
    ensures log[k].version <= At(log, |log|).rev
  {
    assert LegalAt(log, k);
    VersionsInRange(log, k);
    RevNeverFalls(log, k + 1, |log|);
  }

  /**
   One accepted create: from a state where no object is stranded it leads to another such state if
   and only if the object proposed is not both marked for deletion and without finalizers.
   */
  lemma CreateStrandsIff(c: Core, r: nat)
    requires Inv(c) && NoneStranded(c)
    requires ReqAt(c, r).CreateChecked? && c.reqs[r].name !in c.store.files
    ensures NoneStranded(Step(c, CreateWrite(r)))
            <==> !(c.reqs[r].doc.finalizers == [] && c.reqs[r].doc.deletion.Some?)
  {
    var q, c' := c.reqs[r], Step(c, CreateWrite(r));
    if q.doc.finalizers == [] && q.doc.deletion.Some? {
      assert q.name in c'.store.files && c'.store.files[q.name].data == Encode(q.doc);
      if k :| 0 <= k < |c'.reqs| && Owes(c'.reqs[k], q.name, c.store.rev + 1) {
        assert ReqOk(c.log, k, c.reqs[k]);
        RecordedVersionsInRange(c.log, c.reqs[k].wrote);
      }
    } else {
      forall n | n in c'.store.files && Decode(c'.store.files[n].data).finalizers == []
                 && Decode(c'.store.files[n].data).deletion.Some?
        ensures Owed(c'.reqs, n, c'.store.files[n].version)
      {
        assert n != q.name;
        var k :| 0 <= k < |c.reqs| && Owes(c.reqs[k], n, c.store.files[n].version);
        assert Owes(c'.reqs[k], n, c.store.files[n].version);
      }
    }
  }

  // ------------------------------------------------------------ removal and finalizers

  // A request about to remove an object that it read, or wrote, without finalizers
  predicate AboutToRemove(q: Req) {
    q.OwesRemove? || (q.DeleteGot? && q.obj.doc.finalizers == [])
  }

  // Where the history stood right after the request last saw the object
  function LastSeen(q: Req): nat
    requires AboutToRemove(q)
  {
    if q.OwesRemove? then q.wrote + 1 else q.since
  }

  lemma SeenWithoutFinalizers(c: Core, r: nat)
    requires Inv(c) && r < |c.reqs| && AboutToRemove(c.reqs[r])
    ensures LastSeen(c.reqs[r]) <= |c.log|
    ensures var q := c.reqs[r];
            var o := Read(At(c.log, LastSeen(q)), q.name);
            o.Some? && o.value.doc.finalizers == [] && (o.value.doc.deletion.Some? <==> q.obj.doc.deletion.Some?)
  {
    assert ReqOk(c.log, r, c.reqs[r]);
    if c.reqs[r].OwesRemove? { WrittenIsStored(c.log, c.reqs[r].wrote); }
  }

  /**
   Finalizers of an object marked for deletion only drain. So a Remove of an object that was marked
   when it was last seen, such as every Remove that an Update owes, takes no finalizers unless
   another removal came in between.
   */
  lemma MarkedRemoveTakesNoFinalizers(c: Core, r: nat)
    requires Inv(c) && r < |c.reqs| && AboutToRemove(c.reqs[r]) && c.reqs[r].obj.doc.deletion.Some?
    requires Kept(c.log, LastSeen(c.reqs[r]), |c.log|, c.reqs[r].name)
    ensures c.reqs[r].name in c.store.files
    ensures Decode(c.store.files[c.reqs[r].name].data).finalizers == []
  {
    var q := c.reqs[r];
    SeenWithoutFinalizers(c, r);
    DeletionTimeOnlyMovesEarlier(c.log, LastSeen(q), |c.log|, q.name);
    SomeFinalizer(Decode(c.store.files[q.name].data));
  }

  lemma SomeFinalizer(d: Doc)
    ensures d.finalizers != [] ==> exists f :: f in d.finalizers
  {
    if d.finalizers != [] { assert d.finalizers[0] in d.finalizers; }
  }

  /**
   Remove is unconditional. It takes an object with finalizers only if another request changed the
   object after this one had read or written it, and, where it was seen marked for deletion, only if
   the object was removed meanwhile.
   */
  lemma FinalizersNeedARace(acts: seq<Action>, r: nat) returns (k: nat)
    requires r < |Run(acts).reqs| && AboutToRemove(Run(acts).reqs[r])
    requires TakesFinalizers(Run(acts), Run(acts).reqs[r].name)
    ensures var c, q := Run(acts), Run(acts).reqs[r];
            && LastSeen(q) <= k < |c.log| && IsChange(c.log[k]) && c.log[k].name == q.name
            && c.log[k].author != Caller(r)
            && (q.obj.doc.deletion.Some? ==> !Kept(c.log, LastSeen(q), |c.log|, q.name))
  {
    ReachableInv(acts);
    var c, q := Run(acts), Run(acts).reqs[r];
    assert ReqOk(c.log, r, q);
    k := StoredWasWritten(c.log, |c.log|, q.name);
    SeenWithoutFinalizers(c, r);
    if k < LastSeen(q) { QuietKeeps(c.log, LastSeen(q), |c.log|, q.name); }
    if q.obj.doc.deletion.Some? && Kept(c.log, LastSeen(q), |c.log|, q.name) {
      MarkedRemoveTakesNoFinalizers(c, r);
    }
  }

  // A Remove of the name would take an object that has finalizers.
  predicate TakesFinalizers(c: Core, name: Path) {
    name in c.store.files && Decode(c.store.files[name].data).finalizers != []
  }

  // The request still has its Remove before it, and nobody else has removed the object since it was seen.
  ghost predicate StillWaits(c: Core, r: nat, q: Req)
    requires AboutToRemove(q)
  {
    r < |c.reqs| && c.reqs[r] == q && Kept(c.log, LastSeen(q), |c.log|, q.name)
  }

  // However the run goes on, the Remove takes no finalizers.
  ghost predicate FinalizersAreSafe(c: Core, r: nat)
    requires r < |c.reqs| && AboutToRemove(c.reqs[r])
  {
    forall more :: StillWaits(RunFrom(c, more), r, c.reqs[r]) ==> !TakesFinalizers(RunFrom(c, more), c.reqs[r].name)
  }

  /**
   The exact condition, on the object in hand: right after a request has read (or written) an object
   that it is going to remove, no continuation without another removal lets that Remove take
   finalizers, if and only if the object is marked for deletion.
   */
  lemma FinalizersAreSafeIff(c: Core, r: nat)
    requires Inv(c) && r < |c.reqs| && AboutToRemove(c.reqs[r]) && LastSeen(c.reqs[r]) == |c.log|
    ensures FinalizersAreSafe(c, r) <==> c.reqs[r].obj.doc.deletion.Some?
  {
    var q := c.reqs[r];
    assert ReqOk(c.log, r, q);
    if q.obj.doc.deletion.Some? {
      forall more | StillWaits(RunFrom(c, more), r, q) ensures !TakesFinalizers(RunFrom(c, more), q.name) {
        RunFromKeepsInv(c, more);
        MarkedRemoveTakesNoFinalizers(RunFrom(c, more), r);
      }
    } else {
      var more := FinalizerAdded(c, r, "finalizer");
      assert StillWaits(RunFrom(c, more), r, q) && TakesFinalizers(RunFrom(c, more), q.name);
    }
  }

  // After a Delete has read an unmarked object, an update gives it a finalizer.
  lemma FinalizerAdded(c: Core, r: nat, finalizer: string) returns (more: seq<Action>)
    requires Inv(c) && r < |c.reqs| && c.reqs[r].DeleteGot? && AboutToRemove(c.reqs[r])
    requires LastSeen(c.reqs[r]) == |c.log| && c.reqs[r].obj.doc.deletion.None?
    ensures StillWaits(RunFrom(c, more), r, c.reqs[r]) && TakesFinalizers(RunFrom(c, more), c.reqs[r].name)
  {
    var q := c.reqs[r];
    assert ReqOk(c.log, r, q);
    var proposed := q.obj.(doc := q.obj.doc.(finalizers := [finalizer]));
    more := [BeginUpdate(Main, q.name), UpdateGet(|c.reqs|), UpdateTry(|c.reqs|, Some(proposed))];
    assert RunFrom(c, more) == UpdateAlone(c, Main, q.name, proposed) by { ThreeSteps(c, more[0], more[1], more[2]); }
    UpdateAloneStores(c, Main, q.name, proposed);
  }

  lemma ThreeSteps(c: Core, a1: Action, a2: Action, a3: Action)
    ensures RunFrom(c, [a1, a2, a3]) == Step(Step(Step(c, a1), a2), a3)
  {
    assert [a1, a2, a3][..2] == [a1, a2] && [a1, a2][..1] == [a1] && [a1][..0] == [];
    assert RunFrom(c, [a1]) == Step(c, a1);
    assert RunFrom(c, [a1, a2]) == Step(Step(c, a1), a2);
  }

  /**
   Without that proviso nothing is safe: whatever a request is going to remove, another removal and a
   re-create can put an object with a finalizer in its way.
   */
  lemma RecreatedObjectIsExposed(c: Core, r: nat, doc: Doc)
    requires r < |c.reqs| && AboutToRemove(c.reqs[r]) && doc.finalizers != []
    ensures var name := c.reqs[r].name;
            var c1 := Step(Step(c, CollectionRemove(name)), BeginCreate(name, doc));
            var c2 := Step(Step(c1, CheckExists(|c.reqs|)), CreateWrite(|c.reqs|));
            r < |c2.reqs| && c2.reqs[r] == c.reqs[r] && TakesFinalizers(c2, name)
  {
    var name := c.reqs[r].name;
    var c1 := Step(Step(c, CollectionRemove(name)), BeginCreate(name, doc));
    assert name !in c1.store.files && c1.reqs == c.reqs + [CreateStart(name, |c1.log|, doc)];
  }

  // An update that no other request disturbs, up to its write
  function UpdateAlone(c: Core, ep: Endpoint, name: Path, proposed: Obj): Core {
    Step(Step(Step(c, BeginUpdate(ep, name)), UpdateGet(|c.reqs|)), UpdateTry(|c.reqs|, Some(proposed)))
  }

  /** Run undisturbed, an update of the stored version that passes validation is stored at the first attempt. */
  lemma UpdateAloneStores(c: Core, ep: Endpoint, name: Path, proposed: Obj)
    requires name in c.store.files && proposed.version == c.store.files[name].version
    requires BeforeUpdate(ep, proposed, Read(c.store, name).value).Some?
    ensures var c' := UpdateAlone(c, ep, name, proposed);
            var out := BeforeUpdate(ep, proposed, Read(c.store, name).value).value;
            && name in c'.store.files && c'.store.files[name].data == Encode(out.doc)
            && c'.store.files[name].version ==
               (if c.store.files[name].data == Encode(out.doc) then c.store.files[name].version else c.store.rev + 1)
            && c'.store.files == c.store.files[name := c'.store.files[name]]
            && c.reqs <= c'.reqs && (c'.reqs[|c.reqs|].OwesRemove? || c'.reqs[|c.reqs|].Notify?)
            && |c'.log| == |c.log| + 1 && c'.log[|c.log|].Wrote?
  {
    var r, c1 := |c.reqs|, Step(c, BeginUpdate(ep, name));
    var c2 := Step(c1, UpdateGet(r));
    assert c2.reqs[r] == UpdateGot(name, |c.log|, |c.log|, ep, 0, Read(c.store, name)) && c2.store == c.store;
    AcceptedEffect(c.store, name, BeforeUpdate(ep, proposed, Read(c.store, name).value).value, proposed.version);
    assert c.reqs <= c2.reqs;
  }

  /** Run undisturbed, an update that leaves an object marked for deletion without finalizers removes it. */
  lemma DrainingUpdateRemoves(c: Core, name: Path, proposed: Obj)
    requires name in c.store.files && proposed.version == c.store.files[name].version
    requires var d := Decode(c.store.files[name].data); d.deletion.Some? && MayReplace(proposed.doc, d)
    requires proposed.doc.finalizers == []
    ensures var c1, r := UpdateAlone(c, Main, name, proposed), |c.reqs|;
            && r < |c1.reqs| && c1.reqs[r].OwesRemove?
            && name !in Step(c1, UpdateRemove(r)).store.files
            && ReqAt(Step(c1, UpdateRemove(r)), r).Notify?
            && Step(c1, UpdateRemove(r)).reqs[r].ev.kind == Deleted
  {
    var r, c1 := |c.reqs|, UpdateAlone(c, Main, name, proposed);
    UpdateAloneStores(c, Main, name, proposed);
    DrainingUpdateOwes(c, name, proposed);
    assert c1.reqs[r].name == name;
  }

  lemma DrainingUpdateOwes(c: Core, name: Path, proposed: Obj)
    requires name in c.store.files && proposed.version == c.store.files[name].version
    requires var d := Decode(c.store.files[name].data); d.deletion.Some? && MayReplace(proposed.doc, d)
    requires proposed.doc.finalizers == []
    ensures var q := ReqAt(UpdateAlone(c, Main, name, proposed), |c.reqs|); q.OwesRemove? && q.name == name
  {
    var r := |c.reqs|;
    var c2 := Step(Step(c, BeginUpdate(Main, name)), UpdateGet(r));
    assert c2.reqs[r] == UpdateGot(name, |c.log|, |c.log|, Main, 0, Read(c.store, name)) && c2.store == c.store;
  }

  /** A run in which others keep changing the object does exhaust an update's attempts. */
  lemma {:induction false} AttemptsCanBeExhausted(c: Core, r: nat) returns (more: seq<Action>)
    requires Inv(c) && ReqAt(c, r).UpdateTop? && c.reqs[r].name in c.store.files
    ensures var q := ReqAt(RunFrom(c, more), r);
            q.Done? && q.outcome == Exhausted && q.name == c.reqs[r].name
    decreases 100 - c.reqs[r].attempt
  {
    assert ReqOk(c.log, r, c.reqs[r]);
    var attempt := c.reqs[r].attempt;
    more := OutrunOnce(c, r);
    var c' := RunFrom(c, more);
    if attempt < 99 {
      RunFromKeepsInv(c, more);
      var rest := AttemptsCanBeExhausted(c', r);
      RunFromConcat(c, more, rest);
      more := more + rest;
    }
  }

  // Between the Get and the Write of an attempt, another request changes the status.
  lemma OutrunOnce(c: Core, r: nat) returns (more: seq<Action>)
    requires Inv(c) && ReqAt(c, r).UpdateTop? && c.reqs[r].name in c.store.files
    ensures r < |RunFrom(c, more).reqs| && Outran(c.reqs[r], RunFrom(c, more), RunFrom(c, more).reqs[r])
  {
    var q, n, o := c.reqs[r], |c.reqs|, Read(c.store, c.reqs[r].name).value;
    var c1 := Step(c, UpdateGet(r));
    assert c1.reqs[r] == UpdateGot(q.name, q.began, |c.log|, q.ep, q.attempt, Some(o)) && c1.store == c.store;
    VersionsInRange(c.log, |c.log|);
    OutrunAttempt(c1, r, q);
    more := [UpdateGet(r), BeginUpdate(Status, q.name), UpdateGet(n), UpdateTry(n, Some(Changed(o))),
             UpdateTry(r, Some(o))];
    FiveSteps(c, more);
  }

  function Changed(o: Obj): Obj {
    o.(doc := o.doc.(status := o.doc.status + "+"))
  }

  // What becomes of an update that others outran once more
  predicate Outran(q: Req, c: Core, q': Req)
    requires q.UpdateTop?
  {
    && q.name in c.store.files
    && if q.attempt < 99 then q' == UpdateTop(q.name, q.began, q.ep, q.attempt + 1)
       else q'.Done? && q'.outcome == Exhausted && q'.name == q.name
  }

  lemma OutrunAttempt(c: Core, r: nat, q: Req)
    requires q.UpdateTop? && WellVersioned(c.store) && q.name in c.store.files
    requires var o := Read(c.store, q.name);
             r < |c.reqs| && exists since :: c.reqs[r] == UpdateGot(q.name, q.began, since, q.ep, q.attempt, o)
    ensures var o := Read(c.store, q.name).value;
            var c' := Step(UpdateAlone(c, Status, q.name, Changed(o)), UpdateTry(r, Some(o)));
            r < |c'.reqs| && Outran(q, c', c'.reqs[r])
  {
    var o := Read(c.store, q.name).value;
    UpdateAloneStores(c, Status, q.name, Changed(o));
    assert Encode(Changed(o).doc).normal.status != Encode(o.doc).normal.status;
    ConflictGoesRoundAgain(UpdateAlone(c, Status, q.name, Changed(o)), r, o);
  }

  lemma FiveSteps(c: Core, acts: seq<Action>)
    requires |acts| == 5
    ensures RunFrom(c, acts) == Step(Step(Step(Step(Step(c, acts[0]), acts[1]), acts[2]), acts[3]), acts[4])
  {
    assert acts[..4][..3] == acts[..3] && acts[..3] == [acts[0], acts[1], acts[2]];
    ThreeSteps(c, acts[0], acts[1], acts[2]);
    assert RunFrom(c, acts[..4]) == Step(RunFrom(c, acts[..3]), acts[3]);
  }

  /**
   Such a race is possible in every state: a Delete that has read an object without finalizers removes
   it, although an update has given it a finalizer meanwhile.
   */
  lemma DeleteCanRaceWithFinalizer(c: Core, name: Path, finalizer: string, now: Time)
    requires name in c.store.files
    requires var d := Read(c.store, name).value.doc; d.finalizers == [] && d.deletion.None?
    ensures var o, c1 := Read(c.store, name).value, Step(Step(c, BeginDelete(name)), DeleteGet(|c.reqs|));
            var c2 := UpdateAlone(c1, Main, name, o.(doc := o.doc.(finalizers := [finalizer])));
            && name in c2.store.files && Decode(c2.store.files[name].data).finalizers == [finalizer]
            && name !in Step(c2, DeleteFinish(|c.reqs|, now)).store.files
  {
    var o, c1 := Read(c.store, name).value, Step(Step(c, BeginDelete(name)), DeleteGet(|c.reqs|));
    assert c1.reqs[|c.reqs|] == DeleteGot(name, |c.log|, |c.log|, o) && c1.store == c.store;
    var proposed := o.(doc := o.doc.(finalizers := [finalizer]));
    UpdateAloneStores(c1, Main, name, proposed);
    RemovesRegardless(UpdateAlone(c1, Main, name, proposed), |c.reqs|, now);
  }

  lemma RemovesRegardless(c: Core, r: nat, now: Time)
    requires r < |c.reqs| && c.reqs[r].DeleteGot? && AboutToRemove(c.reqs[r])
    ensures c.reqs[r].name !in Step(c, DeleteFinish(r, now)).store.files
  {
  }

  // A Delete that no other request disturbs
  function DeleteAlone(c: Core, name: Path, now: Time): Core {
    Step(Step(Step(c, BeginDelete(name)), DeleteGet(|c.reqs|)), DeleteFinish(|c.reqs|, now))
  }

  function DeleteAll(c: Core, name: Path, readings: seq<Time>): Core {
    if readings == [] then c
    else DeleteAlone(DeleteAll(c, name, readings[..|readings| - 1]), name, readings[|readings| - 1])
  }

  function EarliestReading(start: Option<Time>, readings: seq<Time>): Option<Time> {
    if readings == [] then start
    else Earlier(EarliestReading(start, readings[..|readings| - 1]), Truncate(readings[|readings| - 1]))
  }

  /**
   Run undisturbed, Delete never removes an object that has finalizers; it keeps everything but the
   deletion time and grace period, and keeps the version exactly when those do not change.
   */
  lemma DeleteAloneMarks(c: Core, name: Path, now: Time)
    requires Inv(c) && name in c.store.files
    requires Decode(c.store.files[name].data).finalizers != []
    ensures var c' := DeleteAlone(c, name, now);
            && Inv(c') && name in c'.store.files
            && var d, d' := Decode(c.store.files[name].data), Decode(c'.store.files[name].data);
               && d' == d.(deletion := Earlier(d.deletion, Truncate(now)), grace := Some(0))
               && (c'.store.files[name].version == c.store.files[name].version <==> d' == d)
  {
    var c1 := Step(c, BeginDelete(name));
    StepKeepsInv(c, BeginDelete(name));
    StepKeepsInv(c1, DeleteGet(|c.reqs|));
    var c2 := Step(c1, DeleteGet(|c.reqs|));
    StepKeepsInv(c2, DeleteFinish(|c.reqs|, now));
    VersionsInRange(c.log, |c.log|);
    var d := Decode(c.store.files[name].data);
    assert c2.reqs[|c.reqs|] == DeleteGot(name, |c.log|, |c.log|, Obj(d, c.store.files[name].version));
    EncodedMark(d, now);
  }

  lemma EncodedMark(d: Doc, now: Time)
    requires Decode(Encode(d)) == d
    ensures Decode(Encode(MarkDeleted(d, now))) == d.(deletion := Earlier(d.deletion, Truncate(now)), grace := Some(0))
  {
    if d.deletion.Some? {
      assert Truncate(d.deletion.value) == d.deletion.value;
    }
  }

  /**
   After any sequence of Deletes of an object with finalizers, under any clock readings, it is
   still stored and its deletion time is the minimum of the encoded readings.
   */
  lemma {:induction false} RepeatedDeletesKeepEarliest(c: Core, name: Path, readings: seq<Time>)
    requires Inv(c) && name in c.store.files
    requires Decode(c.store.files[name].data).finalizers != []
    ensures var c' := DeleteAll(c, name, readings);
            && Inv(c') && name in c'.store.files
            && var d, d' := Decode(c.store.files[name].data), Decode(c'.store.files[name].data);
               && d' == d.(deletion := d'.deletion, grace := d'.grace)
               && d'.deletion == EarliestReading(d.deletion, readings)
  {
    if readings != [] {
      RepeatedDeletesKeepEarliest(c, name, readings[..|readings| - 1]);
      DeleteAloneMarks(DeleteAll(c, name, readings[..|readings| - 1]), name, readings[|readings| - 1]);
    }
  }
}
