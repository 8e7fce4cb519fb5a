/**
 The request protocol of pkg/storage/filepath/jsonfile_rest.go as a state machine.

 Every section that the code runs under the file system's mutex is one step, and any number of
 requests interleave between steps. What a caller or the library decides (the object an update
 proposes, a validation that fails, a clock reading, a cancelled context) arrives with the action,
 so a property proved for every sequence of actions holds for all of them.
 */
module Requests {
  import opened Wrappers
  import opened Objects
  import opened Paths
  import opened Stores
  import opened History

  const MAX_ATTEMPTS: nat := 100

  datatype EventType = Added | Modified | Deleted

  datatype Event = Event(kind: EventType, name: Path, obj: Obj)

  /**
   What a call returns. `NotFound` is also returned, as `Vanished`, by an update that wrote the object
   and found it gone when it went to remove it; a conflict is `Stale` if the caller proposed another
   version than the stored one, and `Overtaken` if the object changed after it was read. `Gone` is the
   file system's own error, when Delete finds the object missing as it goes to mark it.
   */
  datatype Outcome =
    | Succeeded(kind: EventType, obj: Obj)
    | NotFound
    | Vanished(obj: Obj)
    | AlreadyExists
    | Stale(version: nat)
    | Overtaken(version: nat)
    | Gone
    | Failed
    | Exhausted

  /**
   Where a request stands. `began`, `ended`, `since` and `wrote` are positions in the history, kept for the
   proofs: when the call began and ended, when it (or this attempt) read the object, and where its write is.
   */
  datatype Req =
    | CreateStart(name: Path, began: nat, doc: Doc)
    | CreateChecked(name: Path, began: nat, since: nat, doc: Doc)
    | UpdateTop(name: Path, began: nat, ep: Endpoint, attempt: nat)
    | UpdateGot(name: Path, began: nat, since: nat, ep: Endpoint, attempt: nat, input: Option<Obj>)
    | OwesRemove(name: Path, began: nat, wrote: nat, obj: Obj)
    | DeleteTop(name: Path, began: nat)
    | DeleteGot(name: Path, began: nat, since: nat, obj: Obj)
    | Notify(began: nat, ev: Event)
    | Done(name: Path, began: nat, ended: nat, outcome: Outcome)

  datatype Core = Core(store: Store, reqs: seq<Req>, log: Log)

  const INITIAL := Core(EMPTY, [], [])

  datatype Action =
    | BeginCreate(name: Path, doc: Doc)
    | BeginUpdate(ep: Endpoint, name: Path)
    | BeginDelete(name: Path)
    | CreateRefuse(r: nat)
    | CheckExists(r: nat)
    | CreateWrite(r: nat)
    | UpdateGet(r: nat)
    | UpdateCancel(r: nat)
    | UpdateTry(r: nat, proposed: Option<Obj>)
    | UpdateRemove(r: nat)
    | DeleteGet(r: nat)
    | DeleteRefuse(r: nat)
    | DeleteFinish(r: nat, now: Time)
    | NotifyDone(r: nat)
    | CollectionRemove(name: Path)

  // ------------------------------------------------------------ steps

  function Goto(c: Core, r: nat, q: Req): Core
    requires r < |c.reqs|
  {
    c.(reqs := c.reqs[r := q])
  }

  function Finish(c: Core, r: nat, outcome: Outcome): Core
    requires r < |c.reqs| && !c.reqs[r].Notify?
  {
    Goto(c, r, Done(c.reqs[r].name, c.reqs[r].began, |c.log|, outcome))
  }

  // An accepted write: the store changes as MemoryFS.Write says, and the history records it.
  function Commit(c: Core, r: nat, name: Path, kind: Kind, input: Option<Obj>, proposed: Obj, out: Obj, q: Req): Core
    requires r < |c.reqs|
  {
    var v := if input.Some? then input.value.version else 0;
    var w := WriteOutcomeOf(c.store, name, out.doc, v);
    Core(Write(c.store, name, out.doc, v), c.reqs[r := q],
         c.log + [Wrote(Caller(r), name, kind, input, proposed, Encode(out.doc), Stamp(out, w).version)])
  }

  function Drop(c: Core, r: nat, name: Path, q: Req): Core
    requires r < |c.reqs|
  {
    Core(Remove(c.store, name), c.reqs[r := q], c.log + [Removed(Caller(r), name)])
  }

  function StepCreateWrite(c: Core, r: nat): Core
    requires r < |c.reqs| && c.reqs[r].CreateChecked?
  {
    var CreateChecked(name, began, _, doc) := c.reqs[r];
    var out := Obj(doc, 0);
    var w := WriteOutcomeOf(c.store, name, doc, 0);
    if w == VersionError then Finish(c, r, Overtaken(0))
    else Commit(c, r, name, ByCreate, None, out, out, Notify(began, Event(Added, name, Stamp(out, w))))
  }

  function StepUpdateGet(c: Core, r: nat): Core
    requires r < |c.reqs| && c.reqs[r].UpdateTop?
  {
    var UpdateTop(name, began, ep, attempt) := c.reqs[r];
    Goto(c, r, UpdateGot(name, began, |c.log|, ep, attempt, Read(c.store, name)))
  }

  function StepUpdateTry(c: Core, r: nat, proposed: Option<Obj>): Core
    requires r < |c.reqs| && c.reqs[r].UpdateGot?
  {
    var UpdateGot(name, began, _, ep, attempt, input) := c.reqs[r];
    if input.None? then Finish(c, r, NotFound)
    else if proposed.None? then Finish(c, r, Failed)
    else if proposed.value.version != input.value.version then Finish(c, r, Stale(proposed.value.version))
    else
      var updated := BeforeUpdate(ep, proposed.value, input.value);
      if updated.None? then Finish(c, r, Failed)
      else
        var out := updated.value;
        var w := WriteOutcomeOf(c.store, name, out.doc, input.value.version);
        match w
        case VersionError =>
          if attempt + 1 < MAX_ATTEMPTS then Goto(c, r, UpdateTop(name, began, ep, attempt + 1))
          else Finish(c, r, Exhausted)
        case NotExist => Finish(c, r, NotFound)
        case _ =>
          var obj := Stamp(out, w);
          Commit(c, r, name, ByUpdate(ep), input, proposed.value, out,
                 if Doomed(out.doc) then OwesRemove(name, began, |c.log|, obj)
                 else Notify(began, Event(Modified, name, obj)))
  }

  // The final Remove is unconditional: whatever is stored under the name goes.
  function StepRemove(c: Core, r: nat, obj: Obj, missing: Outcome): Core
    requires r < |c.reqs| && !c.reqs[r].Notify?
  {
    var name := c.reqs[r].name;
    if name !in c.store.files then Finish(c, r, missing)
    else Drop(c, r, name, Notify(c.reqs[r].began, Event(Deleted, name, obj)))
  }

  function StepDeleteGet(c: Core, r: nat): Core
    requires r < |c.reqs| && c.reqs[r].DeleteTop?
  {
    var DeleteTop(name, began) := c.reqs[r];
    var o := Read(c.store, name);
    if o.None? then Finish(c, r, NotFound) else Goto(c, r, DeleteGot(name, began, |c.log|, o.value))
  }

  function StepDeleteFinish(c: Core, r: nat, now: Time): Core
    requires r < |c.reqs| && c.reqs[r].DeleteGot?
  {
    var DeleteGot(name, began, _, obj) := c.reqs[r];
    if obj.doc.finalizers != [] then
      var out := obj.(doc := MarkDeleted(obj.doc, now));
      var w := WriteOutcomeOf(c.store, name, out.doc, obj.version);
      match w
      case VersionError => Finish(c, r, Overtaken(obj.version))
      case NotExist => Finish(c, r, Gone)
      case _ =>
        Commit(c, r, name, ByMark(now), Some(obj), obj, out, Notify(began, Event(Modified, name, Stamp(out, w))))
    else StepRemove(c, r, obj, NotFound)
  }

  function StepCheckExists(c: Core, r: nat): Core
    requires r < |c.reqs| && c.reqs[r].CreateStart?
  {
    var CreateStart(name, began, doc) := c.reqs[r];
    if name in c.store.files then Finish(c, r, AlreadyExists) else Goto(c, r, CreateChecked(name, began, |c.log|, doc))
  }

  function ReqAt(c: Core, r: nat): Req {
    if r < |c.reqs| then c.reqs[r] else Done([], 0, 0, Failed)
  }

  // An action that does not fit the state of its request does nothing.
  function Step(c: Core, a: Action): Core {
    match a
    case BeginCreate(name, doc) => c.(reqs := c.reqs + [CreateStart(name, |c.log|, doc)])
    case BeginUpdate(ep, name) => c.(reqs := c.reqs + [UpdateTop(name, |c.log|, ep, 0)])
    case BeginDelete(name) => c.(reqs := c.reqs + [DeleteTop(name, |c.log|)])
    case CollectionRemove(name) =>
      // DeleteCollection removes what its listing saw, without finalizers or notifications.
      if name in c.store.files
      then Core(Remove(c.store, name), c.reqs, c.log + [Removed(Collection, name)]) else c
    case CreateRefuse(r) => if !ReqAt(c, r).CreateStart? then c else Finish(c, r, Failed)
    case CheckExists(r) => if !ReqAt(c, r).CreateStart? then c else StepCheckExists(c, r)
    case CreateWrite(r) => if !ReqAt(c, r).CreateChecked? then c else StepCreateWrite(c, r)
    case UpdateGet(r) => if !ReqAt(c, r).UpdateTop? then c else StepUpdateGet(c, r)
    case UpdateCancel(r) => if !ReqAt(c, r).UpdateTop? then c else Finish(c, r, Failed)
    case UpdateTry(r, proposed) => if !ReqAt(c, r).UpdateGot? then c else StepUpdateTry(c, r, proposed)
    case UpdateRemove(r) =>
      if !ReqAt(c, r).OwesRemove? then c else StepRemove(c, r, c.reqs[r].obj, Vanished(c.reqs[r].obj))
    case DeleteGet(r) => if !ReqAt(c, r).DeleteTop? then c else StepDeleteGet(c, r)
    case DeleteRefuse(r) => if !ReqAt(c, r).DeleteGot? then c else Finish(c, r, Failed)
    case DeleteFinish(r, now) => if !ReqAt(c, r).DeleteGot? then c else StepDeleteFinish(c, r, now)
    case NotifyDone(r) => if !ReqAt(c, r).Notify? then c else StepNotifyDone(c, r)
  }

  function StepNotifyDone(c: Core, r: nat): Core
    requires r < |c.reqs| && c.reqs[r].Notify?
  {
    var Notify(began, ev) := c.reqs[r];
    Goto(c, r, Done(ev.name, began, |c.log|, Succeeded(ev.kind, ev.obj)))
  }

  function RunFrom(c: Core, acts: seq<Action>): Core {
    if acts == [] then c else Step(RunFrom(c, acts[..|acts| - 1]), acts[|acts| - 1])
  }

  function Run(acts: seq<Action>): Core {
    RunFrom(INITIAL, acts)
  }

  lemma {:induction false} RunFromConcat(c: Core, a: seq<Action>, b: seq<Action>)
    ensures RunFrom(c, a + b) == RunFrom(RunFrom(c, a), b)
  {
    if b == [] {
      assert a + b == a;
    } else {
      assert (a + b)[..|a + b| - 1] == a + b[..|b| - 1];
      RunFromConcat(c, a, b[..|b| - 1]);
    }
  }

  // ------------------------------------------------------------ invariants

  // How many content-changing writes on `name` the history holds in [lo, hi)
  function Changes(log: Log, lo: nat, hi: nat, name: Path): nat
    requires lo <= hi <= |log|
    decreases hi
  {
    if lo == hi then 0
    else Changes(log, lo, hi - 1, name) + if IsChange(log[hi - 1]) && log[hi - 1].name == name then 1 else 0
  }

  // None of the entries from position `lo` on was made by request `r`.
  predicate NoneBy(log: Log, lo: nat, r: nat) {
    forall k :: lo <= k < |log| ==> log[k].author != Caller(r)
  }

  predicate IsRecord(e: Entry, name: Path, obj: Obj, created: bool) {
    && e.Wrote? && e.name == name && e.version == obj.version && e.data == Encode(obj.doc)
    && (e.kind.ByCreate? <==> created)
  }

  // The entry does what the event says.
  predicate BearsOut(e: Entry, ev: Event) {
    match ev.kind
    case Added => IsRecord(e, ev.name, ev.obj, true)
    case Modified => IsRecord(e, ev.name, ev.obj, false)
    case Deleted => e.Removed? && e.name == ev.name
  }

  // The object was stored, as it is and at its version, at an instant between the two.
  predicate SeenDuring(log: Log, lo: nat, hi: nat, name: Path, obj: Obj)
    requires hi <= |log|
  {
    exists i :: lo <= i <= hi && SeenAt(log, i, name, obj)
  }

  predicate SeenAt(log: Log, i: nat, name: Path, obj: Obj)
    requires i <= |log|
  {
    name in At(log, i).files && At(log, i).files[name] == Stored(obj.version, Encode(obj.doc))
  }

  // Entry `k` is by request `r` and does what the event says; the object of a removal was stored before.
  predicate DoneAt(log: Log, began: nat, k: nat, r: nat, ev: Event)
    requires k < |log|
  {
    && log[k].author == Caller(r) && BearsOut(log[k], ev)
    && (ev.kind.Deleted? ==> SeenDuring(log, began, k, ev.name, ev.obj))
  }

  // Between the two instants request `r` itself did what the event says.
  predicate Truthful(log: Log, began: nat, ended: nat, r: nat, ev: Event) {
    ended <= |log| && exists k :: began <= k < ended && DoneAt(log, began, k, r, ev)
  }

  // The version stored at an instant, 0 for none
  function VersionAt(log: Log, i: nat, name: Path): nat
    requires i <= |log|
  {
    if name in At(log, i).files then At(log, i).files[name].version else 0
  }

  predicate AbsentDuring(log: Log, began: nat, ended: nat, name: Path)
    requires ended <= |log|
  {
    exists i :: began <= i <= ended && VersionAt(log, i, name) == 0
  }

  predicate StoredDuring(log: Log, began: nat, ended: nat, name: Path, other: nat)
    requires ended <= |log|
  {
    exists i :: began <= i <= ended && VersionAt(log, i, name) !in {0, other}
  }

  // The object went from one version, or from absence, to another version.
  predicate OvertakenDuring(log: Log, began: nat, ended: nat, name: Path, version: nat)
    requires ended <= |log|
  {
    exists i :: began <= i <= ended && VersionAt(log, i, name) == version && StoredDuring(log, i, ended, name, version)
  }

  /** What an outcome claims was true at an instant inside the call, and a refused call left no trace. */
  predicate Justified(log: Log, began: nat, ended: nat, r: nat, name: Path, outcome: Outcome) {
    && began <= ended <= |log|
    && match outcome
       case Succeeded(kind, obj) => Truthful(log, began, ended, r, Event(kind, name, obj))
       case NotFound => AbsentDuring(log, began, ended, name) && NoneBy(log, began, r)
       case Vanished(obj) =>
         AbsentDuring(log, began, ended, name) && Truthful(log, began, ended, r, Event(Modified, name, obj))
       case AlreadyExists => StoredDuring(log, began, ended, name, 0) && NoneBy(log, began, r)
       case Stale(version) => StoredDuring(log, began, ended, name, version) && NoneBy(log, began, r)
       case Overtaken(version) => OvertakenDuring(log, began, ended, name, version) && NoneBy(log, began, r)
       case Gone => AbsentDuring(log, began, ended, name) && NoneBy(log, began, r)
       case Failed => NoneBy(log, began, r)
       case Exhausted => MAX_ATTEMPTS <= Changes(log, began, ended, name) && NoneBy(log, began, r)
  }

  ghost predicate ReqOk(log: Log, r: nat, q: Req) {
    match q
    case CreateStart(_, began, _) => began <= |log| && NoneBy(log, began, r)
    case CreateChecked(name, began, since, _) =>
      began <= since <= |log| && NoneBy(log, began, r) && VersionAt(log, since, name) == 0
    case UpdateTop(name, began, _, attempt) =>
      attempt < MAX_ATTEMPTS && began <= |log| && attempt <= Changes(log, began, |log|, name) && NoneBy(log, began, r)
    case UpdateGot(name, began, since, _, attempt, input) =>
      && attempt < MAX_ATTEMPTS && began <= since <= |log| && attempt <= Changes(log, began, since, name)
      && NoneBy(log, began, r) && input == Read(At(log, since), name)
    case OwesRemove(name, began, wrote, obj) =>
      && began <= wrote < |log| && log[wrote].author == Caller(r) && NoneBy(log, wrote + 1, r)
      && IsRecord(log[wrote], name, obj, false) && Doomed(obj.doc)
    case DeleteTop(_, began) => began <= |log| && NoneBy(log, began, r)
    case DeleteGot(name, began, since, obj) =>
      began <= since <= |log| && NoneBy(log, began, r) && Some(obj) == Read(At(log, since), name)
    case Notify(began, ev) => began <= |log| && Truthful(log, began, |log|, r, ev)
    case Done(name, began, ended, outcome) => Justified(log, began, ended, r, name, outcome)
  }

  ghost predicate Owed(reqs: seq<Req>, name: Path, version: nat) {
    exists r :: 0 <= r < |reqs| && Owes(reqs[r], name, version)
  }

  predicate Owes(q: Req, name: Path, version: nat) {
    q.OwesRemove? && q.name == name && q.obj.version == version
  }

  predicate CreatedAs(log: Log, name: Path, version: nat) {
    exists k :: 0 <= k < |log| && IsCreateOf(log[k], name, version)
  }

  predicate IsCreateOf(e: Entry, name: Path, version: nat) {
    e.Wrote? && e.kind.ByCreate? && e.name == name && e.version == version
  }

  predicate DoomedIn(s: Store, name: Path) {
    name in s.files && Doomed(Decode(s.files[name].data))
  }

  // Every stored object marked for deletion, with no finalizers left, has a request in flight that owes
  // its removal.
  ghost predicate NoneStranded(c: Core) {
    forall n :: n in c.store.files && Decode(c.store.files[n].data).finalizers == []
                && Decode(c.store.files[n].data).deletion.Some? ==>
      Owed(c.reqs, n, c.store.files[n].version)
  }

  // The same, except for objects that are still as they were created
  ghost predicate Accounted(c: Core) {
    forall n :: DoomedIn(c.store, n) ==>
      Owed(c.reqs, n, c.store.files[n].version) || CreatedAs(c.log, n, c.store.files[n].version)
  }

  ghost predicate AllReqsOk(log: Log, reqs: seq<Req>) {
    forall r :: 0 <= r < |reqs| ==> ReqOk(log, r, reqs[r])
  }

  ghost predicate Inv(c: Core) {
    && LegalLog(c.log)
    && c.store == At(c.log, |c.log|)
    && AllReqsOk(c.log, c.reqs)
    && Accounted(c)
  }

  lemma {:induction false} ChangesAppend(log: Log, e: Entry, lo: nat, hi: nat, name: Path)
    requires lo <= hi <= |log|
    ensures Changes(log + [e], lo, hi, name) == Changes(log, lo, hi, name)
    decreases hi
  {
    if lo < hi { ChangesAppend(log, e, lo, hi - 1, name); }
  }

  lemma {:induction false} ChangesSplit(log: Log, lo: nat, mid: nat, hi: nat, name: Path)
    requires lo <= mid <= hi <= |log|
    ensures Changes(log, lo, hi, name) == Changes(log, lo, mid, name) + Changes(log, mid, hi, name)
    decreases hi
  {
    if mid < hi { ChangesSplit(log, lo, mid, hi - 1, name); }
  }

  // What held at an instant, or was recorded, still does when the history grows.
  lemma AbsentAppend(log: Log, e: Entry, began: nat, ended: nat, name: Path)
    requires ended <= |log| && AbsentDuring(log, began, ended, name)
    ensures AbsentDuring(log + [e], began, ended, name)
  {
    var i :| began <= i <= ended && VersionAt(log, i, name) == 0;
    AtAppend(log, e, i);
    assert VersionAt(log + [e], i, name) == 0;
  }

  lemma StoredAppend(log: Log, e: Entry, began: nat, ended: nat, name: Path, other: nat)
    requires ended <= |log| && StoredDuring(log, began, ended, name, other)
    ensures StoredDuring(log + [e], began, ended, name, other)
  {
    var i :| began <= i <= ended && VersionAt(log, i, name) !in {0, other};
    AtAppend(log, e, i);
    assert VersionAt(log + [e], i, name) !in {0, other};
  }

  lemma OvertakenAppend(log: Log, e: Entry, began: nat, ended: nat, name: Path, version: nat)
    requires ended <= |log| && OvertakenDuring(log, began, ended, name, version)
    ensures OvertakenDuring(log + [e], began, ended, name, version)
  {
    var i :| began <= i <= ended && VersionAt(log, i, name) == version && StoredDuring(log, i, ended, name, version);
    AtAppend(log, e, i);
    StoredAppend(log, e, i, ended, name, version);
    assert VersionAt(log + [e], i, name) == version;
  }

  lemma SeenAppend(log: Log, e: Entry, lo: nat, hi: nat, name: Path, obj: Obj)
    requires hi <= |log| && SeenDuring(log, lo, hi, name, obj)
    ensures SeenDuring(log + [e], lo, hi, name, obj)
  {
    var i :| lo <= i <= hi && SeenAt(log, i, name, obj);
    AtAppend(log, e, i);
    assert SeenAt(log + [e], i, name, obj);
  }

  lemma TruthfulAppend(log: Log, e: Entry, began: nat, ended: nat, r: nat, ev: Event)
    requires Truthful(log, began, ended, r, ev)
    ensures Truthful(log + [e], began, ended, r, ev) && Truthful(log + [e], began, |log| + 1, r, ev)
  {
    var k :| began <= k < ended && DoneAt(log, began, k, r, ev);
    if ev.kind.Deleted? { SeenAppend(log, e, began, k, ev.name, ev.obj); }
    assert DoneAt(log + [e], began, k, r, ev);
  }

  lemma TruthfulLast(log: Log, e: Entry, began: nat, r: nat, ev: Event)
    requires began <= |log| && e.author == Caller(r) && BearsOut(e, ev)
    requires ev.kind.Deleted? ==> SeenDuring(log, began, |log|, ev.name, ev.obj)
    ensures Truthful(log + [e], began, |log| + 1, r, ev)
  {
    if ev.kind.Deleted? { SeenAppend(log, e, began, |log|, ev.name, ev.obj); }
    assert DoneAt(log + [e], began, |log|, r, ev);
  }

  lemma JustifiedAppend(log: Log, e: Entry, began: nat, ended: nat, r: nat, name: Path, outcome: Outcome)
    requires Justified(log, began, ended, r, name, outcome) && e.author != Caller(r)
    ensures Justified(log + [e], began, ended, r, name, outcome)
  {
    match outcome
    case Succeeded(kind, obj) => TruthfulAppend(log, e, began, ended, r, Event(kind, name, obj));
    case NotFound => AbsentAppend(log, e, began, ended, name);
    case Vanished(obj) =>
      AbsentAppend(log, e, began, ended, name);
      TruthfulAppend(log, e, began, ended, r, Event(Modified, name, obj));
    case AlreadyExists => StoredAppend(log, e, began, ended, name, 0);
    case Stale(version) => StoredAppend(log, e, began, ended, name, version);
    case Overtaken(version) => OvertakenAppend(log, e, began, ended, name, version);
    case Gone => AbsentAppend(log, e, began, ended, name);
    case Failed =>
    case Exhausted => ChangesAppend(log, e, began, ended, name);
  }

  // Other requests' entries never upset what a request relies on.
  lemma ReqSurvives(log: Log, e: Entry, r: nat, q: Req)
    requires ReqOk(log, r, q) && e.author != Caller(r)
    ensures ReqOk(log + [e], r, q)
  {
    match q
    case CreateStart(_, _, _) =>
    case CreateChecked(_, _, since, _) => AtAppend(log, e, since);
    case UpdateTop(name, began, _, _) => ChangesAppend(log, e, began, |log|, name);
    case UpdateGot(name, began, since, _, _, _) =>
      ChangesAppend(log, e, began, since, name);
      AtAppend(log, e, since);
    case OwesRemove(_, _, wrote, _) => assert (log + [e])[wrote] == log[wrote];
    case DeleteTop(_, _) =>
    case DeleteGot(_, _, since, _) => AtAppend(log, e, since);
    case Notify(began, ev) => TruthfulAppend(log, e, began, |log|, r, ev);
    case Done(name, began, ended, outcome) => JustifiedAppend(log, e, began, ended, r, name, outcome);
  }

  lemma ReqsSurvive(log: Log, e: Entry, reqs: seq<Req>, r: nat, q: Req)
    requires AllReqsOk(log, reqs) && r < |reqs| && e.author == Caller(r) && ReqOk(log + [e], r, q)
    ensures AllReqsOk(log + [e], reqs[r := q])
  {
    var reqs' := reqs[r := q];
    forall k | 0 <= k < |reqs'| ensures ReqOk(log + [e], k, reqs'[k]) {
      if k != r { ReqSurvives(log, e, k, reqs[k]); }
    }
  }

  // What accounts for an object survives when one request that owes nothing on it moves on.
  lemma AccountSurvives(c: Core, c': Core, r: nat, n: Path, version: nat)
    requires Owed(c.reqs, n, version) || CreatedAs(c.log, n, version)
    requires r < |c.reqs| == |c'.reqs| && c'.reqs == c.reqs[r := c'.reqs[r]] && c.log <= c'.log
    requires !Owes(c.reqs[r], n, version)
    ensures Owed(c'.reqs, n, version) || CreatedAs(c'.log, n, version)
  {
    if Owed(c.reqs, n, version) {
      var k :| 0 <= k < |c.reqs| && Owes(c.reqs[k], n, version);
      assert Owes(c'.reqs[k], n, version);
    } else {
      var k :| 0 <= k < |c.log| && IsCreateOf(c.log[k], n, version);
      assert IsCreateOf(c'.log[k], n, version);
    }
  }

  lemma GotoKeepsInv(c: Core, r: nat, q: Req)
    requires Inv(c) && r < |c.reqs| && ReqOk(c.log, r, q)
    requires c.reqs[r].OwesRemove? ==> c.reqs[r].name !in c.store.files
    ensures Inv(Goto(c, r, q))
  {
    var c' := Goto(c, r, q);
    forall n | DoomedIn(c'.store, n)
      ensures Owed(c'.reqs, n, c'.store.files[n].version) || CreatedAs(c'.log, n, c'.store.files[n].version)
    {
      AccountSurvives(c, c', r, n, c.store.files[n].version);
    }
  }

  // The current instant lies inside every call under way.
  lemma Now(c: Core, name: Path)
    requires Inv(c)
    ensures name !in c.store.files ==> VersionAt(c.log, |c.log|, name) == 0
    ensures name in c.store.files ==> VersionAt(c.log, |c.log|, name) == c.store.files[name].version >= 2
  {
    VersionsInRange(c.log, |c.log|);
  }

  /**
   The compare-and-swap: if Write accepts the version of an object read earlier, the store still
   holds exactly that object, so the recorded entry is legal and the history yields the new store.
   */
  lemma CommitIsLegal(c: Core, r: nat, since: nat, name: Path, kind: Kind, input: Option<Obj>,
                      proposed: Obj, out: Obj, q: Req)
    requires Inv(c) && r < |c.reqs| && since <= |c.log|
    requires input.Some? ==> input == Read(At(c.log, since), name)
    requires Written(kind, proposed, input) == Some(out.doc)
    requires out.version == if input.Some? then input.value.version else 0
    requires WriteOutcomeOf(c.store, name, out.doc, out.version) !in {VersionError, NotExist}
    ensures var c' := Commit(c, r, name, kind, input, proposed, out, q);
            && input == Read(c.store, name)
            && LegalLog(c'.log) && c'.store == At(c'.log, |c'.log|)
  {
    var e := Wrote(Caller(r), name, kind, input, proposed, Encode(out.doc),
                   Stamp(out, WriteOutcomeOf(c.store, name, out.doc, out.version)).version);
    VersionsInRange(c.log, |c.log|);
    if input.Some? {
      VersionsInRange(c.log, since);
      SameVersionUntouched(c.log, since, |c.log|, name);
    }
    assert Legal(c.store, e);
    LegalAppend(c.log, e);
  }

  // After a committed write: whoever is doomed now is owed, as created, or was accounted for before.
  lemma CommitKeepsInv(c: Core, r: nat, since: nat, name: Path, kind: Kind, input: Option<Obj>,
                       proposed: Obj, out: Obj, q: Req)
    requires Inv(c) && r < |c.reqs| && since <= |c.log|
    requires input.Some? ==> input == Read(At(c.log, since), name)
    requires Written(kind, proposed, input) == Some(out.doc)
    requires out.version == if input.Some? then input.value.version else 0
    requires WriteOutcomeOf(c.store, name, out.doc, out.version) !in {VersionError, NotExist}
    requires !c.reqs[r].OwesRemove?
    requires ReqOk(Commit(c, r, name, kind, input, proposed, out, q).log, r, q)
    requires Doomed(out.doc) ==>
               var obj := Stamp(out, WriteOutcomeOf(c.store, name, out.doc, out.version));
               kind.ByCreate? || Owes(q, name, obj.version)
    ensures Inv(Commit(c, r, name, kind, input, proposed, out, q))
  {
    CommitIsLegal(c, r, since, name, kind, input, proposed, out, q);
    var c' := Commit(c, r, name, kind, input, proposed, out, q);
    var e := c'.log[|c.log|];
    assert c'.log == c.log + [e];
    ReqsSurvive(c.log, e, c.reqs, r, q);
    forall n | DoomedIn(c'.store, n)
      ensures Owed(c'.reqs, n, c'.store.files[n].version) || CreatedAs(c'.log, n, c'.store.files[n].version)
    {
      if n != name {
        AccountSurvives(c, c', r, n, c.store.files[n].version);
      } else if kind.ByCreate? {
        assert IsCreateOf(c'.log[|c.log|], n, c'.store.files[n].version);
      } else {
        assert Owes(c'.reqs[r], n, c'.store.files[n].version);
      }
    }
  }

  lemma DropKeepsInv(c: Core, r: nat, obj: Obj)
    requires Inv(c) && r < |c.reqs| && !c.reqs[r].Notify? && c.reqs[r].name in c.store.files
    requires c.reqs[r].began <= |c.log| && SeenDuring(c.log, c.reqs[r].began, |c.log|, c.reqs[r].name, obj)
    ensures Inv(Drop(c, r, c.reqs[r].name, Notify(c.reqs[r].began, Event(Deleted, c.reqs[r].name, obj))))
  {
    var name, began := c.reqs[r].name, c.reqs[r].began;
    var q, e := Notify(began, Event(Deleted, name, obj)), Removed(Caller(r), name);
    var c' := Drop(c, r, name, q);
    LegalAppend(c.log, e);
    TruthfulLast(c.log, e, began, r, q.ev);
    ReqsSurvive(c.log, e, c.reqs, r, q);
    forall n | DoomedIn(c'.store, n)
      ensures Owed(c'.reqs, n, c'.store.files[n].version) || CreatedAs(c'.log, n, c'.store.files[n].version)
    {
      AccountSurvives(c, c', r, n, c.store.files[n].version);
    }
  }

  // A request that goes to remove an object has read it, or written it, since it began.
  lemma RemoverSaw(c: Core, r: nat)
    requires Inv(c) && r < |c.reqs| && (c.reqs[r].OwesRemove? || c.reqs[r].DeleteGot?)
    ensures SeenDuring(c.log, c.reqs[r].began, |c.log|, c.reqs[r].name, c.reqs[r].obj)
  {
    var q := c.reqs[r];
    assert ReqOk(c.log, r, q);
    if q.OwesRemove? {
      WrittenIsStored(c.log, q.wrote);
      assert SeenAt(c.log, q.wrote + 1, q.name, q.obj);
    } else {
      VersionsInRange(c.log, q.since);
      assert SeenAt(c.log, q.since, q.name, q.obj);
    }
  }

  lemma RemoveKeepsInv(c: Core, r: nat)
    requires Inv(c) && r < |c.reqs| && (c.reqs[r].OwesRemove? || c.reqs[r].DeleteGot?)
    ensures Inv(StepRemove(c, r, c.reqs[r].obj, if c.reqs[r].OwesRemove? then Vanished(c.reqs[r].obj) else NotFound))
  {
    var q := c.reqs[r];
    assert ReqOk(c.log, r, q);
    if q.name in c.store.files {
      RemoverSaw(c, r);
      DropKeepsInv(c, r, q.obj);
    } else {
      var outcome := if q.OwesRemove? then Vanished(q.obj) else NotFound;
      Now(c, q.name);
      if q.OwesRemove? { assert DoneAt(c.log, q.began, q.wrote, r, Event(Modified, q.name, q.obj)); }
      GotoKeepsInv(c, r, Done(q.name, q.began, |c.log|, outcome));
    }
  }

  lemma BeginKeepsInv(c: Core, q: Req)
    requires Inv(c) && ReqOk(c.log, |c.reqs|, q)
    ensures Inv(c.(reqs := c.reqs + [q]))
  {
    var c' := c.(reqs := c.reqs + [q]);
    forall n | DoomedIn(c'.store, n)
      ensures Owed(c'.reqs, n, c'.store.files[n].version) || CreatedAs(c'.log, n, c'.store.files[n].version)
    {
      if k :| 0 <= k < |c.reqs| && Owes(c.reqs[k], n, c.store.files[n].version) {
        assert Owes(c'.reqs[k], n, c.store.files[n].version);
      }
    }
  }

  lemma CollectionRemoveKeepsInv(c: Core, name: Path)
    requires Inv(c) && name in c.store.files
    ensures Inv(Step(c, CollectionRemove(name)))
  {
    var e, c' := Removed(Collection, name), Step(c, CollectionRemove(name));
    LegalAppend(c.log, e);
    forall k | 0 <= k < |c.reqs| ensures ReqOk(c.log + [e], k, c.reqs[k]) {
      ReqSurvives(c.log, e, k, c.reqs[k]);
    }
    forall n | DoomedIn(c'.store, n)
      ensures Owed(c'.reqs, n, c'.store.files[n].version) || CreatedAs(c'.log, n, c'.store.files[n].version)
    {
      if k :| 0 <= k < |c.log| && IsCreateOf(c.log[k], n, c.store.files[n].version) {
        assert IsCreateOf(c'.log[k], n, c.store.files[n].version);
      }
    }
  }

  // ------------------------------------------------------------ retries

  // Without a change, a name still present is exactly as it was.
  lemma {:induction false} NoChangesNoDifference(log: Log, i: nat, j: nat, name: Path)
    requires LegalLog(log) && i <= j <= |log|
    requires Changes(log, i, j, name) == 0
    ensures Read(At(log, j), name) in {None, Read(At(log, i), name)}
    decreases j
  {
    if i < j {
      NoChangesNoDifference(log, i, j - 1, name);
      assert LegalAt(log, j - 1);
    }
  }

  lemma {:induction false} SomeChange(log: Log, i: nat, j: nat, name: Path) returns (k: nat)
    requires i <= j <= |log| && Changes(log, i, j, name) > 0
    ensures i <= k < j && IsChange(log[k]) && log[k].name == name
    decreases j
  {
    if IsChange(log[j - 1]) && log[j - 1].name == name {
      k := j - 1;
    } else {
      k := SomeChange(log, i, j - 1, name);
    }
  }

  // A version conflict at the Write means the object changed since this attempt's Get.
  lemma ConflictMeansChange(c: Core, r: nat, doc: Doc)
    requires Inv(c) && r < |c.reqs| && c.reqs[r].UpdateGot? && c.reqs[r].input.Some?
    requires WriteOutcomeOf(c.store, c.reqs[r].name, doc, c.reqs[r].input.value.version) == VersionError
    ensures Changes(c.log, c.reqs[r].since, |c.log|, c.reqs[r].name) >= 1
    ensures Changes(c.log, c.reqs[r].began, |c.log|, c.reqs[r].name) >= c.reqs[r].attempt + 1
  {
    var q := c.reqs[r];
    assert ReqOk(c.log, r, q);
    if Changes(c.log, q.since, |c.log|, q.name) == 0 {
      NoChangesNoDifference(c.log, q.since, |c.log|, q.name);
    }
    ChangesSplit(c.log, q.began, q.since, |c.log|, q.name);
  }

  lemma UpdateTryKeepsInv(c: Core, r: nat, proposed: Option<Obj>)
    requires Inv(c) && r < |c.reqs| && c.reqs[r].UpdateGot?
    ensures Inv(StepUpdateTry(c, r, proposed))
  {
    var q := c.reqs[r];
    assert ReqOk(c.log, r, q);
    VersionsInRange(c.log, q.since);
    if q.input.None? {
      assert VersionAt(c.log, q.since, q.name) == 0;
      GotoKeepsInv(c, r, Done(q.name, q.began, |c.log|, NotFound));
    } else if proposed.Some? && proposed.value.version != q.input.value.version {
      assert VersionAt(c.log, q.since, q.name) !in {0, proposed.value.version};
      GotoKeepsInv(c, r, Done(q.name, q.began, |c.log|, Stale(proposed.value.version)));
    } else if proposed.None? || BeforeUpdate(q.ep, proposed.value, q.input.value).None? {
      GotoKeepsInv(c, r, Done(q.name, q.began, |c.log|, Failed));
    } else {
      UpdateWriteKeepsInv(c, r, proposed.value);
    }
  }

  lemma UpdateWriteKeepsInv(c: Core, r: nat, proposed: Obj)
    requires Inv(c) && r < |c.reqs| && c.reqs[r].UpdateGot? && c.reqs[r].input.Some?
    requires proposed.version == c.reqs[r].input.value.version
    requires BeforeUpdate(c.reqs[r].ep, proposed, c.reqs[r].input.value).Some?
    ensures Inv(StepUpdateTry(c, r, Some(proposed)))
  {
    var q, c' := c.reqs[r], StepUpdateTry(c, r, Some(proposed));
    assert ReqOk(c.log, r, q);
    var out := BeforeUpdate(q.ep, proposed, q.input.value).value;
    var w := WriteOutcomeOf(c.store, q.name, out.doc, q.input.value.version);
    match w
    case VersionError => RetryKeepsInv(c, r, proposed);
    case NotExist =>
      Now(c, q.name);
      GotoKeepsInv(c, r, c'.reqs[r]);
    case _ =>
      UpdateCommitOk(c, r, proposed);
      CommitKeepsInv(c, r, q.since, q.name, ByUpdate(q.ep), q.input, proposed, out, c'.reqs[r]);
  }

  lemma RetryKeepsInv(c: Core, r: nat, proposed: Obj)
    requires Inv(c) && r < |c.reqs| && c.reqs[r].UpdateGot? && c.reqs[r].input.Some?
    requires proposed.version == c.reqs[r].input.value.version
    requires BeforeUpdate(c.reqs[r].ep, proposed, c.reqs[r].input.value).Some?
    requires var out := BeforeUpdate(c.reqs[r].ep, proposed, c.reqs[r].input.value).value;
             WriteOutcomeOf(c.store, c.reqs[r].name, out.doc, c.reqs[r].input.value.version) == VersionError
    ensures Inv(StepUpdateTry(c, r, Some(proposed)))
  {
    var q := c.reqs[r];
    assert ReqOk(c.log, r, q);
    ConflictMeansChange(c, r, BeforeUpdate(q.ep, proposed, q.input.value).value.doc);
    GotoKeepsInv(c, r, StepUpdateTry(c, r, Some(proposed)).reqs[r]);
  }

  // An accepted update goes on as it should: it announces what it wrote, or owes the removal.
  lemma UpdateCommitOk(c: Core, r: nat, proposed: Obj)
    requires Inv(c) && r < |c.reqs| && c.reqs[r].UpdateGot? && c.reqs[r].input.Some?
    requires proposed.version == c.reqs[r].input.value.version
    requires BeforeUpdate(c.reqs[r].ep, proposed, c.reqs[r].input.value).Some?
    requires var out := BeforeUpdate(c.reqs[r].ep, proposed, c.reqs[r].input.value).value;
             WriteOutcomeOf(c.store, c.reqs[r].name, out.doc, c.reqs[r].input.value.version)
             !in {VersionError, NotExist}
    ensures var c' := StepUpdateTry(c, r, Some(proposed));
            ReqOk(c'.log, r, c'.reqs[r])
  {
    var q, c' := c.reqs[r], StepUpdateTry(c, r, Some(proposed));
    assert ReqOk(c.log, r, q);
    UpdateEntry(c, r, proposed);
    var e := c'.log[|c.log|];
    assert c'.log == c.log + [e];
    if c'.reqs[r].Notify? { TruthfulLast(c.log, e, q.began, r, c'.reqs[r].ev); }
  }

  // What an accepted update records, and where it goes on
  lemma UpdateEntry(c: Core, r: nat, proposed: Obj)
    requires r < |c.reqs| && c.reqs[r].UpdateGot? && c.reqs[r].input.Some?
    requires proposed.version == c.reqs[r].input.value.version
    requires BeforeUpdate(c.reqs[r].ep, proposed, c.reqs[r].input.value).Some?
    requires var out := BeforeUpdate(c.reqs[r].ep, proposed, c.reqs[r].input.value).value;
             WriteOutcomeOf(c.store, c.reqs[r].name, out.doc, c.reqs[r].input.value.version)
             !in {VersionError, NotExist}
    ensures var q, c' := c.reqs[r], StepUpdateTry(c, r, Some(proposed));
            && c.log <= c'.log && |c'.log| == |c.log| + 1
            && var e := c'.log[|c.log|];
               && e.author == Caller(r)
               && match c'.reqs[r]
                  case OwesRemove(name, began, wrote, obj) =>
                    && name == q.name && began == q.began && wrote == |c.log| && Doomed(obj.doc)
                    && IsRecord(e, name, obj, false)
                  case Notify(began, ev) =>
                    began == q.began && ev.kind == Modified && IsRecord(e, ev.name, ev.obj, false)
                  case _ => false
  {
  }

  lemma DeleteFinishKeepsInv(c: Core, r: nat, now: Time)
    requires Inv(c) && r < |c.reqs| && c.reqs[r].DeleteGot?
    ensures Inv(StepDeleteFinish(c, r, now))
  {
    var q, c' := c.reqs[r], StepDeleteFinish(c, r, now);
    assert ReqOk(c.log, r, q);
    if q.obj.doc.finalizers == [] {
      RemoveKeepsInv(c, r);
    } else {
      var out := q.obj.(doc := MarkDeleted(q.obj.doc, now));
      match WriteOutcomeOf(c.store, q.name, out.doc, q.obj.version)
      case VersionError =>
        Now(c, q.name);
        assert VersionAt(c.log, q.since, q.name) == q.obj.version;
        assert StoredDuring(c.log, q.since, |c.log|, q.name, q.obj.version);
        GotoKeepsInv(c, r, c'.reqs[r]);
      case NotExist =>
        Now(c, q.name);
        GotoKeepsInv(c, r, c'.reqs[r]);
      case _ => MarkKeepsInv(c, r, now);
    }
  }

  lemma MarkKeepsInv(c: Core, r: nat, now: Time)
    requires Inv(c) && r < |c.reqs| && c.reqs[r].DeleteGot? && c.reqs[r].obj.doc.finalizers != []
    requires var obj := c.reqs[r].obj;
             WriteOutcomeOf(c.store, c.reqs[r].name, MarkDeleted(obj.doc, now), obj.version)
             !in {VersionError, NotExist}
    ensures Inv(StepDeleteFinish(c, r, now))
  {
    var q, c' := c.reqs[r], StepDeleteFinish(c, r, now);
    assert ReqOk(c.log, r, q);
    var e := c'.log[|c.log|];
    assert c'.log == c.log + [e];
    TruthfulLast(c.log, e, q.began, r, c'.reqs[r].ev);
    CommitKeepsInv(c, r, q.since, q.name, ByMark(now), Some(q.obj), q.obj,
                   q.obj.(doc := MarkDeleted(q.obj.doc, now)), c'.reqs[r]);
  }

  lemma CreateWriteKeepsInv(c: Core, r: nat)
    requires Inv(c) && r < |c.reqs| && c.reqs[r].CreateChecked?
    ensures Inv(StepCreateWrite(c, r))
  {
    var q, c' := c.reqs[r], StepCreateWrite(c, r);
    var out := Obj(q.doc, 0);
    assert ReqOk(c.log, r, q);
    Now(c, q.name);
    if WriteOutcomeOf(c.store, q.name, q.doc, 0) == VersionError {
      assert StoredDuring(c.log, q.since, |c.log|, q.name, 0);
      GotoKeepsInv(c, r, c'.reqs[r]);
    } else {
      var e := c'.log[|c.log|];
      assert c'.log == c.log + [e];
      TruthfulLast(c.log, e, q.began, r, c'.reqs[r].ev);
      CommitKeepsInv(c, r, 0, q.name, ByCreate, None, out, out, c'.reqs[r]);
    }
  }

  // The steps that only read
  lemma ReadStepsKeepInv(c: Core, a: Action)
    requires Inv(c)
    requires || (a.CheckExists? && ReqAt(c, a.r).CreateStart?)
             || (a.UpdateGet? && ReqAt(c, a.r).UpdateTop?)
             || (a.DeleteGet? && ReqAt(c, a.r).DeleteTop?)
    ensures Inv(Step(c, a))
  {
    assert ReqOk(c.log, a.r, c.reqs[a.r]);
    Now(c, c.reqs[a.r].name);
    GotoKeepsInv(c, a.r, Step(c, a).reqs[a.r]);
  }

  // The steps that give up before anything is written
  lemma RefusalsKeepInv(c: Core, a: Action)
    requires Inv(c)
    requires || (a.CreateRefuse? && ReqAt(c, a.r).CreateStart?)
             || (a.UpdateCancel? && ReqAt(c, a.r).UpdateTop?)
             || (a.DeleteRefuse? && ReqAt(c, a.r).DeleteGot?)
    ensures Inv(Step(c, a))
  {
    assert ReqOk(c.log, a.r, c.reqs[a.r]);
    GotoKeepsInv(c, a.r, Step(c, a).reqs[a.r]);
  }

  lemma NotifyDoneKeepsInv(c: Core, r: nat)
    requires Inv(c) && r < |c.reqs| && c.reqs[r].Notify?
    ensures Inv(StepNotifyDone(c, r))
  {
    assert ReqOk(c.log, r, c.reqs[r]);
    GotoKeepsInv(c, r, StepNotifyDone(c, r).reqs[r]);
  }

  lemma BeginsKeepInv(c: Core, a: Action)
    requires Inv(c) && (a.BeginCreate? || a.BeginUpdate? || a.BeginDelete?)
    ensures Inv(Step(c, a))
  {
    match a
    case BeginCreate(name, doc) => BeginKeepsInv(c, CreateStart(name, |c.log|, doc));
    case BeginUpdate(ep, name) => BeginKeepsInv(c, UpdateTop(name, |c.log|, ep, 0));
    case BeginDelete(name) => BeginKeepsInv(c, DeleteTop(name, |c.log|));
  }

  lemma StepKeepsInv(c: Core, a: Action)
    requires Inv(c)
    ensures Inv(Step(c, a))
  {
    match a
    case BeginCreate(_, _) => BeginsKeepInv(c, a);
    case BeginUpdate(_, _) => BeginsKeepInv(c, a);
    case BeginDelete(_) => BeginsKeepInv(c, a);
    case CollectionRemove(name) => if name in c.store.files { CollectionRemoveKeepsInv(c, name); }
    case CreateRefuse(r) => if ReqAt(c, r).CreateStart? { RefusalsKeepInv(c, a); }
    case CheckExists(r) => if ReqAt(c, r).CreateStart? { ReadStepsKeepInv(c, a); }
    case CreateWrite(r) => if ReqAt(c, r).CreateChecked? { CreateWriteKeepsInv(c, r); }
    case UpdateGet(r) => if ReqAt(c, r).UpdateTop? { ReadStepsKeepInv(c, a); }
    case UpdateCancel(r) => if ReqAt(c, r).UpdateTop? { RefusalsKeepInv(c, a); }
    case UpdateTry(r, proposed) => if ReqAt(c, r).UpdateGot? { UpdateTryKeepsInv(c, r, proposed); }
    case UpdateRemove(r) => if ReqAt(c, r).OwesRemove? { RemoveKeepsInv(c, r); }
    case DeleteGet(r) => if ReqAt(c, r).DeleteTop? { ReadStepsKeepInv(c, a); }
    case DeleteRefuse(r) => if ReqAt(c, r).DeleteGot? { RefusalsKeepInv(c, a); }
    case DeleteFinish(r, now) => if ReqAt(c, r).DeleteGot? { DeleteFinishKeepsInv(c, r, now); }
    case NotifyDone(r) => if ReqAt(c, r).Notify? { NotifyDoneKeepsInv(c, r); }
  }

  lemma {:induction false} RunFromKeepsInv(c: Core, acts: seq<Action>)
    requires Inv(c)
    ensures Inv(RunFrom(c, acts))
  {
    if acts != [] {
      RunFromKeepsInv(c, acts[..|acts| - 1]);
      StepKeepsInv(RunFrom(c, acts[..|acts| - 1]), acts[|acts| - 1]);
    }
  }

  lemma ReachableInv(acts: seq<Action>)
    ensures Inv(Run(acts))
  {
    RunFromKeepsInv(INITIAL, acts);
  }
}
