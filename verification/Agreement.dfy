/**
 The state machine of Requests and the handlers of Rest are two accounts of the same code: the one
 interleaves the critical sections of many requests, the other runs one request against whatever the
 others do. Here they are shown to agree, call by call: what others do in any run of the machine is
 interference that the handlers allow for, and under it each call ends as the handler's contract says.
 */
module Agreement {
  import opened Wrappers
  import opened Objects
  import opened Paths
  import opened Stores
  import opened Interference
  import H = History
  import R = Requests
  import T = Rest
  import W = WatchSet
  import WatchOnce

  // ------------------------------------------------------------ what others do

  // The one operation on the store that an action stands for, if any
  lemma StepIsOps(c: R.Core, a: R.Action) returns (ops: seq<Op>)
    ensures R.Step(c, a).store == DoAll(c.store, ops)
  {
    ops := [];
    match a
    case CreateWrite(r) =>
      if R.ReqAt(c, r).CreateChecked? { ops := OneOp(c.store, OtherWrite(c.reqs[r].name, c.reqs[r].doc, 0)); }
    case UpdateTry(r, proposed) => ops := TryIsOps(c, r, proposed);
    case DeleteFinish(r, now) => ops := FinishIsOps(c, r, now);
    case UpdateRemove(r) =>
      if R.ReqAt(c, r).OwesRemove? { ops := RemoveIsOps(c, c.reqs[r].name); }
    case CollectionRemove(name) => ops := RemoveIsOps(c, name);
    case _ =>
  }

  lemma OneOp(s: Store, op: Op) returns (ops: seq<Op>)
    ensures DoAll(s, ops) == Do(s, op)
  {
    ops := [op];
    assert ops[..0] == [];
  }

  // Removing what is not there changes nothing.
  lemma RemoveIsOps(c: R.Core, name: Path) returns (ops: seq<Op>)
    ensures DoAll(c.store, ops) == if name in c.store.files then Stores.Remove(c.store, name) else c.store
  {
    if name in c.store.files { ops := OneOp(c.store, OtherRemove(name)); } else { ops := []; }
  }

  lemma TryIsOps(c: R.Core, r: nat, proposed: Option<Obj>) returns (ops: seq<Op>)
    ensures R.Step(c, R.UpdateTry(r, proposed)).store == DoAll(c.store, ops)
  {
    ops := [];
    if R.ReqAt(c, r).UpdateGot? && c.reqs[r].input.Some? && proposed.Some? {
      var q := c.reqs[r];
      var out := BeforeUpdate(q.ep, proposed.value, q.input.value);
      if proposed.value.version == q.input.value.version && out.Some? {
        ops := OneOp(c.store, OtherWrite(q.name, out.value.doc, q.input.value.version));
      }
    }
  }

  lemma FinishIsOps(c: R.Core, r: nat, now: Time) returns (ops: seq<Op>)
    ensures R.Step(c, R.DeleteFinish(r, now)).store == DoAll(c.store, ops)
  {
    ops := [];
    if R.ReqAt(c, r).DeleteGot? {
      var q := c.reqs[r];
      if q.obj.doc.finalizers == [] {
        ops := RemoveIsOps(c, q.name);
      } else {
        ops := OneOp(c.store, OtherWrite(q.name, MarkDeleted(q.obj.doc, now), q.obj.version));
      }
    }
  }

  /** Whatever a run of the machine does to the store is interference that the handlers allow for. */
  lemma {:induction false} RunIsOps(c: R.Core, acts: seq<R.Action>) returns (ops: seq<Op>)
    ensures R.RunFrom(c, acts).store == DoAll(c.store, ops)
  {
    if acts == [] {
      ops := [];
    } else {
      var first := RunIsOps(c, acts[..|acts| - 1]);
      var last := StepIsOps(R.RunFrom(c, acts[..|acts| - 1]), acts[|acts| - 1]);
      DoAllConcat(c.store, first, last);
      ops := first + last;
    }
  }

  // The request that an action moves on
  function Mover(a: R.Action): Option<nat> {
    if a.BeginCreate? || a.BeginUpdate? || a.BeginDelete? || a.CollectionRemove? then None else Some(a.r)
  }

  // None of the actions moves request `r` on.
  predicate Leaves(acts: seq<R.Action>, r: nat) {
    forall i :: 0 <= i < |acts| ==> Mover(acts[i]) != Some(r)
  }

  lemma StepLeaves(c: R.Core, a: R.Action, r: nat)
    requires r < |c.reqs| && Mover(a) != Some(r)
    ensures r < |R.Step(c, a).reqs| && R.Step(c, a).reqs[r] == c.reqs[r]
  {
  }

  lemma {:induction false} RunLeaves(c: R.Core, acts: seq<R.Action>, r: nat)
    requires r < |c.reqs| && Leaves(acts, r)
    ensures r < |R.RunFrom(c, acts).reqs| && R.RunFrom(c, acts).reqs[r] == c.reqs[r]
  {
    if acts != [] {
      RunLeaves(c, acts[..|acts| - 1], r);
      StepLeaves(R.RunFrom(c, acts[..|acts| - 1]), acts[|acts| - 1], r);
    }
  }

  // Others run from `c` on, leaving the request where it is.
  lemma OthersRun(c: R.Core, others: seq<R.Action>, r: nat) returns (ops: seq<Op>)
    requires R.Inv(c) && r < |c.reqs| && Leaves(others, r)
    ensures var c' := R.RunFrom(c, others);
            && R.Inv(c') && r < |c'.reqs| && c'.reqs[r] == c.reqs[r]
            && c'.store == DoAll(c.store, ops) && H.WellVersioned(c.store)
  {
    R.RunFromKeepsInv(c, others);
    RunLeaves(c, others, r);
    ops := RunIsOps(c, others);
    H.VersionsInRange(c.log, |c.log|);
  }

  /** A call that is refused, or finds its context cancelled, ends there and changes nothing. */
  lemma RefusalsAgree(c: R.Core, r: nat)
    requires r < |c.reqs|
    ensures c.reqs[r].CreateStart? ==> R.Step(c, R.CreateRefuse(r)) == Refused(c, r)
    ensures c.reqs[r].UpdateTop? ==> R.Step(c, R.UpdateCancel(r)) == Refused(c, r)
    ensures c.reqs[r].DeleteGot? ==> R.Step(c, R.DeleteRefuse(r)) == Refused(c, r)
  {
  }

  function Refused(c: R.Core, r: nat): R.Core
    requires r < |c.reqs| && !c.reqs[r].Notify?
  {
    R.Core(c.store, c.reqs[r := R.Done(c.reqs[r].name, c.reqs[r].began, |c.log|, R.Failed)], c.log)
  }

  // ------------------------------------------------------------ Create

  /** Create in the machine, with any others between its check and its write, does as the handler promises. */
  lemma CreateAgrees(c: R.Core, r: nat, others: seq<R.Action>) returns (gap: seq<Op>, res: Result<Obj, T.Fault>)
    requires R.Inv(c) && R.ReqAt(c, r).CreateStart? && Leaves(others, r)
    ensures var q, c1 := c.reqs[r], R.Step(c, R.CheckExists(r));
            var c2 := R.RunFrom(c1, others);
            var c3 := R.Step(c2, R.CreateWrite(r));
            && c2.store == DoAll(c.store, gap)
            && (if q.name in c.store.files then
                  && T.Created(c.store, q.name, q.doc, true, gap, res, c1.store)
                  && c1.reqs[r] == R.Done(q.name, q.began, |c.log|, R.AlreadyExists) && c3 == c2
                else
                  && T.Created(c.store, q.name, q.doc, true, gap, res, c3.store) && r < |c3.reqs|
                  && c3.reqs[r] == (if res.Success? then R.Notify(q.began, R.Event(R.Added, q.name, res.value))
                                    else R.Done(q.name, q.began, |c2.log|, R.Overtaken(0))))
  {
    var q, c1 := c.reqs[r], R.Step(c, R.CheckExists(r));
    R.StepKeepsInv(c, R.CheckExists(r));
    gap := OthersRun(c1, others, r);
    if q.name in c.store.files {
      res := Failure(T.AlreadyExists);
    } else {
      var at := DoAll(c.store, gap);
      T.CreateOutcome(c.store, q.name, q.doc, gap);
      var w := WriteOutcomeOf(at, q.name, q.doc, 0);
      res := if w == VersionError then Failure(T.Conflict) else Success(Stamp(Obj(q.doc, 0), w));
      OthersAdvance(c.store, gap, q.name);
    }
  }

  // ------------------------------------------------------------ Update

  // How a caller's change arrives at the machine, given what was read
  function Proposal(propose: Obj -> Option<Obj>, input: Option<Obj>): Option<Obj> {
    if input.Some? then propose(input.value) else None
  }

  // Where an attempt leaves the request, by its result
  predicate AttemptLeads(q: R.Req, persist: T.Persist, log: nat, q': R.Req)
    requires q.UpdateTop?
  {
    match persist
    case Persisted(obj) =>
      q' == if obj.doc.finalizers == [] && obj.doc.deletion.Some? then R.OwesRemove(q.name, q.began, log, obj)
            else R.Notify(q.began, R.Event(R.Modified, q.name, obj))
    case GaveUp =>
      q' == if q.attempt < 99 then R.UpdateTop(q.name, q.began, q.ep, q.attempt + 1)
            else R.Done(q.name, q.began, log, R.Exhausted)
    case Abandoned(fault) =>
      && q'.Done? && q'.name == q.name && q'.began == q.began && q'.ended == log
      && (match fault
          case NotFound => q'.outcome == R.NotFound
          case Conflict => q'.outcome.Stale?
          case Invalid => q'.outcome == R.Failed
          case _ => false)
  }

  /**
   An attempt of an update in the machine, with any others between its Get and its Write, does as the
   handler promises: it persists, is refused, or ends the call, in exactly the same cases.
   */
  lemma AttemptAgrees(c: R.Core, r: nat, others: seq<R.Action>, propose: Obj -> Option<Obj>)
    returns (mid: seq<Op>, persist: T.Persist, s': Store)
    requires R.Inv(c) && R.ReqAt(c, r).UpdateTop? && Leaves(others, r)
    ensures var q, c2 := c.reqs[r], R.RunFrom(R.Step(c, R.UpdateGet(r)), others);
            var c3 := R.Step(c2, R.UpdateTry(r, Proposal(propose, Read(c.store, q.name))));
            && c2.store == DoAll(c.store, mid)
            && T.Attempted(c.store, q.name, T.Closure(q.ep, propose), mid, persist, s')
            && c3.store == (if T.Closure(q.ep, propose)(Read(c.store, q.name)).Success? then s' else c2.store)
            && r < |c3.reqs| && AttemptLeads(q, persist, |c2.log|, c3.reqs[r])
  {
    var q, c1 := c.reqs[r], R.Step(c, R.UpdateGet(r));
    R.StepKeepsInv(c, R.UpdateGet(r));
    mid := OthersRun(c1, others, r);
    var c2, input := R.RunFrom(c1, others), Read(c.store, q.name);
    assert c1.reqs[r] == R.UpdateGot(q.name, q.began, |c.log|, q.ep, q.attempt, input);
    assert R.ReqOk(c.log, r, q);
    var tryUpdate := T.Closure(q.ep, propose);
    if tryUpdate(input).Failure? {
      persist, s' := T.Abandoned(tryUpdate(input).error), c.store;
    } else {
      var out, v := tryUpdate(input).value, InputVersion(input);
      T.TryOutcome(c.store, q.name, tryUpdate, mid);
      persist := T.WriteResultOf(out, WriteOutcomeOf(c2.store, q.name, out.doc, v));
      s' := Stores.Write(c2.store, q.name, out.doc, v);
    }
    AttemptStep(c2, r, q, propose);
  }

  // The step itself, as a case distinction on the handler's terms
  lemma AttemptStep(c: R.Core, r: nat, q: R.Req, propose: Obj -> Option<Obj>)
    requires q.UpdateTop? && q.attempt < R.MAX_ATTEMPTS && r < |c.reqs|
    requires c.reqs[r].UpdateGot? && c.reqs[r].name == q.name && c.reqs[r].began == q.began
    requires c.reqs[r].ep == q.ep && c.reqs[r].attempt == q.attempt
    ensures var input := c.reqs[r].input;
            var c' := R.Step(c, R.UpdateTry(r, Proposal(propose, input)));
            var out := T.Closure(q.ep, propose)(input);
            && r < |c'.reqs|
            && if out.Failure? then c'.store == c.store && AttemptLeads(q, T.Abandoned(out.error), |c.log|, c'.reqs[r])
               else
                 var w := WriteOutcomeOf(c.store, q.name, out.value.doc, InputVersion(input));
                 && c'.store == Stores.Write(c.store, q.name, out.value.doc, InputVersion(input))
                 && AttemptLeads(q, T.WriteResultOf(out.value, w), |c.log|, c'.reqs[r])
  {
  }

  /** The Remove that an update owes, with any others before it, does as the handler promises. */
  lemma RemoveAgrees(c: R.Core, r: nat, others: seq<R.Action>) returns (gap: seq<Op>)
    requires R.Inv(c) && R.ReqAt(c, r).OwesRemove? && Leaves(others, r)
    ensures var q, c2 := c.reqs[r], R.RunFrom(c, others);
            var c3 := R.Step(c2, R.UpdateRemove(r));
            && c2.store == DoAll(c.store, gap) && r < |c3.reqs|
            && (if q.name in c2.store.files then
                  && T.Updated(c.store, q.name, T.Persisted(q.obj), gap, Success(q.obj),
                               Some(R.Event(R.Deleted, q.name, q.obj)), c3.store)
                  && c3.reqs[r] == R.Notify(q.began, R.Event(R.Deleted, q.name, q.obj))
                else
                  && T.Updated(c.store, q.name, T.Persisted(q.obj), gap, Failure(T.NotFound), None, c3.store)
                  && c3.reqs[r] == R.Done(q.name, q.began, |c2.log|, R.Vanished(q.obj)))
  {
    gap := OthersRun(c, others, r);
    assert R.ReqOk(c.log, r, c.reqs[r]);
    var at := DoAll(c.store, gap);
    if c.reqs[r].name !in at.files { assert Stores.Remove(at, c.reqs[r].name).files == at.files; }
  }

  // ------------------------------------------------------------ Delete

  // Where Delete leaves the request, by its result
  predicate DeleteLeads(q: R.Req, o: Option<Obj>, res: Result<Obj, T.Fault>, log: nat, q': R.Req)
    requires q.DeleteTop?
  {
    if res.Success? then
      var kind := if o.Some? && o.value.doc.finalizers == [] then R.Deleted else R.Modified;
      q' == R.Notify(q.began, R.Event(kind, q.name, res.value))
    else
      && q'.Done? && q'.name == q.name && q'.began == q.began && q'.ended == log
      && (match res.error
          case NotFound => q'.outcome == R.NotFound
          case Conflict => q'.outcome.Overtaken?
          case Gone => q'.outcome == R.Gone
          case _ => false)
  }

  // What the mark's write tells the caller
  function MarkResult(marked: Obj, w: WriteOutcome): Result<Obj, T.Fault> {
    if Accepted(w) then Success(Stamp(marked, w)) else Failure(if w == VersionError then T.Conflict else T.Gone)
  }

  lemma MarkStep(c: R.Core, r: nat, q: R.Req, now: Time)
    requires q.DeleteTop? && r < |c.reqs| && c.reqs[r].DeleteGot? && c.reqs[r].obj.doc.finalizers != []
    requires c.reqs[r].name == q.name && c.reqs[r].began == q.began
    ensures var obj, c' := c.reqs[r].obj, R.Step(c, R.DeleteFinish(r, now));
            var marked := obj.(doc := MarkDeleted(obj.doc, now));
            var w := WriteOutcomeOf(c.store, q.name, marked.doc, marked.version);
            && c'.store == Stores.Write(c.store, q.name, marked.doc, marked.version)
            && r < |c'.reqs| && DeleteLeads(q, Some(obj), MarkResult(marked, w), |c.log|, c'.reqs[r])
  {
  }

  lemma DropStep(c: R.Core, r: nat, q: R.Req, now: Time)
    requires q.DeleteTop? && r < |c.reqs| && c.reqs[r].DeleteGot? && c.reqs[r].obj.doc.finalizers == []
    requires c.reqs[r].name == q.name && c.reqs[r].began == q.began
    ensures var obj, c' := c.reqs[r].obj, R.Step(c, R.DeleteFinish(r, now));
            && c'.store == Stores.Remove(c.store, q.name) && r < |c'.reqs|
            && DeleteLeads(q, Some(obj), if q.name in c.store.files then Success(obj) else Failure(T.NotFound),
                           |c.log|, c'.reqs[r])
  {
    if q.name !in c.store.files { assert Stores.Remove(c.store, q.name).files == c.store.files; }
  }

  /** Delete in the machine, with any others between its Get and its last section, does as the handler promises. */
  lemma DeleteAgrees(c: R.Core, r: nat, now: Time, others: seq<R.Action>)
    returns (gap: seq<Op>, res: Result<Obj, T.Fault>)
    requires R.Inv(c) && R.ReqAt(c, r).DeleteTop? && Leaves(others, r)
    ensures var q, o, c1 := c.reqs[r], Read(c.store, c.reqs[r].name), R.Step(c, R.DeleteGet(r));
            var c2 := R.RunFrom(c1, others);
            var c3 := R.Step(c2, R.DeleteFinish(r, now));
            && c2.store == DoAll(c.store, gap)
            && (if o.None? then
                  && T.Deleted(c.store, q.name, true, now, gap, res, c1.store)
                  && DeleteLeads(q, o, res, |c.log|, c1.reqs[r]) && c3 == c2
                else
                  && T.Deleted(c.store, q.name, true, now, gap, res, c3.store)
                  && r < |c3.reqs| && DeleteLeads(q, o, res, |c2.log|, c3.reqs[r]))
  {
    var q, o, c1 := c.reqs[r], Read(c.store, c.reqs[r].name), R.Step(c, R.DeleteGet(r));
    R.StepKeepsInv(c, R.DeleteGet(r));
    gap := OthersRun(c1, others, r);
    var at := DoAll(c.store, gap);
    if o.None? {
      res := Failure(T.NotFound);
    } else if o.value.doc.finalizers == [] {
      res := if q.name in at.files then Success(o.value) else Failure(T.NotFound);
      DropStep(R.RunFrom(c1, others), r, q, now);
    } else {
      var marked := o.value.(doc := MarkDeleted(o.value.doc, now));
      var w := WriteOutcomeOf(at, q.name, marked.doc, marked.version);
      T.MarkOutcome(c.store, q.name, now, gap);
      res := MarkResult(marked, w);
      MarkStep(R.RunFrom(c1, others), r, q, now);
    }
  }

  // ------------------------------------------------------------ the initial list of a watch

  lemma {:induction false} InitEventsExactly(s: Store, names: seq<Path>, sel: Selector, e: R.Event)
    requires forall n :: n in names ==> n in s.files
    ensures e in W.InitEvents(s, names, sel) <==>
              e.kind == R.Added && e.name in names && Read(s, e.name) == Some(e.obj) && sel(e.name, e.obj.doc.labels)
  {
    if names != [] {
      var front, last := names[..|names| - 1], names[|names| - 1];
      InitEventsExactly(s, front, sel, e);
      assert e.name in names <==> e.name in front || e.name == last;
      var first := R.Event(R.Added, last, Read(s, last).value);
      assert e in W.InitEvents(s, names, sel) <==>
               e in W.InitEvents(s, front, sel) || (e == first && sel(first.name, first.obj.doc.labels));
    }
  }

  function Items(es: seq<R.Event>): seq<(Path, Obj)> {
    seq(|es|, i requires 0 <= i < |es| => (es[i].name, es[i].obj))
  }

  /** A watch begins with what List would return at that instant, each object as added. */
  lemma WatchBeginsWithList(s: Store, dir: Path, names: seq<Path>, sel: Selector)
    requires W.Enumerates(names, s, dir)
    ensures T.IsListing(s, dir, sel, Items(W.InitEvents(s, names, sel)))
  {
    var es := W.InitEvents(s, names, sel);
    WatchOnce.InitEventsOnce(s, names, sel);
    forall p, o ensures (p, o) in Items(es) <==> JsonBelow(dir, p) && Read(s, p) == Some(o) && sel(p, o.doc.labels) {
      var e := R.Event(R.Added, p, o);
      InitEventsExactly(s, names, sel, e);
      if (p, o) in Items(es) {
        var i :| 0 <= i < |es| && Items(es)[i] == (p, o);
        InitEventsExactly(s, names, sel, es[i]);
      }
      if e in es {
        var i :| 0 <= i < |es| && es[i] == e;
        assert Items(es)[i] == (p, o);
      }
    }
  }
}
