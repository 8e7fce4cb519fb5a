/**
 Each notification reaches each watch exactly once. A consumer may be told of an object twice, once
 by the initial list and once by the request that wrote it, but by neither of them twice; and while a
 watch is registered no notification passes it by.
 */
module WatchOnce {
  import opened Wrappers
  import opened Objects
  import opened Paths
  import opened Stores
  import opened WatchSet
  import opened WatchDelivery
  import R = Requests

  // The event that a request announces, or has announced
  function EventOf(q: R.Req): Option<Event> {
    match q
    case Notify(_, ev) => Some(ev)
    case Done(name, _, _, Succeeded(kind, obj)) => Some(R.Event(kind, name, obj))
    case _ => None
  }

  // Request `r` has reached watch `w`, and will not reach it again.
  predicate Reached(s: Sys, r: nat, w: nat) {
    || (r < |s.core.reqs| && s.core.reqs[r].Done?)
    || (R.ReqAt(s.core, r).Notify? && r in s.readers && w !in s.readers[r])
  }

  predicate SentBy(s: Sys, r: nat, w: nat, e: Event) {
    Reached(s, r, w) && EventOf(R.ReqAt(s.core, r)) == Some(e)
  }

  ghost predicate FeedOnce(s: Sys, w: nat)
    requires w < |s.watches|
  {
    var x := s.watches[w];
    && |x.senders| == |x.received|
    && (forall i :: 0 <= i < |x.senders| ==> SentBy(s, x.senders[i], w, x.received[i]))
    && (forall i, j :: 0 <= i < j < |x.senders| ==> x.senders[i] != x.senders[j])
    && NamedOnce(x.init) && AllWanted(x.init, x.sel)
  }

  // Initial events announce objects, and only those that the selector accepts.
  ghost predicate AllWanted(es: seq<Event>, sel: Selector) {
    forall i :: 0 <= i < |es| ==> es[i].kind == R.Added && sel(es[i].name, es[i].obj.doc.labels)
  }

  // No object is the subject of two of the events.
  ghost predicate NamedOnce(es: seq<Event>) {
    forall i, j :: 0 <= i < j < |es| ==> es[i].name != es[j].name
  }

  ghost predicate AllOnce(s: Sys) {
    forall w {:trigger FeedOnce(s, w)} :: 0 <= w < |s.watches| ==> FeedOnce(s, w)
  }

  // ------------------------------------------------------------ steps

  // What was sent stays sent by the same request, as long as the requests behind it stay as they are.
  lemma FeedKept(s: Sys, s': Sys, w: nat)
    requires w < |s.watches| && w < |s'.watches| && FeedOnce(s, w)
    requires SameHistory(s.watches[w], s'.watches[w])
    requires forall r: nat :: Reached(s, r, w) ==> Reached(s', r, w) && SameEvent(s.core, s'.core, r)
    ensures FeedOnce(s', w)
  {
    var x := s.watches[w];
    forall i | 0 <= i < |x.senders| ensures SentBy(s', x.senders[i], w, x.received[i]) {
      assert SentBy(s, x.senders[i], w, x.received[i]);
    }
  }

  predicate SameEvent(c: R.Core, c': R.Core, r: nat) {
    EventOf(R.ReqAt(c', r)) == EventOf(R.ReqAt(c, r))
  }

  // A call that has returned has returned for good.
  lemma DoneStays(c: R.Core, a: R.Action, r: nat)
    requires r < |c.reqs| && c.reqs[r].Done?
    ensures r < |R.Step(c, a).reqs| && R.Step(c, a).reqs[r] == c.reqs[r]
  {
  }

  lemma RequestSendsNothing(s: Sys, a: R.Action)
    requires AllOnce(s) && ReadersOk(s) && Enabled(s, Request(a))
    ensures AllOnce(Effect(s, Request(a)))
  {
    var s' := Effect(s, Request(a));
    forall w | 0 <= w < |s'.watches| ensures FeedOnce(s', w) {
      assert FeedOnce(s, w);
      forall r: nat | Reached(s, r, w) ensures Reached(s', r, w) && SameEvent(s.core, s'.core, r) {
        if r < |s.core.reqs| && s.core.reqs[r].Done? {
          DoneStays(s.core, a, r);
        } else {
          assert ReaderOk(s, r);
          NotifyStays(s.core, a, r);
        }
      }
      FeedKept(s, s', w);
    }
  }

  // A request that takes the lock has not reached any watch yet.
  lemma RLockSendsNothing(s: Sys, r: nat)
    requires AllOnce(s) && Enabled(s, RLock(r))
    ensures AllOnce(Effect(s, RLock(r)))
  {
    var s' := Effect(s, RLock(r));
    forall w | 0 <= w < |s'.watches| ensures FeedOnce(s', w) {
      assert FeedOnce(s, w);
      FeedKept(s, s', w);
    }
  }

  // The watch that receives the event had not received it from this request before.
  lemma SendSendsOnce(s: Sys, r: nat, w: nat)
    requires AllOnce(s) && SetOk(s) && Enabled(s, Send(r, w))
    ensures AllOnce(Effect(s, Send(r, w)))
  {
    assert ReaderOk(s, r) && Placed(s, w);
    var s' := Effect(s, Send(r, w));
    forall v | 0 <= v < |s'.watches| ensures FeedOnce(s', v) {
      assert FeedOnce(s, v);
      if v != w { FeedKept(s, s', v); } else { ReceiverOnce(s, r, w); }
    }
  }

  lemma ReceiverOnce(s: Sys, r: nat, w: nat)
    requires Enabled(s, Send(r, w)) && !s.watches[w].updateClosed && FeedOnce(s, w)
    ensures FeedOnce(Effect(s, Send(r, w)), w)
  {
    var x, s' := s.watches[w], Effect(s, Send(r, w));
    var y := s'.watches[w];
    forall i | 0 <= i < |y.senders| ensures SentBy(s', y.senders[i], w, y.received[i]) {
      if i < |x.senders| { assert SentBy(s, x.senders[i], w, x.received[i]); }
    }
    forall i | 0 <= i < |x.senders| ensures x.senders[i] != r {
      assert SentBy(s, x.senders[i], w, x.received[i]);
    }
  }

  lemma RUnlockSendsNothing(s: Sys, r: nat)
    requires AllOnce(s) && ReadersOk(s) && Enabled(s, RUnlock(r))
    ensures AllOnce(Effect(s, RUnlock(r)))
  {
    var s' := Effect(s, RUnlock(r));
    assert ReaderOk(s, r);
    forall w | 0 <= w < |s'.watches| ensures FeedOnce(s', w) {
      assert FeedOnce(s, w);
      FeedKept(s, s', w);
    }
  }

  lemma {:induction false} InitEventsOnce(s: Store, names: seq<Path>, sel: Selector)
    requires forall n :: n in names ==> n in s.files
    requires forall i, j :: 0 <= i < j < |names| ==> names[i] != names[j]
    ensures var es := InitEvents(s, names, sel);
            NamedOnce(es) && AllWanted(es, sel) && forall i :: 0 <= i < |es| ==> es[i].name in names
  {
    if names != [] {
      var front, last := names[..|names| - 1], names[|names| - 1];
      InitEventsOnce(s, front, sel);
      var es, fs := InitEvents(s, names, sel), InitEvents(s, front, sel);
      assert forall n :: n in names <==> n in front || n == last;
      forall i | 0 <= i < |es| ensures es[i].name in names && (i < |fs| ==> es[i].name != last) {
        if i < |fs| { assert es[i] == fs[i] && fs[i].name in front; }
      }
    }
  }

  lemma ListSendsOnce(s: Sys, w: nat, names: seq<Path>)
    requires AllOnce(s) && Enabled(s, ListInit(w, names))
    ensures AllOnce(Effect(s, ListInit(w, names)))
  {
    var s' := Effect(s, ListInit(w, names));
    InitEventsOnce(s.core.store, names, s.watches[w].sel);
    forall v | 0 <= v < |s'.watches| ensures FeedOnce(s', v) {
      assert FeedOnce(s, v);
      if v != w {
        FeedKept(s, s', v);
      } else {
        forall i | 0 <= i < |s'.watches[w].senders|
          ensures SentBy(s', s'.watches[w].senders[i], w, s'.watches[w].received[i])
        {
          assert SentBy(s, s.watches[w].senders[i], w, s.watches[w].received[i]);
        }
      }
    }
  }

  // The other steps send nothing and leave requests and readers alone.
  lemma OtherStepsSendNothing(s: Sys, a: Action)
    requires AllOnce(s) && Enabled(s, a)
    requires !a.Request? && !a.ListInit? && !a.RLock? && !a.Send? && !a.RUnlock?
    ensures AllOnce(Effect(s, a))
  {
    OtherStepsFrame(s, a);
    var s' := Effect(s, a);
    forall v | 0 <= v < |s'.watches| ensures FeedOnce(s', v) {
      if v < |s.watches| {
        assert FeedOnce(s, v);
        FeedKept(s, s', v);
      }
    }
  }

  lemma StepSendsOnce(s: Sys, a: Action)
    requires AllOnce(s) && SetOk(s)
    ensures AllOnce(Step(s, a))
  {
    if Enabled(s, a) {
      match a
      case Request(a') => RequestSendsNothing(s, a');
      case ListInit(w, names) => ListSendsOnce(s, w, names);
      case RLock(r) => RLockSendsNothing(s, r);
      case RUnlock(r) => RUnlockSendsNothing(s, r);
      case Send(r, w) => SendSendsOnce(s, r, w);
      case _ => OtherStepsSendNothing(s, a);
    }
  }

  lemma {:induction false} ReachableOnce(dir: Path, acts: seq<Action>)
    ensures AllOnce(Run(dir, acts))
  {
    if acts != [] {
      ReachableOnce(dir, acts[..|acts| - 1]);
      ReachableInv(dir, acts[..|acts| - 1]);
      StepSendsOnce(Run(dir, acts[..|acts| - 1]), acts[|acts| - 1]);
    }
  }

  /**
   In every run each watch receives each request's event at most once: every event received is the
   event of the request behind it, different events received come from different requests, and the
   initial list announces objects that the selector accepts, none of them twice.
   */
  lemma EachNotificationOnce(dir: Path, acts: seq<Action>, w: nat)
    requires w < |Run(dir, acts).watches|
    ensures var s, x := Run(dir, acts), Run(dir, acts).watches[w];
            && |x.senders| == |x.received|
            && (forall i :: 0 <= i < |x.received| ==> EventOf(R.ReqAt(s.core, x.senders[i])) == Some(x.received[i]))
            && (forall i, j :: 0 <= i < j < |x.received| ==> x.senders[i] != x.senders[j])
            && (forall i, j :: 0 <= i < j < |x.init| ==> x.init[i].name != x.init[j].name)
            && (forall i :: 0 <= i < |x.init| ==>
                  x.init[i].kind == R.Added && x.sel(x.init[i].name, x.init[i].obj.doc.labels))
  {
    ReachableOnce(dir, acts);
    assert FeedOnce(Run(dir, acts), w);
  }

  /** No event is handed to a consumer that its selector excludes. */
  lemma OutputIsSelected(dir: Path, acts: seq<Action>, w: nat, i: nat)
    requires w < |Run(dir, acts).watches| && i < |Run(dir, acts).watches[w].out|
    ensures var x := Run(dir, acts).watches[w];
            x.sel(x.out[i].name, x.out[i].obj.doc.labels)
  {
    var x := Run(dir, acts).watches[w];
    EachNotificationOnce(dir, acts, w);
    var picked, kept := OutputFollowsInput(dir, acts, w);
    assert x.out[i] == (x.init + Pick(x.received, picked))[kept[i]];
    if kept[i] >= |x.init| { assert picked[kept[i] - |x.init|] in picked; }
  }

  /** A watch has the selector it was asked for, from the first step to the last. */
  lemma SelectorIsKept(s: Sys, a: Action, w: nat)
    ensures w < |s.watches| ==> w < |Step(s, a).watches| && Step(s, a).watches[w].sel == s.watches[w].sel
    ensures a.CallWatch? ==> |Step(s, a).watches| == |s.watches| + 1 && Step(s, a).watches[|s.watches|].sel == a.sel
  {
    if Enabled(s, a) && !a.Request? && !a.ListInit? && !a.RLock? && !a.Send? && !a.RUnlock? {
      OtherStepsFrame(s, a);
    }
  }

  // ------------------------------------------------------------ at least once

  // Request `r` has succeeded with an event for this WatchSet.
  predicate Announced(s: Sys, r: nat) {
    var q := R.ReqAt(s.core, r);
    q.Done? && q.outcome.Succeeded? && JsonBelow(s.dir, q.name)
  }

  // If request `r` has passed watch `w`, it has reached it.
  predicate NotPassedBy(s: Sys, r: nat, w: nat)
    requires w < |s.watches|
  {
    Announced(s, r) || (Announces(s, r) && r in s.readers && w !in s.readers[r]) ==> r in s.watches[w].senders
  }

  lemma RequestPassesNone(s: Sys, a: R.Action, r: nat, w: nat)
    requires w < |s.watches| && NotPassedBy(s, r, w) && Enabled(s, Request(a)) && ReadersOk(s)
    ensures NotPassedBy(Effect(s, Request(a)), r, w)
  {
    if r < |s.core.reqs| && s.core.reqs[r].Done? {
      DoneStays(s.core, a, r);
    } else if R.ReqAt(s.core, r).Notify? {
      if a != R.NotifyDone(r) { NotifyStays(s.core, a, r); }
    } else {
      SuccessNeedsNotify(s.core, a, r);
      assert r in s.readers ==> ReaderOk(s, r);
    }
  }

  // No call succeeds without a notification.
  lemma SuccessNeedsNotify(c: R.Core, a: R.Action, r: nat)
    requires !R.ReqAt(c, r).Notify? && !(r < |c.reqs| && c.reqs[r].Done?)
    ensures var q := R.ReqAt(R.Step(c, a), r); !(q.Done? && q.outcome.Succeeded?)
  {
  }

  // While it holds the lock a request goes to every registered watch.
  lemma RLockPassesNone(s: Sys, q: nat, r: nat, w: nat)
    requires SetOk(s) && w < |s.watches| && NotPassedBy(s, r, w) && InNodes(s.watches[w].phase)
    requires Enabled(s, RLock(q))
    ensures NotPassedBy(Effect(s, RLock(q)), r, w)
  {
    assert Placed(s, w) && s.nodes[s.watches[w].id] == w;
  }

  lemma SendPassesNone(s: Sys, q: nat, v: nat, r: nat, w: nat)
    requires SetOk(s) && w < |s.watches| && NotPassedBy(s, r, w) && Enabled(s, Send(q, v))
    ensures NotPassedBy(Effect(s, Send(q, v)), r, w)
  {
    assert ReaderOk(s, q) && Placed(s, v);
    var x, y := s.watches[w], Effect(s, Send(q, v)).watches[w];
    assert x.senders <= y.senders;
  }

  lemma RUnlockPassesNone(s: Sys, q: nat, r: nat, w: nat)
    requires SetOk(s) && w < |s.watches| && NotPassedBy(s, r, w) && Enabled(s, RUnlock(q))
    ensures NotPassedBy(Effect(s, RUnlock(q)), r, w)
  {
    assert ReaderOk(s, q);
  }

  lemma OtherStepsPassNone(s: Sys, a: Action, r: nat, w: nat)
    requires w < |s.watches| && NotPassedBy(s, r, w) && Enabled(s, a)
    requires !a.Request? && !a.RLock? && !a.Send? && !a.RUnlock?
    ensures w < |Effect(s, a).watches| && NotPassedBy(Effect(s, a), r, w)
  {
    if !a.ListInit? { OtherStepsFrame(s, a); }
  }

  lemma StepPassesNone(s: Sys, a: Action, r: nat, w: nat)
    requires SetOk(s) && w < |s.watches| && NotPassedBy(s, r, w) && InNodes(s.watches[w].phase)
    ensures w < |Step(s, a).watches| && NotPassedBy(Step(s, a), r, w)
  {
    if Enabled(s, a) {
      match a
      case Request(a') => RequestPassesNone(s, a', r, w);
      case RLock(q) => RLockPassesNone(s, q, r, w);
      case Send(q, v) => SendPassesNone(s, q, v, r, w);
      case RUnlock(q) => RUnlockPassesNone(s, q, r, w);
      case _ => OtherStepsPassNone(s, a, r, w);
    }
  }

  // The watch is registered in every state of the run from `s` on.
  predicate Throughout(s: Sys, acts: seq<Action>, w: nat) {
    && IsNode(RunFrom(s, acts), w)
    && (acts == [] || Throughout(s, acts[..|acts| - 1], w))
  }

  lemma {:induction false} RegisteredFirst(s: Sys, acts: seq<Action>, w: nat)
    requires Throughout(s, acts, w)
    ensures IsNode(s, w)
  {
    if acts != [] { RegisteredFirst(s, acts[..|acts| - 1], w); }
  }

  lemma {:induction false} RunPassesNone(s: Sys, acts: seq<Action>, r: nat, w: nat)
    requires SetOk(s) && Throughout(s, acts, w) && w < |s.watches| && NotPassedBy(s, r, w)
    ensures SetOk(RunFrom(s, acts)) && NotPassedBy(RunFrom(s, acts), r, w)
  {
    if acts != [] {
      var front, a := acts[..|acts| - 1], acts[|acts| - 1];
      RunPassesNone(s, front, r, w);
      StepKeepsSet(RunFrom(s, front), a);
      StepPassesNone(RunFrom(s, front), a, r, w);
    }
  }

  /**
   Every event reaches every watch: a call that has yet to begin its notification, and succeeds while
   the watch stays registered, has sent the watch its event, whatever kind of event it is.
   */
  lemma EveryEventReachesEveryWatch(dir: Path, acts: seq<Action>, more: seq<Action>, r: nat, w: nat)
    requires Throughout(Run(dir, acts), more, w) && !R.ReqAt(Run(dir, acts).core, r).Notify?
    requires r < |Run(dir, acts).core.reqs| ==> !Run(dir, acts).core.reqs[r].Done?
    requires var q := R.ReqAt(RunFrom(Run(dir, acts), more).core, r);
             q.Done? && q.outcome.Succeeded? && JsonBelow(RunFrom(Run(dir, acts), more).dir, q.name)
    ensures var s := RunFrom(Run(dir, acts), more);
            && w < |s.watches| && r in s.watches[w].senders
  {
    ReachableInv(dir, acts);
    RegisteredFirst(Run(dir, acts), more, w);
    RunPassesNone(Run(dir, acts), more, r, w);
  }
}
