/**
 What watches receive: no stored object is missed, whatever the interleaving of writers with the
 registration and the initial list, and output order is the order of events handled.
 */
module WatchDelivery {
  import opened Wrappers
  import opened Objects
  import opened Paths
  import opened Stores
  import opened History
  import opened WatchSet
  import R = Requests

  // The event carries the stored object: same name, same version, same encoding.
  predicate About(e: Event, n: Path, st: Stored) {
    e.name == n && e.obj.version == st.version && Encode(e.obj.doc) == st.data
  }

  ghost predicate AmongEvents(es: seq<Event>, n: Path, st: Stored) {
    exists k :: 0 <= k < |es| && About(es[k], n, st)
  }

  // Sent to the watch, as an initial event or through its update channel
  ghost predicate Sent(x: Watch, n: Path, st: Stored) {
    AmongEvents(x.init, n, st) || AmongEvents(x.received, n, st)
  }

  // Request `r` has still to send the object to watch `w`.
  predicate Pending(s: Sys, r: nat, w: nat, n: Path, st: Stored) {
    && R.ReqAt(s.core, r).Notify? && About(s.core.reqs[r].ev, n, st)
    && (r in s.readers ==> w in s.readers[r])
  }

  predicate AwaitsRemoval(s: Sys, r: nat, n: Path) {
    R.ReqAt(s.core, r).OwesRemove? && s.core.reqs[r].name == n
  }

  predicate Listening(p: Phase) {
    p.Listed? || p.Live?
  }

  predicate Wants(s: Sys, w: nat, n: Path) {
    && w < |s.watches| && Listening(s.watches[w].phase)
    && n in s.core.store.files && JsonBelow(s.dir, n)
    && s.watches[w].sel(n, Decode(s.core.store.files[n].data).labels)
  }

  ghost predicate Covered(s: Sys, w: nat, n: Path)
    requires w < |s.watches| && n in s.core.store.files
  {
    || Sent(s.watches[w], n, s.core.store.files[n])
    || (exists r :: Pending(s, r, w, n, s.core.store.files[n]))
    || (exists r :: AwaitsRemoval(s, r, n))
  }

  ghost predicate NothingMissed(s: Sys) {
    forall w: nat, n :: Wants(s, w, n) ==> Covered(s, w, n)
  }

  // Entry `k` bears the event out: an accepted write of that object at that version, or a removal
  // of an object that had been stored exactly as the event shows it.
  ghost predicate Witness(log: Log, k: nat, ev: Event)
    requires k < |log|
  {
    log[k].name == ev.name &&
    if ev.kind == R.Deleted then log[k].Removed? && R.SeenDuring(log, 0, k, ev.name, ev.obj)
    else log[k].Wrote? && log[k].version == ev.obj.version && log[k].data == Encode(ev.obj.doc)
  }

  // An event about an object of the resource, borne out by the history
  ghost predicate Genuine(log: Log, dir: Path, ev: Event) {
    JsonBelow(dir, ev.name) && exists k :: 0 <= k < |log| && Witness(log, k, ev)
  }

  ghost predicate AllGenuine(log: Log, dir: Path, es: seq<Event>) {
    forall i :: 0 <= i < |es| ==> Genuine(log, dir, es[i])
  }

  ghost predicate FeedGenuine(log: Log, dir: Path, x: Watch) {
    AllGenuine(log, dir, x.init) && AllGenuine(log, dir, x.received)
  }

  ghost predicate NothingInvented(s: Sys) {
    forall w {:trigger FeedGenuine(s.core.log, s.dir, s.watches[w])} ::
      0 <= w < |s.watches| ==> FeedGenuine(s.core.log, s.dir, s.watches[w])
  }

  ghost predicate Inv(s: Sys) {
    R.Inv(s.core) && SetOk(s) && NothingMissed(s) && NothingInvented(s)
  }

  // ------------------------------------------------------------ requests

  // A request step leaves a stored value alone, or leaves a request that will announce or remove it.
  lemma StepAnnounces(c: R.Core, a: R.Action, n: Path) returns (r: nat)
    requires R.Inv(c) && n in R.Step(c, a).store.files
    requires n in c.store.files ==> c.store.files[n] != R.Step(c, a).store.files[n]
    ensures var c' := R.Step(c, a);
            && !R.ReqAt(c, r).Notify?
            && (|| (R.ReqAt(c', r).Notify? && About(c'.reqs[r].ev, n, c'.store.files[n]))
                || (R.ReqAt(c', r).OwesRemove? && c'.reqs[r].name == n))
  {
    if a.CreateWrite? || a.UpdateTry? || a.DeleteFinish? {
      r := a.r;
      if a.UpdateTry? { UpdateAnnounces(c, a.r, a.proposed, n); }
    } else {
      StoresNothing(c, a, n);
      assert false;
    }
  }

  lemma UpdateAnnounces(c: R.Core, r: nat, proposed: Option<Obj>, n: Path)
    requires var c' := R.Step(c, R.UpdateTry(r, proposed));
             n in c'.store.files && (n in c.store.files ==> c.store.files[n] != c'.store.files[n])
    ensures var c' := R.Step(c, R.UpdateTry(r, proposed));
            && R.ReqAt(c, r).UpdateGot?
            && (|| (R.ReqAt(c', r).Notify? && About(c'.reqs[r].ev, n, c'.store.files[n]))
                || (R.ReqAt(c', r).OwesRemove? && c'.reqs[r].name == n))
  {
  }

  lemma StoresNothing(c: R.Core, a: R.Action, n: Path)
    requires !a.CreateWrite? && !a.UpdateTry? && !a.DeleteFinish?
    ensures n in R.Step(c, a).store.files ==> n in c.store.files && c.store.files[n] == R.Step(c, a).store.files[n]
  {
  }

  lemma RemovalStays(c: R.Core, a: R.Action, r: nat, n: Path)
    requires R.ReqAt(c, r).OwesRemove? && c.reqs[r].name == n && n in R.Step(c, a).store.files
    ensures R.ReqAt(R.Step(c, a), r) == c.reqs[r]
  {
  }

  lemma RequestMissesNothing(s: Sys, a: R.Action)
    requires Inv(s) && Enabled(s, Request(a))
    ensures NothingMissed(s.(core := R.Step(s.core, a)))
  {
    var s' := s.(core := R.Step(s.core, a));
    forall w: nat, n | Wants(s', w, n) ensures Covered(s', w, n) {
      var st := s'.core.store.files[n];
      if n in s.core.store.files && s.core.store.files[n] == st {
        assert Wants(s, w, n) && Covered(s, w, n);
        if r: nat :| Pending(s, r, w, n, st) {
          NotifyStays(s.core, a, r);
          assert Pending(s', r, w, n, st);
        } else if r: nat :| AwaitsRemoval(s, r, n) {
          RemovalStays(s.core, a, r, n);
          assert AwaitsRemoval(s', r, n);
        }
      } else {
        var r := StepAnnounces(s.core, a, n);
        assert r in s.readers ==> ReaderOk(s, r);
        assert Pending(s', r, w, n, st) || AwaitsRemoval(s', r, n);
      }
    }
  }

  // ------------------------------------------------------------ the initial list

  lemma {:induction false} InitEventsCover(s: Store, names: seq<Path>, sel: Selector, n: Path)
    requires forall m :: m in names ==> m in s.files
    requires WellVersioned(s) && n in names && sel(n, Decode(s.files[n].data).labels)
    ensures AmongEvents(InitEvents(s, names, sel), n, s.files[n])
  {
    var front, last := names[..|names| - 1], names[|names| - 1];
    var es := InitEvents(s, names, sel);
    if last == n {
      assert About(es[|es| - 1], n, s.files[n]);
    } else {
      InitEventsCover(s, front, sel, n);
      var fs := InitEvents(s, front, sel);
      var k :| 0 <= k < |fs| && About(fs[k], n, s.files[n]);
      assert es[k] == fs[k];
    }
  }

  lemma ListMissesNothing(s: Sys, w: nat, names: seq<Path>)
    requires Inv(s) && Enabled(s, ListInit(w, names))
    ensures NothingMissed(Effect(s, ListInit(w, names)))
  {
    var s' := Effect(s, ListInit(w, names));
    VersionsInRange(s.core.log, |s.core.log|);
    forall v: nat, n | Wants(s', v, n) ensures Covered(s', v, n) {
      if v == w {
        InitEventsCover(s.core.store, names, s.watches[w].sel, n);
      } else {
        assert Wants(s, v, n);
        CoverageKept(s, s', v, n);
      }
    }
  }

  // ------------------------------------------------------------ notification

  // What covers a watch keeps covering it while the requests and what was sent to it are kept.
  lemma CoverageKept(s: Sys, s': Sys, w: nat, n: Path)
    requires w < |s.watches| && w < |s'.watches| && n in s.core.store.files && Covered(s, w, n)
    requires s'.core == s.core && s'.dir == s.dir && s'.readers == s.readers
    requires s'.watches[w].init == s.watches[w].init && s'.watches[w].received == s.watches[w].received
    ensures Covered(s', w, n)
  {
    var st := s.core.store.files[n];
    if r: nat :| Pending(s, r, w, n, st) {
      assert Pending(s', r, w, n, st);
    } else if r: nat :| AwaitsRemoval(s, r, n) {
      assert AwaitsRemoval(s', r, n);
    }
  }

  lemma RLockMissesNothing(s: Sys, r: nat)
    requires Inv(s) && Enabled(s, RLock(r))
    ensures NothingMissed(Effect(s, RLock(r)))
  {
    var s' := Effect(s, RLock(r));
    forall w: nat, n | Wants(s', w, n) ensures Covered(s', w, n) {
      assert Wants(s, w, n) && Covered(s, w, n);
      assert Placed(s, w) && s.nodes[s.watches[w].id] == w;
      var st := s.core.store.files[n];
      if q: nat :| Pending(s, q, w, n, st) {
        assert Pending(s', q, w, n, st);
      } else if q: nat :| AwaitsRemoval(s, q, n) {
        assert AwaitsRemoval(s', q, n);
      }
    }
  }

  lemma SendMissesNothing(s: Sys, r: nat, w: nat)
    requires Inv(s) && Enabled(s, Send(r, w))
    ensures NothingMissed(Effect(s, Send(r, w)))
  {
    var s' := Effect(s, Send(r, w));
    assert ReaderOk(s, r) && Placed(s, w) && !s.watches[w].updateClosed;
    forall v: nat, n | Wants(s', v, n) ensures Covered(s', v, n) {
      assert Wants(s, v, n) && Covered(s, v, n);
      SendKeepsCovered(s, r, w, v, n);
    }
  }

  // The event sent was pending before and has been received after; all else stays as it was.
  lemma SendKeepsCovered(s: Sys, r: nat, w: nat, v: nat, n: Path)
    requires Enabled(s, Send(r, w)) && !s.watches[w].updateClosed
    requires v < |s.watches| && n in s.core.store.files && Covered(s, v, n)
    ensures Covered(Effect(s, Send(r, w)), v, n)
  {
    var s', st := Effect(s, Send(r, w)), s.core.store.files[n];
    var x, x' := s.watches[v], s'.watches[v];
    if AmongEvents(x.received, n, st) {
      var k :| 0 <= k < |x.received| && About(x.received[k], n, st);
      assert About(x'.received[k], n, st);
    } else if q: nat :| Pending(s, q, v, n, st) {
      if q == r && v == w {
        assert About(x'.received[|x.received|], n, st);
      } else {
        assert Pending(s', q, v, n, st);
      }
    } else if q: nat :| AwaitsRemoval(s, q, n) {
      assert AwaitsRemoval(s', q, n);
    }
  }

  lemma RUnlockMissesNothing(s: Sys, r: nat)
    requires Inv(s) && Enabled(s, RUnlock(r))
    ensures NothingMissed(Effect(s, RUnlock(r)))
  {
    var s' := Effect(s, RUnlock(r));
    forall w: nat, n | Wants(s', w, n) ensures Covered(s', w, n) {
      assert Wants(s, w, n) && Covered(s, w, n);
      var st := s.core.store.files[n];
      if q: nat :| Pending(s, q, w, n, st) {
        assert q != r;
        assert Pending(s', q, w, n, st);
      } else if q: nat :| AwaitsRemoval(s, q, n) {
        assert AwaitsRemoval(s', q, n);
      }
    }
  }

  ghost predicate SameFeed(x: Watch, y: Watch) {
    Listening(x.phase) && x.sel == y.sel && x.init == y.init && x.received == y.received
  }

  ghost predicate SameFeeds(s: Sys, s': Sys) {
    && s'.core == s.core && s'.dir == s.dir && s'.readers == s.readers
    && forall w :: 0 <= w < |s'.watches| && Listening(s'.watches[w].phase) ==>
         w < |s.watches| && SameFeed(s.watches[w], s'.watches[w])
  }

  // What was sent to each watch is what it was.
  ghost predicate SameEvents(s: Sys, s': Sys) {
    && s'.core.log == s.core.log && s'.dir == s.dir && |s'.watches| >= |s.watches|
    && forall v :: 0 <= v < |s'.watches| ==>
         if v < |s.watches| then SameHistory(s.watches[v], s'.watches[v])
         else s'.watches[v].init == [] && s'.watches[v].received == [] && s'.watches[v].senders == []
  }

  ghost predicate SameHistory(x: Watch, y: Watch) {
    y.sel == x.sel && y.init == x.init && y.received == x.received && y.senders == x.senders
  }

  // Replacing one watch by another with the same feed
  lemma PutFrame(s: Sys, s': Sys, w: nat)
    requires w < |s.watches| == |s'.watches| && s'.watches == s.watches[w := s'.watches[w]]
    requires s'.core == s.core && s'.dir == s.dir && s'.readers == s.readers
    requires var x, y := s.watches[w], s'.watches[w];
             && SameHistory(x, y)
             && (Listening(y.phase) ==> Listening(x.phase))
    ensures SameFeeds(s, s') && SameEvents(s, s')
  {
  }

  // The other steps change neither the requests nor what was sent to any watch that listens.
  lemma StartStepsFrame(s: Sys, a: Action)
    requires Enabled(s, a)
    requires a.CallWatch? || a.NewId? || a.Register? || a.StartReturn?
    ensures SameFeeds(s, Effect(s, a)) && SameEvents(s, Effect(s, a))
  {
    if !a.CallWatch? { PutFrame(s, Effect(s, a), a.w); }
  }

  lemma DeliverFrame(s: Sys, w: nat)
    requires Enabled(s, Deliver(w))
    ensures SameFeeds(s, Effect(s, Deliver(w))) && SameEvents(s, Effect(s, Deliver(w)))
  {
    if !s.watches[w].outClosed { PutFrame(s, Effect(s, Deliver(w)), w); }
  }

  lemma DiscardFrame(s: Sys, w: nat)
    requires Enabled(s, Discard(w))
    ensures SameFeeds(s, Effect(s, Discard(w))) && SameEvents(s, Effect(s, Discard(w)))
  {
    PutFrame(s, Effect(s, Discard(w)), w);
  }

  lemma CloseOutFrame(s: Sys, w: nat)
    requires Enabled(s, CloseOut(w))
    ensures SameFeeds(s, Effect(s, CloseOut(w))) && SameEvents(s, Effect(s, CloseOut(w)))
  {
    if !s.watches[w].outClosed { PutFrame(s, Effect(s, CloseOut(w)), w); }
  }

  lemma StopStepsFrame(s: Sys, a: Action)
    requires Enabled(s, a)
    requires a.CallStop? || a.StopLock? || a.StopUnlock? || a.CloseUpdate?
    ensures SameFeeds(s, Effect(s, a)) && SameEvents(s, Effect(s, a))
  {
    PutFrame(s, Effect(s, a), a.w);
  }

  // Steps of neither requests nor notifications
  lemma OtherStepsFrame(s: Sys, a: Action)
    requires Enabled(s, a)
    requires !a.Request? && !a.ListInit? && !a.RLock? && !a.Send? && !a.RUnlock?
    ensures SameFeeds(s, Effect(s, a)) && SameEvents(s, Effect(s, a))
  {
    match a
    case Deliver(w) => DeliverFrame(s, w);
    case Discard(w) => DiscardFrame(s, w);
    case CloseOut(w) => CloseOutFrame(s, w);
    case _ =>
      if a.CallWatch? || a.NewId? || a.Register? || a.StartReturn? {
        StartStepsFrame(s, a);
      } else {
        StopStepsFrame(s, a);
      }
  }

  lemma OtherStepsMissNothing(s: Sys, s': Sys)
    requires NothingMissed(s) && SameFeeds(s, s')
    ensures NothingMissed(s')
  {
    forall w: nat, n | Wants(s', w, n) ensures Covered(s', w, n) {
      assert Wants(s, w, n);
      CoverageKept(s, s', w, n);
    }
  }

  // ------------------------------------------------------------ nothing invented

  lemma GenuineStays(log: Log, log': Log, dir: Path, ev: Event)
    requires log <= log' && Genuine(log, dir, ev)
    ensures Genuine(log', dir, ev)
  {
    var k :| 0 <= k < |log| && Witness(log, k, ev);
    if ev.kind == R.Deleted {
      var i :| 0 <= i <= k && R.SeenAt(log, i, ev.name, ev.obj);
      AtPrefix(log, log', i);
      assert R.SeenAt(log', i, ev.name, ev.obj);
    }
    assert Witness(log', k, ev);
  }

  lemma FeedStays(log: Log, log': Log, dir: Path, x: Watch)
    requires log <= log' && FeedGenuine(log, dir, x)
    ensures FeedGenuine(log', dir, x)
  {
    forall i | 0 <= i < |x.init| ensures Genuine(log', dir, x.init[i]) {
      GenuineStays(log, log', dir, x.init[i]);
    }
    forall i | 0 <= i < |x.received| ensures Genuine(log', dir, x.received[i]) {
      GenuineStays(log, log', dir, x.received[i]);
    }
  }

  lemma {:induction false} InitEventsGenuine(c: R.Core, dir: Path, names: seq<Path>, sel: Selector)
    requires R.Inv(c) && forall n :: n in names ==> n in c.store.files && JsonBelow(dir, n)
    ensures AllGenuine(c.log, dir, InitEvents(c.store, names, sel))
  {
    if names != [] {
      var n := names[|names| - 1];
      InitEventsGenuine(c, dir, names[..|names| - 1], sel);
      VersionsInRange(c.log, |c.log|);
      var k := StoredWasWritten(c.log, |c.log|, n);
      assert Witness(c.log, k, R.Event(R.Added, n, Read(c.store, n).value));
    }
  }

  lemma NotifiedIsGenuine(c: R.Core, dir: Path, r: nat)
    requires R.Inv(c) && R.ReqAt(c, r).Notify? && JsonBelow(dir, c.reqs[r].ev.name)
    ensures Genuine(c.log, dir, c.reqs[r].ev)
  {
    var began, ev := c.reqs[r].began, c.reqs[r].ev;
    assert R.ReqOk(c.log, r, c.reqs[r]);
    var k :| began <= k < |c.log| && R.DoneAt(c.log, began, k, r, ev);
    if ev.kind == R.Deleted {
      var i :| began <= i <= k && R.SeenAt(c.log, i, ev.name, ev.obj);
      assert R.SeenDuring(c.log, 0, k, ev.name, ev.obj);
    }
    assert Witness(c.log, k, ev);
  }

  // A step that leaves every feed as it was, or one watch's feed genuine
  lemma FeedsKept(s: Sys, s': Sys, w: nat)
    requires NothingInvented(s) && s'.dir == s.dir && s.core.log <= s'.core.log && |s'.watches| >= |s.watches|
    requires forall v :: 0 <= v < |s'.watches| && v != w ==>
               if v < |s.watches| then SameHistory(s.watches[v], s'.watches[v])
               else s'.watches[v].init == [] && s'.watches[v].received == []
    requires w < |s'.watches| ==> FeedGenuine(s'.core.log, s'.dir, s'.watches[w])
    ensures NothingInvented(s')
  {
    forall v | 0 <= v < |s'.watches| ensures FeedGenuine(s'.core.log, s'.dir, s'.watches[v]) {
      if v != w && v < |s.watches| {
        assert FeedGenuine(s.core.log, s.dir, s.watches[v]);
        FeedStays(s.core.log, s'.core.log, s.dir, s.watches[v]);
      }
    }
  }

  lemma RequestInventsNothing(s: Sys, a: R.Action)
    requires Inv(s)
    ensures NothingInvented(s.(core := R.Step(s.core, a)))
  {
    var s' := s.(core := R.Step(s.core, a));
    assert s.core.log <= s'.core.log;
    FeedsKept(s, s', |s.watches|);
  }

  lemma ListInventsNothing(s: Sys, w: nat, names: seq<Path>)
    requires Inv(s) && Enabled(s, ListInit(w, names))
    ensures NothingInvented(Effect(s, ListInit(w, names)))
  {
    assert FeedGenuine(s.core.log, s.dir, s.watches[w]);
    InitEventsGenuine(s.core, s.dir, names, s.watches[w].sel);
    FeedsKept(s, Effect(s, ListInit(w, names)), w);
  }

  lemma ReceivedGenuine(log: Log, dir: Path, x: Watch, r: nat, e: Event)
    requires FeedGenuine(log, dir, x) && Genuine(log, dir, e)
    ensures FeedGenuine(log, dir, Received(x, r, e))
  {
  }

  lemma SendInventsNothing(s: Sys, r: nat, w: nat)
    requires Inv(s) && Enabled(s, Send(r, w))
    ensures NothingInvented(Effect(s, Send(r, w)))
  {
    assert ReaderOk(s, r) && Placed(s, w);
    assert FeedGenuine(s.core.log, s.dir, s.watches[w]);
    NotifiedIsGenuine(s.core, s.dir, r);
    ReceivedGenuine(s.core.log, s.dir, s.watches[w], r, s.core.reqs[r].ev);
    FeedsKept(s, Effect(s, Send(r, w)), w);
  }

  // Steps that record nothing and change at most one watch, whose feed they keep
  lemma FeedKeptInventsNothing(s: Sys, s': Sys)
    requires NothingInvented(s) && SameEvents(s, s')
    ensures NothingInvented(s')
  {
    FeedsKept(s, s', |s'.watches|);
  }

  lemma StepMissesNothing(s: Sys, a: Action)
    requires Inv(s) && Enabled(s, a)
    ensures NothingMissed(Effect(s, a))
  {
    match a
    case Request(a') => RequestMissesNothing(s, a');
    case ListInit(w, names) => ListMissesNothing(s, w, names);
    case RLock(r) => RLockMissesNothing(s, r);
    case Send(r, w) => SendMissesNothing(s, r, w);
    case RUnlock(r) => RUnlockMissesNothing(s, r);
    case _ =>
      OtherStepsFrame(s, a);
      OtherStepsMissNothing(s, Effect(s, a));
  }

  lemma StepInventsNothing(s: Sys, a: Action)
    requires Inv(s) && Enabled(s, a)
    ensures NothingInvented(Effect(s, a))
  {
    match a
    case Request(a') => RequestInventsNothing(s, a');
    case ListInit(w, names) => ListInventsNothing(s, w, names);
    case Send(r, w) => SendInventsNothing(s, r, w);
    case RLock(r) => FeedKeptInventsNothing(s, Effect(s, a));
    case RUnlock(r) => FeedKeptInventsNothing(s, Effect(s, a));
    case _ =>
      OtherStepsFrame(s, a);
      FeedKeptInventsNothing(s, Effect(s, a));
  }

  lemma StepKeepsInv(s: Sys, a: Action)
    requires Inv(s)
    ensures Inv(Step(s, a))
  {
    if Enabled(s, a) {
      StepKeepsSet(s, a);
      StepMissesNothing(s, a);
      StepInventsNothing(s, a);
      if a.Request? {
        R.StepKeepsInv(s.core, a.a);
      } else if a.RUnlock? {
        R.StepKeepsInv(s.core, R.NotifyDone(a.r));
      } else {
        OtherStepsKeepCore(s, a);
      }
    }
  }

  lemma OtherStepsKeepCore(s: Sys, a: Action)
    requires Enabled(s, a) && !a.Request? && !a.RUnlock?
    ensures Effect(s, a).core == s.core
  {
  }

  lemma {:induction false} ReachableInv(dir: Path, acts: seq<Action>)
    ensures Inv(Run(dir, acts))
  {
    if acts != [] {
      ReachableInv(dir, acts[..|acts| - 1]);
      StepKeepsInv(Run(dir, acts[..|acts| - 1]), acts[|acts| - 1]);
    }
  }

  // ------------------------------------------------------------ guarantees

  lemma {:induction false} MatchingSurvivesFilter(es: seq<Event>, sel: Selector, k: nat)
    requires k < |es| && Matches(sel, es[k])
    ensures es[k] in Filter(es, sel)
  {
    if k < |es| - 1 {
      MatchingSurvivesFilter(es[..|es| - 1], sel, k);
    }
  }

  // Nothing in flight concerns the object.
  predicate Settled(c: R.Core, n: Path) {
    forall r :: 0 <= r < |c.reqs| ==> !Concerns(c.reqs[r], n)
  }

  predicate Concerns(q: R.Req, n: Path) {
    (q.Notify? && q.ev.name == n) || (q.OwesRemove? && q.name == n)
  }

  lemma SettledMeansSent(s: Sys, w: nat, n: Path)
    requires Inv(s) && Wants(s, w, n) && Settled(s.core, n)
    ensures Sent(s.watches[w], n, s.core.store.files[n])
  {
    assert Covered(s, w, n);
    var st := s.core.store.files[n];
    if r: nat :| Pending(s, r, w, n, st) {
      assert Concerns(s.core.reqs[r], n);
    } else if r: nat :| AwaitsRemoval(s, r, n) {
      assert Concerns(s.core.reqs[r], n);
    }
  }

  lemma SentMeansOutput(x: Watch, n: Path, st: Stored)
    requires x.out == x.init + Filter(x.received, x.sel)
    requires Sent(x, n, st) && x.sel(n, Decode(st.data).labels)
    ensures AmongEvents(x.out, n, st)
  {
    if AmongEvents(x.init, n, st) {
      var k :| 0 <= k < |x.init| && About(x.init[k], n, st);
      assert About(x.out[k], n, st);
    } else {
      var k :| 0 <= k < |x.received| && About(x.received[k], n, st);
      assert Matches(x.sel, x.received[k]);
      MatchingSurvivesFilter(x.received, x.sel, k);
      assert x.received[k] in x.out;
      var i :| 0 <= i < |x.out| && x.out[i] == x.received[k];
      assert About(x.out[i], n, st);
    }
  }

  /**
   No missed object: in every reachable state, once no notification or owed removal of the object
   is in flight and the watch's goroutine is idle, the consumer of an unstopped watch has been
   handed the object at exactly the version stored now.
   */
  lemma NoObjectIsMissed(dir: Path, acts: seq<Action>, w: nat, n: Path)
    requires Wants(Run(dir, acts), w, n) && Run(dir, acts).watches[w].phase.Live?
    requires Run(dir, acts).watches[w].drain.Receiving?
    requires Settled(Run(dir, acts).core, n)
    ensures exists k :: 0 <= k < |Run(dir, acts).watches[w].out|
                        && About(Run(dir, acts).watches[w].out[k], n, Run(dir, acts).core.store.files[n])
  {
    ReachableInv(dir, acts);
    assert Placed(Run(dir, acts), w);
    SettledMeansSent(Run(dir, acts), w, n);
    SentMeansOutput(Run(dir, acts).watches[w], n, Run(dir, acts).core.store.files[n]);
  }

  // Filtering and skipping add no event.
  lemma {:induction false} FilterMember(es: seq<Event>, sel: Selector, e: Event)
    requires e in Filter(es, sel)
    ensures e in es
  {
    if e != es[|es| - 1] { FilterMember(es[..|es| - 1], sel, e); }
  }

  lemma {:induction false} SubSeqMember(a: seq<Event>, b: seq<Event>, i: nat)
    requires SubSeq(a, b) && i < |a|
    ensures a[i] in b
    decreases |b|
  {
    var a', b' := a[..|a| - 1], b[..|b| - 1];
    if a[|a| - 1] == b[|b| - 1] && SubSeq(a', b') {
      if i < |a'| { SubSeqMember(a', b', i); }
    } else {
      SubSeqMember(a, b', i);
    }
  }

  lemma {:induction false} RunKeepsDir(dir: Path, acts: seq<Action>)
    ensures Run(dir, acts).dir == dir
  {
    if acts != [] {
      RunKeepsDir(dir, acts[..|acts| - 1]);
      StepKeepsDir(Run(dir, acts[..|acts| - 1]), acts[|acts| - 1]);
    }
  }

  lemma StepKeepsDir(s: Sys, a: Action)
    ensures Step(s, a).dir == s.dir
  {
    if Enabled(s, a) && !a.Request? && !a.ListInit? && !a.RLock? && !a.Send? && !a.RUnlock? {
      OtherStepsFrame(s, a);
    }
  }

  /**
   No phantom events: every event a consumer was ever handed is about an object of the resource and
   is borne out by the history, as an accepted write of exactly that object at exactly that version,
   or as a removal of an object that had been stored exactly as the event shows it.
   */
  lemma EveryEventIsGenuine(dir: Path, acts: seq<Action>, w: nat, i: nat)
    requires w < |Run(dir, acts).watches| && i < |Run(dir, acts).watches[w].out|
    ensures var log, ev := Run(dir, acts).core.log, Run(dir, acts).watches[w].out[i];
            JsonBelow(dir, ev.name) && exists k :: 0 <= k < |log| && Witness(log, k, ev)
  {
    ReachableInv(dir, acts);
    RunKeepsDir(dir, acts);
    var log, x := Run(dir, acts).core.log, Run(dir, acts).watches[w];
    assert FeedGenuine(log, dir, x);
    HandedOut(dir, acts, w);
    SubSeqMember(x.out, x.init + Filter(x.received, x.sel), i);
    if x.out[i] !in x.init { FilterMember(x.received, x.sel, x.out[i]); }
    assert Genuine(log, dir, x.out[i]);
  }

  /**
   Channel safety: in no run is an event sent on a closed channel or a channel closed twice; the
   output channel closes only after the update channel, which closes only after the stop channel;
   and every watch between Start and the lock in Stop is in the node map under its own id.
   */
  lemma ChannelsAreSafe(dir: Path, acts: seq<Action>, w: nat)
    requires w < |Run(dir, acts).watches|
    ensures !Run(dir, acts).panicked
    ensures var x := Run(dir, acts).watches[w];
            && (x.outClosed ==> x.updateClosed) && (x.updateClosed ==> x.stopClosed)
            && (InNodes(x.phase) ==> x.id in Run(dir, acts).nodes && Run(dir, acts).nodes[x.id] == w && !x.updateClosed)
  {
    ReachableInv(dir, acts);
    assert Placed(Run(dir, acts), w);
  }

  predicate Prefix(a: seq<Event>, b: seq<Event>) {
    |a| <= |b| && a == b[..|a|]
  }

  // Increasing positions below `n`
  ghost predicate IsSelection(ks: seq<nat>, n: nat) {
    (forall i :: 0 <= i < |ks| ==> ks[i] < n) && forall i, j :: 0 <= i < j < |ks| ==> ks[i] < ks[j]
  }

  function Pick(es: seq<Event>, ks: seq<nat>): seq<Event>
    requires forall i :: 0 <= i < |ks| ==> ks[i] < |es|
  {
    seq(|ks|, i requires 0 <= i < |ks| => es[ks[i]])
  }

  lemma {:induction false} FilterPicks(es: seq<Event>, sel: Selector) returns (ks: seq<nat>)
    ensures IsSelection(ks, |es|) && Filter(es, sel) == Pick(es, ks)
    ensures forall j :: 0 <= j < |es| ==> (j in ks <==> sel(es[j].name, es[j].obj.doc.labels))
  {
    if es == [] {
      ks := [];
    } else {
      var last := |es| - 1;
      var front := es[..last];
      var ks0 := FilterPicks(front, sel);
      PickLast(es, last, ks0);
      ks := if Matches(sel, es[last]) then ks0 + [last] else ks0;
      forall j | 0 <= j < |es| ensures j in ks <==> sel(es[j].name, es[j].obj.doc.labels) {
        assert j in ks <==> j in ks0 || (j == last && Matches(sel, es[last]));
        if j < last { assert front[j] == es[j]; }
      }
    }
  }

  lemma PickLast(es: seq<Event>, last: nat, ks: seq<nat>)
    requires |es| == last + 1 && IsSelection(ks, last)
    ensures IsSelection(ks + [last], last + 1) && last !in ks
    ensures Pick(es, ks) == Pick(es[..last], ks) && Pick(es, ks + [last]) == Pick(es, ks) + [es[last]]
  {
  }

  lemma {:induction false} SubSeqPicks(a: seq<Event>, b: seq<Event>) returns (ks: seq<nat>)
    requires SubSeq(a, b)
    ensures IsSelection(ks, |b|) && a == Pick(b, ks)
    decreases |b|
  {
    if b == [] {
      ks := [];
    } else {
      var last := |b| - 1;
      if a != [] && a[|a| - 1] == b[last] && SubSeq(a[..|a| - 1], b[..last]) {
        ks := SubSeqPicks(a[..|a| - 1], b[..last]);
        PickLast(b, last, ks);
        ks := ks + [last];
      } else {
        ks := SubSeqPicks(a, b[..last]);
        PickLast(b, last, ks);
      }
    }
  }

  /**
   Per-watch delivery. `picked` are exactly the updates received that the watch's selector accepts; what
   is to be handed out are the initial events and then these updates, in the order received. The output
   is made of the events `kept` of that sequence, in its order: while the watch is not stopped a prefix,
   and all of it once the goroutine is idle.
   */
  lemma OutputFollowsInput(dir: Path, acts: seq<Action>, w: nat) returns (picked: seq<nat>, kept: seq<nat>)
    requires w < |Run(dir, acts).watches|
    ensures var x := Run(dir, acts).watches[w];
            && IsSelection(picked, |x.received|)
            && (forall j :: 0 <= j < |x.received| ==>
                  (j in picked <==> x.sel(x.received[j].name, x.received[j].obj.doc.labels)))
            && var all := x.init + Pick(x.received, picked);
               && IsSelection(kept, |all|) && x.out == Pick(all, kept)
               && (!x.stopClosed ==> forall i :: 0 <= i < |kept| ==> kept[i] == i)
               && (!x.stopClosed && x.drain.Receiving? ==> x.out == all)
  {
    var x := Run(dir, acts).watches[w];
    HandedOut(dir, acts, w);
    picked := FilterPicks(x.received, x.sel);
    var all := x.init + Pick(x.received, picked);
    if x.stopClosed {
      kept := SubSeqPicks(x.out, all);
    } else {
      kept := PrefixPicks(x.out, all);
    }
  }

  lemma PrefixPicks(a: seq<Event>, b: seq<Event>) returns (ks: seq<nat>)
    requires Prefix(a, b)
    ensures IsSelection(ks, |b|) && a == Pick(b, ks) && forall i :: 0 <= i < |ks| ==> ks[i] == i
  {
    ks := seq(|a|, i => i);
  }

  // The same, through the invariant's own terms
  lemma HandedOut(dir: Path, acts: seq<Action>, w: nat)
    requires w < |Run(dir, acts).watches|
    ensures var x := Run(dir, acts).watches[w];
            var all := x.init + Filter(x.received, x.sel);
            && (!x.stopClosed ==> Prefix(x.out, all))
            && (!x.stopClosed && x.drain.Receiving? ==> x.out == all)
            && SubSeq(x.out, all)
  {
    ReachableInv(dir, acts);
    var x := Run(dir, acts).watches[w];
    assert Placed(Run(dir, acts), w);
    var rest := HandledThenRest(x);
    SubSeqExtend(x.out, Handled(x.drain, x.init, x.received, x.sel), rest);
  }

  // What the goroutine has handled begins the whole sequence of initial events and matching updates.
  lemma HandledThenRest(x: Watch) returns (rest: seq<Event>)
    requires WatchOk(x)
    ensures Handled(x.drain, x.init, x.received, x.sel) + rest == x.init + Filter(x.received, x.sel)
  {
    var all := x.init + Filter(x.received, x.sel);
    rest := [];
    match x.drain
    case NotSpawned => rest := all;
    case Init(i) => rest := x.init[i..];
    case Holding(e) =>
      rest := [e];
      var before := Filter(x.received[..|x.received| - 1], x.sel);
      assert all == (x.init + before) + [e];
    case _ =>
  }

  lemma {:induction false} SubSeqExtend(a: seq<Event>, b: seq<Event>, more: seq<Event>)
    requires SubSeq(a, b)
    ensures SubSeq(a, b + more)
  {
    if more == [] {
      assert b + more == b;
    } else {
      var front := more[..|more| - 1];
      SubSeqExtend(a, b, front);
      assert (b + more)[..|b + more| - 1] == b + front;
    }
  }
}
