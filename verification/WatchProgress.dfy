/**
 Notifying, starting and stopping always finish. Go's read/write lock lets no new reader in while a
 writer waits, so a reader's step is taken as possible only when no writer waits.
 */
module WatchProgress {
  import opened Wrappers
  import opened Objects
  import opened Paths
  import opened Stores
  import opened WatchSet
  import WatchDelivery
  import R = Requests

  // Steps of notifications, of Start and Stop calls under way, and of drain goroutines
  predicate Internal(a: Action) {
    !a.Request? && !a.CallWatch? && !a.CallStop?
  }

  predicate WantsLock(p: Phase) {
    p.Called? || p.Starting? || p.Stopping?
  }

  predicate WriterWaits(s: Sys) {
    exists w :: 0 <= w < |s.watches| && WantsLock(s.watches[w].phase)
  }

  // `ready` holds the watches whose consumer is reading.
  predicate CanStep(s: Sys, a: Action, ready: set<nat>) {
    && Internal(a) && Enabled(s, a)
    && (a.RLock? ==> !WriterWaits(s))
    && (a.Deliver? ==> a.w in ready)
  }

  // Every registered watch has a ready consumer or has begun Stop.
  predicate Attended(s: Sys, ready: set<nat>) {
    forall w :: 0 <= w < |s.watches| && InNodes(s.watches[w].phase) && !StopBegun(s.watches[w].phase) ==> w in ready
  }

  // A Start or Stop is under way, or a stopped watch's goroutine has not ended.
  predicate WatchBusy(x: Watch) {
    !x.phase.Live? && !(x.phase.Stopped? && x.drain.Finished?)
  }

  ghost predicate Busy(s: Sys) {
    || (exists r: nat :: Announces(s, r))
    || (exists w :: 0 <= w < |s.watches| && WatchBusy(s.watches[w]))
  }

  // ------------------------------------------------------------ deadlock freedom

  lemma {:induction false} SomeEnumeration(names: set<Path>) returns (es: seq<Path>)
    ensures forall n :: n in es <==> n in names
    ensures forall i, j :: 0 <= i < j < |es| ==> es[i] != es[j]
  {
    if names == {} {
      es := [];
    } else {
      var n :| n in names;
      var rest := SomeEnumeration(names - {n});
      es := rest + [n];
    }
  }

  // The holder of the write lock can always go on.
  lemma WriterCanStep(s: Sys, ready: set<nat>) returns (a: Action)
    requires SetOk(s) && s.writer.Some?
    ensures CanStep(s, a, ready)
  {
    var w := s.writer.value;
    assert Placed(s, w);
    match s.watches[w].phase
    case Registering =>
      var names := SomeEnumeration(set n | n in s.core.store.files && JsonBelow(s.dir, n));
      a := ListInit(w, names);
    case Listed => a := StartReturn(w);
    case _ => a := StopUnlock(w);
  }

  // A notifier that holds the read lock can go on, or a goroutine it waits for can.
  lemma ReaderCanStep(s: Sys, ready: set<nat>, r: nat) returns (a: Action)
    requires SetOk(s) && Attended(s, ready) && r in s.readers
    ensures CanStep(s, a, ready)
  {
    assert ReaderOk(s, r);
    if s.readers[r] == {} {
      a := RUnlock(r);
    } else {
      var w :| w in s.readers[r];
      assert IsNode(s, w) && Placed(s, w);
      var x := s.watches[w];
      if x.drain.Receiving? {
        a := Send(r, w);
      } else if x.stopClosed {
        a := Discard(w);
      } else {
        a := Deliver(w);
      }
    }
  }

  // A watch with the lock to itself, or past needing it, can go on.
  lemma WatchCanStep(s: Sys, ready: set<nat>, w: nat) returns (a: Action)
    requires SetOk(s) && w < |s.watches| && WatchBusy(s.watches[w])
    requires WantsLock(s.watches[w].phase) ==> Free(s)
    requires s.writer.None?
    ensures CanStep(s, a, ready)
  {
    var x := s.watches[w];
    assert Placed(s, w);
    match x.phase
    case Called => a := NewId(w);
    case Starting => a := Register(w);
    case Stopping => a := StopLock(w);
    case Closing => a := CloseUpdate(w);
    case _ => a := if x.drain.Receiving? then CloseOut(w) else Discard(w);
  }

  /**
   Deadlock freedom: whenever a notification, a Start or a Stop is unfinished and every watch is
   attended or stopping, some step of theirs is possible.
   */
  lemma SomeStepIsPossible(s: Sys, ready: set<nat>) returns (a: Action)
    requires SetOk(s) && Attended(s, ready) && Busy(s)
    ensures CanStep(s, a, ready)
  {
    if s.writer.Some? {
      a := WriterCanStep(s, ready);
    } else if r :| r in s.readers {
      a := ReaderCanStep(s, ready, r);
    } else {
      assert s.readers == map[];
      if w :| 0 <= w < |s.watches| && WatchBusy(s.watches[w]) {
        a := WatchCanStep(s, ready, w);
      } else {
        var r: nat :| Announces(s, r);
        a := RLock(r);
      }
    }
  }

  // ------------------------------------------------------------ a measure

  function Sum(xs: seq<nat>): nat {
    if xs == [] then 0 else Sum(xs[..|xs| - 1]) + xs[|xs| - 1]
  }

  lemma {:induction false} SumUpdate(xs: seq<nat>, i: nat, v: nat)
    requires i < |xs|
    ensures Sum(xs[i := v]) == Sum(xs) - xs[i] + v
  {
    var front, ys := xs[..|xs| - 1], xs[i := v];
    if i == |xs| - 1 {
      assert ys[..|ys| - 1] == front;
    } else {
      SumUpdate(front, i, v);
      assert ys[..|ys| - 1] == front[i := v];
    }
  }

  // Steps left to a notification: take the lock, reach each watch, release the lock
  function ReqCost(s: Sys, r: nat): nat {
    if !Announces(s, r) then 0
    else if r in s.readers then 1 + 2 * |s.readers[r]|
    else 2 + 2 * |s.watches|
  }

  function DrainCost(x: Watch): nat {
    match x.drain
    case NotSpawned => 0
    case Init(i) => if i <= |x.init| then |x.init| - i + 1 else 0
    case Receiving => 1
    case Holding(_) => 2
    case Finished => 0
  }

  // Steps left to a watch's calls and to its goroutine; a list returns at most `files` objects
  function WatchCost(x: Watch, files: nat): nat {
    DrainCost(x) +
    match x.phase
    case Called => 6 + files
    case Starting => 5 + files
    case Registering => 4 + files
    case Listed => 3 + |x.init|
    case Live => 0
    case Stopping => 3
    case Deleting => 2
    case Closing => 1
    case Stopped => 0
  }

  function ReqCosts(s: Sys): seq<nat> {
    seq(|s.core.reqs|, r requires 0 <= r < |s.core.reqs| => ReqCost(s, r))
  }

  function WatchCosts(s: Sys): seq<nat> {
    seq(|s.watches|, w requires 0 <= w < |s.watches| => WatchCost(s.watches[w], |s.core.store.files|))
  }

  function Weight(s: Sys): nat {
    Sum(ReqCosts(s)) + Sum(WatchCosts(s))
  }

  lemma ReqSumChange(s: Sys, s': Sys, r: nat)
    requires r < |s.core.reqs| == |s'.core.reqs|
    requires forall q :: 0 <= q < |s.core.reqs| && q != r ==> ReqCost(s', q) == ReqCost(s, q)
    ensures Sum(ReqCosts(s')) == Sum(ReqCosts(s)) - ReqCost(s, r) + ReqCost(s', r)
  {
    assert ReqCosts(s') == ReqCosts(s)[r := ReqCost(s', r)];
    SumUpdate(ReqCosts(s), r, ReqCost(s', r));
  }

  lemma WatchSumChange(s: Sys, s': Sys, w: nat)
    requires w < |s.watches| == |s'.watches| && s'.watches == s.watches[w := s'.watches[w]]
    requires s'.core.store == s.core.store
    ensures var files := |s.core.store.files|;
            Sum(WatchCosts(s')) == Sum(WatchCosts(s)) - WatchCost(s.watches[w], files) + WatchCost(s'.watches[w], files)
  {
    var c := WatchCost(s'.watches[w], |s.core.store.files|);
    assert WatchCosts(s') == WatchCosts(s)[w := c];
    SumUpdate(WatchCosts(s), w, c);
  }

  // A step of one watch alone
  lemma PutWeight(s: Sys, s': Sys, w: nat)
    requires w < |s.watches| == |s'.watches| && s'.watches == s.watches[w := s'.watches[w]]
    requires s'.core == s.core && s'.dir == s.dir && s'.readers == s.readers
    requires WatchCost(s'.watches[w], |s.core.store.files|) < WatchCost(s.watches[w], |s.core.store.files|)
    ensures Weight(s') < Weight(s)
  {
    assert ReqCosts(s') == ReqCosts(s);
    WatchSumChange(s, s', w);
  }

  lemma {:induction false} InitEventsFew(s: Store, names: seq<Path>, sel: Selector)
    requires forall n :: n in names ==> n in s.files
    ensures |InitEvents(s, names, sel)| <= |names|
  {
    if names != [] { InitEventsFew(s, names[..|names| - 1], sel); }
  }

  lemma {:induction false} DistinctFew(names: seq<Path>, all: set<Path>)
    requires forall n :: n in names ==> n in all
    requires forall i, j :: 0 <= i < j < |names| ==> names[i] != names[j]
    ensures |names| <= |all|
  {
    if names != [] {
      var last := names[|names| - 1];
      DistinctFew(names[..|names| - 1], all - {last});
    }
  }

  lemma {:induction false} IndicesFew(ws: set<nat>, n: nat)
    requires forall w :: w in ws ==> w < n
    ensures |ws| <= n
  {
    if n == 0 {
      assert ws == {};
    } else {
      IndicesFew(ws - {n - 1}, n - 1);
      if n - 1 !in ws { assert ws - {n - 1} == ws; }
    }
  }

  lemma StartStepsLighter(s: Sys, a: Action)
    requires SetOk(s) && Enabled(s, a)
    requires a.NewId? || a.Register? || a.StartReturn?
    ensures Weight(Effect(s, a)) < Weight(s)
  {
    assert Placed(s, a.w);
    PutWeight(s, Effect(s, a), a.w);
  }

  lemma StopStepsLighter(s: Sys, a: Action)
    requires SetOk(s) && Enabled(s, a)
    requires a.StopLock? || a.StopUnlock? || a.CloseUpdate?
    ensures Weight(Effect(s, a)) < Weight(s)
  {
    if a.CloseUpdate? { assert Placed(s, a.w); }
    PutWeight(s, Effect(s, a), a.w);
  }

  lemma ListInitLighter(s: Sys, w: nat, names: seq<Path>)
    requires SetOk(s) && Enabled(s, ListInit(w, names))
    ensures Weight(Effect(s, ListInit(w, names))) < Weight(s)
  {
    assert Placed(s, w);
    InitEventsFew(s.core.store, names, s.watches[w].sel);
    DistinctFew(names, s.core.store.files.Keys);
    assert |s.core.store.files.Keys| == |s.core.store.files|;
    PutWeight(s, Effect(s, ListInit(w, names)), w);
  }

  lemma MovedCost(x: Watch, out: seq<Event>, files: nat)
    requires WatchOk(x) && Offering(x.drain)
    ensures WatchCost(Moved(x).(out := out), files) < WatchCost(x, files)
  {
  }

  lemma DeliverLighter(s: Sys, w: nat)
    requires SetOk(s) && Enabled(s, Deliver(w))
    ensures Weight(Effect(s, Deliver(w))) < Weight(s)
  {
    assert Placed(s, w);
    MovedCost(s.watches[w], s.watches[w].out + [Offered(s.watches[w])], |s.core.store.files|);
    PutWeight(s, Effect(s, Deliver(w)), w);
  }

  lemma DiscardLighter(s: Sys, w: nat)
    requires SetOk(s) && Enabled(s, Discard(w))
    ensures Weight(Effect(s, Discard(w))) < Weight(s)
  {
    assert Placed(s, w);
    MovedCost(s.watches[w], s.watches[w].out, |s.core.store.files|);
    PutWeight(s, Effect(s, Discard(w)), w);
  }

  lemma CloseOutLighter(s: Sys, w: nat)
    requires SetOk(s) && Enabled(s, CloseOut(w))
    ensures Weight(Effect(s, CloseOut(w))) < Weight(s)
  {
    assert Placed(s, w);
    PutWeight(s, Effect(s, CloseOut(w)), w);
  }

  lemma RLockLighter(s: Sys, r: nat)
    requires SetOk(s) && Enabled(s, RLock(r))
    ensures Weight(Effect(s, RLock(r))) < Weight(s)
  {
    var s' := Effect(s, RLock(r));
    IndicesFew(s.nodes.Values, |s.watches|);
    ReqSumChange(s, s', r);
    assert WatchCosts(s') == WatchCosts(s);
  }

  lemma RUnlockLighter(s: Sys, r: nat)
    requires SetOk(s) && Enabled(s, RUnlock(r))
    ensures Weight(Effect(s, RUnlock(r))) < Weight(s)
  {
    var s' := Effect(s, RUnlock(r));
    assert ReaderOk(s, r);
    ReqSumChange(s, s', r);
    assert WatchCosts(s') == WatchCosts(s);
  }

  lemma ReceivedCost(x: Watch, r: nat, e: Event, files: nat)
    requires x.drain.Receiving?
    ensures WatchCost(Received(x, r, e), files) <= WatchCost(x, files) + 1
  {
  }

  // One watch fewer to reach, at the price of at most one event more on offer
  lemma SentWeight(s: Sys, s': Sys, r: nat, w: nat)
    requires r in s.readers && w in s.readers[r] && w < |s.watches| && Announces(s, r)
    requires s.watches[w].drain.Receiving?
    requires s' == Put(s.(readers := s.readers[r := s.readers[r] - {w}]), w,
                       Received(s.watches[w], r, s.core.reqs[r].ev))
    ensures Weight(s') < Weight(s)
  {
    assert |s.readers[r] - {w}| == |s.readers[r]| - 1;
    ReqSumChange(s, s', r);
    WatchSumChange(s, s', w);
    ReceivedCost(s.watches[w], r, s.core.reqs[r].ev, |s.core.store.files|);
  }

  lemma SendLighter(s: Sys, r: nat, w: nat)
    requires SetOk(s) && Enabled(s, Send(r, w))
    ensures Weight(Effect(s, Send(r, w))) < Weight(s)
  {
    assert ReaderOk(s, r) && Placed(s, w);
    SentWeight(s, Effect(s, Send(r, w)), r, w);
  }

  // Every internal step makes the system lighter.
  lemma StepIsLighter(s: Sys, a: Action)
    requires SetOk(s) && Internal(a) && Enabled(s, a)
    ensures Weight(Step(s, a)) < Weight(s)
  {
    match a
    case ListInit(w, names) => ListInitLighter(s, w, names);
    case RLock(r) => RLockLighter(s, r);
    case Send(r, w) => SendLighter(s, r, w);
    case RUnlock(r) => RUnlockLighter(s, r);
    case Deliver(w) => DeliverLighter(s, w);
    case Discard(w) => DiscardLighter(s, w);
    case CloseOut(w) => CloseOutLighter(s, w);
    case _ =>
      if a.NewId? || a.Register? || a.StartReturn? {
        StartStepsLighter(s, a);
      } else {
        StopStepsLighter(s, a);
      }
  }

  // ------------------------------------------------------------ completion

  predicate InternalRun(s: Sys, acts: seq<Action>, ready: set<nat>) {
    acts == [] ||
    (InternalRun(s, acts[..|acts| - 1], ready) && CanStep(RunFrom(s, acts[..|acts| - 1]), acts[|acts| - 1], ready))
  }

  lemma {:induction false} RunKeeps(s: Sys, acts: seq<Action>, ready: set<nat>)
    requires SetOk(s) && InternalRun(s, acts, ready)
    ensures SetOk(RunFrom(s, acts))
    ensures |acts| + Weight(RunFrom(s, acts)) <= Weight(s)
  {
    if acts != [] {
      var front, a := acts[..|acts| - 1], acts[|acts| - 1];
      RunKeeps(s, front, ready);
      StepKeepsSet(RunFrom(s, front), a);
      StepIsLighter(RunFrom(s, front), a);
    }
  }

  /**
   Stopping cannot hang: from any reachable state every run of the calls under way is finite (the
   weight bounds it), and where such a run can go no further, every registered watch having a ready
   consumer or having begun Stop, every notification has reached all its watches, every Start has
   returned, every Stop has returned and every stopped watch's output channel is closed, although
   nobody reads the results of a stopped watch.
   */
  lemma NotifyStartAndStopComplete(dir: Path, acts: seq<Action>, more: seq<Action>, ready: set<nat>)
    requires InternalRun(Run(dir, acts), more, ready)
    ensures |more| <= Weight(Run(dir, acts))
    ensures Attended(RunFrom(Run(dir, acts), more), ready)
            && (forall a :: !CanStep(RunFrom(Run(dir, acts), more), a, ready)) ==>
              var s := RunFrom(Run(dir, acts), more);
              && (forall r: nat :: !Announces(s, r))
              && (forall w :: 0 <= w < |s.watches| ==>
                    s.watches[w].phase.Live? || (s.watches[w].phase.Stopped? && s.watches[w].outClosed))
  {
    WatchDelivery.ReachableInv(dir, acts);
    RunKeeps(Run(dir, acts), more, ready);
    var s := RunFrom(Run(dir, acts), more);
    if Busy(s) {
      if Attended(s, ready) {
        var a := SomeStepIsPossible(s, ready);
      }
    } else {
      forall w | 0 <= w < |s.watches|
        ensures s.watches[w].phase.Live? || (s.watches[w].phase.Stopped? && s.watches[w].outClosed)
      {
        assert Placed(s, w) && !WatchBusy(s.watches[w]);
      }
    }
  }
}
