/**
 The subscription protocol of pkg/storage/filepath/watchset.go, running beside the requests.

 The system is one resource's WatchSet, its watches, and the requests on every resource of the
 shared file system. Requests on other resources notify other WatchSets: seen from here their
 notifications just end.

 Each acquisition or release of the read/write lock, each rendezvous on an unbuffered channel and
 each close is one step. A send on a closed channel, or a second close, sets `panicked`, as the Go
 runtime would. Readers are the requests inside notifyWatchers; the writer is a watch inside
 newWatch, Start or Stop.
 */
module WatchSet {
  import opened Wrappers
  import opened Objects
  import opened Paths
  import opened Stores
  import opened History
  import R = Requests

  type Event = R.Event

  datatype Phase =
    | Called       // waits for the lock in newWatch
    | Starting     // has its id; waits for the lock in Start
    | Registering  // holds the lock; in the node map; about to list
    | Listed       // holds the lock; has its initial events
    | Live         // Start returned, the drain goroutine runs
    | Stopping     // stop channel closed; waits for the lock in Stop
    | Deleting     // holds the lock; out of the node map
    | Closing      // about to close the update channel
    | Stopped

  datatype Drain = NotSpawned | Init(i: nat) | Receiving | Holding(e: Event) | Finished

  datatype Watch = Watch(
    id: nat, sel: Selector, phase: Phase, drain: Drain,
    stopClosed: bool, updateClosed: bool, outClosed: bool,
    init: seq<Event>,      // initial events, from the list taken in Start
    received: seq<Event>,  // everything received on the update channel
    senders: seq<nat>,     // the request behind each event received, kept for the proofs
    out: seq<Event>        // everything the consumer was handed
  )

  datatype Sys = Sys(
    core: R.Core,
    dir: Path,                     // the directory of the resource
    counter: nat,
    nodes: map<nat, nat>,          // id -> position in `watches`
    owner: map<nat, nat>,          // which watch was given each id, kept for the proofs
    writer: Option<nat>,
    readers: map<nat, set<nat>>,   // notifying request -> watches it has still to reach
    watches: seq<Watch>,
    panicked: bool
  )

  function Start(dir: Path): Sys {
    Sys(R.INITIAL, dir, 0, map[], map[], None, map[], [], false)
  }

  datatype Action =
    | Request(a: R.Action)
    | CallWatch(sel: Selector)
    | NewId(w: nat)
    | Register(w: nat)
    | ListInit(w: nat, names: seq<Path>)
    | StartReturn(w: nat)
    | RLock(r: nat)
    | Send(r: nat, w: nat)
    | RUnlock(r: nat)
    | Deliver(w: nat)
    | Discard(w: nat)
    | CloseOut(w: nat)
    | CallStop(w: nat)
    | StopLock(w: nat)
    | StopUnlock(w: nat)
    | CloseUpdate(w: nat)

  // ------------------------------------------------------------ steps

  predicate Matches(sel: Selector, e: Event) {
    sel(e.name, e.obj.doc.labels)
  }

  // The initial Added events: the listed names, in listing order, that match
  function InitEvents(s: Store, names: seq<Path>, sel: Selector): seq<Event>
    requires forall n :: n in names ==> n in s.files
  {
    if names == [] then []
    else
      var n := names[|names| - 1];
      var e := R.Event(R.Added, n, Read(s, n).value);
      InitEvents(s, names[..|names| - 1], sel) + if Matches(sel, e) then [e] else []
  }

  // A walk of the directory visits every object stored below it exactly once, in any order.
  predicate Enumerates(names: seq<Path>, s: Store, dir: Path) {
    && (forall n :: n in names ==> n in s.files && JsonBelow(dir, n))
    && (forall n :: n in s.files && JsonBelow(dir, n) ==> n in names)
    && (forall i, j :: 0 <= i < j < |names| ==> names[i] != names[j])
  }

  // Request `r` has an event for this WatchSet.
  predicate Announces(s: Sys, r: nat) {
    R.ReqAt(s.core, r).Notify? && JsonBelow(s.dir, s.core.reqs[r].ev.name)
  }

  predicate Free(s: Sys) {
    s.writer.None? && s.readers == map[]
  }

  predicate IsWatch(s: Sys, w: nat, phase: Phase) {
    w < |s.watches| && s.watches[w].phase == phase
  }

  // The drain goroutine is blocked in its select, with an event for the consumer.
  predicate Offering(d: Drain) {
    d.Init? || d.Holding?
  }

  predicate Enabled(s: Sys, a: Action) {
    match a
    case Request(a') => a'.NotifyDone? ==> !Announces(s, a'.r)
    case CallWatch(_) => true
    case NewId(w) => IsWatch(s, w, Called) && Free(s)
    case Register(w) => IsWatch(s, w, Starting) && Free(s)
    case ListInit(w, names) => IsWatch(s, w, Registering) && Enumerates(names, s.core.store, s.dir)
    case StartReturn(w) => IsWatch(s, w, Listed)
    case RLock(r) => Announces(s, r) && r !in s.readers && s.writer.None?
    case Send(r, w) =>
      && r in s.readers && w in s.readers[r] && w < |s.watches| && R.ReqAt(s.core, r).Notify?
      && (s.watches[w].drain.Receiving? || s.watches[w].updateClosed)
    case RUnlock(r) => r in s.readers && s.readers[r] == {}
    case Deliver(w) => w < |s.watches| && Offering(s.watches[w].drain)
                       && (s.watches[w].drain.Init? ==> s.watches[w].drain.i < |s.watches[w].init|)
    case Discard(w) => w < |s.watches| && Offering(s.watches[w].drain) && s.watches[w].stopClosed
    case CloseOut(w) => w < |s.watches| && s.watches[w].drain.Receiving? && s.watches[w].updateClosed
    case CallStop(w) => IsWatch(s, w, Live)
    case StopLock(w) => IsWatch(s, w, Stopping) && Free(s)
    case StopUnlock(w) => IsWatch(s, w, Deleting)
    case CloseUpdate(w) => IsWatch(s, w, Closing)
  }

  function Put(s: Sys, w: nat, x: Watch): Sys
    requires w < |s.watches|
  {
    s.(watches := s.watches[w := x])
  }

  // After the initial event at hand, the next one; after the last, the update channel.
  function AfterInit(i: nat, init: seq<Event>): Drain {
    if i < |init| then Init(i) else Receiving
  }

  function Moved(x: Watch): Watch
    requires Offering(x.drain)
  {
    x.(drain := if x.drain.Init? then AfterInit(x.drain.i + 1, x.init) else Receiving)
  }

  function Offered(x: Watch): Event
    requires Offering(x.drain) && (x.drain.Init? ==> x.drain.i < |x.init|)
  {
    if x.drain.Init? then x.init[x.drain.i] else x.drain.e
  }

  function Received(x: Watch, r: nat, e: Event): Watch {
    x.(received := x.received + [e], senders := x.senders + [r],
       drain := if Matches(x.sel, e) then Holding(e) else Receiving)
  }

  function Effect(s: Sys, a: Action): Sys
    requires Enabled(s, a)
  {
    match a
    case Request(a') => s.(core := R.Step(s.core, a'))
    case CallWatch(sel) =>
      s.(watches := s.watches + [Watch(0, sel, Called, NotSpawned, false, false, false, [], [], [], [])])
    case NewId(w) =>
      Put(s.(counter := s.counter + 1, owner := s.owner[s.counter + 1 := w]), w,
          s.watches[w].(id := s.counter + 1, phase := Starting))
    case Register(w) =>
      Put(s.(writer := Some(w), nodes := s.nodes[s.watches[w].id := w]), w, s.watches[w].(phase := Registering))
    case ListInit(w, names) =>
      Put(s, w, s.watches[w].(phase := Listed, init := InitEvents(s.core.store, names, s.watches[w].sel)))
    case StartReturn(w) =>
      Put(s.(writer := None), w, s.watches[w].(phase := Live, drain := AfterInit(0, s.watches[w].init)))
    case RLock(r) => s.(readers := s.readers[r := s.nodes.Values])
    case Send(r, w) =>
      if s.watches[w].updateClosed then s.(panicked := true)
      else Put(s.(readers := s.readers[r := s.readers[r] - {w}]), w, Received(s.watches[w], r, s.core.reqs[r].ev))
    case RUnlock(r) => s.(readers := s.readers - {r}, core := R.Step(s.core, R.NotifyDone(r)))
    case Deliver(w) =>
      if s.watches[w].outClosed then s.(panicked := true)
      else Put(s, w, Moved(s.watches[w]).(out := s.watches[w].out + [Offered(s.watches[w])]))
    case Discard(w) => Put(s, w, Moved(s.watches[w]))
    case CloseOut(w) =>
      if s.watches[w].outClosed then s.(panicked := true)
      else Put(s, w, s.watches[w].(outClosed := true, drain := Finished))
    case CallStop(w) =>
      if s.watches[w].stopClosed then s.(panicked := true)
      else Put(s, w, s.watches[w].(stopClosed := true, phase := Stopping))
    case StopLock(w) =>
      Put(s.(writer := Some(w), nodes := s.nodes - {s.watches[w].id}), w, s.watches[w].(phase := Deleting))
    case StopUnlock(w) => Put(s.(writer := None), w, s.watches[w].(phase := Closing))
    case CloseUpdate(w) =>
      if s.watches[w].updateClosed then s.(panicked := true)
      else Put(s, w, s.watches[w].(updateClosed := true, phase := Stopped))
  }

  function Step(s: Sys, a: Action): Sys {
    if Enabled(s, a) then Effect(s, a) else s
  }

  function RunFrom(s: Sys, acts: seq<Action>): Sys {
    if acts == [] then s else Step(RunFrom(s, acts[..|acts| - 1]), acts[|acts| - 1])
  }

  function Run(dir: Path, acts: seq<Action>): Sys {
    RunFrom(Start(dir), acts)
  }

  // ------------------------------------------------------------ invariant: one watch

  function Filter(es: seq<Event>, sel: Selector): seq<Event> {
    if es == [] then []
    else Filter(es[..|es| - 1], sel) + if Matches(sel, es[|es| - 1]) then [es[|es| - 1]] else []
  }

  predicate SubSeq(a: seq<Event>, b: seq<Event>) {
    if b == [] then a == []
    else (a != [] && a[|a| - 1] == b[|b| - 1] && SubSeq(a[..|a| - 1], b[..|b| - 1])) || SubSeq(a, b[..|b| - 1])
  }

  // What the drain goroutine has put behind it: initial events, then matching updates, in order
  function Handled(drain: Drain, init: seq<Event>, received: seq<Event>, sel: Selector): seq<Event> {
    match drain
    case NotSpawned => []
    case Init(i) => if i <= |init| then init[..i] else init
    case Holding(_) => if received == [] then init else init + Filter(received[..|received| - 1], sel)
    case _ => init + Filter(received, sel)
  }

  predicate HasLock(p: Phase) {
    p.Registering? || p.Listed? || p.Deleting?
  }

  predicate InNodes(p: Phase) {
    p.Registering? || p.Listed? || p.Live? || p.Stopping?
  }

  predicate StopBegun(p: Phase) {
    p.Stopping? || p.Deleting? || p.Closing? || p.Stopped?
  }

  predicate ChannelsOk(x: Watch) {
    && (x.stopClosed <==> StopBegun(x.phase))
    && (x.updateClosed <==> x.phase.Stopped?)
    && (x.outClosed <==> x.drain.Finished?)
    && (x.drain.Finished? ==> x.updateClosed)
    && (x.drain.NotSpawned? <==> x.phase.Called? || x.phase.Starting? || x.phase.Registering? || x.phase.Listed?)
  }

  predicate DrainOk(drain: Drain, init: seq<Event>, received: seq<Event>, sel: Selector) {
    match drain
    case NotSpawned => received == []
    case Init(i) => i < |init| && received == []
    case Holding(e) => received != [] && received[|received| - 1] == e && Matches(sel, e)
    case _ => true
  }

  // Before Stop the output is exactly what was handled; afterwards some of it may have been dropped.
  predicate OutputOk(drain: Drain, init: seq<Event>, received: seq<Event>, out: seq<Event>,
                     sel: Selector, stopped: bool) {
    && DrainOk(drain, init, received, sel)
    && SubSeq(out, Handled(drain, init, received, sel))
    && (!stopped ==> out == Handled(drain, init, received, sel))
  }

  predicate WatchOk(x: Watch) {
    ChannelsOk(x) && OutputOk(x.drain, x.init, x.received, x.out, x.sel, x.stopClosed)
  }

  lemma SubSeqKeep(a: seq<Event>, b: seq<Event>, e: Event)
    requires SubSeq(a, b)
    ensures SubSeq(a + [e], b + [e])
    ensures SubSeq(a, b + [e])
  {
    assert (a + [e])[..|a + [e]| - 1] == a;
    assert (b + [e])[..|b + [e]| - 1] == b;
  }

  lemma ReceivedOk(x: Watch, r: nat, e: Event)
    requires WatchOk(x) && x.drain.Receiving? && !x.updateClosed
    ensures WatchOk(Received(x, r, e))
  {
    var y := Received(x, r, e);
    assert y.received[..|y.received| - 1] == x.received;
    if !Matches(x.sel, e) {
      assert Filter(y.received, x.sel) == Filter(x.received, x.sel);
    }
  }

  // What moving on adds to the handled events is exactly the event on offer.
  lemma MovedHandles(x: Watch)
    requires Offering(x.drain) && DrainOk(x.drain, x.init, x.received, x.sel)
    ensures var y := Moved(x);
            && DrainOk(y.drain, y.init, y.received, y.sel)
            && Handled(y.drain, y.init, y.received, y.sel) == Handled(x.drain, x.init, x.received, x.sel) + [Offered(x)]
  {
    if x.drain.Init? {
      assert x.init[..x.drain.i + 1] == x.init[..x.drain.i] + [x.init[x.drain.i]];
      if x.drain.i + 1 == |x.init| {
        assert x.init[..|x.init|] == x.init;
        assert Filter(x.received, x.sel) == [];
        assert x.init + [] == x.init;
      }
    } else {
      var before := Filter(x.received[..|x.received| - 1], x.sel);
      assert Filter(x.received, x.sel) == before + [x.drain.e];
      assert x.init + (before + [x.drain.e]) == (x.init + before) + [x.drain.e];
    }
  }

  lemma DeliveredOk(x: Watch)
    requires WatchOk(x) && Offering(x.drain)
    ensures WatchOk(Moved(x).(out := x.out + [Offered(x)]))
  {
    MovedHandles(x);
    SubSeqKeep(x.out, Handled(x.drain, x.init, x.received, x.sel), Offered(x));
  }

  lemma DiscardedOk(x: Watch)
    requires WatchOk(x) && Offering(x.drain) && x.stopClosed
    ensures WatchOk(Moved(x))
  {
    MovedHandles(x);
    SubSeqKeep(x.out, Handled(x.drain, x.init, x.received, x.sel), Offered(x));
  }

  // ------------------------------------------------------------ invariant: the set

  /**
   Watch `w` is consistent, holds the lock exactly when it is the writer, has an id that is its own,
   and from Start until the lock in Stop is in the node map under that id: none was overwritten.
   */
  ghost predicate Placed(s: Sys, w: nat)
    requires w < |s.watches|
  {
    var x := s.watches[w];
    && WatchOk(x)
    && (HasLock(x.phase) <==> s.writer == Some(w))
    && (InNodes(x.phase) ==> x.id in s.nodes && s.nodes[x.id] == w)
    && (!x.phase.Called? ==> x.id <= s.counter && x.id in s.owner && s.owner[x.id] == w)
  }

  ghost predicate AllPlaced(s: Sys) {
    forall w {:trigger Placed(s, w)} :: 0 <= w < |s.watches| ==> Placed(s, w)
  }

  predicate IsNode(s: Sys, w: nat) {
    w < |s.watches| && InNodes(s.watches[w].phase)
  }

  ghost predicate NodesOk(s: Sys) {
    forall id {:trigger s.nodes[id]} :: id in s.nodes ==> IsNode(s, s.nodes[id]) && s.watches[s.nodes[id]].id == id
  }

  ghost predicate ReaderOk(s: Sys, r: nat)
    requires r in s.readers
  {
    Announces(s, r) && forall w :: w in s.readers[r] ==> IsNode(s, w)
  }

  ghost predicate ReadersOk(s: Sys) {
    && (s.writer.Some? ==> s.readers == map[] && s.writer.value < |s.watches|)
    && (forall r {:trigger ReaderOk(s, r)} :: r in s.readers ==> ReaderOk(s, r))
  }

  ghost predicate SetOk(s: Sys) {
    AllPlaced(s) && NodesOk(s) && ReadersOk(s) && !s.panicked
  }

  // A request never leaves its notification except when it is done.
  lemma NotifyStays(c: R.Core, a: R.Action, r: nat)
    requires a != R.NotifyDone(r) && R.ReqAt(c, r).Notify?
    ensures R.ReqAt(R.Step(c, a), r) == R.ReqAt(c, r)
  {
  }

  lemma RequestKeepsSet(s: Sys, a: R.Action)
    requires SetOk(s) && Enabled(s, Request(a))
    ensures SetOk(s.(core := R.Step(s.core, a)))
  {
    var s' := s.(core := R.Step(s.core, a));
    SameWatches(s, s');
    forall r | r in s'.readers ensures ReaderOk(s', r) {
      assert ReaderOk(s, r);
      NotifyStays(s.core, a, r);
    }
  }

  // Steps that touch no watch and neither the map nor the writer
  lemma SameWatches(s: Sys, s': Sys)
    requires AllPlaced(s) && NodesOk(s)
    requires s'.watches == s.watches && s'.nodes == s.nodes && s'.writer == s.writer
    requires s'.owner == s.owner && s'.counter == s.counter
    ensures AllPlaced(s') && NodesOk(s')
  {
    forall w | 0 <= w < |s'.watches| ensures Placed(s', w) {
      assert Placed(s, w);
    }
  }

  // Steps of one watch that neither register it nor take it out, and do not touch the lock
  lemma PutKeepsSet(s: Sys, w: nat, x: Watch)
    requires SetOk(s) && w < |s.watches| && WatchOk(x) && x.id == s.watches[w].id
    requires HasLock(x.phase) == HasLock(s.watches[w].phase) && InNodes(x.phase) == InNodes(s.watches[w].phase)
    requires x.phase.Called? == s.watches[w].phase.Called?
    ensures SetOk(Put(s, w, x))
  {
    var s' := Put(s, w, x);
    forall v | 0 <= v < |s'.watches| ensures Placed(s', v) {
      assert Placed(s, v);
    }
    forall r | r in s'.readers ensures ReaderOk(s', r) {
      assert ReaderOk(s, r);
    }
  }

  // Steps of one watch that change its phase, while no reader is about
  lemma PhaseKeepsSet(s: Sys, s': Sys, w: nat)
    requires SetOk(s) && w < |s.watches| && |s'.watches| == |s.watches|
    requires s' == s.(watches := s'.watches, nodes := s'.nodes, writer := s'.writer,
                      owner := s'.owner, counter := s'.counter)
    requires s'.watches == s.watches[w := s'.watches[w]]
    requires s.readers == map[] && s'.writer in {None, Some(w)}
    requires Placed(s', w) && NodesOk(s')
    requires forall v :: 0 <= v < |s.watches| && v != w && Placed(s, v) ==> Placed(s', v)
    ensures SetOk(s')
  {
    forall v | 0 <= v < |s'.watches| ensures Placed(s', v) {
      assert Placed(s, v);
    }
  }

  lemma CallWatchKeepsSet(s: Sys, sel: Selector)
    requires SetOk(s)
    ensures SetOk(Effect(s, CallWatch(sel)))
  {
    var s' := Effect(s, CallWatch(sel));
    forall v | 0 <= v < |s'.watches| ensures Placed(s', v) {
      assert v < |s.watches| ==> Placed(s, v);
    }
    forall r | r in s'.readers ensures ReaderOk(s', r) {
      assert ReaderOk(s, r);
    }
  }

  lemma NewIdKeepsSet(s: Sys, w: nat)
    requires SetOk(s) && Enabled(s, NewId(w))
    ensures SetOk(Effect(s, NewId(w)))
  {
    var s' := Effect(s, NewId(w));
    assert Placed(s, w);
    PhaseKeepsSet(s, s', w);
  }

  lemma RegisterKeepsSet(s: Sys, w: nat)
    requires SetOk(s) && Enabled(s, Register(w))
    ensures SetOk(Effect(s, Register(w)))
  {
    var s' := Effect(s, Register(w));
    assert Placed(s, w);
    PhaseKeepsSet(s, s', w);
  }

  lemma ListInitKeepsSet(s: Sys, w: nat, names: seq<Path>)
    requires SetOk(s) && Enabled(s, ListInit(w, names))
    ensures SetOk(Effect(s, ListInit(w, names)))
  {
    var s' := Effect(s, ListInit(w, names));
    assert Placed(s, w);
    PhaseKeepsSet(s, s', w);
  }

  lemma ReturnedOk(x: Watch)
    requires WatchOk(x) && x.phase.Listed?
    ensures WatchOk(x.(phase := Live, drain := AfterInit(0, x.init)))
  {
    if x.init == [] { assert Filter(x.received, x.sel) == []; }
  }

  lemma StartReturnKeepsSet(s: Sys, w: nat)
    requires SetOk(s) && Enabled(s, StartReturn(w))
    ensures SetOk(Effect(s, StartReturn(w)))
  {
    var s' := Effect(s, StartReturn(w));
    assert Placed(s, w);
    ReturnedOk(s.watches[w]);
    PhaseKeepsSet(s, s', w);
  }

  lemma StoppingOk(x: Watch)
    requires WatchOk(x) && x.phase.Live?
    ensures WatchOk(x.(stopClosed := true, phase := Stopping))
  {
  }

  // Stop may begin while notifiers are at work: the watch stays a node until they are done.
  lemma CallStopKeepsSet(s: Sys, w: nat)
    requires SetOk(s) && Enabled(s, CallStop(w))
    ensures SetOk(Effect(s, CallStop(w)))
  {
    assert Placed(s, w);
    StoppingOk(s.watches[w]);
    PutKeepsSet(s, w, s.watches[w].(stopClosed := true, phase := Stopping));
  }

  lemma DeletingOk(x: Watch)
    requires WatchOk(x) && x.phase.Stopping?
    ensures WatchOk(x.(phase := Deleting))
  {
  }

  lemma StopLockKeepsSet(s: Sys, w: nat)
    requires SetOk(s) && Enabled(s, StopLock(w))
    ensures SetOk(Effect(s, StopLock(w)))
  {
    var s' := Effect(s, StopLock(w));
    assert Placed(s, w);
    DeletingOk(s.watches[w]);
    PhaseKeepsSet(s, s', w);
  }

  lemma StopUnlockKeepsSet(s: Sys, w: nat)
    requires SetOk(s) && Enabled(s, StopUnlock(w))
    ensures SetOk(Effect(s, StopUnlock(w)))
  {
    var s' := Effect(s, StopUnlock(w));
    assert Placed(s, w);
    PhaseKeepsSet(s, s', w);
  }

  // The update channel closes outside the lock, when the watch is no longer a node.
  lemma CloseUpdateKeepsSet(s: Sys, w: nat)
    requires SetOk(s) && Enabled(s, CloseUpdate(w))
    ensures SetOk(Effect(s, CloseUpdate(w)))
  {
    assert Placed(s, w);
    PutKeepsSet(s, w, s.watches[w].(updateClosed := true, phase := Stopped));
  }

  lemma RLockKeepsSet(s: Sys, r: nat)
    requires SetOk(s) && Enabled(s, RLock(r))
    ensures SetOk(Effect(s, RLock(r)))
  {
    var s' := Effect(s, RLock(r));
    SameWatches(s, s');
    forall q | q in s'.readers ensures ReaderOk(s', q) {
      assert q != r ==> ReaderOk(s, q);
    }
  }

  lemma SendKeepsSet(s: Sys, r: nat, w: nat)
    requires SetOk(s) && Enabled(s, Send(r, w))
    ensures SetOk(Effect(s, Send(r, w)))
  {
    assert Placed(s, w) && ReaderOk(s, r);
    ReceivedOk(s.watches[w], r, s.core.reqs[r].ev);
    var s1 := s.(readers := s.readers[r := s.readers[r] - {w}]);
    SameWatches(s, s1);
    forall q | q in s1.readers ensures ReaderOk(s1, q) {
      assert ReaderOk(s, q);
    }
    PutKeepsSet(s1, w, Received(s.watches[w], r, s.core.reqs[r].ev));
  }

  lemma RUnlockKeepsSet(s: Sys, r: nat)
    requires SetOk(s) && Enabled(s, RUnlock(r))
    ensures SetOk(Effect(s, RUnlock(r)))
  {
    var s' := Effect(s, RUnlock(r));
    SameWatches(s, s');
    forall q | q in s'.readers ensures ReaderOk(s', q) {
      assert ReaderOk(s, q);
    }
  }

  lemma DrainStepsKeepSet(s: Sys, a: Action)
    requires SetOk(s) && Enabled(s, a)
    requires a.Deliver? || a.Discard? || a.CloseOut?
    ensures SetOk(Effect(s, a))
  {
    var x := s.watches[a.w];
    assert Placed(s, a.w);
    match a
    case Deliver(w) =>
      DeliveredOk(x);
      PutKeepsSet(s, w, Moved(x).(out := x.out + [Offered(x)]));
    case Discard(w) =>
      DiscardedOk(x);
      PutKeepsSet(s, w, Moved(x));
    case CloseOut(w) =>
      var y := x.(outClosed := true, drain := Finished);
      PutKeepsSet(s, w, y);
  }

  lemma StepKeepsSet(s: Sys, a: Action)
    requires SetOk(s)
    ensures SetOk(Step(s, a))
  {
    if Enabled(s, a) {
      match a
      case Request(a') => RequestKeepsSet(s, a');
      case CallWatch(sel) => CallWatchKeepsSet(s, sel);
      case NewId(w) => NewIdKeepsSet(s, w);
      case Register(w) => RegisterKeepsSet(s, w);
      case ListInit(w, names) => ListInitKeepsSet(s, w, names);
      case StartReturn(w) => StartReturnKeepsSet(s, w);
      case RLock(r) => RLockKeepsSet(s, r);
      case Send(r, w) => SendKeepsSet(s, r, w);
      case RUnlock(r) => RUnlockKeepsSet(s, r);
      case Deliver(_) => DrainStepsKeepSet(s, a);
      case Discard(_) => DrainStepsKeepSet(s, a);
      case CloseOut(_) => DrainStepsKeepSet(s, a);
      case CallStop(w) => CallStopKeepsSet(s, w);
      case StopLock(w) => StopLockKeepsSet(s, w);
      case StopUnlock(w) => StopUnlockKeepsSet(s, w);
      case CloseUpdate(w) => CloseUpdateKeepsSet(s, w);
    }
  }
}
