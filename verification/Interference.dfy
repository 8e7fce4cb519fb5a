/**
 What other requests may do to the store between a handler's critical sections: any sequence of
 writes and removals, on the objects of any resource.
 */
module Interference {
  import opened Wrappers
  import opened Objects
  import opened Paths
  import opened Stores
  import H = History

  datatype Op = OtherWrite(name: Path, doc: Doc, version: nat) | OtherRemove(name: Path)

  function Do(s: Store, op: Op): Store {
    match op
    case OtherWrite(name, doc, version) => Stores.Write(s, name, doc, version)
    case OtherRemove(name) => Stores.Remove(s, name)
  }

  function DoAll(s: Store, ops: seq<Op>): Store {
    if ops == [] then s else Do(DoAll(s, ops[..|ops| - 1]), ops[|ops| - 1])
  }

  // How many of the operations give `name` new content
  function ContentWrites(s: Store, ops: seq<Op>, name: Path): nat {
    if ops == [] then 0
    else
      var before, op := DoAll(s, ops[..|ops| - 1]), ops[|ops| - 1];
      ContentWrites(s, ops[..|ops| - 1], name) +
      if op.OtherWrite? && op.name == name && WriteOutcomeOf(before, name, op.doc, op.version).Assigned? then 1 else 0
  }

  lemma WriteKeepsVersions(s: Store, name: Path, doc: Doc, version: nat)
    requires H.WellVersioned(s)
    ensures H.WellVersioned(Stores.Write(s, name, doc, version))
  {
    EncodeIdempotent(doc);
  }

  /** Whatever others do, an object keeps its value, disappears, or gets a version never seen before. */
  lemma {:induction false} OthersAdvance(s: Store, ops: seq<Op>, name: Path)
    requires H.WellVersioned(s)
    ensures H.WellVersioned(DoAll(s, ops)) && s.rev <= DoAll(s, ops).rev
    ensures Read(DoAll(s, ops), name) in {None, Read(s, name)} || DoAll(s, ops).files[name].version > s.rev
    ensures ContentWrites(s, ops, name) == 0 ==> Read(DoAll(s, ops), name) in {None, Read(s, name)}
  {
    if ops != [] {
      OthersAdvance(s, ops[..|ops| - 1], name);
      var op := ops[|ops| - 1];
      if op.OtherWrite? { WriteKeepsVersions(DoAll(s, ops[..|ops| - 1]), op.name, op.doc, op.version); }
    }
  }

  // A count that is not zero counts something.
  lemma {:induction false} SomeContentWrite(s: Store, ops: seq<Op>, name: Path) returns (k: nat)
    requires ContentWrites(s, ops, name) > 0
    ensures k < |ops| && ops[k].OtherWrite? && ops[k].name == name
    ensures var at := DoAll(s, ops[..k]);
            WriteOutcomeOf(at, name, ops[k].doc, ops[k].version) == Assigned(at.rev + 1)
  {
    var front, op := ops[..|ops| - 1], ops[|ops| - 1];
    if op.OtherWrite? && op.name == name && WriteOutcomeOf(DoAll(s, front), name, op.doc, op.version).Assigned? {
      k := |ops| - 1;
    } else {
      k := SomeContentWrite(s, front, name);
      assert front[..k] == ops[..k];
    }
  }

  lemma {:induction false} DoAllConcat(s: Store, a: seq<Op>, b: seq<Op>)
    ensures DoAll(s, a + b) == DoAll(DoAll(s, a), b)
  {
    if b == [] {
      assert a + b == a;
    } else {
      assert (a + b)[..|a + b| - 1] == a + b[..|b| - 1];
      DoAllConcat(s, a, b[..|b| - 1]);
    }
  }

  function InputVersion(input: Option<Obj>): nat {
    if input.Some? then input.value.version else 0
  }

  predicate Accepted(w: WriteOutcome) {
    w.Assigned? || w.Identical?
  }

  /**
   One attempt: the object is read in `g`, others act, then the write is tried. It is accepted only
   if the object is untouched, and a version conflict means that another request changed it.
   */
  lemma AttemptOutcome(g: Store, ops: seq<Op>, name: Path, doc: Doc)
    requires H.WellVersioned(g)
    ensures var input, at := Read(g, name), DoAll(g, ops);
            var w := WriteOutcomeOf(at, name, doc, InputVersion(input));
            && (Accepted(w) <==> Read(at, name) == input)
            && (w == VersionError ==> ContentWrites(g, ops, name) >= 1)
  {
    OthersAdvance(g, ops, name);
  }

  // ------------------------------------------------------------ around a call that retries

  /**
   What happens around a call: what others do before each attempt's Get, what they do between it and
   the Write, and before which attempts the context is found cancelled.
   */
  datatype Env = Env(before: nat -> seq<Op>, during: nat -> seq<Op>, cancelled: nat -> bool)

  // The store after the first `n` attempts, as long as all of them were refused
  function StoreAt(s: Store, env: Env, n: nat): Store {
    if n == 0 then s else DoAll(DoAll(StoreAt(s, env, n - 1), env.before(n - 1)), env.during(n - 1))
  }

  function AtGet(s: Store, env: Env, i: nat): Store {
    DoAll(StoreAt(s, env, i), env.before(i))
  }

  function AtWrite(s: Store, env: Env, i: nat): Store {
    DoAll(AtGet(s, env, i), env.during(i))
  }

  lemma {:induction false} AttemptsKeepVersions(s: Store, env: Env, i: nat)
    requires H.WellVersioned(s)
    ensures H.WellVersioned(StoreAt(s, env, i)) && H.WellVersioned(AtGet(s, env, i))
  {
    if i > 0 {
      AttemptsKeepVersions(s, env, i - 1);
      OthersAdvance(AtGet(s, env, i - 1), env.during(i - 1), []);
    }
    OthersAdvance(StoreAt(s, env, i), env.before(i), []);
  }
}
