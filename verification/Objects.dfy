/**
 API objects, their encoded form, and the two update strategies
 (pkg/server/builder/rest/strategy.go and status.go).

 The codec is deterministic and loses only the sub-second part of times, so encoded bytes are
 modelled by the normal form of the object they decode to: two objects encode to equal bytes
 exactly when their normal forms are equal. The resource version is never part of the bytes.
 */
module Objects {
  import opened Wrappers
  import opened Versions
  import opened Paths

  // Nanoseconds since the epoch
  type Time = int

  const SECOND: int := 1_000_000_000

  // RFC 3339 text keeps whole seconds only
  function Truncate(t: Time): (r: Time)
    ensures r % 1_000_000_000 == 0 && r <= t < r + 1_000_000_000
  {
    t - t % SECOND
  }

  function Rounded(t: Option<Time>): Option<Time> {
    if t.Some? then Some(Truncate(t.value)) else None
  }

  // The metadata that the system gives an object when it is created
  datatype Identity = Identity(uid: string, created: Option<Time>, generation: int)

  datatype Doc = Doc(
    identity: Identity,
    labels: map<string, string>,
    meta: string,
    finalizers: seq<string>,
    deletion: Option<Time>,
    grace: Option<int>,
    spec: string,
    status: string
  )

  // A decoded object: its content and its resource version (0 when the text is empty)
  datatype Obj = Obj(doc: Doc, version: nat)

  datatype Bytes = Bytes(normal: Doc)

  function Encode(d: Doc): (b: Bytes)
    ensures b.normal.spec == d.spec && b.normal.status == d.status
    ensures b.normal.labels == d.labels && b.normal.finalizers == d.finalizers
  {
    Bytes(d.(identity := d.identity.(created := Rounded(d.identity.created)), deletion := Rounded(d.deletion)))
  }

  function Decode(b: Bytes): Doc {
    b.normal
  }

  // Re-encoding a decoded object gives the same bytes.
  lemma EncodeIdempotent(d: Doc)
    ensures Encode(Decode(Encode(d))) == Encode(d)
  {
    RoundedTwice(d.deletion);
    RoundedTwice(d.identity.created);
  }

  // The time read back is the whole second in which the time written lies.
  predicate SameSecond(written: Option<Time>, read: Option<Time>) {
    if written.None? then read == None
    else read.Some? && read.value % 1_000_000_000 == 0 && read.value <= written.value < read.value + 1_000_000_000
  }

  /** Writing an object and reading it back keeps every field, but for the sub-second part of its two times. */
  lemma EncodingKeepsAllButFractions(d: Doc)
    ensures var r := Decode(Encode(d));
            && r.labels == d.labels && r.meta == d.meta && r.finalizers == d.finalizers && r.grace == d.grace
            && r.spec == d.spec && r.status == d.status
            && r.identity.uid == d.identity.uid && r.identity.generation == d.identity.generation
            && SameSecond(d.identity.created, r.identity.created) && SameSecond(d.deletion, r.deletion)
  {
  }

  lemma RoundedTwice(t: Option<Time>)
    ensures Rounded(Rounded(t)) == Rounded(t)
  {
    if t.Some? { assert Truncate(Truncate(t.value)) == Truncate(t.value); }
  }

  // ------------------------------------------------------------ library and strategy hooks

  datatype Endpoint = Main | Status

  // What PrepareForUpdate leaves in the updated object, per endpoint.
  function Prepare(ep: Endpoint, proposed: Obj, stored: Obj): Obj {
    match ep
    case Main => proposed.(doc := proposed.doc.(status := stored.doc.status))
    case Status => stored.(doc := stored.doc.(status := proposed.doc.status))
  }

  // FillObjectMetaSystemFields: a new object gets a fresh UID and the current time.
  function Filled(d: Doc, uid: string, now: Time): Doc {
    d.(identity := d.identity.(uid := uid, created := Some(now)))
  }

  /** The two strategies, in place and as a value, prepare the same object. */
  lemma PreparedAlike(o: Obj, s: Obj)
    ensures Prepare(Main, o, s) == Obj(o.doc.(status := s.doc.status), o.version)
    ensures Prepare(Status, o, s) == Obj(s.doc.(status := o.doc.status), s.version)
  {
  }

  // The library's BeforeUpdate puts back what is set by the system, unless the caller may leave it out.
  function RestoredIdentity(updated: Identity, stored: Identity): Identity {
    Identity(if updated.uid == "" then stored.uid else updated.uid,
             if stored.created.Some? then stored.created else updated.created,
             stored.generation)
  }

  function Restored(updated: Doc, stored: Doc): Doc {
    updated.(identity := RestoredIdentity(updated.identity, stored.identity),
             deletion := if stored.deletion.Some? then stored.deletion else updated.deletion,
             grace := if stored.grace.Some? && updated.grace.None? then stored.grace else updated.grace)
  }

  // Its validation: these fields do not change, and an object being deleted gains no finalizer.
  predicate Permitted(updated: Doc, stored: Doc) {
    && updated.identity.uid == stored.identity.uid && updated.identity.created == stored.identity.created
    && updated.deletion == stored.deletion && updated.grace == stored.grace
    && (stored.deletion.Some? ==> forall f :: f in updated.finalizers ==> f in stored.finalizers)
  }

  // What a caller may propose: what the system has set, or leave it out where that is allowed, and no
  // new finalizer on an object being deleted.
  predicate MayReplace(proposed: Doc, stored: Doc) {
    && (proposed.identity.uid == "" || proposed.identity.uid == stored.identity.uid)
    && (proposed.identity.created.None? || stored.identity.created.Some?)
    && (proposed.deletion.None? || stored.deletion.Some?)
    && (proposed.grace.None? || proposed.grace == stored.grace)
    && (stored.deletion.None? || forall f :: f in proposed.finalizers ==> f in stored.finalizers)
  }

  /**
   The library's BeforeUpdate: the strategy's preparation, the restored fields, and validation. A
   resource's own validation may refuse more; that is left to the caller.
   */
  function BeforeUpdate(ep: Endpoint, proposed: Obj, stored: Obj): (r: Option<Obj>)
    ensures ep.Status? ==> r == Some(stored.(doc := stored.doc.(status := proposed.doc.status)))
    ensures ep.Main? && r.Some? ==>
              && r.value.version == proposed.version
              && r.value.doc.labels == proposed.doc.labels && r.value.doc.meta == proposed.doc.meta
              && r.value.doc.finalizers == proposed.doc.finalizers && r.value.doc.spec == proposed.doc.spec
              && r.value.doc.identity == stored.doc.identity && r.value.doc.status == stored.doc.status
              && r.value.doc.deletion == stored.doc.deletion && r.value.doc.grace == stored.doc.grace
    ensures ep.Main? ==> (r.Some? <==> MayReplace(proposed.doc, stored.doc))
  {
    var prepared := Prepare(ep, proposed, stored);
    var updated := prepared.(doc := Restored(prepared.doc, stored.doc));
    if Permitted(updated.doc, stored.doc) then Some(updated) else None
  }

  // A label and field selector decides on the object's file name and its labels.
  type Selector = (Path, map<string, string>) -> bool

  // An object marked for deletion whose finalizers are all gone
  predicate Doomed(d: Doc) {
    d.finalizers == [] && d.deletion.Some?
  }

  // Delete's mark on an object that still has finalizers: deletion time only moves earlier.
  function MarkDeleted(d: Doc, now: Time): Doc {
    d.(deletion := if d.deletion.None? || now < d.deletion.value then Some(now) else d.deletion, grace := Some(0))
  }

  /** The object in memory: a mutable record that handlers and strategies change in place. */
  class ApiObject {
    var doc: Doc
    var resourceVersion: string

    constructor (doc: Doc, resourceVersion: string)
      ensures this.doc == doc && this.resourceVersion == resourceVersion
    {
      this.doc := doc;
      this.resourceVersion := resourceVersion;
    }

    // The numeric view, when the version text is well formed
    ghost predicate Is(o: Obj)
      reads this
    {
      doc == o.doc && ParseResourceVersion(resourceVersion) == Success(o.version)
    }

    method SetResourceVersion(v: nat) returns (ok: bool)
      requires v < LIMIT
      modifies this
      ensures ok == (v > 0)
      ensures doc == old(doc)
      ensures ok ==> ParseResourceVersion(resourceVersion) == Success(v)
      ensures !ok ==> resourceVersion == old(resourceVersion)
    {
      if v <= 0 {
        return false;
      }
      VersionRoundTrip(v);
      resourceVersion := FormatResourceVersion(v);
      return true;
    }

    method ClearResourceVersion()
      modifies this
      ensures doc == old(doc) && ParseResourceVersion(resourceVersion) == Success(0)
    {
      resourceVersion := "";
    }

    // The copied status replaces this object's status and nothing else.
    method CopyStatusFrom(source: ApiObject)
      modifies this
      ensures doc == old(doc).(status := old(source.doc.status))
      ensures resourceVersion == old(resourceVersion)
    {
      doc := doc.(status := source.doc.status);
    }

    method DeepCopyInto(dst: ApiObject)
      modifies dst
      ensures dst.doc == old(doc) && dst.resourceVersion == old(resourceVersion)
    {
      dst.doc := doc;
      dst.resourceVersion := resourceVersion;
    }
  }

  /**
   DefaultStrategy: the updated object takes the stored status, and then the resource type's own
   hook, if it has one, is applied; the stored object is left alone.
   */
  method PrepareForMainUpdate(obj: ApiObject, stored: ApiObject, hook: Option<(Doc, Doc) -> Doc>,
                              ghost o: Obj, ghost s: Obj)
    requires obj.Is(o) && stored.Is(s)
    modifies obj
    ensures var prepared := o.doc.(status := s.doc.status);
            obj.Is(Obj(if hook.Some? then hook.value(prepared, s.doc) else prepared, o.version))
    ensures obj != stored ==> stored.Is(s)
  {
    obj.CopyStatusFrom(stored);
    if hook.Some? {
      obj.doc := hook.value(obj.doc, stored.doc);
    }
  }

  /**
   StatusSubResourceStrategy: the new status is copied into the stored object, which then replaces
   the updated object whole, so the request's own resource version is lost.
   */
  method PrepareForStatusUpdate(obj: ApiObject, stored: ApiObject, ghost o: Obj, ghost s: Obj)
    requires obj.Is(o) && stored.Is(s)
    modifies obj, stored
    ensures var updated := Obj(s.doc.(status := o.doc.status), s.version);
            obj.Is(updated) && stored.Is(updated)
  {
    stored.CopyStatusFrom(obj);
    stored.DeepCopyInto(obj);
  }
}
