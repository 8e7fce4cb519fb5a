/**
 Histories of accepted writes and removals, and what every legal history guarantees.

 A history is the sequential specification of the store: each entry is legal only if it applies
 atomically to the store that the entries before it produced. The module Requests proves that every
 interleaved run of API requests produces a legal history; here are the consequences.
 */
module History {
  import opened Wrappers
  import opened Objects
  import opened Paths
  import opened Stores

  datatype Kind = ByCreate | ByUpdate(ep: Endpoint) | ByMark(now: Time)

  // Who made an entry: a request, or the listing loop of a DeleteCollection
  datatype Author = Caller(r: nat) | Collection

  datatype Entry =
      // An accepted write: the object the request had read (None for a create), the object it was
      // asked to store, the bytes it wrote, and the version its caller was told.
    | Wrote(author: Author, name: Path, kind: Kind, input: Option<Obj>, proposed: Obj, data: Bytes, version: nat)
    | Removed(author: Author, name: Path)

  type Log = seq<Entry>

  // An accepted write that was not skipped as identical
  predicate IsChange(e: Entry) {
    e.Wrote? && (e.input.None? || e.input.value.version != e.version)
  }

  // What a request of each kind stores, given the object currently stored; None where it refuses
  function Written(kind: Kind, proposed: Obj, input: Option<Obj>): Option<Doc> {
    match (kind, input)
    case (ByCreate, None) => Some(proposed.doc)
    case (ByUpdate(ep), Some(stored)) =>
      var out := BeforeUpdate(ep, proposed, stored);
      if proposed.version == stored.version && out.Some? then Some(out.value.doc) else None
    case (ByMark(now), Some(stored)) =>
      if stored.doc.finalizers != [] then Some(MarkDeleted(stored.doc, now)) else None
    case _ => None
  }

  /** The entry is one atomic read-modify-write (or removal) of the store `s`. */
  predicate Legal(s: Store, e: Entry) {
    match e
    case Removed(_, name) => name in s.files
    case Wrote(_, name, kind, input, proposed, data, version) =>
      && input == Read(s, name)
      && var out := Written(kind, proposed, input);
         && out.Some? && data == Encode(out.value)
         && version == if input.Some? && s.files[name].data == data then input.value.version else s.rev + 1
  }

  function Apply(s: Store, e: Entry): Store {
    match e
    case Removed(_, name) => Remove(s, name)
    case Wrote(_, name, _, _, _, data, version) =>
      if IsChange(e) then Store(s.files[name := Stored(version, data)], version) else s
  }

  // The store after the first `i` entries
  function At(log: Log, i: nat): Store
    requires i <= |log|
  {
    if i == 0 then EMPTY else Apply(At(log, i - 1), log[i - 1])
  }

  predicate LegalAt(log: Log, i: nat)
    requires i < |log|
  {
    Legal(At(log, i), log[i])
  }

  predicate LegalLog(log: Log) {
    forall i {:trigger LegalAt(log, i)} :: 0 <= i < |log| ==> LegalAt(log, i)
  }

  lemma {:induction false} AtAppend(log: Log, e: Entry, i: nat)
    requires i <= |log|
    ensures At(log + [e], i) == At(log, i)
  {
    if i > 0 { AtAppend(log, e, i - 1); }
  }

  lemma {:induction false} AtPrefix(log: Log, longer: Log, i: nat)
    requires log <= longer && i <= |log|
    ensures At(longer, i) == At(log, i)
  {
    if i > 0 { AtPrefix(log, longer, i - 1); }
  }

  lemma LegalAppend(log: Log, e: Entry)
    requires LegalLog(log) && Legal(At(log, |log|), e)
    ensures LegalLog(log + [e])
    ensures At(log + [e], |log| + 1) == Apply(At(log, |log|), e)
  {
    var longer := log + [e];
    forall i | 0 <= i < |longer| ensures LegalAt(longer, i) {
      if i < |log| { assert LegalAt(log, i); }
      AtAppend(log, e, i);
    }
    AtAppend(log, e, |log|);
  }

  /** A removal takes one name and leaves the revision alone. */
  lemma RemovalTakesOneName(log: Log, i: nat)
    requires LegalLog(log) && i < |log| && log[i].Removed?
    ensures log[i].name in At(log, i).files
    ensures At(log, i + 1) == Store(At(log, i).files - {log[i].name}, At(log, i).rev)
  {
    assert LegalAt(log, i);
  }

  /**
   A write was computed from what is stored, and changes one name: to its bytes, under the next
   revision, or not at all if these bytes are there already.
   */
  lemma WriteChangesOneName(log: Log, i: nat)
    requires LegalLog(log) && i < |log| && log[i].Wrote?
    ensures var e, s, s' := log[i], At(log, i), At(log, i + 1);
            && e.input == Read(s, e.name)
            && s'.files == s.files[e.name := Stored(e.version, e.data)]
            && (if IsChange(e) then s'.rev == e.version == s.rev + 1
                else s' == s && e.name in s.files && s.files[e.name] == Stored(e.version, e.data))
            && (IsChange(e) <==> !(e.name in s.files && s.files[e.name].data == e.data))
  {
    assert LegalAt(log, i);
    VersionsInRange(log, i);
    EntryStores(At(log, i), log[i]);
  }

  /** A create finds nothing under the name and stores the object it was given. */
  lemma CreateStoresProposal(log: Log, i: nat)
    requires LegalLog(log) && i < |log| && log[i].Wrote? && log[i].kind.ByCreate?
    ensures log[i].name !in At(log, i).files && log[i].data == Encode(log[i].proposed.doc)
  {
    assert LegalAt(log, i);
  }

  /**
   An update proposes the version that is stored. Through the main endpoint it stores what it proposes,
   but for what the system keeps; through the status endpoint, the stored object with the new status.
   */
  lemma UpdateStoresProposal(log: Log, i: nat)
    requires LegalLog(log) && i < |log| && log[i].Wrote? && log[i].kind.ByUpdate?
    ensures var s, p := At(log, i), log[i].proposed;
            && log[i].name in s.files && p.version == s.files[log[i].name].version
            && var d, d' := Decode(s.files[log[i].name].data), Decode(log[i].data);
               if log[i].kind.ep.Status? then d' == d.(status := p.doc.status)
               else
                 && d' == p.doc.(identity := d.identity, deletion := d.deletion, grace := d.grace, status := d.status)
                 && MayReplace(p.doc, d)
  {
    assert LegalAt(log, i);
    VersionsInRange(log, i);
  }

  /** Delete's mark finds finalizers, and sets the earlier deletion time and no grace period. */
  lemma MarkStoresMark(log: Log, i: nat)
    requires LegalLog(log) && i < |log| && log[i].Wrote? && log[i].kind.ByMark?
    ensures var s, now := At(log, i), log[i].kind.now;
            && log[i].name in s.files
            && var d, d' := Decode(s.files[log[i].name].data), Decode(log[i].data);
               && d.finalizers != [] && d' == d.(deletion := d'.deletion, grace := Some(0)) && d'.deletion.Some?
               && (if d.deletion.Some? && d.deletion.value <= now then d'.deletion == d.deletion
                   else SameSecond(Some(now), d'.deletion))
  {
    assert LegalAt(log, i);
    VersionsInRange(log, i);
  }

  lemma EntryStores(s: Store, e: Entry)
    requires WellVersioned(s) && Legal(s, e) && e.Wrote?
    ensures Apply(s, e).files == s.files[e.name := Stored(e.version, e.data)]
    ensures IsChange(e) ==> Apply(s, e).rev == e.version == s.rev + 1
    ensures !IsChange(e) ==> Apply(s, e) == s && e.name in s.files && s.files[e.name] == Stored(e.version, e.data)
  {
    if !IsChange(e) { assert s.files == s.files[e.name := s.files[e.name]]; }
  }

  // ------------------------------------------------------------ versions

  ghost predicate WellVersioned(s: Store) {
    && 1 <= s.rev
    && forall n :: n in s.files ==>
         && 2 <= s.files[n].version <= s.rev
         && Encode(Decode(s.files[n].data)) == s.files[n].data
  }

  /** At every point all stored versions lie in 2..rev, and stored bytes are in normal form. */
  lemma {:induction false} VersionsInRange(log: Log, i: nat)
    requires LegalLog(log) && i <= |log|
    ensures WellVersioned(At(log, i))
  {
    if i > 0 {
      VersionsInRange(log, i - 1);
      var e := log[i - 1];
      assert LegalAt(log, i - 1);
      if e.Wrote? { EncodeIdempotent(Written(e.kind, e.proposed, e.input).value); }
    }
  }

  lemma {:induction false} RevNeverFalls(log: Log, i: nat, j: nat)
    requires LegalLog(log) && i <= j <= |log|
    ensures At(log, i).rev <= At(log, j).rev
    decreases j
  {
    if i < j {
      RevNeverFalls(log, i, j - 1);
      assert LegalAt(log, j - 1);
    }
  }

  /**
   Reading the same version twice means nothing was written in between: the stored value is the
   same, and every entry on that name between the two readings was skipped as identical.
   */
  lemma {:induction false} SameVersionUntouched(log: Log, i: nat, j: nat, name: Path)
    requires LegalLog(log) && i <= j <= |log|
    requires name in At(log, i).files && name in At(log, j).files
    requires At(log, i).files[name].version == At(log, j).files[name].version
    ensures At(log, i).files[name] == At(log, j).files[name]
    ensures forall k :: i <= k < j && log[k].name == name ==> log[k].Wrote? && !IsChange(log[k])
    decreases j
  {
    if i < j {
      var e, before := log[j - 1], At(log, j - 1);
      assert LegalAt(log, j - 1);
      VersionsInRange(log, i);
      RevNeverFalls(log, i, j - 1);
      assert e.name == name ==> e.Wrote? && !IsChange(e);
      SameVersionUntouched(log, i, j - 1, name);
    }
  }

  /** Each assigned version names one (name, bytes) pair in the whole history. */
  lemma VersionsNeverReused(log: Log, i: nat, j: nat)
    requires LegalLog(log) && i < j < |log|
    requires IsChange(log[i]) && IsChange(log[j])
    ensures 2 <= log[i].version <= At(log, i + 1).rev < log[j].version
  {
    VersionsInRange(log, i);
    VersionsInRange(log, j);
    assert LegalAt(log, i) && LegalAt(log, j);
    RevNeverFalls(log, i + 1, j);
  }

  /** Every version assigned after an instant exceeds the revision, and every version stored, at that instant. */
  lemma LaterVersionsAreGreater(log: Log, i: nat, j: nat, name: Path)
    requires LegalLog(log) && i <= j < |log| && IsChange(log[j])
    ensures At(log, i).rev < log[j].version
    ensures name in At(log, i).files ==> At(log, i).files[name].version <= At(log, i).rev
  {
    VersionsInRange(log, i);
    VersionsInRange(log, j);
    RevNeverFalls(log, i, j);
    assert LegalAt(log, j);
  }

  // Right after an accepted write the name holds the bytes and the version written.
  lemma WrittenIsStored(log: Log, k: nat)
    requires LegalLog(log) && k < |log| && log[k].Wrote?
    ensures log[k].name in At(log, k + 1).files
    ensures At(log, k + 1).files[log[k].name] == Stored(log[k].version, log[k].data)
  {
    assert LegalAt(log, k);
    VersionsInRange(log, k);
  }

  // Whatever is stored was written by some change, the last one on its name.
  lemma {:induction false} StoredWasWritten(log: Log, i: nat, name: Path) returns (k: nat)
    requires LegalLog(log) && i <= |log| && name in At(log, i).files
    ensures k < i && IsChange(log[k]) && log[k].name == name
    ensures At(log, i).files[name] == Stored(log[k].version, log[k].data) && Quiet(log, k + 1, i, name)
  {
    assert LegalAt(log, i - 1);
    if IsChange(log[i - 1]) && log[i - 1].name == name {
      k := i - 1;
    } else {
      k := StoredWasWritten(log, i - 1, name);
    }
  }

  // ------------------------------------------------------------ lost updates, creates, zombies

  /** At most one content-changing write is accepted per input version of a name. */
  lemma OneChangePerInputVersion(log: Log, i: nat, j: nat)
    requires LegalLog(log) && i < |log| && j < |log|
    requires IsChange(log[i]) && IsChange(log[j]) && log[i].name == log[j].name
    requires log[i].input.Some? && log[j].input.Some?
    requires log[i].input.value.version == log[j].input.value.version
    ensures i == j
  {
    assert LegalAt(log, i) && LegalAt(log, j);
    if i < j {
      SameVersionUntouched(log, i, j, log[i].name);
    } else if j < i {
      SameVersionUntouched(log, j, i, log[i].name);
    }
  }

  // No entry strictly between the two positions concerns the name, except writes skipped as identical.
  predicate Quiet(log: Log, i: nat, j: nat, name: Path)
    requires j <= |log|
  {
    forall k :: i <= k < j && log[k].name == name ==> log[k].Wrote? && !IsChange(log[k])
  }

  lemma {:induction false} QuietKeeps(log: Log, i: nat, j: nat, name: Path)
    requires LegalLog(log) && i <= j <= |log| && Quiet(log, i, j, name)
    ensures Read(At(log, i), name) == Read(At(log, j), name)
    decreases j
  {
    if i < j {
      QuietKeeps(log, i, j - 1, name);
      assert LegalAt(log, j - 1);
    }
  }

  /**
   Between a create and the removal, changes form a chain: each change was computed from exactly
   the version and the bytes that the previous change produced.
   */
  lemma ChangesFormChain(log: Log, i: nat, j: nat)
    requires LegalLog(log) && i < j < |log|
    requires IsChange(log[i]) && log[j].Wrote? && log[i].name == log[j].name
    requires Quiet(log, i + 1, j, log[i].name)
    ensures log[j].input == Some(Obj(Decode(log[i].data), log[i].version))
  {
    assert LegalAt(log, i) && LegalAt(log, j);
    QuietKeeps(log, i + 1, j, log[i].name);
  }

  // The object is not removed in [i, j).
  predicate Kept(log: Log, i: nat, j: nat, name: Path)
    requires j <= |log|
  {
    forall k :: i <= k < j ==> log[k] != Removed(log[k].author, name)
  }

  lemma {:induction false} PresentUntilRemoved(log: Log, i: nat, j: nat, name: Path)
    requires LegalLog(log) && i <= j <= |log|
    requires name in At(log, i).files && Kept(log, i, j, name)
    ensures name in At(log, j).files
    decreases j
  {
    if i < j {
      PresentUntilRemoved(log, i, j - 1, name);
      assert log[j - 1] != Removed(log[j - 1].author, name);
    }
  }

  /** Two accepted creates of one name are separated by a removal, whatever their contents. */
  lemma CreatesAreExclusive(log: Log, i: nat, j: nat)
    requires LegalLog(log) && i < j < |log|
    requires log[i].Wrote? && log[i].kind.ByCreate? && log[j].Wrote? && log[j].kind.ByCreate?
    requires log[i].name == log[j].name
    ensures exists k :: i < k < j && log[k] == Removed(log[k].author, log[i].name)
  {
    assert LegalAt(log, i) && LegalAt(log, j);
    if Kept(log, i + 1, j, log[i].name) {
      PresentUntilRemoved(log, i + 1, j, log[i].name);
    }
  }

  /**
   A version read before a removal is refused for ever after, whatever is re-created under the
   name and although Remove does not advance the revision.
   */
  lemma NoZombieWrites(log: Log, i: nat, k: nat, j: nat, name: Path, doc: Doc)
    requires LegalLog(log) && i <= k < j <= |log|
    requires name in At(log, i).files && log[k] == Removed(log[k].author, name)
    ensures var v := At(log, i).files[name].version;
            && WriteOutcomeOf(At(log, j), name, doc, v) in {VersionError, NotExist}
            && Write(At(log, j), name, doc, v) == At(log, j)
  {
    VersionsInRange(log, i);
    if name in At(log, j).files && At(log, j).files[name].version == At(log, i).files[name].version {
      SameVersionUntouched(log, i, j, name);
    }
  }

  // ------------------------------------------------------------ spec and status

  // The spec of the last accepted create or main update since the last removal
  function LastSpec(log: Log, i: nat, name: Path): Option<string>
    requires i <= |log|
  {
    if i == 0 then None
    else if log[i - 1].name != name then LastSpec(log, i - 1, name)
    else match log[i - 1]
      case Removed(_, _) => None
      case Wrote(_, _, kind, _, proposed, _, _) =>
        if kind == ByCreate || kind == ByUpdate(Main) then Some(proposed.doc.spec) else LastSpec(log, i - 1, name)
  }

  // The status of the last accepted create or status update since the last removal
  function LastStatus(log: Log, i: nat, name: Path): Option<string>
    requires i <= |log|
  {
    if i == 0 then None
    else if log[i - 1].name != name then LastStatus(log, i - 1, name)
    else match log[i - 1]
      case Removed(_, _) => None
      case Wrote(_, _, kind, _, proposed, _, _) =>
        if kind == ByCreate || kind == ByUpdate(Status) then Some(proposed.doc.status) else LastStatus(log, i - 1, name)
  }

  // After an accepted write the name holds the bytes written, also if they were there before.
  lemma EntryWritesHalf(s: Store, e: Entry)
    requires WellVersioned(s) && Legal(s, e) && e.Wrote?
    ensures e.name in Apply(s, e).files
    ensures Decode(Apply(s, e).files[e.name].data) == Decode(e.data)
    ensures e.kind == ByCreate ==>
              e.data.normal.spec == e.proposed.doc.spec && e.data.normal.status == e.proposed.doc.status
    ensures e.kind == ByUpdate(Main) ==>
              e.data.normal.spec == e.proposed.doc.spec && e.data.normal.status == e.input.value.doc.status
    ensures e.kind == ByUpdate(Status) ==>
              e.data.normal.spec == e.input.value.doc.spec && e.data.normal.status == e.proposed.doc.status
    ensures e.kind.ByMark? ==>
              e.data.normal.spec == e.input.value.doc.spec && e.data.normal.status == e.input.value.doc.status
  {
  }

  /** The two endpoints never overwrite each other's half of the object. */
  lemma {:induction false} SpecAndStatusDoNotInterfere(log: Log, i: nat, name: Path)
    requires LegalLog(log) && i <= |log|
    ensures var o := Read(At(log, i), name);
            && LastSpec(log, i, name) == (if o.Some? then Some(o.value.doc.spec) else None)
            && LastStatus(log, i, name) == (if o.Some? then Some(o.value.doc.status) else None)
  {
    if i > 0 {
      SpecAndStatusDoNotInterfere(log, i - 1, name);
      VersionsInRange(log, i - 1);
      assert LegalAt(log, i - 1);
      if log[i - 1].Wrote? && log[i - 1].name == name { EntryWritesHalf(At(log, i - 1), log[i - 1]); }
    }
  }

  /** A status update changes nothing but the status and the version; a main update keeps the status. */
  lemma UpdatesStayInTheirHalf(log: Log, i: nat)
    requires LegalLog(log) && i < |log| && log[i].Wrote? && log[i].kind.ByUpdate?
    ensures var before, after := Read(At(log, i), log[i].name), Read(At(log, i + 1), log[i].name);
            && before.Some? && after.Some?
            && (log[i].kind.ep.Status? ==> after.value.doc == before.value.doc.(status := log[i].proposed.doc.status))
            && (log[i].kind.ep.Main? ==> after.value.doc.status == before.value.doc.status)
  {
    VersionsInRange(log, i);
    assert LegalAt(log, i);
  }

  // ------------------------------------------------------------ identity

  /**
   Between create and removal, under any mix of updates and Deletes, an object keeps its UID, its
   creation time and its generation.
   */
  lemma {:induction false} IdentityIsStable(log: Log, i: nat, j: nat, name: Path)
    requires LegalLog(log) && i <= j <= |log|
    requires name in At(log, i).files && Kept(log, i, j, name)
    ensures name in At(log, j).files
    ensures Decode(At(log, j).files[name].data).identity == Decode(At(log, i).files[name].data).identity
    decreases j
  {
    if i < j {
      IdentityIsStable(log, i, j - 1, name);
      VersionsInRange(log, j - 1);
      assert LegalAt(log, j - 1);
      EntryKeepsIdentity(At(log, j - 1), log[j - 1], name);
    }
  }

  lemma EntryKeepsIdentity(s: Store, e: Entry, name: Path)
    requires WellVersioned(s) && Legal(s, e) && name in s.files && e != Removed(e.author, name)
    ensures name in Apply(s, e).files
    ensures Decode(Apply(s, e).files[name].data).identity == Decode(s.files[name].data).identity
  {
  }

  // ------------------------------------------------------------ deletion time

  function Earlier(a: Option<Time>, t: Time): Option<Time> {
    if a.Some? && a.value <= t then a else Some(t)
  }

  predicate MarksName(e: Entry, name: Path) {
    e.Wrote? && e.name == name && e.kind.ByMark?
  }

  // The earliest of `start` and the encoded clock readings of the marks on `name` in [i, j)
  function EarliestMark(log: Log, i: nat, j: nat, name: Path, start: Option<Time>): Option<Time>
    requires i <= j <= |log|
    decreases j
  {
    if i == j then start
    else
      var e, rest := log[j - 1], EarliestMark(log, i, j - 1, name, start);
      if MarksName(e, name) then Earlier(rest, Truncate(e.kind.now)) else rest
  }

  // One entry: a mark moves the deletion time earlier or not at all, anything else keeps it.
  lemma EntryMovesDeletion(s: Store, e: Entry, name: Path)
    requires WellVersioned(s) && Legal(s, e) && name in s.files && e != Removed(e.author, name)
    ensures name in Apply(s, e).files
    ensures var d, d' := Decode(s.files[name].data), Decode(Apply(s, e).files[name].data);
            && d'.deletion == (if MarksName(e, name) then Earlier(d.deletion, Truncate(e.kind.now)) else d.deletion)
            && (d.deletion.Some? ==> forall f :: f in d'.finalizers ==> f in d.finalizers)
  {
  }

  /**
   Between create and removal, under any mix of updates and Deletes, the deletion time is the
   minimum of what it was and all encoded clock readings of Deletes, in whatever order the clock
   ran: no update sets, unsets or moves it. Once it is set, finalizers only ever drain.
   */
  lemma {:induction false} DeletionTimeOnlyMovesEarlier(log: Log, i: nat, j: nat, name: Path)
    requires LegalLog(log) && i <= j <= |log|
    requires name in At(log, i).files && Kept(log, i, j, name)
    ensures name in At(log, j).files
    ensures var d, d' := Decode(At(log, i).files[name].data), Decode(At(log, j).files[name].data);
            && d'.deletion == EarliestMark(log, i, j, name, d.deletion)
            && (d.deletion.Some? ==> forall f :: f in d'.finalizers ==> f in d.finalizers)
    decreases j
  {
    if i < j {
      DeletionTimeOnlyMovesEarlier(log, i, j - 1, name);
      VersionsInRange(log, j - 1);
      assert LegalAt(log, j - 1);
      EntryMovesDeletion(At(log, j - 1), log[j - 1], name);
      EarliestIsSet(log, i, j - 1, name, Decode(At(log, i).files[name].data).deletion);
    }
  }

  // A deletion time that is set stays set and never moves later.
  lemma {:induction false} EarliestIsSet(log: Log, i: nat, j: nat, name: Path, start: Option<Time>)
    requires i <= j <= |log|
    ensures start.Some? ==>
              EarliestMark(log, i, j, name, start).Some? && EarliestMark(log, i, j, name, start).value <= start.value
    decreases j
  {
    if i < j { EarliestIsSet(log, i, j - 1, name, start); }
  }

  /** Between create and removal a deletion time, once set, is never unset and never moves later. */
  lemma DeletionIsNeverTakenBack(log: Log, i: nat, j: nat, name: Path)
    requires LegalLog(log) && i <= j <= |log|
    requires name in At(log, i).files && Kept(log, i, j, name)
    requires Decode(At(log, i).files[name].data).deletion.Some?
    ensures name in At(log, j).files
    ensures var d, d' := Decode(At(log, i).files[name].data), Decode(At(log, j).files[name].data);
            d'.deletion.Some? && d'.deletion.value <= d.deletion.value
  {
    DeletionTimeOnlyMovesEarlier(log, i, j, name);
    EarliestIsSet(log, i, j, name, Decode(At(log, i).files[name].data).deletion);
  }
}
