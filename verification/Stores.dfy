/**
 The flat object store: file paths, versioned bytes and one revision counter. Objects are named by
 the paths of their files, so one store holds the objects of every resource on a file system.
 Each function is one critical section of MemoryFS.
 */
module Stores {
  import opened Wrappers
  import opened Objects
  import opened Paths

  datatype Stored = Stored(version: nat, data: Bytes)

  datatype Store = Store(files: map<Path, Stored>, rev: nat)

  // A new MemoryFS starts at revision 1.
  const EMPTY := Store(map[], 1)

  datatype WriteOutcome = Assigned(version: nat) | Identical | VersionError | NotExist

  function Read(s: Store, name: Path): Option<Obj> {
    if name in s.files then Some(Obj(Decode(s.files[name].data), s.files[name].version)) else None
  }

  function WriteOutcomeOf(s: Store, name: Path, doc: Doc, version: nat): WriteOutcome {
    if name !in s.files then
      if version != 0 then NotExist else Assigned(s.rev + 1)
    else if s.files[name].version != version then VersionError
    else if s.files[name].data == Encode(doc) then Identical
    else Assigned(s.rev + 1)
  }

  function Write(s: Store, name: Path, doc: Doc, version: nat): Store {
    match WriteOutcomeOf(s, name, doc, version)
    case Assigned(v) => Store(s.files[name := Stored(v, Encode(doc))], v)
    case _ => s
  }

  // Remove does not advance the revision.
  function Remove(s: Store, name: Path): Store {
    s.(files := s.files - {name})
  }

  // Write stamps the caller's object only when it assigns a new version.
  function Stamp(o: Obj, w: WriteOutcome): Obj {
    if w.Assigned? then o.(version := w.version) else o
  }
}
