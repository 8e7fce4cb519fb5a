# A verified model of the tilt-apiserver object store

The API server keeps its objects in an in-memory file system (`MemoryFS`), updates them through
optimistic concurrency (`filepathREST`), tells watchers about changes (`WatchSet`), and lets two
endpoints, the resource and its status, share one store. All resources of a server share one file
system. This project models these parts in Dafny and proves what they promise over every input and
every interleaving.

`dafny verify dfyconfig.toml` checks everything.

## How it fits together

| file | what it is |
|---|---|
| `Versions.dfy` | resource versions as decimal text |
| `Paths.dfy` | paths, and where the objects of a resource are kept |
| `Objects.dfy` | objects, their encoded form, the main and status update strategies, the library's update rules |
| `Stores.dfy` | the flat store, file path to versioned bytes: one function per critical section |
| `History.dfy` | legal histories of atomic writes and removals, and what every legal history guarantees |
| `Requests.dfy` | create, update, delete as a state machine of interleaved critical sections; its invariant |
| `Guarantees.dfy` | the request guarantees, for every run |
| `Interference.dfy` | what other requests may do between a handler's critical sections |
| `Trees.dfy` | the directory tree as a value, its refinement to the flat store, and the layout of a server |
| `MemoryFS.dfy` | the tree as heap-allocated directory nodes, updated in place |
| `Rest.dfy` | the handlers as imperative code over `MemoryFS`, with arbitrary interference |
| `Agreement.dfy` | the request machine and the handlers do the same, call by call |
| `WatchSet.dfy` | lock, channels, goroutines and Start/Stop as a state machine beside the requests |
| `WatchDelivery.dfy` | no missed object, no phantom event, channel safety, per-watch order |
| `WatchOnce.dfy` | each notification reaches each registered watch exactly once |
| `WatchProgress.dfy` | deadlock freedom and completion of notify, Start and Stop |

The main argument has three layers. The heap tree of `MemoryFS` acts exactly as a pure tree on
every path, and that tree answers as a flat map exactly when no file path in use runs through
another. Every run of interleaved requests on the flat map has a legal history, in which each
accepted write is one atomic read-modify-write, and every outcome is true at an instant inside its
call; lost-update freedom, version uniqueness, create exclusivity and the separation of spec and
status are consequences for all legal histories. The watch protocol runs on top of the same
requests, so what it delivers is related to what is really stored. The request machine and the
imperative handlers are separate accounts of the same code, and are proved to agree.

## Modelling decisions

- The codec is deterministic and loses only the sub-second part of times, so encoded bytes are
  represented by the normal form of the object. Labels, spec, status and finalizers survive it.
- Objects are named by the paths of their files, so one store, and one run of requests, covers the
  objects of every resource on the file system, cluster-scoped or namespaced.
- The library's `BeforeCreate` may refuse an object and otherwise leaves the modelled fields alone; the
  UID and the creation time are filled in before it. Its `BeforeUpdate` calls the strategy, restores
  generation, UID, creation time, a set deletion time and an omitted grace period, and refuses updates
  that change them or add finalizers to an object being deleted; it may refuse more. The object a
  caller proposes is arbitrary.
- Clock readings, cancelled contexts, failed validation, the objects proposed by callers and the
  iteration order of Go maps are parameters of actions, or arbitrary choices.
- The resources of a server are separate: the directory of none lies inside that of another.
- Go's read/write lock admits no new reader while a writer waits; safety is proved without relying
  on that, progress is proved although it holds.
- Revisions are natural numbers. Start is assumed to succeed, Stop to be called once per watch.
- The directory walk of `readDir` may return errors from its nested reads; the proof shows that
  those returns are unreachable.

## Findings

- A create can strand an object (`pkg/storage/filepath/jsonfile_rest.go:172-199`). Create stores an
  object that is already marked for deletion and has no finalizers, and nobody then owes its
  removal; only the HTTP endpoint in front of it wipes the field
  (`vendor/k8s.io/apiserver/pkg/endpoints/handlers/create.go:171`).
  `Guarantees.DoomedCreateIsStranded` is the run; `Guarantees.CreateStrandsIff` and
  `Guarantees.NeverStrandedIff` give the exact condition on the created object.
- A removal can take an object that has finalizers (`pkg/storage/filepath/jsonfile_rest.go:399`):
  Remove is unconditional after an earlier read. `Guarantees.DeleteCanRaceWithFinalizer` shows the
  race in any state. `Guarantees.FinalizersAreSafeIff` gives the exact condition on the object in
  hand: as long as nobody else removes it, its finalizers are safe if and only if it is marked for
  deletion. If somebody does, nothing is safe (`Guarantees.RecreatedObjectIsExposed`).

## Model

| member | source | states |
|---|---|---|
| Versions.ParseAcceptsExactly | pkg/storage/filepath/version.go:44-53 | a text is a version exactly when it is empty (version 0) or a string of digits whose value fits in 64 bits; everything else is rejected |
| Versions.VersionRoundTrip | pkg/storage/filepath/version.go:44-57 | parsing the formatted text of any 64-bit version gives it back, and the text is never empty |
| Versions.FormatInjective | pkg/storage/filepath/version.go:55-57 | different versions have different texts |
| Versions.DigitsAreDecimal | pkg/storage/filepath/version.go:44-57 | the digits are the ten decimal ones, in their order |
| Versions.ParseRejectsTheRest | pkg/storage/filepath/version.go:48-51 | any other text is rejected, as out of range exactly if some prefix of it is a number too large for 64 bits before any character that is not a digit |
| Versions.DecimalTexts | pkg/storage/filepath/version.go:44-57 | some versions and their texts, both ways |
| Paths.ObjectFileNameInjective | pkg/storage/filepath/jsonfile_rest.go:447-454 | different objects of a resource, cluster-scoped or namespaced, have different files |
| Paths.ObjectPlaces | pkg/storage/filepath/jsonfile_rest.go:447-463 | an object lies in its resource's directory, or in the directory of its namespace there, under its name with .json |
| Paths.PathParts | pkg/storage/filepath/fs.go:163-186 | paths and texts are taken apart as they were put together |
| Paths.WalkedPaths | pkg/storage/filepath/fs.go:371-396 | a walk looks for the paths that go on from its directory and whose last component ends in .json |
| Objects.EncodingKeepsAllButFractions | pkg/storage/filepath/fs.go:235-246 | writing an object and reading it back keeps every field but the sub-second part of its two times |
| Objects.ApiObject.SetResourceVersion | pkg/storage/filepath/version.go:22-33 | refuses version 0 and changes nothing; otherwise the text written parses back to the version and the content is kept |
| Objects.ApiObject.ClearResourceVersion | pkg/storage/filepath/version.go:35-42 | afterwards the object reads as version 0 with its content kept |
| Objects.PrepareForMainUpdate | pkg/server/builder/rest/strategy.go:112-120 | in place, the updated object takes the stored status and keeps all else, including its own version, and then the resource's own hook, if any, is applied; the stored object is left alone |
| Objects.PrepareForStatusUpdate | pkg/server/builder/rest/status.go:36-45 | in place, both objects end as the stored object with the new status, so the request's version is lost |
| Objects.BeforeUpdate | vendor/k8s.io/apiserver/pkg/registry/rest/update.go:107-169 | a status update changes the status alone and always passes these rules; a main update passes exactly if it leaves alone, or leaves out, what the system keeps and adds no finalizer to an object being deleted, and then stores the proposed labels, metadata, finalizers and spec with the stored identity, deletion fields and status |
| History.VersionsInRange | pkg/storage/filepath/fs.go:251-286 | at every point of every legal history stored versions lie in 2..rev and stored bytes are in normal form |
| History.VersionsNeverReused | pkg/storage/filepath/fs.go:274-284 | assigned versions strictly increase, so each names one file and one content in the whole history |
| History.SameVersionUntouched | pkg/storage/filepath/fs.go:261-267 | reading the same version twice means that nothing on that name happened in between except skipped writes; the compare-and-swap rests on it |
| History.LaterVersionsAreGreater | pkg/storage/filepath/fs.go:337-359 | every version assigned after an instant exceeds the revision, and every version stored, at that instant |
| History.StoredWasWritten | pkg/storage/filepath/fs.go:281-284 | whatever is stored was written by the last change on its name |
| History.WriteChangesOneName | pkg/storage/filepath/fs.go:251-286 | each accepted write was computed from what is stored and changes one name, to its bytes under the next revision, or nothing if the bytes are the same |
| History.RemovalTakesOneName | pkg/storage/filepath/fs.go:189-204 | each removal takes one name and keeps the revision |
| History.CreateStoresProposal | pkg/storage/filepath/jsonfile_rest.go:193-204 | a create finds nothing under the name and stores the object it was given |
| History.UpdateStoresProposal | pkg/storage/filepath/jsonfile_rest.go:259-281 | an update proposes the stored version and stores what it proposes, field by field, but for what its endpoint may not touch |
| History.MarkStoresMark | pkg/storage/filepath/jsonfile_rest.go:369-388 | a mark finds finalizers, and sets the earlier deletion time in whole seconds and no grace period |
| History.OneChangePerInputVersion | pkg/storage/filepath/fs.go:251-286 | at most one content-changing write is accepted per input version of a name, Delete's mark included |
| History.ChangesFormChain | pkg/storage/filepath/jsonfile_rest.go:484-530 | each write between a create and a removal was computed from exactly the version and content the previous change produced |
| History.CreatesAreExclusive | pkg/storage/filepath/jsonfile_rest.go:193-204 | two accepted creates of one name are separated by a removal, whatever their contents |
| History.NoZombieWrites | pkg/storage/filepath/fs.go:251-267 | a version read before a removal is refused for ever after, whatever was re-created |
| History.SpecAndStatusDoNotInterfere | pkg/server/builder/rest/strategy.go:112-120 | the stored spec is that of the last accepted create or main update, the stored status that of the last accepted create or status update |
| History.UpdatesStayInTheirHalf | pkg/server/builder/rest/status.go:36-45 | a status update changes nothing but the status and the version; a main update keeps the status |
| History.IdentityIsStable | vendor/k8s.io/apiserver/pkg/registry/rest/update.go:127-138 | between create and removal, under any mix of updates and Deletes, UID, creation time and generation never change |
| History.DeletionTimeOnlyMovesEarlier | pkg/storage/filepath/jsonfile_rest.go:369-388 | between create and removal, under any mix of updates and Deletes, the deletion time is the minimum of what it was and the encoded clock readings of the Deletes; once set, finalizers only drain |
| History.DeletionIsNeverTakenBack | pkg/storage/filepath/jsonfile_rest.go:371-374 | between create and removal a set deletion time is never unset and never moves later |
| Requests.CommitIsLegal | pkg/storage/filepath/fs.go:251-287 | if Write accepts the version of an object read earlier under any interference, the store still holds exactly that object, and the recorded entry is legal |
| Requests.ConflictMeansChange | pkg/storage/filepath/jsonfile_rest.go:518-523 | a version conflict at the Write means a content-changing write since this attempt's Get, and counts it towards the call |
| Requests.StepKeepsInv | pkg/storage/filepath/jsonfile_rest.go:159-410 | every step of every request keeps the invariant: legal history, consistent readings, counted retries, justified outcomes, and no stranded object other than one created so |
| Requests.ReachableInv | pkg/storage/filepath/jsonfile_rest.go:159-410 | the invariant holds after every sequence of actions |
| Guarantees.EveryRunIsSerializable | pkg/storage/filepath/jsonfile_rest.go:159-530 | every interleaved run has a legal history that yields its store |
| Guarantees.EveryOutcomeIsTrue | pkg/storage/filepath/jsonfile_rest.go:159-410 | what a call returns is true at an instant between its beginning and its end: made by this call, absent, stored, stored at another version, or moved on or gone since it was read; a refused call leaves no entry |
| Guarantees.RunsExtendLogs | pkg/storage/filepath/fs.go:276-284 | going on with a run only extends its history, so an assigned version keeps its meaning for the whole run |
| Guarantees.UpdateIsAtomicReadModifyWrite | pkg/storage/filepath/jsonfile_rest.go:484-530 | an attempt is accepted if and only if the store holds, at the Write, the very object given to tryUpdate; then it equals one atomic application, and the returned object carries the stored version |
| Guarantees.RetryIsCausedByAnother | pkg/storage/filepath/jsonfile_rest.go:493-526 | every retry is caused by another request's content-changing write to the same object between this attempt's Get and Write |
| Guarantees.ExhaustionMeansHundredChanges | pkg/storage/filepath/jsonfile_rest.go:492-529 | giving up means at least 100 entries of others, during the call, that changed the object |
| Guarantees.ConflictGoesRoundAgain | pkg/storage/filepath/jsonfile_rest.go:518-529 | a valid attempt that finds the object changed stores nothing and goes round again, up to the hundredth |
| Guarantees.AttemptsCanBeExhausted | pkg/storage/filepath/jsonfile_rest.go:492-529 | from any state, others that keep changing the object do exhaust an update's attempts |
| Guarantees.WriterFromBeforeDeleteIsRefused | pkg/storage/filepath/fs.go:252-263 | an update that read the object before it was removed leaves the store alone, even after an identical re-create |
| Guarantees.NotificationsAreTrue | pkg/storage/filepath/jsonfile_rest.go:206-209 | every notification under way says what its own request did since it began: created, wrote at that version, or removed an object that had been stored exactly so |
| Guarantees.StrandedOnlyByCreate | pkg/storage/filepath/jsonfile_rest.go:289-339 | in every run an object marked for deletion without finalizers has an update in flight that owes the Remove, or is exactly as a create was asked to store it |
| Guarantees.NoObjectIsStranded | pkg/storage/filepath/jsonfile_rest.go:289-339 | if no create proposes such an object, each one stored has an update in flight that wrote it and owes the Remove; none exists when no request is in flight |
| Guarantees.DoomedCreateIsStranded | pkg/storage/filepath/jsonfile_rest.go:172-211 | creating such an object leaves it stored with every call returned |
| Guarantees.CreateStrandsIff | pkg/storage/filepath/jsonfile_rest.go:172-199 | an accepted create keeps the store free of stranded objects if and only if its object is not marked for deletion without finalizers |
| Guarantees.NeverStrandedIff | pkg/storage/filepath/jsonfile_rest.go:159-410 | no run whose creates propose given objects ever strands one, if and only if none of those objects is marked for deletion without finalizers |
| Guarantees.MarkedRemoveTakesNoFinalizers | pkg/storage/filepath/jsonfile_rest.go:325-333 | the Remove of an object seen marked for deletion, such as every Remove that an Update owes, takes no finalizers unless another removal came in between |
| Guarantees.FinalizersNeedARace | pkg/storage/filepath/jsonfile_rest.go:399-404 | a removal takes finalizers only if another request changed the object since it was seen, and, where it was seen marked, only if it was removed meanwhile |
| Guarantees.FinalizersAreSafeIff | pkg/storage/filepath/jsonfile_rest.go:348-404 | right after the object was read or written, no continuation without another removal lets the Remove take finalizers, if and only if the object in hand is marked for deletion |
| Guarantees.RecreatedObjectIsExposed | pkg/storage/filepath/jsonfile_rest.go:399-404 | after another removal and a re-create, the Remove can always take an object with a finalizer |
| Guarantees.UpdateAloneStores | pkg/storage/filepath/jsonfile_rest.go:493-525 | run undisturbed, an update of the stored version is stored at the first attempt |
| Guarantees.DrainingUpdateRemoves | pkg/storage/filepath/jsonfile_rest.go:294-338 | run undisturbed, an update that leaves an object with a deletion time without finalizers removes it and announces a deletion |
| Guarantees.DeleteCanRaceWithFinalizer | pkg/storage/filepath/jsonfile_rest.go:348-404 | in any state a Delete that has read an object removes it although an update added a finalizer meanwhile |
| Guarantees.DeleteAloneMarks | pkg/storage/filepath/jsonfile_rest.go:364-397 | run undisturbed, Delete never removes an object with finalizers; it moves the deletion time to the earlier one, and keeps the version exactly when nothing changes |
| Guarantees.RepeatedDeletesKeepEarliest | pkg/storage/filepath/jsonfile_rest.go:369-397 | after any sequence of Deletes with any clock readings the object is still stored, with the earliest encoded reading |
| Interference.OthersAdvance | pkg/storage/filepath/fs.go:251-286 | whatever other requests do, an object keeps its value, disappears, or gets a version never seen before |
| Interference.AttemptOutcome | pkg/storage/filepath/jsonfile_rest.go:501-525 | an attempt is accepted exactly when the object is untouched since its Get; a conflict needs a change by another |
| Trees.EnsureDirRefines | pkg/storage/filepath/fs.go:163-186 | looking up a directory in use succeeds and changes no file |
| Trees.ReadRefines | pkg/storage/filepath/fs.go:306-321 | on every file in use the tree's lookup and existence test are those of the flat map |
| Trees.RemoveRefines | pkg/storage/filepath/fs.go:189-204 | on every file in use the tree's Remove is that of the flat map, with its error |
| Trees.WriteRefines | pkg/storage/filepath/fs.go:229-287 | on every file in use the tree's Write is that of the flat map, with all four outcomes |
| Trees.TreeRefinesFlat | pkg/storage/filepath/fs.go:163-359 | every sequence of Read, Exists, Write, Remove, EnsureDir and VisitDir on paths in use is answered as by the flat map |
| Trees.FlatIffDisciplined | pkg/storage/filepath/fs.go:163-186 | a new file system answers as a flat map on the paths in use if and only if no file path among them runs through another |
| Trees.ServerIsDisciplined | pkg/storage/filepath/jsonfile_rest.go:447-463 | the object files of any set of separate resources, cluster-scoped or namespaced, never run through one another |
| Trees.OwnObjectsBelow | pkg/storage/filepath/jsonfile_rest.go:456-463 | below a resource's root lie its own objects only |
| Trees.ServerUsesItsFiles | pkg/storage/filepath/jsonfile_rest.go:447-463 | the layout of a server has the file of every object of its resources, and the directories it lists |
| MemoryFS.WithDirIsTree | pkg/storage/filepath/fs.go:174-177 | creating a directory keeps the heap a tree |
| MemoryFS.CutIsTree | pkg/storage/filepath/fs.go:202 | overwriting or deleting an entry, with all that was below it, keeps the heap a tree |
| MemoryFS.MemFS.EnsureDirNode | pkg/storage/filepath/fs.go:163-186 | creates exactly the missing directories of the path and no file; fails exactly when a component is a file, and then nothing has changed |
| MemoryFS.MemFS.ReadBuffer | pkg/storage/filepath/fs.go:306-321 | finds exactly the stored file; creates at most the directories on the way |
| MemoryFS.MemFS.Exists | pkg/storage/filepath/fs.go:207-217 | true exactly for files and directories that can be reached |
| MemoryFS.MemFS.Remove | pkg/storage/filepath/fs.go:189-204 | removes the entry and everything below it, and reports absence and path conflicts |
| MemoryFS.MemFS.Write | pkg/storage/filepath/fs.go:248-287 | compare-and-swap on the version, on every tree: create, conflict, skip of identical bytes, next revision; nothing else changes |
| MemoryFS.MemFS.Walk | pkg/storage/filepath/fs.go:371-396 | terminates, changes nothing, and returns every .json file below the directory exactly once with its bytes, for any iteration order, re-resolving each path from the root |
| MemoryFS.MemFS.ReadDir | pkg/storage/filepath/fs.go:362-400 | the walk of a directory as it was at the call; the directory is created if missing, and nothing else changes |
| Rest.FilepathREST.constructor | pkg/storage/filepath/jsonfile_rest.go:41-69 | on any file system where the resource directory can be made, it is made and nothing else changes; what is stored stays, and the file system stays a sound store |
| Rest.Register | pkg/server/builder/builder_resource.go:28-42 | main and status endpoint are set up on the file system that all separate resources share, whatever is stored on it |
| Rest.FilepathREST.ReadFile | pkg/storage/filepath/fs.go:290-304 | reads exactly the stored object, at its version, for every file in use |
| Rest.FilepathREST.WriteFile | pkg/storage/filepath/fs.go:229-287 | through the file system, the store changes as its Write says and in no other file |
| Rest.FilepathREST.RemoveFile | pkg/storage/filepath/fs.go:189-204 | through the file system, the store loses exactly that file |
| Rest.FilepathREST.Get | pkg/storage/filepath/jsonfile_rest.go:113-123 | the object stored, or NotFound; nothing stored changes |
| Rest.FilepathREST.GuaranteedUpdate | pkg/storage/filepath/jsonfile_rest.go:484-530 | the retry loop: it goes on exactly while attempts find the object changed between Get and Write, an untouched attempt persists as one atomic application of tryUpdate, and a call that does not persist changes nothing and is cancelled, refused by tryUpdate, overtaken by a removal, or out of its 100 attempts |
| Rest.GuaranteedIsExact | pkg/storage/filepath/jsonfile_rest.go:484-530 | that contract leaves nothing open: result, number of attempts and store are determined |
| Rest.UntouchedAttemptPersists | pkg/storage/filepath/jsonfile_rest.go:508-525 | the first attempt that finds the object untouched is the last one and persists |
| Rest.RefusalNeedsChange | pkg/storage/filepath/jsonfile_rest.go:518-523 | each refused attempt takes a write of another request to the same file, between its Get and its Write, that gave the file new content |
| Rest.ChangesAreJudged | pkg/storage/filepath/jsonfile_rest.go:227-306 | what becomes of a caller's change, case by case: nothing stored, declined, at another version, against the rules, or stored as proposed |
| Rest.StaleIsRefused | pkg/storage/filepath/jsonfile_rest.go:259-268 | a change proposed at another version than the stored one is a conflict and stores nothing |
| Rest.FilepathREST.Create | pkg/storage/filepath/jsonfile_rest.go:159-212 | creates exactly when the name is absent at the check and at the write; what is stored and announced equals the object given in every field but UID and creation time, which are the new ones; otherwise changes nothing and says why |
| Rest.FilepathREST.Delete | pkg/storage/filepath/jsonfile_rest.go:348-410 | marks an object with finalizers exactly when it is untouched since it was read; removes an object without finalizers; says which of the two, and announces it |
| Rest.FilepathREST.Update | pkg/storage/filepath/jsonfile_rest.go:214-346 | the retry loop on the caller's change, with all it guarantees: what persists was proposed at the stored version and is stored field by field as proposed, a proposal at another version is a conflict; a result with a deletion time and no finalizers is then removed and announced as deleted, any other announced as modified; what does not persist changes and announces nothing |
| Rest.FilepathREST.List | pkg/storage/filepath/jsonfile_rest.go:125-157 | exactly the matching objects stored at one instant, each once, none newer than the list's version, whatever others do on any resource meanwhile; whatever differs afterwards is newer than the list |
| Rest.Collect | pkg/storage/filepath/fs.go:346-358 | decoding and filtering the snapshot yields exactly its matching objects |
| Agreement.RunIsOps | pkg/storage/filepath/jsonfile_rest.go:159-435 | whatever a run of the machine does to the store is interference that the handlers allow for |
| Agreement.CreateAgrees | pkg/storage/filepath/jsonfile_rest.go:193-211 | Create in the machine, with any others between check and write, ends as the handler's contract says |
| Agreement.AttemptAgrees | pkg/storage/filepath/jsonfile_rest.go:493-525 | an attempt in the machine, with any others between Get and Write, persists, is refused or ends the call in exactly the handler's cases |
| Agreement.RemoveAgrees | pkg/storage/filepath/jsonfile_rest.go:326-338 | so does the Remove that an update owes |
| Agreement.DeleteAgrees | pkg/storage/filepath/jsonfile_rest.go:348-410 | so does Delete, marking or removing |
| Agreement.RefusalsAgree | pkg/storage/filepath/jsonfile_rest.go:172-180 | a call that is refused or cancelled ends there and changes nothing |
| Agreement.WatchBeginsWithList | pkg/storage/filepath/jsonfile_rest.go:552-582 | a watch begins with what List would return at that instant, each object as added |
| WatchSet.StepKeepsSet | pkg/storage/filepath/watchset.go:25-107 | every step keeps the lock, the node map, the channels and each goroutine consistent, and nothing panics |
| WatchSet.MovedHandles | pkg/storage/filepath/watchset.go:71-92 | each pass of the drain goroutine disposes of exactly the next event |
| WatchDelivery.StepAnnounces | pkg/storage/filepath/jsonfile_rest.go:193-410 | whenever a request stores something new, a request is left that will announce exactly that, or remove it |
| WatchDelivery.InitEventsCover | pkg/storage/filepath/jsonfile_rest.go:552-582 | the initial events contain every stored object that matches, at its version |
| WatchDelivery.ReachableInv | pkg/storage/filepath/watchset.go:40-107 | in every reachable state each stored object that an unstopped watch wants has been sent to it, is about to be sent, or awaits removal, and every event sent is genuine |
| WatchDelivery.NoObjectIsMissed | pkg/storage/filepath/jsonfile_rest.go:548-586 | once nothing about an object is in flight, every unstopped idle watch that matches has handed its consumer that object at exactly the stored version |
| WatchDelivery.EveryEventIsGenuine | pkg/storage/filepath/watchset.go:67-94 | every event ever handed to a consumer is about an object of the resource, and is an accepted write of exactly that object and version, or a removal of an object that had been stored exactly so |
| WatchDelivery.ChannelsAreSafe | pkg/storage/filepath/watchset.go:25-107 | no send on a closed channel and no double close in any run; output closes after update, update after stop; no registered watch is overwritten |
| WatchDelivery.OutputFollowsInput | pkg/storage/filepath/watchset.go:67-94 | the output is made of the initial events and then exactly the updates received that the selector accepts, in order: before Stop a prefix, all of it once the goroutine is idle, afterwards a subsequence |
| WatchOnce.EachNotificationOnce | pkg/storage/filepath/jsonfile_rest.go:552-557 | each watch receives the event of each request at most once, and the initial list announces, as added, objects that the selector accepts, none of them twice |
| WatchOnce.EveryEventReachesEveryWatch | pkg/storage/filepath/watchset.go:40-46 | a call that succeeds while a watch stays registered has sent it its event, whatever its kind |
| WatchOnce.OutputIsSelected | pkg/storage/filepath/watchset.go:77-92 | no event is handed to a consumer that its selector excludes |
| WatchOnce.SelectorIsKept | pkg/storage/filepath/watchset.go:58-60 | a watch has the selector it was asked for, from the first step to the last |
| WatchProgress.SomeStepIsPossible | pkg/storage/filepath/watchset.go:40-107 | no deadlock: while a notify, Start or Stop is unfinished and every registered watch has a reader or is stopping, some step is possible, even with writers preferred by the lock |
| WatchProgress.StepIsLighter | pkg/storage/filepath/watchset.go:40-107 | every step of notify, Start, Stop or a drain goroutine strictly decreases a weight |
| WatchProgress.NotifyStartAndStopComplete | pkg/storage/filepath/watchset.go:58-107 | every run of the calls under way is finite; where it can go no further, registered watches being read or stopping, all notifications are sent, all Starts and Stops returned and stopped watches' output closed, though nobody reads stopped watches |

## Left out

- RealFS: operating system calls, and by its own comment without optimistic concurrency.
- A watch whose initial list fails: its node stays registered without a goroutine; Start is assumed to succeed.
- Create-on-update: it hands a nil old object to the library's BeforeUpdate, which cannot use it. Rest.FilepathREST.GuaranteedUpdate does cover an absent input.
- Event order across writers and convergence of a watcher's view: notification is a separate step after the write, so neither is promised.
- DeleteCollection: present as removal steps in the request machine; its result list is not modelled.
- A resource type's own PrepareForUpdate hook in whole runs: a hook may change any field, and Manifest has none.
- Objects.BeforeUpdate: names, namespaces and owner references are not fields of the model, nor their validation.
- Guarantees.EveryOutcomeIsTrue: of a call refused by validation or cancelled, only that it left no trace.
- The namespace filter of watches: a watch receives the events of its whole resource directory.
- The version counter's wrap-around at 2^64.
- Aliasing of one object by several watchers: events carry values.
- Label and field selector syntax, table conversion, reflection helpers and the JSON codec: library code, kept abstract.
- Server start-up, TLS, flags, listeners, API group assembly and generated code.
