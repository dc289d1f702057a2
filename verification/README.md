# Verification of the Tudor fingerprint host

These Dafny modules model the parts of the repository that hold state machines, in-place data
structures and codecs, and prove what they keep over whole runs. `dafny verify dfyconfig.toml` checks
everything.

| files | what they model |
|---|---|
| `Completion.dfy`, `CompletionProofs.dfy` | the completion of one capture through request, overlapped operation and async result, as interleaved atomic steps of any number of threads |
| `ObjectForest.dfy`, `ObjectTree.dfy` | the WDF object tree and the deferred event queue, on an explicit heap in which `free` removes a reference |
| `RecordStore.dfy`, `RecordStoreProofs.dfy` | the in-memory template store: a doubly linked list with a second chain of query results and a cursor |
| `HostProtocol.dfy`, `HostHandler.dfy`, `HostProofs.dfy` | the host's message handler with enrolment and identification, as a protocol with nested callbacks |
| `Launcher.dfy` | the launcher's table of host processes |
| `PeImage.dfy`, `PeRelocs.dfy` | section lookup, range copies, relocation parsing and rebasing |
| `HidFrames.dfy`, `HidFramesProofs.dfy`, `HidReceive.dfy` | framing and reassembly over HID reports |
| `ReadQueue.dfy` | the queue of asynchronous reads and its reader thread |
| `ReportDescriptor.dfy` | both copies of the report descriptor search |
| `Fls.dfy` | fiber local storage indices |
| `DataStore.dfy` | the data store file |
| `TlsPrf.dfy` | the TLS PRF loop |
| `Bytes.dfy`, `Wrappers.dfy` | little-endian numbers and optional values |

Threads are modelled under sequential consistency. What the driver DLLs, the adapters, the kernel and
the callers answer is an input of the steps, so every answer is covered.

Where the code does less than it is meant to, the model keeps the code and the lemmas state exactly when
it works:

- a completion with STATUS_PENDING is not delivered in every interleaving (`DeliveredIffNotPending`);
- ADD_RECORD of finger 0xFF removes the other fingers of the guid (`AddRecordIsUpsertIff`);
- enumeration narrows the finger to a byte and a wipe does not (`EnumerationAgreesIff`);
- a duplicate enrolment whose discard fails leaves the host enrolling for good (`IdleEnrollingIff`);
- hidraw paths of 64 characters and more are cut off (`OnePerPathIff`);
- copy and lookup of an image can disagree, where sections share addresses or a file part wraps around at
  32 bits; three addresses of each section decide whether they do (`CopyAgreesIff`);
- a relocation block may claim entries behind the table (`OwnEntriesIff`);
- frame 0x4000 of a long payload has the code of a first frame (`StreamRoundTripIff`);
- reads queued at shutdown are completed only if the thread is waiting for the lock (`AllCompletedIff`),
  although the comment in the thread speaks of cancelling all pending reads;
- a saved name of 0 or more than 255 bytes is not read back (`PairsRoundTripIff`).

## Model

| member | source | states |
|---|---|---|
| CompletionProofs.StepInv | libtudor/src/winapi/wdf/request.c:184-245 | Every atomic step of the request, the overlapped operation and the async result keeps the handshake invariant: the one registered callback is in `cb_fnc`, taken by one side, or called, and never in two places. |
| CompletionProofs.AtMostOnce | libtudor/src/winapi/io.c:65-129 | In every interleaving and at every moment the overlapped callback and the final callback have run at most once, never before a completion was accepted, with the accepted status, the registered context and thread flag, and the final callback was told success exactly if that status is STATUS_SUCCESS and the adapter calls succeeded. |
| CompletionProofs.ExactlyOnce | libtudor/src/tudor/async.c:21-55 | When nothing can move any more, the request is done exactly if a thread completed it after its start, with the status of the first that did; then (for a status other than STATUS_PENDING) the final callback has run exactly once and was told success exactly if the status is STATUS_SUCCESS and the adapter calls succeeded, else never; `Internal` holds the status, and every waiter returned that status or that outcome. |
| CompletionProofs.DeliveredIffNotPending | libtudor/src/winapi/io.c:82-129 | A completion is delivered in every interleaving if and only if its status is not STATUS_PENDING, the value the handshake uses for "not completed". |
| CompletionProofs.PendingLoses | libtudor/src/winapi/io.c:82-97 | Completion with STATUS_PENDING before the registration: a run after which all calls have returned and the final callback never ran. |
| CompletionProofs.NoDeadlock | libtudor/src/winapi/wdf/request.c:218-245 | A reachable state in which nothing can move is one in which every call has returned, and conversely. |
| CompletionProofs.RankDown | libtudor/src/winapi/wdf/request.c:166-245 | Every step of every thread lowers the rank. |
| CompletionProofs.RunsAreBounded | libtudor/src/tudor/device.c:4-26 | No run is longer than the rank of its first state, so every capture comes to rest. |
| CompletionProofs.FirstStatusStays | libtudor/src/winapi/wdf/request.c:184-216 | The status of the first accepted completion is the status of the request for the rest of the run. |
| CompletionProofs.LostForever | libtudor/src/winapi/io.c:82-129 | A callback that both sides passed over stays lost: in every continuation, however it interleaves, the final callback has not run. |
| CompletionProofs.LostToTheEnd | libtudor/src/winapi/io.c:82-129 | From such a state some continuation runs to its end with the same completion accepted. |
| ObjectForest.NothingBelow | libtudor/src/winapi/wdf/object.c:101-120 | Once the child list of an object is used up, no object below it is allocated. |
| ObjectForest.BypassedInv | libtudor/src/winapi/wdf/object.c:68-76 | Taking a member out of a child list in place keeps every list doubly linked, newest first, and complete. |
| ObjectForest.InsertedInv | libtudor/src/winapi/wdf/object.c:43-60 | Putting a new object at the head of its parent's list keeps the tree. |
| ObjectForest.PushedThread | libtudor/src/winapi/wdf/evtqueue.c:57-66 | Pushing an action in front of both lists keeps the ordering the queue rests on: each object's action list is the in-order subsequence of the global LIFO queued for it. |
| ObjectForest.PoppedThread | libtudor/src/winapi/wdf/evtqueue.c:24-31 | The front of the global queue is the front of its object's action list, so advancing both keeps that ordering, and the object is still allocated. |
| ObjectForest.ClearedThread | libtudor/src/winapi/wdf/evtqueue.c:69-77 | Clearing the actions of one object leaves the action lists of all others as they were. |
| ObjectTree.WdfHeap.CreateObj | libtudor/src/winapi/wdf/object.c:24-61 | The new object is the newest child of its parent, nothing else changes its place, and the dead-parent abort is not reached. |
| ObjectTree.WdfHeap.Enqueue | libtudor/src/winapi/wdf/evtqueue.c:46-67 | The action stands in front of the queue and of the list of its object; the exact new state. |
| ObjectTree.WdfHeap.ClearObj | libtudor/src/winapi/wdf/evtqueue.c:69-77 | Every action queued for the object loses its target, no other action changes, and its list is empty. |
| ObjectTree.WdfHeap.DestroyObjList | libtudor/src/winapi/wdf/object.c:101-120 | Exactly the objects below this one are destroyed, nothing outside its subtree changes, and their queued actions lose their targets. |
| ObjectTree.WdfHeap.CleanupObj | libtudor/src/winapi/wdf/object.c:63-93 | Everything below the object is gone, it is in no list any more, and nothing is queued for it. |
| ObjectTree.WdfHeap.DestroyObject | libtudor/src/winapi/wdf/object.c:16-22 | Exactly the object and everything below it is freed; queued actions of freed objects lose their targets and all others are untouched. |
| ObjectTree.WdfHeap.WdfObjectDelete | libtudor/src/winapi/wdf/object.c:122-124 | A deletion only queues the destruction. |
| ObjectTree.WdfHeap.RunAction | libtudor/src/winapi/wdf/evtqueue.c:28-35 | An action is run on an allocated object or skipped: a destruction frees exactly its object and what is below it, anything else frees nothing; actions of freed objects lose their targets. |
| ObjectTree.WdfHeap.Dispatch | libtudor/src/winapi/wdf/evtqueue.c:24-39 | One round takes the front action off the queue, runs it (a destruction frees exactly its subtree) and frees it and no other action, and keeps every other destruction queued. |
| ObjectTree.WdfHeap.Flush | libtudor/src/winapi/wdf/evtqueue.c:14-44 | After a flush the queue is empty, the destroyed objects are exactly the deleted ones and their descendants, exactly the others of the objects in use remain, and every action queued for one of those was run on it, once and in the order of the queue. |
| ObjectTree.WdfHeap.Step | libtudor/src/winapi/wdf/object.c:16-124 | Every single call has its exact effect on the objects created, their parents, the objects in use and the deletions asked for: a creation adds one object, a deletion only a request, a destruction takes a subtree, a flush takes what is doomed. |
| ObjectTree.WdfHeap.Run | libtudor/src/winapi/wdf/evtqueue.c:14-77 | Any run of creations, deletions (repeated, in any order of parents and children), direct destructions, notifications and flushes, with a last flush, ends in the world those calls mean; destroyed are exactly the objects at or below one that a call asked to delete while it was in use, each once and after its own descendants, and exactly the others remain. |
| ObjectTree.RequestedIff | libtudor/src/winapi/wdf/object.c:122-124 | The deletions asked for after a run are exactly those some call asked for while the object was in use. |
| ObjectTree.CreatedIff | libtudor/src/winapi/wdf/object.c:24-61 | The objects after a run are exactly those some call created, below the parent it named. |
| ObjectTree.AllDestroyed | libtudor/src/winapi/wdf/evtqueue.c:14-44 | With nothing queued, an object is destroyed if and only if it or an ancestor was deleted. |
| ObjectTree.FreedLog | libtudor/src/winapi/wdf/object.c:16-22 | Freeing an object last of its subtree keeps "each once, descendants before ancestors". |
| RecordStore.Store.AddRecord | libtudor/src/tudor/storage.c:54-89 | The record goes to the front unless its key is taken, then nothing changes; list, links and result chain stay valid. |
| RecordStore.Store.WipeRecords | libtudor/src/tudor/storage.c:30-52 | Exactly the matching records are unlinked, the count is returned, and the result chain is dropped if any was. |
| RecordStore.Store.StorageAddRecord | libtudor/src/tudor/storage.c:112-168 | Validation, duplicate and success cases of the storage adapter's add. |
| RecordStore.Store.StorageDeleteRecord | libtudor/src/tudor/storage.c:170-201 | Exactly the matching records go; the result says whether there were any. |
| RecordStore.Store.QueryBySubject | libtudor/src/tudor/storage.c:203-232 | The result chain becomes exactly the matching records in list order, with the cursor on the first. |
| RecordStore.Store.GetRecordCount | libtudor/src/tudor/storage.c:246-258 | The count is the length of the result chain. |
| RecordStore.Store.FirstRecord | libtudor/src/tudor/storage.c:260-275 | The cursor returns to the first result. |
| RecordStore.Store.NextRecord | libtudor/src/tudor/storage.c:277-293 | The cursor moves one result on, or reports the end and stays. |
| RecordStore.Store.GetCurrentRecord | libtudor/src/tudor/storage.c:295-317 | The record under the cursor. |
| RecordStore.Store.EnumerateRecords | libtudor/src/tudor/device.c:254-298 | The callback sees exactly the matching records once each in list order, for the finger narrowed to a byte. |
| RecordStore.Store.HandleAddRecord | tudor-host/src/handler.c:330-344 | The host's add-or-replace ends with the record stored; the "Couldn't add record" abort is not reached. |
| RecordStoreProofs.OpRefines | libtudor/src/tudor/storage.c:31-89 | Each list operation does on the list what it does on a map from (guid, finger) to data. |
| RecordStoreProofs.StoreRefinesMap | libtudor/src/tudor/storage.c:31-201 | Over every sequence of operations keys stay unique and the list is that map. |
| RecordStoreProofs.MapHolds | libtudor/src/tudor/storage.c:54-89 | With unique keys the map holds exactly the records of the list. |
| RecordStoreProofs.AddRecordIsUpsertIff | tudor-host/src/handler.c:330-344 | ADD_RECORD is a map update if and only if it does not replace a record of finger 0xFF while another finger of the guid is stored. |
| RecordStoreProofs.QueryIsExact | libtudor/src/tudor/storage.c:203-232 | A query result holds a record if and only if it is stored and matches, with unique keys. |
| RecordStoreProofs.QueryInOrder | libtudor/src/tudor/storage.c:203-232 | The result is an in-order selection of the list. |
| RecordStoreProofs.EnumerationAgreesIff | libtudor/src/tudor/device.c:267-297 | Enumeration and wipe report the same number, and nothing is found after the wipe, if and only if the finger fits in a byte. |
| HostProofs.StepInv | libtudor/src/tudor/device.c:300-480 | Every step keeps: `override_template_count` equals `enrolling`; an enroll capture in flight means enrolling, any other means not; `capture_fails` is at most 3. |
| HostProofs.NeverGivesUp | tudor-host/src/handler.c:81-87 | In every run `override_template_count` equals `enrolling` and the give-up exit is never taken. |
| HostProofs.UnfinishedCaptureRepeats | tudor-host/src/handler.c:168-192 | An uncancelled enroll capture that did not complete the enrolment, in particular every failed one, is followed by a fresh capture whenever one can be started, and reported as a retry exactly if it failed. |
| HostProofs.EnrollmentEnds | libtudor/src/tudor/device.c:407-459 | After the last capture the host goes on exactly if the engine found a duplicate, or found none and took the template, and the template fits; then it sends the stored template and leaves the enrolment, or reports the duplicate and leaves if it can be discarded; otherwise it aborts. |
| HostProofs.CancelledEnds | tudor-host/src/handler.c:54-79 | A cancelled action is acknowledged; an enrolment that cannot be discarded aborts the host. |
| HostProofs.IdentificationEnds | libtudor/src/tudor/device.c:554-606 | A capture counts as a failure exactly if it was neither conclusive nor a bad sample, and only such a one can abort the host. |
| HostProofs.IdleMessage | tudor-host/src/handler.c:291-461 | What each message does to a host without an action: shutdown, probe, record messages, the starts and when they abort, and what a started action begins with. |
| HostProofs.MessageInAction | tudor-host/src/handler.c:310-325 | During an action a cancel marks it and any other message aborts; without one a cancel is acknowledged at once. |
| HostProofs.RecordOfMeans | tudor-host/src/handler.c:115-128 | The template sent is that of the first record of the guid and finger, and empty without one. |
| HostProofs.EveryMessageAcked | tudor-host/src/handler.c:54-66 | In every non-aborting run the ACKs sent plus those of a pending cancel and of an action being started equal the acknowledged messages handled, repeated CANCELs during one capture counting once. |
| HostProofs.ActionAnswered | tudor-host/src/handler.c:68-289 | Every action that comes to its end gets, besides the ACK of its start, exactly one final reply: an ACK if and only if a CANCEL came while it ran, else the one its last capture calls for: the duplicate mark or the stored template of the ENROLL message's guid and finger, a match only after a capture in which every stage succeeded, a retry exactly if the capture was not conclusive; only enrolments get not-done responses before it. |
| HostProofs.ActionEnds | tudor-host/src/handler.c:291-461 | A run that leaves the host idle contains the end of the action it began with. |
| HostProofs.IdleEnrollingIff | tudor-host/src/handler.c:99-113 | A running host without an enrolment in flight is marked as enrolling if and only if the discard of a duplicate enrolment failed earlier. |
| HostProofs.JammedHostAborts | tudor-host/src/handler.c:99-113 | Such a run exists, and after it every attempt to start an action aborts. |
| HostProofs.GivesUpAfterThree | tudor-host/src/handler.c:205-225 | `capture_fails` counts the uncancelled failures since the last success, and the host aborts exactly at the fourth in a row. |
| HostHandler.HandlerState.HandleMsg | tudor-host/src/handler.c:291-461 | One message with all callbacks that run inside it equals the protocol step, shutdown exactly on SHUTDOWN. |
| HostHandler.HandlerState.EnrollCallback | tudor-host/src/handler.c:68-195 | The enrolment callback, including nested callbacks of captures that are already complete, equals the protocol steps. |
| HostHandler.HandlerState.FinishEnrollment | tudor-host/src/handler.c:89-167 | Commit, duplicate report, the search for the record, its bytes in the response, and the abort for a record that is too large. |
| HostHandler.HandlerState.VerifyCallback | tudor-host/src/handler.c:197-242 | The verify callback equals the protocol step. |
| HostHandler.HandlerState.IdentifyCallback | tudor-host/src/handler.c:244-289 | The identify callback equals the protocol step. |
| HostHandler.HandlerState.CleanupAction | tudor-host/src/handler.c:54-66 | The result is dropped, and a cancelled action is acknowledged and not continued. |
| HostHandler.HandlerState.InitAction | tudor-host/src/handler.c:49-52 | Result and cancel flag are reset. |
| HostHandler.HandlerState.EnrollStart | libtudor/src/tudor/device.c:300-328 | Starts exactly if no enrolment runs and the adapters agree; otherwise the device is unchanged. |
| HostHandler.HandlerState.EnrollCapture | libtudor/src/tudor/device.c:368-387 | A capture is in flight exactly if an enrolment runs and StartCapture succeeds. |
| HostHandler.HandlerState.EnrollCommit | libtudor/src/tudor/device.c:407-459 | Success, duplicate and failure, and that only success leaves the enrolment. |
| HostHandler.HandlerState.EnrollDiscard | libtudor/src/tudor/device.c:461-480 | Leaves the enrolment exactly if there is one and all adapter calls succeed. |
| HostHandler.HandlerState.BeginIdentify | libtudor/src/tudor/device.c:608-628 | Refused exactly while enrolling or when StartCapture fails. |
| HostHandler.HandlerState.DeviceEnrollCb | libtudor/src/tudor/device.c:330-366 | The outcome of the adapter calls reaches the host callback. |
| HostHandler.HandlerState.DeviceIdentifyCb | libtudor/src/tudor/device.c:554-606 | The same for identification. |
| HostHandler.HandlerState.SetAsyncCallback | libtudor/src/tudor/async.c:36-44 | A capture that is already complete runs its callback inside the registration. |
| HostHandler.HandledIsRun | tudor-host/src/handler.c:478-486 | What one call of the message handler does is a run of the protocol's events. |
| LauncherProofs.StepInv | tudor-host-launcher/src/launch.c:59-325 | Every call and every child death keeps the table invariant. |
| LauncherProofs.TableIsSound | tudor-host-launcher/src/launch.c:122-325 | In every run: no assertion fails, ids are nonzero and unique, a path has at most one entry, orphans are alive, the open descriptors are exactly those of the entries, and every process ever spawned has ended, is killed or is in an alive entry; a process is watched, and its entry alive, exactly until its end. |
| LauncherProofs.WatchedOrEnded | tudor-host-launcher/src/launch.c:59-99 | A process is watched from its launch to the event of its end, and no end is seen of a process that was not spawned. |
| LauncherProofs.SignalsAreDue | tudor-host-launcher/src/launch.c:72-99 | HostDied is sent exactly once for each host that ends neither killed nor orphaned, in order, and for no other. |
| LauncherProofs.DeathsAreEnds | tudor-host-launcher/src/launch.c:59-99 | The recorded ends are exactly the child deaths of the run. |
| LauncherProofs.OnePerPathIff | tudor-host-launcher/src/launch.c:133-193 | Launches of a path keep one entry per path on every table if and only if the path fits its 64-byte field. |
| LauncherProofs.LongPathTwice | tudor-host-launcher/src/launch.c:132-193 | A path of 64 or more characters can be launched twice. |
| LauncherProofs.AdoptUndoesOrphan | tudor-host-launcher/src/launch.c:250-325 | Adopting a path right after orphaning its host returns the same id and restores the table. |
| LauncherProofs.KillIsFinal | tudor-host-launcher/src/launch.c:213-238 | A killed host has no entry any more, and its id is invalid from then on. |
| LauncherProofs.LaunchAnswers | tudor-host-launcher/src/launch.c:133-200 | The id a launch answers is new and is that of the alive entry with the child, descriptor and path, and of the watch on the child; killing and orphaning by that id find the host, and after orphaning it can be adopted again. |
| LauncherProofs.LaunchRefused | tudor-host-launcher/src/launch.c:122-185 | A launch is refused exactly if a host of the path is in use, and fails exactly on the socket or the child; a failure leaves no orphan of the path. |
| LauncherProofs.CallsFind | tudor-host-launcher/src/launch.c:213-325 | Kill and orphan find a host exactly by its id, an orphan is not orphaned again, and adoption finds exactly the orphans of the path. |
| LauncherProofs.StatusTells | tudor-host-launcher/src/launch.c:60-68 | The value sent with HostDied tells an exit by its code from an end by a signal by its negated number. |
| HostLauncher.HostTable.LaunchHostCall | tudor-host-launcher/src/launch.c:122-201 | The search, the replacement of an orphan, the failures and the new entry. |
| HostLauncher.HostTable.KillHostCall | tudor-host-launcher/src/launch.c:213-238 | Kill and removal of the entry with this id. |
| HostLauncher.HostTable.AdoptHostCall | tudor-host-launcher/src/launch.c:250-277 | The first orphan of the path is adopted. |
| HostLauncher.HostTable.OrphanHostCall | tudor-host-launcher/src/launch.c:289-325 | An alive host becomes an orphan, a dead one is freed. |
| HostLauncher.HostTable.HostWatchCb | tudor-host-launcher/src/launch.c:59-99 | The death of a child: signal, removal of an orphan, or nothing. |
| HostLauncher.HostTable.FreeAndRemove | tudor-host-launcher/src/launch.c:24-27 | Killing if alive, closing the descriptor, and moving the last entry into the gap. |
| PeSections.ParseSections | libtudor/src/pe/sect.c:7-52 | The table is accepted if and only if it lies in the file and every header passes the checks, with sums that wrap at 32 bits. |
| PeSections.HeaderBack | libtudor/src/pe/spec.h:120-131 | A header written in the layout of the format is read back field by field. |
| PeSections.LookupInFileIff | libtudor/src/pe/sect.c:54-69 | The lookup of a section stays inside the file at all addresses if and only if the part of it that is both mapped and in the file part lies in the file. |
| PeSections.AcceptedInFile | libtudor/src/pe/sect.c:28-31 | The parser's check makes sure of it for every section whose sum of file offset and size does not wrap around, or that maps nothing. |
| PeSections.WrappedSums | libtudor/src/pe/sect.c:28-31 | An accepted header whose sum wraps and whose byte the lookup takes from outside the file, and one whose sum wraps harmlessly. |
| PeSections.PeekI8 | libtudor/src/pe/sect.c:54-69 | The lookup finds the byte through the first section that holds the address, reading only inside the file. |
| PeSections.CopyMem | libtudor/src/pe/sect.c:89-112 | For any sections and any range the copy holds the byte of the last section whose file part backs the address, zero without one, and only zeros if the range ends at 2^32 or beyond; it reads only inside the file and leaves the buffer behind the range alone. |
| PeSections.CopyAgreesIff | libtudor/src/pe/sect.c:54-112 | Copy and lookup agree at every address, for all contents of the file, if and only if they use the same place of the file at three addresses of each section: its start, its end and the end of its file part. |
| PeSections.SameEverywhere | libtudor/src/pe/sect.c:54-112 | Places that are the same at these boundaries are the same at every address. |
| PeSections.WrappedPartDiffers | libtudor/src/pe/sect.c:104-110 | A single accepted section on which copy and lookup differ, as its file part wraps around at 32 bits. |
| PeSections.SharedAddresses | libtudor/src/pe/sect.c:54-112 | Two accepted sections at the same addresses on which they differ, and two on which they do not. |
| PeSections.DisjointAgree | libtudor/src/pe/sect.c:54-112 | They do when no two sections share an address and no file part wraps around. |
| PeSections.SectionTurn | libtudor/src/pe/sect.c:93-111 | The turn of one section gives a byte of the range its file content if the section backs the address, and leaves it alone otherwise. |
| PeSections.PeekPastEnd | libtudor/src/pe/sect.c:33-36 | With accepted sections every address past the end of the image reads as zero. |
| PeSections.PeekWide | libtudor/src/pe/sect.c:71-87 | The 16, 32 and 64 bit reads are little-endian numbers of the copied bytes, at every offset. |
| PeSections.CopyMemString | libtudor/src/pe/sect.c:114-126 | The result is a copy of the bytes up to the first zero the lookup finds, which is in the image or the first byte; where copy and lookup agree and the string ends below 2^32 it is that string and ends with its only zero. |
| PeRelocs.CountRelocs | libtudor/src/pe/reloc.c:9-29 | The first pass accepts exactly the tables whose headers pass, and counts the entries the blocks claim. |
| PeRelocs.ClaimedAreRead | libtudor/src/pe/reloc.c:9-66 | The first pass counts exactly the entries the second pass reads, in the table or behind it. |
| PeRelocs.OwnEntriesIff | libtudor/src/pe/reloc.c:36-70 | The entries read do not depend on what lies behind the table if and only if no block claims more bytes than the table has left. |
| PeRelocs.OffsetWraps | libtudor/src/pe/reloc.c:11-29 | Headers that pass, after which the 32-bit offset of the next block is 0 again. |
| PeRelocs.OverrunIsCounted | libtudor/src/pe/reloc.c:9-29 | A table that ends before the entry its block claims passes the first pass. |
| PeRelocs.ParseRelocDir | libtudor/src/pe/reloc.c:6-72 | Succeeds if and only if the headers pass and all types are supported; whatever lies behind the table, the second pass stores inside the allocation the first one sized, and yields the relocations in order. |
| PeRelocs.RelocsHaveSlots | libtudor/src/pe/reloc.c:44-60 | The slots of the relocations are exactly those of the table's entries that are not padding. |
| PeRelocs.TableBack | libtudor/src/pe/spec.h:157-161 | A table written as blocks of a page with types and offsets is accepted and read back entry by entry. |
| PeRelocs.EntryFields | libtudor/src/pe/reloc.c:40-44 | An entry is of the type it was written with, at its offset in the page. |
| PeRelocs.ApplyRelocs | libtudor/src/loader.c:185-196 | The loop equals the rebasing function and stops exactly at an unsupported width. |
| PeRelocs.RebasedSlots | libtudor/src/loader.c:185-196 | With equal or disjoint slots, in any order and with duplicates, each slot holds original + (base - desired base) modulo 2^64 and every other byte is unchanged. |
| PeRelocs.OrderDoesNotMatter | libtudor/src/loader.c:185-196 | Tables with the same slots give the same image. |
| PeRelocs.PatchedNarrow | libtudor/src/loader.c:187-190 | A 32-bit relocation stores the sum modulo 2^32 and touches four bytes. |
| PeRelocs.MapImage | libtudor/src/loader.c:150-197 | Mapping, parsing and rebasing together, over the mapping and the memory behind it: with all slots in the image, disjoint or the same, every entry of the table that is not padding has its address moved by the distance between the base addresses, and no byte outside those slots changes, in the image or behind it. |
| PeRelocs.RebasedEntries | libtudor/src/loader.c:185-196 | The loop over the relocations of such a table does that; the address of a HIGHLOW entry is read as 32 bits and stored as 64. |
| PeRelocs.SlotOutside | libtudor/src/pe/reloc.c:44-60 | A table that parses, with a slot outside of every image. |
| HidFrames.HidDevice.WriteOneFrame | libtudor/src/winapi/wdf/hid.c:179-223 | Header and continuation reports of a frame are written in order, up to the first write that fails. |
| HidFrames.HidDevice.SendVcsfw | libtudor/src/winapi/wdf/hid.c:227-255 | The frames of a payload are written in order, and success means all of them. |
| HidFrames.AfterWrites | libtudor/src/winapi/wdf/hid.c:195-220 | A failing write loses the rest and nothing else. |
| HidFramesProofs.StreamRoundTripIff | libtudor/src/winapi/wdf/hid.c:225-255 | Payloads sent one after the other are read back as that list, with only the framing codes to tell where each ends, if and only if each takes at most 0x4001 frames; otherwise the stream is in error. |
| HidFramesProofs.StreamRoundTripIffShort | libtudor/src/winapi/wdf/hid.c:225-255 | In bytes: if and only if each is at most 0x4001 * 248 long. |
| HidFramesProofs.OneMessage | libtudor/src/winapi/wdf/hid.c:225-255 | In front of any further frames a payload is read back and the reading goes on behind it, or frame 0x4000 is taken for a first one. |
| HidFramesProofs.RoundTripIff | libtudor/src/winapi/wdf/hid.c:225-255 | The same for a single payload. |
| HidFramesProofs.CodesUnambiguousIff | libtudor/src/winapi/wdf/hid.c:241-244 | The framing codes tell first, middle, last and single frames apart exactly up to 0x4001 frames. |
| HidFramesProofs.FramesBack | libtudor/src/winapi/wdf/hid.c:179-223 | The reports of any frames decode to those frames. |
| HidFramesProofs.FrameReportCount | libtudor/src/winapi/wdf/hid.c:191-220 | A chunk of n bytes uses 1 + ceil(max(0, n - 5) / 19) reports. |
| HidReceive.RecvVcsfw | libtudor/src/winapi/wdf/hid.c:264-329 | The buffer always starts with the data carried so far, cut off at the announced length and the buffer's end; the result is that of the event stream. |
| HidReceive.ResponseArrives | libtudor/src/winapi/wdf/hid.c:264-329 | A header and continuation reports that carry the announced data, with foreign reports anywhere in between, are returned whole when the buffer is large enough. |
| HidReceive.ResponseBreaksOff | libtudor/src/winapi/wdf/hid.c:264-329 | A response that breaks off or does not fit the buffer: as much as was received, announced and fits is returned on silence, and nothing after an error. |
| HidReceive.NoHeader | libtudor/src/winapi/wdf/hid.c:264-329 | Without a header nothing is received, whatever else comes. |
| HidReceive.ResponseRoundTrip | libtudor/src/winapi/wdf/hid.c:257-263 | A response written in the documented format is received byte for byte. |
| ReadSpec.StepConserves | libtudor/src/winapi/fileops.c:154-297 | No step of the reader, of a caller or of a shutdown loses, repeats or reorders a read. |
| ReadSpec.ReadsAreConserved | libtudor/src/winapi/fileops.c:154-297 | In every interleaving each read is completed, in flight or queued, in the order of queueing; completions are a prefix of what was issued. |
| ReadSpec.DeliveriesAreFiltered | libtudor/src/winapi/fileops.c:185-258 | The data delivered are exactly the reports the device brought while a read was served that pass the id and heartbeat filters, in stream order, zero-padded to the buffer. |
| ReadSpec.RoundMeans | libtudor/src/winapi/fileops.c:186-258 | When a round of the read loop leaves it, and whether the read is delivered or cancelled. |
| ReadSpec.Serves | libtudor/src/winapi/fileops.c:158-258 | A running thread completes the oldest read with the first report that passes the filters. |
| ReadSpec.ShutdownLeaves | libtudor/src/winapi/fileops.c:158-197 | Once a flag is set, every run to the end of the thread leaves exactly these reads in the queue: those queued after the locked section if the thread was waiting for it, else all that were queued and all that come. |
| ReadSpec.AllCompletedIff | libtudor/src/winapi/fileops.c:158-197 | In every run to the end of the thread, also one that queues further reads, all reads queued before the flag are completed if and only if the thread is waiting at that moment or nothing is queued. |
| ReadSpec.StopsWithin | libtudor/src/winapi/fileops.c:158-197 | Once a flag is set the thread ends within a known number of steps, wherever it is and whatever the device does; only reports that are filtered out do not count. |
| ReadSpec.InFlightIsCancelled | libtudor/src/winapi/fileops.c:189-201 | The read in flight is cancelled at shutdown as soon as the device has no report. |
| ReadSpec.ReadsLeftBehind | libtudor/src/winapi/fileops.c:158-178 | A run in which the thread ends with a read still queued that is never completed. |
| ReadSpec.CancelsAll | libtudor/src/winapi/fileops.c:160-179 | A waiting thread that is to stop cancels everything queued, in order, and ends, whatever the device does. |
| ReadQueue.ReaderCtx.HidFileRead | libtudor/src/winapi/fileops.c:265-297 | The step of the machine that queues a read: at the end of the linked queue, or refused if the thread cannot be started. |
| ReadQueue.ReaderCtx.LockedSection | libtudor/src/winapi/fileops.c:160-183 | The locked section is one step of the machine: the whole queue is taken off, or the oldest read, or the thread goes on waiting. |
| ReadQueue.ReaderCtx.ReadRound | libtudor/src/winapi/fileops.c:186-242 | One round of the read loop over the caller's buffer is one step of the machine. |
| ReadQueue.ReaderCtx.TakeReport | libtudor/src/winapi/fileops.c:187-242 | A report is cut to the buffer, skipped exactly if it fails the filters, and padded with zeros otherwise. |
| ReadQueue.ReaderCtx.CancelNext | libtudor/src/winapi/fileops.c:171-177 | One round of the cancelling loop over the linked requests is one step of the machine. |
| ReadQueue.ReaderCtx.Skips | libtudor/src/winapi/fileops.c:202-232 | A report is skipped exactly if it fails the filters. |
| ReadQueue.ReaderCtx.CompleteRead | libtudor/src/winapi/fileops.c:250-258 | The completion is one step of the machine, with the contents of the buffer. |
| ReadQueue.ReaderCtx.RunAll | libtudor/src/winapi/fileops.c:154-337 | Over any interleaving of reads, flags and thread steps the code does what the machine does. |
| DescriptorSpec.FlagsMean | libtudor/src/tudor/hidraw_detect.c:42-101 | On the encoding of any items with any truncated tail, each flag is set if and only if all its four report ids are announced under the right usage page in force. |
| DescriptorSpec.EveryDescriptor | libtudor/src/tudor/hidraw_detect.c:47-97 | Every byte string is a list of items with a truncated tail. |
| DescriptorSpec.WalkItems | libtudor/src/tudor/hidraw_detect.c:47-97 | The walk takes one item after the other and stops at a truncated tail. |
| ReportDescriptor.ParseLibrary | libtudor/src/tudor/hidraw_detect.c:42-101 | The library's parser computes the flags of the walk, on every byte string. |
| ReportDescriptor.ParseCli | cli/src/hidraw_detect.c:42-101 | The command line tool's parser computes the same flags on every byte string. |
| FlsSpec.FreeListIsExact | libtudor/src/winapi/sync.c:293-305 | Following the links from the head visits exactly the unallocated indices once and ends at 128. |
| FlsSpec.InUseMeans | libtudor/src/winapi/sync.c:327-363 | In use means allocated by a call and not freed by a later one. |
| FlsSpec.LastSetMeans | libtudor/src/winapi/sync.c:366-408 | The last call that allocates the index or sets it for the thread decides its value there. |
| FlsSpec.PushFree | libtudor/src/winapi/sync.c:353-356 | Freeing puts an index at the head of that list. |
| FlsSpec.PopFree | libtudor/src/winapi/sync.c:332-336 | Allocating takes the head off it. |
| Fls.FlsTable.constructor | libtudor/src/winapi/sync.c:312-319 | Initially all indices are free. |
| Fls.FlsTable.FlsAlloc | libtudor/src/winapi/sync.c:327-344 | Returns an index that was not in use, and fails if and only if all 128 are. |
| Fls.FlsTable.FlsFree | libtudor/src/winapi/sync.c:347-363 | Succeeds exactly on an index in use. |
| Fls.FlsTable.FlsGetValue | libtudor/src/winapi/sync.c:366-379 | The value the calling thread last set since the allocation, or NULL. |
| Fls.FlsTable.FlsSetValue | libtudor/src/winapi/sync.c:382-408 | Succeeds exactly on an index in use. |
| DataStoreSpec.PairsRoundTripIff | cli/src/datastore.c:72-162 | Loading saved pairing data gives the entries back, and nothing of what follows them, if and only if every name has 1 to 255 bytes. |
| DataStoreSpec.PairsCut | cli/src/datastore.c:72-130 | Of a file that was cut off the whole pairing entries are read, and it counts as damaged unless it was cut between two. |
| DataStoreSpec.RecordsRoundTrip | cli/src/datastore.c:174-261 | Loading saved records into an empty list accepts all of them and reverses the list. |
| DataStoreSpec.AllAccepted | libtudor/src/tudor/storage.c:54-89 | Records with distinct keys are all accepted. |
| DataStoreSpec.RecordsCut | cli/src/datastore.c:174-221 | The same for the records. |
| DataStoreSpec.TakenKeyStops | cli/src/datastore.c:211-215 | A record whose key is taken stops the loading, keeping the records before it. |
| DataStoreSpec.LookupReversed | cli/src/datastore.c:13-24 | The reversed pairing list is the same map. |
| DataStoreSpec.SameRecords | cli/src/datastore.c:223-252 | The reversed record list holds the same records and keys. |
| DataStoreSpec.PairsTwoRounds | cli/src/datastore.c:72-162 | Two rounds of saving and loading restore the pairing bytes. |
| DataStoreSpec.RecordsTwoRounds | cli/src/datastore.c:174-261 | Two rounds of saving, parsing and adding accept every record and restore the list and its bytes. |
| DataStoreSpec.SetPairIsUpdate | cli/src/datastore.c:26-70 | Setting pairing data is a map update that keeps names unique. |
| DataStore.Stores.GetPairData | cli/src/datastore.c:13-24 | The data of the first entry with the name. |
| DataStore.Stores.SetPairData | cli/src/datastore.c:26-70 | The first entry with the name is replaced, or a new one put in front. |
| DataStore.Stores.LoadPairData | cli/src/datastore.c:72-130 | Entries go in front of the list in file order, also from a damaged file, and the stream is left behind the section. |
| DataStore.Stores.SavePairData | cli/src/datastore.c:132-162 | The bytes of the section, with the name length cut to one byte. |
| DataStore.Stores.LoadRecords | cli/src/datastore.c:174-221 | Records are added in file order until the end, damage or a taken key. |
| DataStore.Stores.SaveRecords | cli/src/datastore.c:223-261 | The bytes of the section. |
| DataStore.SaveAndLoad | cli/src/datastore.c:72-261 | Both sections saved to one file and loaded into an empty program: everything accepted, both lists reversed. |
| TlsPrf.DeriveKey | libtudor/src/winapi/bcrypt/bcrypt.c:554-600 | The loop writes exactly the requested bytes of P_hash(secret, label + seed) and nothing behind them. |
| TlsPrf.OutputByte | libtudor/src/winapi/bcrypt/bcrypt.c:575-592 | Byte k is byte k mod n of HMAC(secret, A(k / n + 1) + seed). |
| TlsPrf.ShorterIsPrefix | libtudor/src/winapi/bcrypt/bcrypt.c:575-592 | A shorter request gives a prefix of a longer one. |

## Left out

- Calls into the driver and adapter DLLs, OpenSSL, hidraw ioctls, D-Bus and GLib are inputs; only their results appear.
- Weak memory orders in the overlapped handshake, and cancelling or cleaning up an operation before its final callback.
- A request is configured and started once; resets and reuse are not modelled.
- The overlapped event handle, the transfer count and the several waiters of one async result (its condition is signalled once).
- The lifetime of the async result's own lock when its callback frees it.
- ObjectTree.WdfHeap.Run: object contexts and their callbacks, the locks of the lists, and destructors that destroy siblings or enqueue further actions are not modelled; an object's destructor cleans up and frees it.
- ObjectTree.WdfHeap.CreateObj: creation from inside a running action is not modelled.
- The branches that keep templates on the sensor (DLL storage) in wiping, enumerating, adding and committing.
- HostHandler.HandlerState.HandleMsg: the payloads of PROBE and of the record messages are not part of the protocol model; the record list itself is in RecordStore.
- HostHandler.HandlerState.FinishEnrollment: a failed allocation of the response.
- HostHandler.HandlerState.IdentifyCallback: the guid and finger sent without a match are what the union of the action holds; they are an input, not followed through the union.
- The order of ACKs and replies across the client in libfprint-tod.
- LauncherProofs.TableIsSound: process ids are not reused, host ids do not wrap around, and launched paths have fewer than 64 characters; OnePerPathIff says what longer paths do.
- The descriptors handed to D-Bus callers; the launcher's own copies are counted.
- PeSections.CopyMem: section tables of which a mapped part lies outside the file, where the code reads outside it (WrappedSums has one that is accepted, LookupInFileIff says when).
- PeSections.PeekI8: the same tables.
- PeSections.PeekWide: the same tables.
- PeSections.CopyMemString: the same tables, and strings longer than an int can count.
- PeSections.ParseSections: the copied section name.
- PeRelocs.CountRelocs: blocks whose end does not fit in 32 bits, where the offset of the next one wraps around and the loop may not end (OffsetWraps).
- PeRelocs.ParseRelocDir: the same blocks; memory behind the table that cannot be read.
- PeRelocs.MapImage: memory behind the mapping that cannot be written, with a slot there (SlotOutside); import slots, the CFG dispatch patch and the memory protections of the loaded image.
- HidReceive.RecvVcsfw: a stream that runs dry is a timeout; the length of the timeouts is not modelled.
- ReadQueue.ReaderCtx.RunAll: the steps of the thread interleave whole; a flag that changes inside the locked section counts as set before or after it. A failed allocation of a request is not modelled.
- Push and Pop items of report descriptors, as the code ignores them.
- Fls.FlsTable.FlsSetValue: allocation failure, and the destructors that run at thread exit.
- DataStore.Stores.SavePairData: write errors.
- DataStore.Stores.LoadPairData: allocation failure.
- TlsPrf.DeriveKey: the choice of the hash and the search for the label and seed buffers.
- Sandbox, command line menus, logging, registry and setupapi stubs, strings, time, pipes, USB and the other cryptographic wrappers.
