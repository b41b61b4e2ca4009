# Verified models of dart:io's native core

A Dafny model of the parts of `runtime/bin` of the Dart SDK that keep state, and proofs about
every run of them. Objects that the C++ code updates in place are classes; each of their methods
is proved equal to a step of a value-level model, and the theorems are about all runs of that
model. `dafny verify dfyconfig.toml` checks everything.

## What is modelled

**The event handler** (`CircularLinkedList`, `SharedPorts`, `DescriptorInfo`, `EpollProtocol`,
`PortEffects`, `SocketMessages`, `DispatchFairness`, `HandlerEffects`, `EventHandler`). A
listening socket is shared by many ports with token budgets; a circular list caches the ready
ones, which are notified in turn. On Linux the handler keeps the kernel's registered interest in
step with each descriptor's mask, through messages, event batches, closes and refused
registrations. `epoll_ctl(ADD)` may be refused at any time; a batch holds distinct registered
descriptors, and the interrupt pipe and the timer anywhere among them; close messages are
well-formed, which is to say that a descriptor is deleted only with a zero mask. The hash map is
a Dafny map, and iteration over it may take any order.

**Directory listing** (`FileTree`, `ListingSpec`, `ListingFacts`, `ListingMachine`,
`ListingPaths`, `PathBuffer`, `DirectoryListing`, `AsyncListing`). A stack of entries shares one
path buffer and linked lists of followed links, and can stop whenever a response is full. It is
proved to report exactly a recursive traversal, whose contents are characterised independently.
Paths are assumed to be shorter than `PATH_MAX` (`StartFits`), and the directory name to end in a
separator, as the Dart side passes it. Opening a directory, reading it and asking for the status
of an entry may fail; otherwise the file system does not change during a listing.

**Recursive deletion** (`PathWalk`, `DeletionSpec`, `DirectoryDelete`). Path texts are walked with
links, `.` and `..`; every system call may fail unless the file system is `reliable`; directory
entries may come in any order and with or without their kind.

**Path cleaning** (`LexicalPath`, `CleanUnixPath`), **ELF segment loading** (`PageRounding`,
`ElfLoader`), **percent-decoding** (`UriDecoder`) and the **accept queue of a Windows listening
socket** (`AcceptQueue`, `ListenSocket`).

## Where the code differs from what one would expect

- `PathBuffer::Add` accepts a sum of exactly `PATH_MAX` although it has dropped the last character.
  Recursive deletion of a name of exactly `PATH_MAX` characters therefore deletes the file whose
  name lacks the last character (`DeleteTree`, with an input in `CutNameHitsAnother`); below that
  length the named tree, and only that, is deleted.
- A directory named by a path that ends in `.` can never be removed (`DotIsNotRemovable`). It is
  emptied, as any directory whose path stays valid (`StaysReached`) but cannot remove it
  (`IsRemovable`); deletion succeeds exactly if the path can, and all paths fit (`Delete`).
- The ELF loader never checks that the sums of its headers fit a word. The reservation covers all
  segments exactly if they do (`ReservationCovers`; `WrappingSegment` has one that does not);
  `LoadSegments` asks for that.
- Chapter 5 of the System V ABI wants the part of a segment past its file size to be zero. The
  loader takes it from the source too; it is zero exactly if the source is (`TailIsZero`;
  `TailNotZero` has a source that is not).
- The address that `MapFilePiece` returns is right exactly for a page-aligned object
  (`PieceStart`), which `Load` checks first.
- A failed accept completion is not replaced. Five of them leave an open listening socket that
  nothing wakes up (`FiveFailuresStarve`, `StarvedSleeps`). `StarvesIff` says exactly which step
  does that; it takes at least five failures (`StarvedByFailures`).
- `UriDecoder` keeps testing for room behind the first `%` only; malformed escapes further on are
  still found, because the terminator is no hex digit (`DecodeUri`).

## Model

| member | source | states |
|---|---|---|
| CircularLinkedList.CircularLinkedList.Add | runtime/bin/eventhandler.h:120-136 | appends at the end of the ring; true exactly if the list was empty; the pointers stay one ring through `head` with `next` and `prev` inverse |
| CircularLinkedList.CircularLinkedList.RemoveHead | runtime/bin/eventhandler.h:138-153 | drops the first item |
| CircularLinkedList.CircularLinkedList.Remove | runtime/bin/eventhandler.h:155-183 | deletes the first occurrence and nothing else; an absent item changes nothing |
| CircularLinkedList.CircularLinkedList.RemoveAll | runtime/bin/eventhandler.h:185-189 | empties the list |
| CircularLinkedList.CircularLinkedList.Head | runtime/bin/eventhandler.h:191-191 | the first item |
| CircularLinkedList.CircularLinkedList.HasHead | runtime/bin/eventhandler.h:193-193 | whether the list is non-empty |
| CircularLinkedList.CircularLinkedList.Rotate | runtime/bin/eventhandler.h:195-200 | moves the first item to the end, by moving only `head` |
| CircularLinkedList.RotatedRing | runtime/bin/eventhandler.h:195-200 | the same nodes read from the second one on are again one ring |
| CircularLinkedList.WithoutRing | runtime/bin/eventhandler.h:165-181 | a ring whose node is bypassed on both sides is the ring without that node |
| SharedPorts.SetReadingAgrees | runtime/bin/eventhandler.h:401-453 | setting a mask keeps the cache of ready ports exact |
| SharedPorts.RemovePortAgrees | runtime/bin/eventhandler.h:455-477 | removing a port keeps the cache exact |
| SharedPorts.NotifyNextAgrees | runtime/bin/eventhandler.h:491-513 | giving a turn keeps the cache exact: the port goes to the end, or out when its tokens are used up |
| SharedPorts.NotifyAllAgrees | runtime/bin/eventhandler.h:515-536 | charging every port, in whatever order the map is walked, keeps the cache exact |
| SharedPorts.ReturnTokensAgrees | runtime/bin/eventhandler.h:538-553 | returning tokens keeps the cache exact |
| SharedPorts.RunAgrees | runtime/bin/eventhandler.h:401-560 | after any run of operations the cache holds each ready port exactly once and nothing else |
| SharedPorts.ActiveIffSomeReady | runtime/bin/eventhandler.h:555-560 | the mask of a shared descriptor asks for reading exactly when some port is ready |
| SharedPorts.ActiveCountsReady | runtime/bin/eventhandler.h:430-452 | the count taken by the debug build always agrees |
| SharedPorts.BoundedBypass | runtime/bin/eventhandler.h:491-513 | a port at place i that stays ready until its turn gets one of the next i + 1 turns, whatever happens to other ports in between |
| SharedPorts.ApplyPlace | runtime/bin/eventhandler.h:421-425 | no operation of others moves a ready port back |
| SharedPorts.RunBalances | runtime/bin/eventhandler.h:491-553 | tokens held plus tokens owed is the budget of four for every port after every run with honest clients, so the budget is never exceeded |
| SharedPorts.TurnHasToken | runtime/bin/eventhandler.h:491-513 | a turn goes only to a port that holds a token |
| PortEffects.SetReadingEffect | runtime/bin/eventhandler.h:401-427 | the port has the flag that was asked for, and its old tokens, or four if it is new; it takes turns exactly if it reads and has tokens, in its old place or last; all other ports and their order are unchanged |
| PortEffects.RemovePortEffect | runtime/bin/eventhandler.h:455-477 | the port is gone from map and order; all others are unchanged |
| PortEffects.NotifyNextEffect | runtime/bin/eventhandler.h:491-513 | the first port pays one token, if tokens count, and goes last, or out without tokens; all others are unchanged |
| PortEffects.NotifyAllEffect | runtime/bin/eventhandler.h:515-536 | each port pays one token, if tokens count; those with tokens left go on in the same order |
| PortEffects.ReturnTokensEffect | runtime/bin/eventhandler.h:538-553 | just so many tokens are added to the port, if tokens count; it keeps its place or comes last; all others are unchanged |
| DescriptorInfo.DescriptorInfoMultiple.SetPortAndMask | runtime/bin/eventhandler.h:401-453 | the objects (map of entries, linked cache) do what the value model does, and stay consistent |
| DescriptorInfo.DescriptorInfoMultiple.RemovePort | runtime/bin/eventhandler.h:455-477 | refines removal of a port |
| DescriptorInfo.DescriptorInfoMultiple.UncacheAll | runtime/bin/eventhandler.h:480-486 | takes every entry out of the cache once, so that the cache is empty before it is cleared and nothing is deleted twice |
| DescriptorInfo.DescriptorInfoMultiple.RemoveAllPorts | runtime/bin/eventhandler.h:479-489 | refines removal of all ports |
| DescriptorInfo.DescriptorInfoMultiple.NextNotifyDartPort | runtime/bin/eventhandler.h:491-513 | returns the first ready port, charges it, and rotates or drops it |
| DescriptorInfo.DescriptorInfoMultiple.NotifyAllDartPorts | runtime/bin/eventhandler.h:515-536 | posts to and charges every port, whatever the iteration order |
| DescriptorInfo.DescriptorInfoMultiple.ReturnTokens | runtime/bin/eventhandler.h:538-553 | refines returning tokens |
| DescriptorInfo.DescriptorInfoMultiple.Mask | runtime/bin/eventhandler.h:555-560 | the in-event bit exactly when the cache is non-empty |
| DescriptorInfo.DescriptorInfoSingle.SetPortAndMask | runtime/bin/eventhandler.h:283-287 | port and mask of a descriptor with one listener |
| DescriptorInfo.DescriptorInfoSingle.RemovePort | runtime/bin/eventhandler.h:289-295 | forgets the listener |
| DescriptorInfo.DescriptorInfoSingle.NextNotifyDartPort | runtime/bin/eventhandler.h:302-309 | returns the listener and charges it unless tokens are disabled |
| DescriptorInfo.DescriptorInfoSingle.NotifyAllDartPorts | runtime/bin/eventhandler.h:311-323 | posts to the listener and charges it |
| DescriptorInfo.DescriptorInfoSingle.ReturnTokens | runtime/bin/eventhandler.h:325-331 | returns tokens |
| DescriptorInfo.DescriptorInfoSingle.Mask | runtime/bin/eventhandler.h:333-338 | no interest without tokens |
| EpollProtocol.EventMask | runtime/bin/eventhandler_linux.cc:327-347 | which flag sets which bit; an error counts only together with input, and then stands alone; zero exactly for flags that mean nothing to the handler |
| EpollProtocol.UpdateInStep | runtime/bin/eventhandler_linux.cc:137-149 | whatever the old and new mask, the kernel is in step with the descriptor after the update, refused or not |
| EpollProtocol.SharedMaskNeverReplaced | runtime/bin/eventhandler_linux.cc:141-148 | re-registering for another mask cannot happen to a shared descriptor |
| EpollProtocol.OnCloseInv | runtime/bin/eventhandler_linux.cc:222-262 | closing keeps every descriptor in step, and a descriptor that is deleted is not registered any more, because its new mask is zero |
| EpollProtocol.NoListenerNoMask | runtime/bin/eventhandler_linux.cc:247-248 | a shared descriptor whose last port is gone has a zero mask, as the source asserts |
| EpollProtocol.ForgetInv | runtime/bin/eventhandler_linux.cc:249-260 | deleting a descriptor that is not registered keeps the kernel in step |
| EpollProtocol.OnReturnTokensInv | runtime/bin/eventhandler_linux.cc:263-267 | returned tokens re-register a descriptor that had run dry |
| EpollProtocol.OnSetEventMaskInv | runtime/bin/eventhandler_linux.cc:268-275 | a new event mask keeps the kernel in step |
| EpollProtocol.OnMessageInv | runtime/bin/eventhandler_linux.cc:194-281 | every interrupt message keeps the kernel in step |
| EpollProtocol.OnEventInv | runtime/bin/eventhandler_linux.cc:349-385 | every dispatched event keeps the kernel in step |
| EpollProtocol.DispatchIsSafe | runtime/bin/eventhandler_linux.cc:349-385 | wherever in a batch the interrupt pipe and the timer are reported, no event reaches a deleted descriptor, and the port it notifies is a real one that holds a token |
| EpollProtocol.HandlingAtOnceIsUnsafe | runtime/bin/eventhandler_linux.cc:351-384 | a run in which handling the messages at their place in the batch would delete a descriptor that a later event of the batch is for |
| EpollProtocol.RegistrationInvariant | runtime/bin/eventhandler_linux.cc:33-70 | after every run, a descriptor is registered exactly if its mask is non-zero and its latest ADD was not refused; a shared one then for input alone, a single one edge-triggered for the directions in its mask |
| EpollProtocol.TokensAreConserved | runtime/bin/eventhandler_linux.cc:349-385 | tokens held plus tokens owed is 16 (one listener) or 4 (shared) after every run with honest clients |
| EpollProtocol.OnMessageSolvent | runtime/bin/eventhandler_linux.cc:194-281 | messages keep the balance of tokens |
| EpollProtocol.OnEventSolvent | runtime/bin/eventhandler_linux.cc:349-385 | events keep the balance of tokens |
| DispatchFairness.RunIsTrace | runtime/bin/eventhandler_linux.cc:349-385 | a run, taken apart into single dispatches and messages, leads to the same state |
| DispatchFairness.ChangePlace | runtime/bin/eventhandler_linux.cc:137-149 | telling the kernel about a new mask moves no waiting port back, even if the kernel refuses and every port is charged |
| DispatchFairness.EventPlace | runtime/bin/eventhandler_linux.cc:364-377 | a notification of another port moves a waiting port one place forward; no event moves it back |
| DispatchFairness.MessagePlace | runtime/bin/eventhandler_linux.cc:194-281 | no message, to whatever descriptor, moves a waiting port back |
| DispatchFairness.ServedInTurn | runtime/bin/eventhandler_linux.cc:349-385 | from any state in step with the kernel, a waiting port at place i has one of the next i + 1 turns |
| DispatchFairness.TurnsArePosted | runtime/bin/eventhandler_linux.cc:372-376 | every turn is posted |
| DispatchFairness.EveryRunIsFair | runtime/bin/eventhandler_linux.cc:349-385 | in every run, a ready port at place i of a shared descriptor that goes on waiting is sent one of the next i + 1 notifications dispatched for that descriptor |
| SocketMessages.WordIsUnderstood | sdk/lib/_internal/vm/bin/socket_patch.dart:395-419 | the event handler reads from the data word of each message the command, the count or mask, and the kind of socket that the Dart side put into it |
| HandlerEffects.MaskIsWanted | runtime/bin/eventhandler_linux.cc:33-44 | the mask of a descriptor is what its ports with tokens want, taken together |
| HandlerEffects.ChangeBecomes | runtime/bin/eventhandler_linux.cc:52-70 | telling the kernel changes no other descriptor and posts nothing, unless the kernel refuses a new mask: then every port is posted the close event and pays a token |
| HandlerEffects.SetMaskMessage | runtime/bin/eventhandler_linux.cc:268-275 | the port wants just the directions of the message from then on; nothing else about the ports changes |
| HandlerEffects.ReturnTokensMessage | runtime/bin/eventhandler_linux.cc:263-267 | the port has just so many tokens more |
| HandlerEffects.CloseMessage | runtime/bin/eventhandler_linux.cc:222-262 | the port is gone and told so; its descriptor goes with it if it was not shared or this was the last socket |
| HandlerEffects.ShutdownMessage | runtime/bin/eventhandler_linux.cc:212-221 | nothing but the descriptor is looked up or made |
| HandlerEffects.OtherMessage | runtime/bin/eventhandler_linux.cc:200-211 | messages to closed sockets and to the timer change no descriptor; shutdown ends the handler |
| HandlerEffects.ErrorEffect | runtime/bin/eventhandler_linux.cc:369-371 | an error with input is posted to every port, each of which pays a token; without input it is dropped |
| HandlerEffects.TurnEffect | runtime/bin/eventhandler_linux.cc:372-377 | input, output and hang-up are posted, with their bits, to the next port alone, which pays a token |
| HandlerEffects.EndsWhenTold | runtime/bin/eventhandler_linux.cc:203-205 | after every run the handler is to end exactly if one of the messages it has handled said so |
| HandlerEffects.KernelWatchesWhatIsAsked | runtime/bin/eventhandler_linux.cc:194-281 | after every run each port of a live descriptor wants what its own latest message asked for, and the kernel watches a registered descriptor for just what its ports with tokens want |
| EventHandler.EventHandlerImplementation.GetPollEvents | runtime/bin/eventhandler_linux.cc:33-44 | the interest to register for the current mask |
| EventHandler.EventHandlerImplementation.RemoveFromEpollInstance | runtime/bin/eventhandler_linux.cc:48-50 | refines unregistering |
| EventHandler.EventHandlerImplementation.AddToEpollInstance | runtime/bin/eventhandler_linux.cc:52-70 | refines registering; a refused ADD notifies every port |
| EventHandler.EventHandlerImplementation.UpdateEpollInstance | runtime/bin/eventhandler_linux.cc:137-149 | refines the update of the registration |
| EventHandler.EventHandlerImplementation.LookUp | runtime/bin/eventhandler_linux.cc:151-171 | finds the descriptor or makes a new one, single or shared |
| EventHandler.EventHandlerImplementation.CloseSocket | runtime/bin/eventhandler_linux.cc:222-262 | refines the close command |
| EventHandler.EventHandlerImplementation.ReturnTokensCommand | runtime/bin/eventhandler_linux.cc:263-267 | refines the return-token command |
| EventHandler.EventHandlerImplementation.SetEventMaskCommand | runtime/bin/eventhandler_linux.cc:268-275 | refines the set-mask command |
| EventHandler.EventHandlerImplementation.HandleMessage | runtime/bin/eventhandler_linux.cc:194-281 | one interrupt message refines the protocol step |
| EventHandler.EventHandlerImplementation.HandleInterruptFd | runtime/bin/eventhandler_linux.cc:194-281 | a whole buffer of messages refines the protocol |
| EventHandler.EventHandlerImplementation.HandleEvent | runtime/bin/eventhandler_linux.cc:355-378 | one event refines the protocol step |
| EventHandler.EventHandlerImplementation.HandleEvents | runtime/bin/eventhandler_linux.cc:349-385 | one wake-up: events are dispatched in order, that there are messages is noted, and the messages are handled after the last event |
| FileTree.ResolveChild | runtime/bin/directory_linux.cc:108-124 | a path extended by a separator and a name leads where the entry of that name leads |
| ListingSpec.EnterDecreases | runtime/bin/directory_linux.cc:161-192 | the lexicographic measure: entering through a link uses up an unseen link, entering a real directory lowers the height |
| ListingFacts.ListedIffFound | runtime/bin/directory_linux.cc:83-222 | the reference listing holds exactly the items of the entries that a chain of names leads to through entered directories, said by the kinds of the entries: files and followed links to files as files, links not followed, broken or seen as links, what is entered as directories, and an error where a status, an open or a read fails |
| ListingFacts.ListDirIff | runtime/bin/directory_linux.cc:83-222 | the same for the path a listing starts from, with one error if it cannot be opened |
| ListingFacts.EnterIff | runtime/bin/directory_linux.cc:129-197 | the traversal enters exactly the directories that are not "." or "..", and the directories behind links followed for the first time on the way |
| ListingFacts.EntriesInOrder | runtime/bin/directory.cc:584-624 | everything about an entry and inside it comes before everything about a later entry of its directory |
| ListingFacts.DirectoryFirst | runtime/bin/directory.cc:584-614 | a directory comes before everything inside it |
| ListingFacts.ErrorLast | runtime/bin/directory_linux.cc:215-221 | the error of a directory whose reading fails comes at its end |
| ListingFacts.PathAtIsJoin | runtime/bin/directory_linux.cc:115-127 | each path is that of the listed directory and the names joined by separators |
| ListingFacts.Sound | runtime/bin/directory_linux.cc:122-214 | every listed item is found by names |
| ListingFacts.Complete | runtime/bin/directory_linux.cc:122-214 | whatever names find is listed |
| ListingFacts.EntriesNoDuplicates | runtime/bin/directory_linux.cc:122-214 | no item is listed twice |
| ListingMachine.ReadNextSplits | runtime/bin/directory_linux.cc:115-222 | reading the next entry splits what is left of a directory into the item reported and the rest |
| ListingMachine.NextSplits | runtime/bin/directory_linux.cc:83-222 | the same for an entry that may not be opened yet or be done |
| ListingMachine.ListStepConserves | runtime/bin/directory.cc:584-614 | a step moves items from what remains to what is reported: nothing is lost, repeated or reordered; the links followed on the way to every open directory stay pairwise distinct |
| ListingMachine.ListStepProgresses | runtime/bin/directory.cc:584-614 | a step reports an item or pops an entry, and reports Done exactly when the stack becomes empty |
| ListingMachine.StartRemaining | runtime/bin/directory.h:93-106 | what remains at the start is the recursive listing followed by Done |
| ListingPaths.ListStepSound | runtime/bin/directory.cc:584-614 | paths on the stack stay nested in each other and short enough |
| ListingPaths.StartSound | runtime/bin/directory.h:93-106 | and are so at the start |
| PathBuffer.PathBuffer.Add | runtime/bin/directory_linux.cc:56-68 | appends; fails exactly if the sum exceeds PATH_MAX; keeps all characters exactly if the sum is below PATH_MAX; never touches what was there |
| PathBuffer.PathBuffer.Reset | runtime/bin/directory_linux.cc:70-73 | cuts back to a prefix |
| PathBuffer.PathBuffer.AsString | runtime/bin/directory_linux.cc:43-45 | the C string in the buffer |
| DirectoryListing.DirectoryListing.constructor | runtime/bin/directory.h:93-106 | starts with one entry for the directory; in error exactly if the name exceeds PATH_MAX |
| DirectoryListing.EntryAllocated | runtime/bin/directory_linux.cc:232-240 | every entry on the stack, not only the top, points to link nodes that are allocated |
| DirectoryListing.OneOwner | runtime/bin/directory_linux.cc:233-236 | every allocated link node has exactly one owner by the test of the source, and that is the shallowest entry that points to it |
| DirectoryListing.DirectoryListing.LinkOwnership | runtime/bin/directory_linux.cc:224-240 | both of these for every state of a listing |
| DirectoryListing.DirectoryListing.Follow | runtime/bin/directory_linux.cc:183-186 | following a link allocates one node, which the top entry owns |
| DirectoryListing.DirectoryListing.ResetLink | runtime/bin/directory_linux.cc:232-240 | frees exactly the node that the entry owns, if it owns one, and goes back to its parent's links |
| DirectoryListing.DirectoryListing.Pop | runtime/bin/directory.h:118-123 | destroys the top entry and frees exactly the link node that it owns, if it owns one |
| DirectoryListing.DirectoryListing.PopAll | runtime/bin/directory.h:127-131 | abandoning a listing at any step frees every link node |
| DirectoryListing.DirectoryListing.IsSeen | runtime/bin/directory_linux.cc:163-172 | whether a link has been followed on the way; only allocated nodes are looked at |
| DirectoryListing.DirectoryListing.DecideLink | runtime/bin/directory_linux.cc:161-193 | a link that is followed: seen before, broken, to a directory, to a file |
| DirectoryListing.DirectoryListing.Decide | runtime/bin/directory_linux.cc:128-207 | the switch over the kind of an entry refines the classification, whether or not the kind was told, and with the error of a failing status |
| DirectoryListing.DirectoryListing.OpenEntry | runtime/bin/directory_linux.cc:88-114 | opening a directory: the error case keeps the path, success leaves the buffer at the directory's prefix |
| DirectoryListing.DirectoryListing.ReadEntry | runtime/bin/directory_linux.cc:115-222 | the recursion over entries that are skipped, to an item, the end, or a failing read |
| DirectoryListing.DirectoryListing.OpenAndRead | runtime/bin/directory_linux.cc:88-222 | the first entry of a directory that has to be opened |
| DirectoryListing.DirectoryListing.NextEntry | runtime/bin/directory_linux.cc:83-222 | refines the answer of the top entry, and the buffer shows the path of the item |
| DirectoryListing.DirectoryListing.Push | runtime/bin/directory.h:116-116 | a new entry on the stack shares its parent's links |
| DirectoryListing.DirectoryListing.Step | runtime/bin/directory.cc:584-614 | one step refines the step of the value model |
| AsyncListing.EncodeInjective | runtime/bin/directory.cc:447-493 | a response determines the items |
| AsyncListing.ReadEncode | sdk/lib/io/directory_impl.dart:288-397 | the Dart side, by its own numbers, reads from the responses the items that were reported |
| AsyncListing.AsyncDirectoryListing.SetArray | runtime/bin/directory.h:183-188 | an empty response of even length |
| AsyncListing.AsyncDirectoryListing.AddToResponse | runtime/bin/directory.cc:447-493 | two slots for an item, inside the array; true exactly while there is room for another item |
| AsyncListing.AsyncDirectoryListing.Report | runtime/bin/directory.cc:584-614 | which handler a step calls and whether to go on |
| AsyncListing.AsyncDirectoryListing.ListNext | runtime/bin/directory.cc:584-614 | one step into the response |
| AsyncListing.AsyncDirectoryListing.ListSteps | runtime/bin/directory.cc:616-624 | steps until the response is full or the listing is done |
| AsyncListing.AsyncDirectoryListing.ListNextRequest | runtime/bin/directory.cc:388-407 | one request takes the next items of the listing, as many as fit, and none is lost between requests |
| AsyncListing.AsyncDirectoryListing.ListStopRequest | runtime/bin/directory.cc:409-426 | nothing is left to report, no link node stays allocated, and the listing is still a valid one, now at its end |
| AsyncListing.AsyncDirectoryListing.ListRemaining | runtime/bin/directory.cc:388-407 | requests of any even sizes of at least two together report exactly what remained |
| AsyncListing.ListStartRequest | runtime/bin/directory.cc:356-386 | an error exactly if the name does not fit the buffer; otherwise a new listing, ready for requests if its paths fit |
| AsyncListing.ListDirectoryAsync | runtime/bin/directory.cc:356-407 | the responses together are the recursive listing followed by one Done, and are read as that by the Dart side |
| PathWalk.WalkMonotone | runtime/bin/directory_linux.cc:256-368 | deleting can only make a path fail; it never makes it lead elsewhere |
| PathWalk.WalkThen | runtime/bin/directory_linux.cc:266-283 | a path to a directory can be continued from there |
| PathWalk.EntryIsLookup | runtime/bin/directory_linux.cc:256-264 | what unlink or rmdir would remove is what lstat sees |
| PathWalk.LeafIsEntry | runtime/bin/directory_linux.cc:259-264 | what lstat sees, if no directory, is what unlink would remove |
| DeletionSpec.ChildOutcome | runtime/bin/directory_linux.cc:307-358 | deleting an entry changes nothing outside its directory |
| DeletionSpec.RmdirOutcome | runtime/bin/directory_linux.cc:295-306 | removing the emptied directory completes the deletion of exactly its tree |
| DeletionSpec.StillReached | runtime/bin/directory_linux.cc:287-368 | while a directory is being emptied, a path that leads to it in the end keeps leading to it |
| DeletionSpec.RemovableStaysReached | runtime/bin/directory_linux.cc:287-306 | what can be removed by a path can be reached by it until then |
| DeletionSpec.AllGone | runtime/bin/directory_linux.cc:287-298 | when nothing is left in it, the directory has been emptied and nothing else has changed |
| DeletionSpec.PathOfIsRemovable | runtime/bin/directory_linux.cc:474-491 | everything can be removed by its absolute path, if that is short enough |
| DeletionSpec.DotIsNotRemovable | runtime/bin/directory_linux.cc:295-306 | no directory can be removed by a path that ends in ".", although such a path leads to it until it is empty |
| DeletionSpec.CutNameHitsAnother | runtime/bin/directory_linux.cc:56-68 | a name of PATH_MAX characters that spells one file and is cut to the name of another |
| DirectoryDelete.DeleteFile | runtime/bin/directory_linux.cc:244-247 | unlinks the entry behind the prefix; a cut name never deletes a directory |
| DirectoryDelete.DeleteDir | runtime/bin/directory_linux.cc:249-254 | "." and ".." are left alone; else the tree is deleted |
| DirectoryDelete.DeleteRecursively | runtime/bin/directory_linux.cc:256-368 | changes only the tree that the path names; success means the file system is the old one without exactly that tree; on a reliable file system, if all paths fit and the path stays valid, everything below goes, and the directory too exactly if the path can remove it |
| DirectoryDelete.IsDirectory | runtime/bin/directory_linux.cc:329-343 | the kind of an entry that reading the directory did not tell |
| DirectoryDelete.DeleteEntry | runtime/bin/directory_linux.cc:307-358 | the switch over the kind of an entry |
| DirectoryDelete.DeleteEntries | runtime/bin/directory_linux.cc:285-368 | the loop: the buffer is back at the directory's prefix at every loop head |
| DirectoryDelete.DeleteEmptied | runtime/bin/directory_linux.cc:295-306 | closes and removes the directory |
| DirectoryDelete.DeleteTree | runtime/bin/directory_linux.cc:485-490 | a name of exactly PATH_MAX characters deletes what the name without its last character names, if that is no directory |
| DirectoryDelete.DeleteOne | runtime/bin/directory_linux.cc:478-484 | without recursion: an empty directory or a link to a directory, if and only if the file system is reliable about it |
| DirectoryDelete.Delete | runtime/bin/directory_linux.cc:474-491 | without recursion: on a reliable file system it succeeds exactly for an empty directory or a link to a directory, and removes just that; with recursion, where kinds are told: it succeeds exactly if the path can remove what it names and every path below it fits; a directory whose path only stays valid is emptied; in every case the outcome is that of the named tree |
| LexicalPath.CleanIdempotent | runtime/bin/file.h:290-294 | cleaning twice is cleaning once |
| LexicalPath.CleanShape | runtime/bin/file.h:290-294 | normal form: no empty or "." element, ".." only as a leading run of an unrooted path |
| LexicalPath.CleanPreservesResolution | runtime/bin/file.h:290-294 | the cleaned path resolves to the same place from every working directory |
| LexicalPath.CleanIsCanonical | runtime/bin/file.h:290-294 | two paths have the same cleaned form if and only if they resolve alike from every working directory |
| LexicalPath.SplitJoin | runtime/bin/file.h:290-294 | splitting undoes joining |
| CleanUnixPath.ScanBack | runtime/bin/file.cc:818-824 | undoing an element by scanning the output backwards finds the end of the stack below |
| CleanUnixPath.WriteDotDot | runtime/bin/file.cc:830-835 | appends "..", behind a separator unless it is the first element |
| CleanUnixPath.Ascend | runtime/bin/file.cc:814-837 | ".." removes the last element, is kept, or is dropped, by the limit |
| CleanUnixPath.Append | runtime/bin/file.cc:838-848 | an ordinary element goes behind a separator |
| CleanUnixPath.CleanElements | runtime/bin/file.cc:805-849 | the loop over elements; the output index never passes the input index |
| CleanUnixPath.CleanPath | runtime/bin/file.cc:779-859 | -1 exactly if the input does not fit; else the output is the reference normal form, NUL-terminated, with all writes inside the buffer |
| PageRounding.AndMask | runtime/bin/elf_loader.cc:386-386 | masking with the complement of a power of two takes off the remainder |
| PageRounding.PowerOfTwoIff | runtime/bin/elf_loader.cc:383-384 | the bit test accepts exactly the powers of two |
| PageRounding.RoundUpIsNext | runtime/bin/elf_loader.cc:386-386 | rounding up gives the next page boundary, if the sum does not wrap around |
| ElfLoader.ReservationCovers | runtime/bin/elf_loader.cc:371-391 | the reservation covers every segment if and only if none ends within the last page of the address space or beyond |
| ElfLoader.WrappingSegment | runtime/bin/elf_loader.cc:378-391 | a segment at the end of the address space for which nothing is reserved |
| ElfLoader.MappingInside | runtime/bin/elf_loader.cc:393-449 | every page of every mapping lies inside the reservation |
| ElfLoader.SegmentBytes | runtime/bin/elf_loader.cc:393-449 | byte k of a segment in memory is byte file_offset + k of the object, or zero past the end of the source |
| ElfLoader.GapsAreZero | runtime/bin/elf_loader.cc:388-391 | memory of no segment is zero |
| ElfLoader.TailIsZero | runtime/bin/elf_loader.cc:405-410 | the part past the file size is zero if and only if the source has zeros there or has ended |
| ElfLoader.TailNotZero | runtime/bin/elf_loader.cc:405-410 | a segment with nothing in the file whose byte in memory is not zero |
| ElfLoader.MemoryMappable.MapAt | runtime/bin/elf_loader.cc:82-128 | copies the piece, zeros past the end of the source, fails exactly if the position is past the end |
| ElfLoader.MemoryMappable.Map | runtime/bin/elf_loader.cc:82-128 | the same into new memory of whole pages |
| ElfLoader.LoadedElf.TotalMemory | runtime/bin/elf_loader.cc:371-386 | the size to reserve, or an alignment that is no power of two |
| ElfLoader.LoadedElf.LoadSegment | runtime/bin/elf_loader.cc:393-449 | one segment, with the error each check gives |
| ElfLoader.LoadedElf.LoadSegments | runtime/bin/elf_loader.cc:371-452 | the image is that of mapping all segments in order; each error in its order |
| ElfLoader.LoadedElf.Load | runtime/bin/elf_loader.cc:263-285 | succeeds exactly if the offset is aligned and in the source, memory is found, and every segment has a power of two as alignment, congruent offsets, flags R, RW or RX and a place in the source; then every byte of every segment that shares no page with another is in its place, and memory outside the segments is zero |
| ElfLoader.LoadedElf.ErrorTells | runtime/bin/elf_loader.cc:393-446 | the error names what is wrong with the first segment that cannot be loaded |
| ElfLoader.MapTypeIff | runtime/bin/elf_loader.cc:412-421 | exactly the flags 4, 5 and 6 are accepted, as read-only, executable and writable |
| ElfLoader.LoadedElf.MapFilePiece | runtime/bin/elf_loader.cc:511-528 | maps whole pages at an aligned place that contain the piece; for an aligned object the bytes from the returned address on are the piece |
| ElfLoader.PieceStart | runtime/bin/elf_loader.cc:522-525 | the address returned is that of the first byte if and only if the object is page-aligned |
| UriDecoder.DecodeIffEncoding | runtime/bin/file.cc:1527-1560 | decoding yields exactly the bytes of which the text is an encoding |
| UriDecoder.RoundTrip | runtime/bin/file.cc:1527-1560 | decoding undoes encoding, for any choice of escaped bytes and either case of each hex digit |
| UriDecoder.HexValueIff | runtime/bin/file.cc:1572-1582 | exactly the characters 0-9, A-F and a-f are digits, each with its value |
| UriDecoder.HexPairIff | runtime/bin/file.cc:1568-1586 | two characters make a byte exactly if they are the digits of its halves |
| UriDecoder.DecodeFailsIff | runtime/bin/file.cc:1550-1554 | decoding fails if and only if some "%" is not followed by two characters out of 0-9, A-F and a-f |
| UriDecoder.HexCharPairToByte | runtime/bin/file.cc:1568-1586 | the value of two hex digits; the second is read only if the first is one |
| UriDecoder.FindPercent | runtime/bin/file.cc:1528-1531 | the first "%" or the terminator |
| UriDecoder.DecodeRest | runtime/bin/file.cc:1546-1559 | the loop writes the decoded bytes and never reads past the terminator |
| UriDecoder.DecodeUri | runtime/bin/file.cc:1527-1560 | the URI itself if there is no "%", null exactly if an escape is malformed, else a new terminated buffer with the decoded bytes |
| AcceptQueue.EveryRun | runtime/bin/eventhandler_win.cc:456-592 | in every run each client is in exactly one place, at most five accepts are outstanding, and the clients handed out and queued are just those whose accepts completed well, in that order, until the socket closes |
| AcceptQueue.ExactlyOnePlace | runtime/bin/eventhandler_win.cc:490-522 | a client is exactly one of outstanding, queued, handed out and closed |
| AcceptQueue.ClosedForEver | runtime/bin/eventhandler_win.cc:536-560 | after closing, the queue is empty for ever and nothing more is handed out |
| AcceptQueue.DeadForEver | runtime/bin/eventhandler_win.cc:524-534 | once closed with nothing outstanding, nothing can happen that changes the socket |
| AcceptQueue.Drains | runtime/bin/eventhandler_win.cc:606-608 | completing what is outstanding ends the life of a closed socket |
| AcceptQueue.StarvesIff | runtime/bin/eventhandler_win.cc:514-520 | exactly which step leaves an open socket with nothing outstanding and nothing queued |
| AcceptQueue.StarvedSleeps | runtime/bin/eventhandler_win.cc:582-589 | nothing happens to such a socket unless an accept or a close comes from outside |
| AcceptQueue.StarvedByFailures | runtime/bin/eventhandler_win.cc:582-589 | only failures can leave an open socket with nothing outstanding and nothing queued |
| AcceptQueue.FiveFailuresStarve | runtime/bin/eventhandler_win.cc:514-520 | and five failed completions do, in a run that has filled the pool before |
| AcceptQueue.FillPool | runtime/bin/eventhandler_win.cc:456-488 | a run that issues all five accepts |
| ListenSocket.ListenSocket.IssueAccept | runtime/bin/eventhandler_win.cc:456-488 | counts an accept unless it was refused; where a run could do so, the invariant of all runs is kept |
| ListenSocket.ListenSocket.AcceptComplete | runtime/bin/eventhandler_win.cc:490-522 | appends the client to the linked queue, or closes it; the invariant of all runs is kept |
| ListenSocket.ListenSocket.CanAccept | runtime/bin/eventhandler_win.cc:562-565 | whether the queue is non-empty |
| ListenSocket.ListenSocket.Accept | runtime/bin/eventhandler_win.cc:567-592 | takes the first client off the queue and refills the pool while the socket is open; where a run could do so, the invariant of all runs is kept |
| ListenSocket.ListenSocket.DoClose | runtime/bin/eventhandler_win.cc:536-560 | closes every client in the queue and unlinks it |
| ListenSocket.ListenSocket.Close | runtime/bin/eventhandler_win.cc:135-158 | takes effect once; the invariant of all runs is kept |
| ListenSocket.ListenSocket.DeleteIfClosed | runtime/bin/eventhandler_win.cc:524-534 | the assertions of the destructor hold whenever the last reference is dropped |

## Left out

- The Android, macOS, Fuchsia and Windows copies of the listing and the event handlers, and the rest of the Windows event handler.
- Timers, signals, the `shutdown` system call behind the two shutdown messages, threads, reference counts, the hash map's own code, and the registry of listening sockets.
- Synchronous listing, and the listing of a name that does not fit the buffer: the asynchronous requests never reach that branch, because the start request has reported it.
- ListDirectoryAsync: paths of `PATH_MAX` characters or more are not covered, because from there on the buffer holds cut paths and a failed separator leaves the entry's path length unset; nor are names without a trailing separator, for which the reported paths would lack it.
- OpenEntry: for the same reason the path and its separator must be shorter than `PATH_MAX`.
- ReadEntry: for the same reason the path of the entry must be shorter than `PATH_MAX`.
- OpenAndRead: for the same reason.
- NextEntry: for the same reason the paths of the directory must be shorter than `PATH_MAX`.
- The argument checks of the requests, the other directory requests, and file operations.
- ELF headers, section lookup, symbols, the Fuchsia branch, and memory protection.
- CleanPath: an output buffer of fewer than two bytes is not covered; the source writes a separator and a terminator for a rooted path before it could notice.
- LoadSegments: needs segments that do not wrap around (`NeverWraps`); without that the source writes outside its reservation.
- Load: needs the same.
- MapFilePiece: says what is in the mapping only if no sum wraps around.
- DeleteRecursively: hard links, mount points and changes by others during the deletion are not modelled; a failing system call may fail at any time and then changes nothing.
- DeleteRecursively: where kinds are not told, success is promised only if there is also room for ".." behind each directory.
- HandleEvents: a hang-up on a listening socket, which the source asserts away, is not modelled.
