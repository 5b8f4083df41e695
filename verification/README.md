# A model of the BT/OS core, with proofs

BT/OS is a hobby operating system. This project models the parts of it whose correctness is
hardest to see by reading: the kernel heap, message passing and the remote procedure calls
built on it, the kernel lock, device enumeration, three containers, number and text
formatting, and the boot archive. Each part is written in the form the source has. What the
source changes in place is a class or an array with loops and invariants; what it computes is
a function. Each method is proved against a specification function or a stated property, and
the theorems are about those.

| files | what they hold |
|---|---|
| `Machine` | optional values, octets and word sizes, shared by all |
| `LinkedList`, `HeapLayout`, `HeapSearch`, `HeapMemory`, `HeapRep`, `HeapCells`, `Allocator`, `HeapRealloc`, `HeapRuns` | liballoc: `HeapLayout` and `HeapSearch` treat a heap as a list of blocks of cells, `HeapRep` says when headers in memory represent one, class `Allocator.Heap` is the code on those headers |
| `MessageQueue`, `MessageEffects`, `Messaging`, `MessageMeaning`, `MessageManager` | the message manager as a value, what its loops come to, a state machine over all interleavings, what its tests and operations mean field by field, and the class |
| `Serialization`, `RpcLocal`, `RpcSafety`, `RpcProgress`, `Rpc`, `RpcReturns`, `RpcCode` | remote procedure calls: one client's machine, the whole system, that its calls return, and the code |
| `Locks`, `LockCalls` | the lock at the grain of its atomic steps, with threads that are interrupted and switched inside its calls; and what each call comes to |
| `Pnp`, `PnpManager` | device enumeration |
| `Lru`, `LruCache`, `Ring`, `OperationQueue` | the LRU cache, the circular buffer, the blocking queue |
| `Digits`, `Printf`, `FormatMeaning`, `Snprintf`, `Asprintf` | number formatting, tfp_format, what its text says, tfp_vsnprintf, and the allocating forms on the modelled heap |
| `Tar` | the boot archive and reading its files |

`dafny verify dfyconfig.toml` checks everything.

## What the proofs found

Some things one would like to hold do not. Each is stated as it is, with the exact condition
under which it does hold.

- A server that receives through `MessageLoop::RunLoop` uses the filter that skips replies, and
  a Continue message is a reply. Behind it, when no more steps can be taken, a call has returned
  exactly if its serialized result fits one message of 4096 bytes (`RpcReturns.ReturnsIffFits`),
  and for every longer result, such as a string of 4093 characters, there is a run of the system
  that ends with its caller waiting (`RpcReturns.LongResultHangs`, `LongStringHangs`). Without the filter every call returns
  (`RpcReturns.EveryCallReturns`).
- The source field that numbers request chunks has 16 bits. Only the last chunk carries 0
  exactly if the number of the first is below 65536 (`RpcLocal.SourceMarksLast`).
- `ClearMessages` resets its loop flag before testing it, so it removes one message and one
  subscription. No message to or from the process is left exactly if there was at most one and
  clearing it does not queue a receipt to the process itself (`MessageEffects.ClearsAllIff`,
  `ClearLeavesOne`, `ClearEchoes`); no subscription exactly if there was at most one
  (`UnsubscribesAllIff`).
- `tfp_vsnprintf` stays inside its destination exactly if there is a destination and a size, or
  neither, or a size of zero and nothing to print (`Snprintf.WritesInside`).
- `tfp_format` does not initialise the number base and letter case of its parameter structure. A
  format means the same whatever they held exactly if no `%s` with the `#` flag comes before
  the first numeric conversion (`Printf.GuardedIsSafe`, `UnguardedVaries`). The allocating
  forms, which format twice, rely on this.
- `a2u` takes digits up to and including the base, so a decimal number followed by `a` or `A`
  does not read back (`Digits.ReadsBack`, `ReadsOn`).
- The tar walk moves to a higher address exactly if the header and the padded size, taken modulo
  2^32, end inside the 32-bit address space. A size field of octal 37777777000 holds it at its
  header for good, and one above that pads to zero, so that the walk skips the header alone
  (`Tar.StepsForward`, `WalkCanLoop`).
- `putchw` pads to the width exactly if the width fits a signed integer or the text reaches it
  anyway (`Digits.WidthExact`).

## Model

| member | source | states |
|---|---|---|
| HeapLayout.UserRegionInsideCell | src/kernel/liballoc.c:31-55 | the user pointer is 16-aligned, lies with its request inside the minor, and its stored offset leads back to the header |
| HeapLayout.GapsSumToSpare | src/kernel/liballoc.c:340-350 | in every block the front, inner and tail gaps sum to size minus usage |
| HeapLayout.RoomNeedsSpare | src/kernel/liballoc.c:353-386 | a block with a gap for the request has that much spare, so pruning on the total loses nothing |
| HeapLayout.CellsApart | src/kernel/liballoc.c:388-551 | any two live minors of a heap are disjoint |
| HeapLayout.UserPtrInjective | src/kernel/liballoc.c:31-55 | different live minors have different user pointers |
| HeapSearch.PlacementComplete | src/kernel/liballoc.c:340-580 | the search, from any start and with its restart, comes up empty exactly if no gap anywhere holds the request |
| HeapSearch.MallocLayoutOk | src/kernel/liballoc.c:253-596 | malloc keeps the layout invariant and leaves no empty major |
| HeapSearch.FreeLayoutOk | src/kernel/liballoc.c:686-723 | free keeps both |
| HeapSearch.FreeUndoesMalloc | src/kernel/liballoc.c:686-723 | freeing what malloc placed gives back the very same layout, new block or not |
| HeapSearch.ScannedIs | src/kernel/liballoc.c:342-350 | a scan leaves the best bet at a block with the most free bytes of those it looked at and where it was |
| HeapSearch.HintIsLargest | src/kernel/liballoc.c:325-580 | after a search that found no gap no block has more free bytes than the best bet |
| HeapSearch.MallocTotals | src/kernel/liballoc.c:197-247 | malloc adds the padded request to the bytes in use and a new block's pages to the bytes acquired |
| HeapSearch.FreeTotals | src/kernel/liballoc.c:686-712 | free takes its minor off the one and an emptied block off the other |
| HeapSearch.FreeHintIs | src/kernel/liballoc.c:713-723 | after free the best bet has at least the free bytes of the block freed into, if no block has 2 GiB of them |
| LinkedList.InsertHolds | src/kernel/liballoc.c:506-545 | the pointer writes that link a node in keep the doubly linked list, with the node at its place |
| LinkedList.RemoveHolds | src/kernel/liballoc.c:702-725 | those that unlink a node keep it, without the node |
| HeapRep.PlaceRepresents | src/kernel/liballoc.c:478-502 | linking a minor into a gap, with usage and total updated, makes the headers represent the layout with the gap filled |
| HeapRep.PruneSound | src/kernel/liballoc.c:353-386 | a major skipped for its usage field has no room |
| Allocator.Heap.PlaceFirst | src/kernel/liballoc.c:388-420 | case 2, the empty block: new cell, undo byte, usage and total |
| Allocator.Heap.PlaceFront | src/kernel/liballoc.c:422-456 | case 3, the gap before the first minor |
| Allocator.Heap.PlaceTail | src/kernel/liballoc.c:467-502 | case 4.1, the gap after the last minor |
| Allocator.Heap.PlaceBetween | src/kernel/liballoc.c:506-545 | case 4.2, a gap between two minors |
| Allocator.Heap.Visit | src/kernel/liballoc.c:342-551 | one major: room is found exactly if there is some, at its first gap, and the best bet goes to it exactly if it has more free bytes |
| Allocator.Heap.Search | src/kernel/liballoc.c:325-580 | the loop over majors with its one restart ends, finds what the specification's search finds, and leaves the best bet where that search does |
| Allocator.Heap.NewMajor | src/kernel/liballoc.c:197-247 | a region from the hook becomes an empty last major, with its page count on the books |
| Allocator.Heap.Malloc | src/kernel/liballoc.c:253-596 | the hook is asked exactly if no gap holds the request, null is returned exactly if it was asked and had nothing, success adds one live cell and writes one byte; every header stays consistent; both totals and the best bet are as specified |
| Allocator.Heap.UnlinkMinor | src/kernel/liballoc.c:686-725 | the minor leaves its list, usage and the total go down |
| Allocator.Heap.DropMajor | src/kernel/liballoc.c:693-712 | an empty major leaves the list and its region goes back to the hook with its page count |
| Allocator.Heap.Free | src/kernel/liballoc.c:606-732 | exactly the freed cell disappears, a major that empties is given back, user bytes are untouched; both totals and the best bet are as specified |
| HeapRealloc.Memcpy | src/kernel/liballoc.c:127-150 | the word-then-byte copy is a plain byte copy |
| HeapRealloc.MallocThenFree | src/kernel/liballoc.c:606-732 | free of malloc restores layout, list root, both totals and the mapped regions, and touches no live byte |
| HeapRealloc.ShrinkInPlace | src/kernel/liballoc.c:817-828 | a smaller request keeps pointer and contents and changes nothing else; the layout differs in that request only |
| HeapRealloc.GrowByCopy | src/kernel/liballoc.c:836-846 | a larger one moves: old contents are the front of the new region, all other regions keep their bytes; the layout is that of a malloc and a free |
| HeapRealloc.Realloc | src/kernel/liballoc.c:754-846 | all cases: size zero frees, null allocates, otherwise the common front of the contents survives and nobody else's bytes change |
| HeapRuns.RunOk | src/kernel/liballoc.c:253-846 | at every point of every run of calls the layout invariant holds and no major is empty |
| HeapRuns.ReallocIsSteps | src/kernel/liballoc.c:754-846 | every layout realloc leaves is reached by steps of such a run: a free, a shrink, or a malloc and a free |
| HeapRuns.RegionsNeverOverlap | src/kernel/liballoc.c:253-846 | at every point of every run each live region is aligned, inside its minor, and shares no byte with another |
| MessageManager.Manager.TryAppend | src/kernel/messaging.cpp:131-165 | a message is queued exactly if no message of the same pair blocks it |
| MessageManager.Manager.Check | src/kernel/messaging.cpp:201-228 | the checks before a send: receiver alive, and for a reply the message it answers is queued with to and from mirrored |
| MessageMeaning.AcceptsIff | src/kernel/messaging.cpp:206-222 | they pass exactly if the receiver exists, or is 0, and a reply answers a queued message that went the other way |
| MessageMeaning.WaitsIff | src/kernel/messaging.cpp:131-150 | a send waits exactly if it is no reply and its process has another such message queued to the same receiver |
| MessageMeaning.PairsApart | src/kernel/messaging.cpp:131-165 | at every point of every run two queued messages have different ids, and two that are no replies of processes have another sender or another receiver |
| MessageManager.Manager.SendMessageReceipts | src/kernel/messaging.cpp:179-198 | one receipt per receipt subscription of the sender is numbered and queued, in subscription order |
| MessageEffects.ReceiptsAre | src/kernel/messaging.cpp:179-198 | their number is that of the sender's receipt subscriptions if it lives, their ids follow the counter, and else nothing is queued |
| MessageManager.Manager.SendKernelEvent | src/kernel/messaging.cpp:455-472 | one message per subscription to the kind is numbered and queued, in subscription order |
| MessageEffects.EventsAre | src/kernel/messaging.cpp:455-472 | the loop over the subscribers sends exactly those messages |
| MessageMeaning.EventFields | src/kernel/messaging.cpp:455-472 | every message an event queues goes to a living subscriber of its kind, with these fields and the next ids |
| MessageEffects.SentIs | src/kernel/messaging.cpp:131-165 | what is queued is those to living processes, in order, with ids from the counter on |
| MessageManager.Manager.ReceiveMessage | src/kernel/messaging.cpp:240-282 | which message is received and made current |
| MessageMeaning.OneTest | src/kernel/messaging.cpp:420-432 | each test of a filter alone passes exactly the messages with that field, and the critical ones |
| MessageMeaning.AllTests | src/kernel/messaging.cpp:420-432 | several pass what each alone passes; inversion is the complement; critical messages always pass |
| MessageMeaning.ReceiveIs | src/kernel/messaging.cpp:240-282 | a receive returns the current message if it is queued and passes, else the first one addressed to the process that does, and makes it current |
| MessageMeaning.ReceiveNone | src/kernel/messaging.cpp:240-282 | and nothing if there is none |
| MessageManager.Manager.AcknowledgeMessage | src/kernel/messaging.cpp:353-362 | the message goes and then the receipts are sent, if it was queued |
| MessageMeaning.AcknowledgeIs | src/kernel/messaging.cpp:179-198 | the message goes, and a receipt comes for each receipt subscription of the sender its header names, if that lives, field by field and with the next ids |
| MessageMeaning.AcknowledgeNothing | src/kernel/messaging.cpp:353-357 | if it is not queued nothing changes |
| MessageMeaning.AcknowledgeIsTwoSteps | src/kernel/messaging.cpp:353-362 | undisturbed it is the removal and then the receipts to the sender, as two steps of a run |
| MessageMeaning.OneReceipt | src/kernel/messaging.cpp:353-362 | in every reachable state it queues one receipt if the sender lives and is subscribed, and none otherwise |
| MessageManager.Manager.AddSubscription | src/kernel/messaging.cpp:434-441 | a subscription is added unless present |
| MessageManager.Manager.DropSubscription | src/kernel/messaging.cpp:443-453 | it is removed if present |
| MessageMeaning.SubscribeIs | src/kernel/messaging.cpp:434-441 | afterwards the process is subscribed, and who was stays so |
| MessageMeaning.UnsubscribeIs | src/kernel/messaging.cpp:443-453 | afterwards it is not, and all others are as before |
| MessageMeaning.SubscribeUndone | src/kernel/messaging.cpp:434-453 | to subscribe anew and unsubscribe is to do nothing |
| MessageMeaning.SubscribedOnce | src/kernel/messaging.cpp:434-453 | at every point of every run a process is subscribed to a kind at most once |
| MessageManager.Manager.ClearMessages | src/kernel/messaging.cpp:374-400 | the loops compute the specification's Clear |
| MessageEffects.ClearIs | src/kernel/messaging.cpp:374-400 | the first message of the process goes, receipts for it are queued if it was to the process, its first subscription goes, and nothing else changes |
| MessageEffects.ClearsAllIff | src/kernel/messaging.cpp:374-390 | when no message to or from the process is left |
| MessageEffects.UnsubscribesAllIff | src/kernel/messaging.cpp:391-400 | when no subscription of the process is left |
| MessageEffects.ClearLeavesOne | src/kernel/messaging.cpp:374-390 | of two messages to a process one stays |
| MessageEffects.ClearEchoes | src/kernel/messaging.cpp:374-390 | a message to oneself is replaced by its receipt |
| Messaging.StepKeepsInv | src/kernel/messaging.cpp:131-362 | each hold of the lock, of a send, a receive or an acknowledgement, keeps the invariant |
| Messaging.RunKeepsInv | src/kernel/messaging.cpp:107-165 | over all runs: no two queued non-replies of one sender to one receiver, ids distinct and never above the counter, blocked sends hold ids of their own |
| Messaging.ProcessedForever | src/kernel/messaging.cpp:416-418 | once processed, processed for the rest of every run |
| Messaging.WakesIffReceives | src/kernel/messaging.cpp:284-342 | the block predicate is true exactly if the receive would succeed |
| Messaging.ReceivedIsMine | src/kernel/messaging.cpp:240-282 | a received message is addressed to the receiver and passes its filter |
| Messaging.ReceiveIsStable | src/kernel/messaging.cpp:240-260 | an unfiltered receive keeps returning the same message, whatever others do, until it is removed or a filtered receive intervenes |
| Serialization.RoundTrip | src/include/util/rpc_serialization.hpp:8-59 | any nested value reads back from its bytes followed by anything, leaving exactly what followed |
| Serialization.RoundTripAll | src/include/util/rpc_serialization.hpp:29-83 | the same for argument packs |
| Serialization.PrefixFree | src/include/util/rpc_serialization.hpp:8-59 | a stream of one type splits in only one way |
| Serialization.WireFormat | src/include/util/rpc_serialization.hpp:8-25 | a fundamental is its bytes; a string or vector is a count of four octets, least significant first, and then its characters or items |
| Serialization.SerializeAllSnoc | src/include/util/rpc_serialization.hpp:8-33 | items follow one another in order |
| Serialization.WriteValue | src/include/util/rpc_serialization.hpp:8-25 | the writing loops append the value's bytes |
| Serialization.ReadValue | src/include/util/rpc_serialization.hpp:34-59 | the reading loops return the value and consume its bytes, or fail |
| RpcLocal.SourceMarksLast | src/include/util/rpc.hpp:30-42 | only the last chunk has source 0 exactly if the first is numbered below 65536 |
| RpcLocal.RequestFields | src/include/util/rpc.hpp:26-42 | a request is cut into pieces of 4096 bytes, numbered by how many follow; the fields of these and of a Continue |
| RpcLocal.ReplyFields | src/include/util/rpc.hpp:193-215 | a reply carries the next 4096 bytes of the result, or what is left, and its type says which |
| RpcSafety.PreviousChunkGone | src/kernel/messaging.cpp:131-165 | a chunk enters the queue only after the server has consumed the one before |
| RpcSafety.HandleLastKeeps | src/include/util/rpc.hpp:181-192 | the last chunk calls the procedure once, with exactly the arguments sent |
| RpcSafety.ActKeepsOk | src/include/util/rpc.hpp:26-85 | every step of client, kernel and server keeps one client's invariant |
| RpcProgress.ActCloser | src/include/util/rpc.hpp:44-84 | every step but starting a call decreases a measure |
| RpcProgress.PotentialFalls | src/include/util/rpc.hpp:44-84 | with results of bounded length the measure is a number of steps, across the phases of a call |
| RpcProgress.NeverStuck | src/include/util/rpc.hpp:26-85 | in one client's machine some party can move until a call is over |
| RpcProgress.OneReplyKept | src/user/libs/btoslib/messageloop.cpp:33-38 | each step behind the reply-skipping filter keeps that a call gets one reply, final exactly if the result fits it |
| RpcProgress.ReturnsOnlyIfFits | src/user/libs/btoslib/messageloop.cpp:33-38 | the step with which a call returns has a result that fits one message |
| Rpc.ClientAccepted | src/kernel/messaging.cpp:211-228 | every send of a client passes the kernel's check |
| Rpc.ServerAccepted | src/kernel/messaging.cpp:211-228 | so does every reply |
| Rpc.ReceivesReply | src/include/util/rpc.hpp:46-52 | the kernel's receive with the filter for a reply to the message waited on gives a client the one message the server has queued for it, or nothing if there is none |
| Rpc.DeliveryIsStep | src/kernel/messaging.cpp:262-282 | whatever the kernel hands the server, with whatever filter, is some client's message, and to take it is a step of the system |
| Rpc.Simulates | src/include/util/rpc.hpp:173-216 | any step of the whole system is a step of one client's machine, invisible to all others |
| Rpc.RunKeepsInv | src/include/util/rpc.hpp:173-216 | the system's invariant holds over all interleavings of any number of clients |
| Rpc.EndToEnd | src/include/util/rpc.hpp:26-85 | over all runs each client's finished calls are, in order, the calls made for it with its arguments and their results, the server never fails, and an idle client has nothing left in either server map |
| RpcReturns.SomebodyMoves | src/include/util/rpc.hpp:26-85 | in the whole system, with its shared server and queue, somebody can move while the server is busy or a client is in a call, unless it is stuck behind the filter |
| RpcReturns.RunIsBounded | src/include/util/rpc.hpp:44-84 | a run in which no call begins has at most as many steps as a measure summed over the clients |
| RpcReturns.Completes | src/include/util/rpc.hpp:26-85 | from every state of the invariant a run leads to where nothing more can happen |
| RpcReturns.EveryCallReturns | src/include/util/rpc.hpp:26-85 | from every reachable state under every schedule: a bounded number of steps, and when none is left every call in progress has returned what the procedure gave for its arguments |
| RpcReturns.ReturnsIffFits | src/user/libs/btoslib/messageloop.cpp:33-38 | behind the filter, when no step is left, every call in progress has been made and has returned exactly if its result fits one message |
| RpcReturns.LongResultHangs | src/user/libs/btoslib/messageloop.cpp:33-38 | for a procedure without parameters and every result longer than one message, a run of the system, from its initial state, that ends with the caller waiting for good |
| RpcReturns.LongStringHangs | src/user/libs/btoslib/messageloop.cpp:33-38 | a string of 4093 characters is such a result |
| RpcCode.SendRequest | src/include/util/rpc.hpp:26-42 | the chunk loop sends exactly the chunks of the client machine, in order |
| RpcCode.ProcServer.SendPart | src/include/util/rpc.hpp:193-200 | what fits goes out, the rest is stored under the reply's id |
| RpcCode.ProcServer.HandleMessage | src/include/util/rpc.hpp:181-215 | the handler makes the server's handling, sending and storing steps |
| Locks.StepKeepsInv | src/kernel/locks.cpp:13-97 | every atomic step of every thread, every interrupt, every stack switch and every block check run by the scheduler keeps the invariant |
| Locks.LockIsSafe | src/kernel/locks.cpp:18-97 | over all runs, wherever threads were interrupted and whoever handed the lock to whom: only the owner has takes outstanding, all in one frame, the recursion count is their number but for that frame's unfinished call, and the recursion count panic is not reached |
| Locks.FreedOnlyByLastRelease | src/kernel/locks.cpp:69-85 | the owner becomes 0 only by its own last release |
| LockCalls.TakesFree | src/kernel/locks.cpp:18-67 | in every reachable state a take or a try of a free lock, with its thread alone running, returns in at most 12 steps with the lock: owner, recursion count 1, one take, one more on the lock count; nothing else changes |
| LockCalls.WaiterTakes | src/kernel/locks.cpp:25-37 | so does a take that waits, wherever it stands, once the lock is free |
| LockCalls.TakesAgain | src/kernel/locks.cpp:39-67 | a recursive take by the owner returns with both counts one higher |
| LockCalls.TryRefused | src/kernel/locks.cpp:46-67 | a try of a lock that is owned returns with nothing changed, but for a recursive try by the owner |
| LockCalls.TakeWaits | src/kernel/locks.cpp:20-34 | a take of a lock that another owns does not return while it does, and changes nothing |
| LockCalls.TakeTwiceHalts | src/kernel/locks.cpp:21-24 | a take by the owner that is not recursive does not return |
| LockCalls.Releases | src/kernel/locks.cpp:69-85 | the owner's release returns with one take fewer, and with the last of them the lock is free and no longer counted |
| LockCalls.ReleaseRefused | src/kernel/locks.cpp:71-75 | anybody else's does not return, and leaves the lock alone |
| LockCalls.TakeThenRelease | src/kernel/locks.cpp:18-85 | a take and a release leave everything as it was, but for the waiting flag |
| LockCalls.PollMarks | src/kernel/locks.cpp:13-16 | a block check marks the lock as waited for and changes nothing else |
| LockCalls.TransferHands | src/kernel/locks.cpp:91-97 | a transfer gives a parked thread the lock with all its takes, moves the count, and parks the giver |
| LockCalls.TransferToSelf | src/kernel/locks.cpp:91-97 | a transfer to oneself changes nothing |
| LockCalls.SwitchedToGivesUp | src/kernel/scheduler/impl/scheduler.cpp:285-288 | a thread that is switched to gives up one take, and with the last of them the lock |
| Locks.SwitchedToReleases | src/kernel/scheduler/impl/scheduler.cpp:285-288 | a thread that is switched to owns the lock, so the release that follows the switch is never refused |
| Locks.ReturnsAsItWas | src/kernel/hal/x86_32/scheduler_asm.s:50-70 | at any depth of interrupts, a frame that returns leaves the lock its thread's own exactly if one of the frames below it had won it, whoever was switched to meanwhile |
| Locks.LoopTestSound | src/kernel/locks.cpp:25-33 | the loop of `TakeExclusive`, interrupted anywhere, ends exactly if its own compare and swap won, and not for a lock handed to the thread |
| Locks.KernelLockCounts | src/kernel/locks.cpp:36-97 | over all runs, also across transfers, a thread's lock count is its initial one plus what its frames account for, between calls one for owning the lock |
| Locks.UserLockNeutral | src/kernel/user_api.cpp:185-214 | BT_LOCK, BT_TRY_LOCK and BT_UNLOCK leave the lock count as it was, so the check on return never trips |
| Pnp.IdMatchIs | src/kernel/hwpnp/drivers.cpp:55-63 | a driver's id matches exactly if, with its zero fields but the bus filled in from the device's, it is the device's |
| PnpManager.Manager.Candidates | src/kernel/hwpnp/drivers.cpp:66-74 | exactly the suitable drivers that have not failed for the slot, in the order they were registered |
| PnpManager.Manager.BestCandidate | src/kernel/hwpnp/drivers.cpp:76-87 | the first of highest priority |
| PnpManager.Manager.Attempt | src/kernel/hwpnp/drivers.cpp:92-102 | the device is made exactly if the driver answers with one, and the failure is remembered exactly if it does not |
| PnpManager.Manager.CreateDevice | src/kernel/hwpnp/drivers.cpp:66-105 | the device's driver suits, had not failed for the slot, and is the first of highest priority among those that still have not; what was made and what failed are what the drivers answered; null only if all have failed |
| PnpManager.Manager.ResolveDevice | src/kernel/hwpnp/devices.cpp:63-82 | the slot is recorded once, and its record is returned |
| PnpManager.Manager.RescanDevices | src/kernel/hwpnp/devices.cpp:84-90 | only unresolved records change, and afterwards each unresolved one has run out of drivers |
| PnpManager.Manager.EnumSubdevices | src/kernel/hwpnp/devices.cpp:92-100 | the recursion ends and everything below the device is recorded; a second pass changes nothing |
| PnpManager.Manager.EnumDevices | src/kernel/hwpnp/devices.cpp:101-114 | the repeat loop ends, in the fixpoint: every subdevice of every reachable device is recorded, and no record is lost |
| PnpManager.Manager.RegisterDriver | src/kernel/hwpnp/drivers.cpp:45-49 | the fixpoint again, with no device lost; the log of creations only grows and stays in step with the records; while each driver is registered once none is asked twice for a slot |
| PnpManager.OncePerSlot | src/kernel/hwpnp/devices.cpp:63-90 | over all calls so far a device was created at most once for each slot |
| PnpManager.Manager.SetRootDevice | src/kernel/hwpnp/devices.cpp:116-120 | the fixpoint is reached |
| Pnp.CoveredIsComplete | src/kernel/hwpnp/devices.cpp:92-114 | if all below the root is covered, so is every reachable device |
| Lru.RunOk | src/include/util/lrucache.hpp:28-76 | over every trace the keys are distinct and the bound is kept |
| Lru.HoldsLatest | src/include/util/lrucache.hpp:28-76 | a stored value is the latest put for its key, not dropped since |
| Lru.OrderedByRecency | src/include/util/lrucache.hpp:28-76 | the entries are in strict order of last use |
| Lru.Evicts | src/include/util/lrucache.hpp:37-41 | a put loses another key only if the cache was full of other keys, and then the one used longest ago and no more |
| Lru.PutKeeps | src/include/util/lrucache.hpp:28-42 | over every trace a put key is found with its value, and another key stays exactly if it was there and the cache had room, had the key, or holds one used longer ago |
| Lru.GetAndDropKeep | src/include/util/lrucache.hpp:60-76 | a get keeps every key and value, and a drop loses its key alone |
| Lru.StackInclusion | src/include/util/lrucache.hpp:28-76 | on the same trace a smaller cache holds a subsequence of a larger |
| LruCache.Cache.Put | src/include/util/lrucache.hpp:28-42 | list and index stay in bijection and the contents change as specified |
| LruCache.Cache.Get | src/include/util/lrucache.hpp:60-68 | a hit returns the value and moves its node to the front, a miss changes nothing |
| LruCache.Cache.Drop | src/include/util/lrucache.hpp:70-76 | the key's entry goes, with its node |
| LruCache.Cache.Exists | src/include/util/lrucache.hpp:78-80 | the index knows a key exactly if the list holds it |
| LruCache.Cache.Size | src/include/util/lrucache.hpp:82-84 | the index is as large as the list |
| Ring.InsertAppends | src/include/util/circular_buffer.hpp:15-22 | inserting appends and touches no cell in use |
| Ring.RemoveTakesFirst | src/include/util/circular_buffer.hpp:24-33 | removing takes the oldest |
| Ring.CircularBuffer.AddItem | src/include/util/circular_buffer.hpp:15-22 | a bounded queue that ignores an add when full |
| Ring.CircularBuffer.ReadItem | src/include/util/circular_buffer.hpp:24-33 | the oldest item, or the zero value |
| Ring.CircularBuffer.Clear | src/include/util/circular_buffer.hpp:47-50 | the queue is empty |
| OperationQueue.Queue.AddLocked | src/include/util/operation_queue.hpp:68-73 | the operation goes to the end, if there is room |
| OperationQueue.Queue.GetLocked | src/include/util/operation_queue.hpp:30-37 | the oldest operation comes out |
| OperationQueue.NextKeepsInv | src/include/util/operation_queue.hpp:20-74 | every step of every thread keeps the invariant |
| OperationQueue.QueueIsFifo | src/include/util/operation_queue.hpp:20-74 | over all runs what was handed out is a prefix of what was accepted, at most a queueful is outstanding, no two threads are in a critical section, and each thread's adds go in once and in order |
| OperationQueue.NeverStuck | src/include/util/operation_queue.hpp:20-74 | while one thread adds and the consumer gets, someone can move |
| OperationQueue.AddEnds | src/include/util/operation_queue.hpp:60-74 | in every reachable state an add that finds room, wherever it stands, goes on to put its operation last and to leave |
| OperationQueue.GetEnds | src/include/util/operation_queue.hpp:20-38 | a get that finds something hands out the oldest and leaves |
| OperationQueue.WaiterSleeps | src/include/util/operation_queue.hpp:20-66 | one that has to wait lets the lock go and sleeps, having changed nothing |
| OperationQueue.WaitsIff | src/include/util/operation_queue.hpp:20-66 | an add waits exactly if the queue is full, a get exactly if it is empty |
| OperationQueue.HolderLeaves | src/include/util/operation_queue.hpp:20-74 | whoever has the lock lets it go in at most three steps |
| Digits.NumeralValue | src/kernel/printf.c:85-103 | the numeral of a number has its value |
| Digits.NumeralUnique | src/kernel/printf.c:85-103 | and is the only one with proper digits and no leading zero |
| Digits.PrintedDecodes | src/kernel/printf.c:93-101 | each character is its digit in the letter case asked for, without a leading zero, so the text decodes to the number in every base |
| Digits.LargestPower | src/kernel/printf.c:91-92 | the first loop ends without overflow at the power of the first digit |
| Digits.ToText | src/kernel/printf.c:85-103 | for every number of 32 or 64 bits and base 8 to 16 the buffer holds the numeral and a terminator, within its 23 bytes |
| Digits.A2u | src/kernel/printf.c:185-199 | the longest run of accepted digits is consumed, and its value returned modulo 2^32 |
| Digits.ReadsBack | src/kernel/printf.c:185-199 | a printed decimal followed by anything a2u does not accept reads back |
| Digits.ReadsOn | src/kernel/printf.c:190-192 | followed by a digit or a letter a it does not |
| Digits.CountFill | src/kernel/printf.c:204-215 | the filling characters that remain |
| Digits.Putchw | src/kernel/printf.c:201-251 | sign, prefix, body and filling in their places |
| Digits.WidthExact | src/kernel/printf.c:201-251 | as wide as the larger of width and parts, exactly if the width is a signed integer or does not exceed the parts |
| Printf.ScanDirective | src/kernel/printf.c:271-337 | flags, width, precision and length are read as specified |
| Printf.ScanReadsBack | src/kernel/printf.c:271-337 | any flags, width, precision, length and conversion read back from their text as what they are, whatever follows |
| Printf.SignedMeaning | src/kernel/printf.c:105-171 | %d and %i show the sign and magnitude of the two's complement value, the least one included |
| Printf.PlainText | src/kernel/printf.c:264-266 | text before a directive comes out as it stands |
| Printf.TfpFormat | src/kernel/printf.c:253-422 | the characters passed on are exactly the text of format and arguments |
| FormatMeaning.NumberMeans | src/kernel/printf.c:340-404 | every numeric conversion shows its argument's value: a minus sign exactly if it is negative, the mark of the alternate form, and digits that decode to the magnitude in base 10, 8 or 16, in a field of the width |
| FormatMeaning.NumberNeeds | src/kernel/printf.c:340-404 | without an argument of its size it has no meaning |
| FormatMeaning.OthersMean | src/kernel/printf.c:405-418 | %c, %s and %% show the character, the string in its field and a percent sign; any other letter shows and takes nothing |
| FormatMeaning.NumberLeaves | src/kernel/printf.c:340-404 | the base and case a numeric conversion leaves behind |
| FormatMeaning.DirectiveMeans | src/kernel/printf.c:264-422 | a directive written with any flags, width, precision and length comes out as its conversion's text, followed by the rest of the format |
| FormatMeaning.DecimalMeans | src/kernel/printf.c:356-372 | %d of any word is its two's complement value in decimal |
| Printf.GuardedIsSafe | src/kernel/printf.c:253-294 | a guarded format has one text, whatever the uninitialised fields held |
| Printf.UnguardedVaries | src/kernel/printf.c:409-413 | an unguarded one does not |
| Snprintf.Vsnprintf | src/kernel/printf.c:451-476 | the full length is returned for any capacity, and memory is as specified |
| Snprintf.WriteStores | src/kernel/printf.c:451-476 | the stored text is the prefix of length min(len, size - 1), terminated, and nothing outside the destination changes |
| Snprintf.WriteElse | src/kernel/printf.c:451-476 | without a size the whole text is written and no terminator, without a destination only a terminator |
| Snprintf.WritesIs | src/kernel/printf.c:451-476 | exactly the bytes so described are written |
| Snprintf.WritesInside | src/kernel/printf.c:459-476 | when all writes stay inside the destination |
| Asprintf.Measure | src/include/util/asprintf.h:24-26 | the measuring pass counts the characters and writes nothing |
| Asprintf.Vasprintf | src/include/util/asprintf.h:24-28 | a new heap region holds the whole text, terminated, and all other regions are untouched |
| Asprintf.Strlen | src/include/util/asprintf.h:11-15 | the length of the string in memory |
| Asprintf.VreasprintfAppend | src/include/util/asprintf.h:40-45 | the old string followed by the text, wherever realloc put it, and all other regions untouched |
| Tar.FromOct | src/kernel/initfs.cpp:216-234 | the value of the field in 32-bit arithmetic, or -1 if blank or badly ended |
| Tar.ParsedIs | src/kernel/initfs.cpp:216-238 | a field in the archive format gives its size as a 32-bit signed number |
| Tar.FieldGives | src/kernel/initfs.cpp:216-238 | 11 octal digits, behind any spaces and ended by a nul, a space or the field, give their number as a signed one |
| Tar.ParsedElse | src/kernel/initfs.cpp:216-234 | any other field gives -1 |
| Tar.ParsedIsSize | src/kernel/initfs.cpp:216-238 | a size below 2^31 is given as it is |
| Tar.StepsForward | src/kernel/initfs.cpp:252-260 | when one step of the walk goes to a higher address, and when it stays |
| Tar.WalkCanLoop | src/kernel/initfs.cpp:250-261 | a size of 2^32 - 512 keeps the walk at its header |
| Tar.Walk | src/kernel/initfs.cpp:250-261 | the walk ends and yields exactly the entries, names and data, in order |
| Tar.LaidOutUnique | src/kernel/initfs.cpp:250-261 | an image is laid out as at most one list of entries |
| Tar.EncodeLaidOut | src/kernel/initfs.cpp:205-214 | writing any entries as in the ustar Interchange Format gives an image laid out as them |
| Tar.FileHandle.Read | src/kernel/initfs.cpp:60-69 | the bytes from the position on, as many as asked or left, even if the sum in the test wraps around |
| Tar.ReadsReproduce | src/kernel/initfs.cpp:60-69 | any sequence of reads returns the data in order, all of it once enough is asked |

## Left out

Simplified, or weaker than one might expect:

- Messaging.RunKeepsInv: ids are unbounded numbers; the 64-bit counter is taken not to wrap.
- MessageManager.Manager.SendMessageReceipts: a receipt carries the id it is for, not its bytes.
- MessageManager.Manager.Check: the `replied` mark is left out. The source sets it on a copy only, so its test never refuses a reply.
- HeapRealloc.Realloc: a call whose inner malloc fails is excluded; the source copies to null there.
- HeapRealloc.GrowByCopy: the same.
- Allocator.Heap.Malloc: the address and the refusal of the page hook are a parameter, required to be a region apart from the heap; requests so large that the rounded size overflows a word are excluded.
- Allocator.Heap.Free: freeing a pointer that is not live is excluded; the checks for dead headers and overruns only report.
- Locks.LockIsSafe: panics and process termination do not return, and the recursion count does not wrap. A frame of the scheduler is taken to release or transfer only what it took itself, and `Transfer` to be called only by such a frame, for itself or for a thread that is switched out, as the scheduler does; that the timer interrupt also raises the thread's lock count while it yields is left out.
- Rpc.EndToEnd: the message manager has no subscribers, and no process but the clients and the server sends messages.
- RpcReturns.EveryCallReturns: the same; the bound on the steps takes a bound on the length of results; and nothing is said of a call while other clients go on beginning calls.
- RpcReturns.ReturnsIffFits: the filter of `RunLoop` is taken to stay with its message. The copy constructor of `Message` drops it, so this is so only where the copy of the message that `Message::RecieveFiltered` returns is elided, as compilers do.
- PnpManager.Manager.EnumDevices: drivers do not call back into the manager, the rescan lock is free, and the device tree has a depth limit.
- PnpManager.Manager.RescanDevices: the early return when the rescan lock is taken is left out.
- OperationQueue.AddEnds: an `add` to a queue whose thread has ended, which returns at once, is left out.
- OperationQueue.NeverStuck: says nothing of a consumer that adds to its own full queue, which blocks for good.
- Digits.Putchw: the characters are appended to a string instead of passed to a callback, which gives nothing back; for a width from 2^31 to 2^31 + 2 with a sign or prefix the count overflows a signed integer in the source, which is undefined there and negative here.
- Digits.CountFill: the same overflow.
- Digits.WidthExact: the same overflow.
- Printf.SignedMeaning: negating the least integer is undefined in the source and wraps around here.
- Printf.TfpFormat: arguments are those the format asks for; floating point is not in the source either.
- Snprintf.Vsnprintf: texts of 2^31 characters or more are excluded, since the count is returned as a signed integer.
- Asprintf.Vasprintf: the allocation succeeds, as the source takes for granted. Both passes read the same arguments, although the source passes one `va_list` on twice without `va_copy`: that holds where a `va_list` is passed by value, as on 32-bit x86.
- Asprintf.VreasprintfAppend: the same, and the old string is terminated inside its region.
- Tar.Walk: the image is laid out as an archive below the end of the address space; on other images the walk need not stop, as Tar.WalkCanLoop shows.
- RpcCode.ProcServer.HandleMessage: only procedures with parameters and a result; the variants without differ in nothing else.

Not modelled:

- The header structures are kept by address, not as bytes, and their magic numbers are assumed intact.
- `calloc`, `PREFIX(dump)`, and the statistics and debug output of liballoc.
- Receive handles, message content copying and the user-mode message calls around the manager.
- `pnp_unregister_driver`, device nodes and the information files.
- `tfp_vsprintf`, which is `tfp_vsnprintf` without a bound, and the printf wrappers.
- Seeking, directory listing and mounting of the boot file system.
- The scheduler, paging, drivers, the window manager and all other parts of the system.
