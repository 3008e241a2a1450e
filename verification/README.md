# Verified models of the kpp ownership, container, driver and dispatch code

kpp is a header-only C++ layer over Linux kernel APIs. This project models the parts of it where something can go
wrong over a whole run rather than in one call, and proves what those parts guarantee. `dafny verify dfyconfig.toml`
checks everything.

| file | component |
|---|---|
| `SharedGraph.dfy`, `SharedReachability.dfy`, `SharedAssignment.dfy`, `SharedHeap.dfy` | `SharedPtr` as a heap graph: nested destruction, counting against reachability, release-first assignment |
| `SharedThreads.dfy`, `SharedThreadsSteps.dfy`, `SharedThreadsRuns.dfy`, `SharedThreadsPins.dfy`, `SharedThreadsDelivery.dfy` | `SharedPtr` as a step machine over any number of threads, with nested destruction; when it can fault, a discipline under which it cannot, and what each operation has done when it ends |
| `Ring.dfy`, `HashMap.dfy`, `StringView.dfy` | intrusive rings, the chained hash map over them, string keys |
| `EchoDriver.dfy`, `EchoThreads.dfy` | the echo driver, sequentially and in every interleaving |
| `Ioctl.dfy` | the ioctl dispatcher |
| `Common.dfy` | bytes, options and errno values |
| `Expected.dfy`, `Ownership.dfy`, `NetDevices.dfy` | the tagged union, `UniquePtr` with the work queue, device references and XDP attachments |

## How to read the models

Operations are total. Where the C++ code would have undefined behaviour (a freed block, a dead handle, a null device, a
second free) the model sets a `fault` flag, and the theorems say exactly when that happens. What the kernel decides
(allocation success, copy faults, every answer of `bpf_set_link_xdp_fd`, the ignored ones included) is a parameter. Code
that changes things step by step is a class whose methods make the same updates in the same order and are proved equal
to a function on values. What that function does is stated a second time without naming its body or helpers, by the
`...Effect`, `...Effects`, `...Guarantees`, `...ByDirection` and `...Delivers` members, and the properties of runs are
proved about it.

In the threaded `SharedPtr` nothing waits. `~T` that reaches a member handle which an operation is still using destroys
it, and that is the only fault there is (`SharedThreadsSteps.StepOk`, `FaultsIffUsedMemberDestroyed`). The laws about
counts and destruction hold in every interleaving that does not fault, and so do `CopyDelivers`, `MoveDelivers` and
`DestroyEnds` in `SharedThreadsDelivery`, which say what an operation has done when it ends; `OperationsEnd` says that
it ends. `SharedThreadsPins.NoUseAfterFree` gives a condition that a thread can check when it starts an operation: every
member handle it uses belongs to an object named by a handle that stays put until the operation ends, as a local copy
does.

Assumptions taken from the code's own usage: `~T` of a shared object does nothing but destroy its `SharedPtr` members
(numbered in order of destruction); `ptr_` and `cb_` come from `make_shared`; in the threaded model a handle is changed
by one thread at a time and is not changed while it is copied from, an atomic operation is one sequentially consistent
step, fewer than 2^31 handles exist, and block numbers name allocations; a map has at least one bucket, and where a
theorem says so the `==` of its keys is an equivalence that its hasher respects; `size_t` and `loff_t` have 64 bits.

Some templates do not compile as written and are modelled by their evident intent: `make_unique` with constructor
arguments (HashMap, WorkQueue), the three-argument user copies of the driver, the `file` argument of `handle_ioctl`, and
`container_of` on the iterator's node in `HashMap::find`.

## What turned out to be false of the code

Each has a theorem with the exact condition and a lemma with an input that fails.

- Assigning a `SharedPtr` from a handle that lives inside the object it releases (`p = p->next`) reads a destroyed
  handle: `SharedAssignment.OwnMemberFaults`. `AssignFromOwnMember`: exactly when `p` is the only owner.
  `AssignmentFaultsIff`: on every well-formed heap, exactly when the source or the destination is not safe from the
  release, that is, belongs to no set of blocks that stays supported without the destination;
  `AcyclicAssignmentFaultsIff`: without cycles, exactly when the destination is the only way to the source. The
  acquire-first order would be right for every source (`AcquireFirstCopyOk`, `AcquireFirstMoveOk`).
- The same with one thread or several: `SharedThreadsPins.OwnMemberFaults`, `RaceFaults`. `SharedThreadsSteps.StepOk` and
  `FaultsIffUsedMemberDestroyed`: exactly when `~T` reaches a member handle in use.
- Ownership cycles leak (`CycleLeaks`). `LeakIffSelfOwned`: blocks leak exactly when some blocks own each other and
  nobody else owns any of them; an acyclic heap has no such blocks.
- `StringView` equality stops at a NUL byte (`NulHidesDifference`). `ContentEqualityIff`: it is equality of bytes for
  exactly the views without a NUL before their last byte. A hasher over all bytes therefore does not respect it
  (`ByteHasherIncompatible`), and a map using one does not find a key that is there (`LoseView`). `BucketMissesIff`: a
  search misses exactly when all nodes with an equal key are in other buckets.
- A faulting driver write can lose the terminator of the old content (`FaultLosesTerminator`).
  `FaultKeepsTerminatorIff`: it cannot, whatever it leaves behind, exactly when it is not longer than the old content.
- "A program is installed exactly where an attached object points" breaks when one of two attachments of a device goes
  (`SecondAttachmentBreaksLaw`), when a detach fails and its answer is ignored (`FailedDetachBreaksLaw`), and when an
  attach succeeds with a negative descriptor (`NegativeDescriptorBreaksLaw`). `RunKeepsLawIff`: it holds throughout a
  run exactly when every attach fails or has a descriptor and every detach succeeds exactly if nobody else is attached.
- Attaching through a null handle dereferences null (`NullAttachFaults`), exactly then (`NetDevices.StepOk`).

## Model

| member | source | states |
|---|---|---|
| SharedGraph.Release | include/kpp/memory/SharedPtr.hpp:32-39 | terminates on every heap, cyclic or ill formed; only removes slots and blocks, never changes a surviving pointer, never raises a count, keeps every outside handle |
| SharedGraph.DestroyMembers | include/kpp/memory/SharedPtr.hpp:36-36 | the nested destruction of member handles terminates on every heap and only takes things away |
| SharedGraph.ReleaseBounded | include/kpp/memory/SharedPtr.hpp:32-39 | on any graph a cascade frees only blocks with positive count, and its destructors nest no deeper than there are such blocks |
| SharedGraph.ReleaseKeeps | include/kpp/memory/SharedPtr.hpp:32-49 | a whole cascade keeps count = owning handles, with the handles being released treated as stale; blocks still supported and blocks already dying survive; a handle disappears only with its block |
| SharedGraph.DestroyKeeps | include/kpp/memory/SharedPtr.hpp:34-38 | the same through the member loop of a block whose count is zero, which ends with no member left |
| SharedReachability.ReleaseFreesExactlyUnsheltered | include/kpp/memory/SharedPtr.hpp:32-49 | on every well-formed heap, cyclic or not, and for every handle, a release frees exactly the blocks that are in no set of blocks supported without that handle; a member handle survives exactly with its block |
| SharedReachability.SurvivesReleaseIff | include/kpp/memory/SharedPtr.hpp:32-91 | on every well-formed heap a handle, the released one included, survives a release exactly when it is outside all objects or its object is in such a set |
| SharedReachability.ReleaseFreesExactlyUnreachable | include/kpp/memory/SharedPtr.hpp:32-49 | in an acyclic heap a release frees exactly the blocks that only the released handle kept reachable |
| SharedReachability.AllocatedIffReachable | include/kpp/memory/SharedPtr.hpp:32-91 | between operations of an acyclic heap, allocated = reachable from an outside handle |
| SharedReachability.LeakIffSelfOwned | include/kpp/memory/SharedPtr.hpp:32-91 | on any heap, cyclic ones included, blocks are unreachable but allocated exactly when a set of blocks is owned only from within |
| SharedReachability.ReleaseOk | include/kpp/memory/SharedPtr.hpp:32-49 | releasing a handle that is safe from its own release never faults and leaves no block half destroyed |
| SharedAssignment.CopyAssignAgrees | include/kpp/memory/SharedPtr.hpp:59-72 | copy assignment faults exactly when the release destroys one of the two handles, otherwise it ends in the same heap (counts, freed blocks, handles) as the acquire-first order |
| SharedAssignment.MoveAssignAgrees | include/kpp/memory/SharedPtr.hpp:80-91 | the same for move assignment |
| SharedAssignment.SelfAssignAgrees | include/kpp/memory/SharedPtr.hpp:61-61 | the self-assignment guard gives what the acquire-first order computes, for copy and move |
| SharedAssignment.AcquireFirstCopyOk | include/kpp/memory/SharedPtr.hpp:59-72 | the acquire-first order is right for every source, destroyed by the release or not |
| SharedAssignment.AcquireFirstMoveOk | include/kpp/memory/SharedPtr.hpp:80-91 | the same for move assignment |
| SharedAssignment.AssignmentFaultsIff | include/kpp/memory/SharedPtr.hpp:59-91 | on every well-formed heap, cyclic or not, copy and move assignment go wrong exactly when destination or source is not safe from the release |
| SharedAssignment.AcyclicAssignmentFaultsIff | include/kpp/memory/SharedPtr.hpp:59-91 | in an acyclic heap, exactly when the destination is the only way to the source |
| SharedAssignment.AssignFromOwnMember | include/kpp/memory/SharedPtr.hpp:63-65 | assignment from a member of the released object goes wrong exactly at use count 1, on every well-formed heap |
| SharedAssignment.CountCommutesWithRelease | include/kpp/memory/SharedPtr.hpp:32-39 | an extra reference on a surviving block does not change a cascade |
| SharedAssignment.WriteCommutesWithRelease | include/kpp/memory/SharedPtr.hpp:32-39 | a write to a handle the cascade does not touch does not change a cascade |
| SharedAssignment.StepOk | include/kpp/memory/SharedPtr.hpp:42-135 | every legal make, copy, move, assign, destroy keeps exact counts and faults never; with the effects below this fixes the heap after each of them |
| SharedAssignment.DropEffect | include/kpp/memory/SharedPtr.hpp:46-49 | destroying a handle removes it and exactly the blocks it alone kept; every other handle stays with its pointer exactly when it is safe from the release |
| SharedAssignment.CopyAssignEffect | include/kpp/memory/SharedPtr.hpp:59-72 | the destination names what the source named, the source still does, exactly what only the old value kept is gone; nothing happens on self-assignment |
| SharedAssignment.MoveAssignEffect | include/kpp/memory/SharedPtr.hpp:80-91 | the same, with the source null afterwards |
| SharedAssignment.CopyNewEffect | include/kpp/memory/SharedPtr.hpp:51-57 | the new handle names what the source names, the count of that block is one higher, all else is equal |
| SharedAssignment.MoveNewEffect | include/kpp/memory/SharedPtr.hpp:74-78 | the new handle has what the source had, the source is null, all blocks are equal |
| SharedAssignment.DefaultEffect | include/kpp/memory/SharedPtr.hpp:42-42 | a null handle and nothing else |
| SharedAssignment.MakeEffect | include/kpp/memory/SharedPtr.hpp:119-135 | the handle names a new block with count 1 and null members; everything else is as before |
| SharedAssignment.MakeFailedEffect | include/kpp/memory/SharedPtr.hpp:123-126 | without memory a null handle and nothing else |
| SharedAssignment.RunOk | include/kpp/memory/SharedPtr.hpp:42-135 | so does every run |
| SharedAssignment.CountingIsReachability | include/kpp/memory/SharedPtr.hpp:32-91 | after every legal run that leaves no cycle: allocated = reachable |
| SharedAssignment.CycleLeaks | include/kpp/memory/SharedPtr.hpp:32-91 | a legal run that leaves an unreachable allocated block |
| SharedAssignment.OwnMemberFaults | include/kpp/memory/SharedPtr.hpp:59-91 | a run of two operations in which assignment, copy or move, reads a destroyed handle |
| SharedAssignment.AssignToNullConstructs | include/kpp/memory/SharedPtr.hpp:128-132 | assigning to a null handle is constructing it, so members filled by constructor arguments are runs of the modelled operations |
| SharedHeap.SharedHeap.ReleaseHandle | include/kpp/memory/SharedPtr.hpp:32-39 | decrement, test, destroy, free in place compute the cascade |
| SharedHeap.SharedHeap.DestroyObject | include/kpp/memory/SharedPtr.hpp:36-36 | the loop over member handles computes the nested destruction |
| SharedHeap.SharedHeap.DestroyHandle | include/kpp/memory/SharedPtr.hpp:46-49 | release, then the handle is gone |
| SharedHeap.SharedHeap.CopyConstructHandle | include/kpp/memory/SharedPtr.hpp:51-57 | copy, then increment if not null |
| SharedHeap.SharedHeap.MoveConstructHandle | include/kpp/memory/SharedPtr.hpp:74-78 | take the pointer, null the source, no count changes |
| SharedHeap.SharedHeap.CopyAssignHandle | include/kpp/memory/SharedPtr.hpp:59-72 | release-first copy assignment in place |
| SharedHeap.SharedHeap.MoveAssignHandle | include/kpp/memory/SharedPtr.hpp:80-91 | release-first move assignment in place |
| SharedHeap.SharedHeap.MakeShared | include/kpp/memory/SharedPtr.hpp:119-135 | null on allocation failure, else a block with count 1 and null members |
| SharedThreads.Wrap32 | include/kpp/memory/SharedPtr.hpp:13-16 | 32-bit count arithmetic: congruent modulo 2^32, within the range of atomic_t, exact if the argument is |
| SharedThreadsSteps.DecrementOk | include/kpp/memory/SharedPtr.hpp:34-34 | decrement-and-test keeps the invariant; at zero exactly one thread becomes the destroyer |
| SharedThreadsSteps.DestroyStepOk | include/kpp/memory/SharedPtr.hpp:36-36 | `~T` going on to the next member faults exactly when that member is in use; otherwise, and when it finishes, it keeps the invariant |
| SharedThreadsSteps.KfreeOk | include/kpp/memory/SharedPtr.hpp:37-37 | kfree frees a destroyed, unfreed block that nobody owns |
| SharedThreadsSteps.ReturnOk | include/kpp/memory/SharedPtr.hpp:38-39 | returning to an enclosing `~T`, a destructor or an assignment keeps the invariant |
| SharedThreadsSteps.IncrementOk | include/kpp/memory/SharedPtr.hpp:53-70 | the last step of a copy finds its block alive, does not wrap and keeps the invariant; `CopyDelivers` says what it delivers |
| SharedThreadsSteps.CopyCbOk | include/kpp/memory/SharedPtr.hpp:64-65 | writing cb_ in a copy keeps the invariant, in which a handle owns nothing between its release and its increment |
| SharedThreadsSteps.MoveCbOk | include/kpp/memory/SharedPtr.hpp:74-88 | writing cb_ in a move keeps the invariant: the reference changes hands in this step |
| SharedThreadsSteps.StepOk | include/kpp/memory/SharedPtr.hpp:32-135 | a step of any thread faults exactly when it is `~T` reaching a member handle in use, and keeps the invariant in all other cases |
| SharedThreadsDelivery.CopyDelivers | include/kpp/memory/SharedPtr.hpp:51-72 | in every interleaving that does not fault, when a copy construction or assignment ends the destination names in both fields what the source named when it started, the source still does, and the last step added one to the count of that block and changed no other |
| SharedThreadsDelivery.MoveDelivers | include/kpp/memory/SharedPtr.hpp:74-91 | in every such interleaving, when a move ends the destination has what the source had when it started, the source is null, and no count changed in the last step |
| SharedThreadsDelivery.DestroyEnds | include/kpp/memory/SharedPtr.hpp:46-49 | in every such interleaving the handle is gone when its destruction ends |
| SharedThreadsDelivery.StepUntouches | include/kpp/memory/SharedPtr.hpp:32-91 | a step of one thread changes nothing that another thread holds, and not what a handle names that another is reading |
| SharedThreadsDelivery.OperationsEnd | include/kpp/memory/SharedPtr.hpp:32-91 | from every state that satisfies the invariant a thread running on its own ends its operation after finitely many steps, or faults |
| SharedThreadsDelivery.Progress | include/kpp/memory/SharedPtr.hpp:32-91 | every step of an operation lowers a bound on the steps that are left, nested destruction included |
| SharedThreadsDelivery.StartEffects | include/kpp/memory/SharedPtr.hpp:119-135 | a new handle is null; make_shared gives a handle that names a new block with count 1 and null members |
| SharedThreadsRuns.FaultsIffUsedMemberDestroyed | include/kpp/memory/SharedPtr.hpp:32-101 | an interleaving touches a freed block or a dead handle exactly when some step of it is `~T` destroying a member handle in use |
| SharedThreadsPins.NoUseAfterFree | include/kpp/memory/SharedPtr.hpp:32-101 | no interleaving faults in which every operation keeps, from its start to its end, handles that name the objects whose member handles it uses |
| SharedThreadsPins.PinnedStepOk | include/kpp/memory/SharedPtr.hpp:32-101 | a step that keeps to this discipline does not fault; kept handles stay as they are and members in use stay secured |
| SharedThreadsPins.NeverAtUsedMember | include/kpp/memory/SharedPtr.hpp:36-36 | under the discipline `~T` never meets a member handle in use |
| SharedThreadsPins.OwnMemberFaults | include/kpp/memory/SharedPtr.hpp:59-72 | the schedule of one thread running `p = p->next` with one owner faults |
| SharedThreadsPins.RaceFaults | include/kpp/memory/SharedPtr.hpp:32-57 | so does the schedule in which one thread destroys an object while another copies from its member |
| SharedThreadsRuns.DestroyedOnceByOneThread | include/kpp/memory/SharedPtr.hpp:32-39 | in every interleaving that does not fault a block reaches zero, is destroyed and is freed at most once, in this order, all by the thread whose decrement reached zero |
| SharedThreadsRuns.CountLaw | include/kpp/memory/SharedPtr.hpp:34-57 | in every interleaving that does not fault count = handles naming the block minus those whose program counter says already decremented or not yet incremented; never outside atomic_t |
| SharedThreadsRuns.QuiescentExact | include/kpp/memory/SharedPtr.hpp:98-101 | when all threads are idle, without a fault before, use_count is exact, and a block is freed exactly when no handle names it |
| SharedThreadsRuns.UseCountExact | include/kpp/memory/SharedPtr.hpp:98-101 | when all threads are idle use_count() of a handle is the number of handles naming the same block, 0 for a null handle |
| SharedThreadsRuns.QuiescentIsGraph | include/kpp/memory/SharedPtr.hpp:32-135 | whatever the threads did, a state with all threads idle is a well-formed heap graph with exact counts |
| SharedThreadsRuns.InterleavedCountingIsReachability | include/kpp/memory/SharedPtr.hpp:32-135 | in every interleaving that does not fault, once all threads are idle and no cycle is left, a block is alive exactly when an outside handle reaches it and freed otherwise |
| Ring.Insert | include/kpp/util/List.hpp:45-53 | linking between two neighbours of a ring gives the ring with the node inserted there |
| Ring.Unlink | include/kpp/util/List.hpp:55-58 | joining the neighbours gives the ring without the node |
| Ring.InsertLinks | include/kpp/util/List.hpp:45-53 | the four pointer writes make a ring again |
| Ring.UnlinkLinks | include/kpp/util/List.hpp:55-58 | the two pointer writes make a ring again |
| Ring.NextPrevInverse | include/kpp/util/List.hpp:24-31 | next and prev are mutually inverse around a ring |
| Ring.List.constructor | include/kpp/util/List.hpp:28-31 | an empty ring |
| Ring.List.Empty | include/kpp/util/List.hpp:40-43 | true exactly for the empty sequence, and exactly when begin equals end |
| Ring.List.Traverse | include/kpp/util/List.hpp:12-22 | iterating from begin to end terminates and visits every linked node once, in order |
| Ring.List.Add | include/kpp/util/List.hpp:45-48 | prepends to this list; all rings stay well formed and disjoint, all other lists unchanged |
| Ring.List.AddTail | include/kpp/util/List.hpp:50-53 | appends to this list; all else unchanged |
| Ring.List.Del | include/kpp/util/List.hpp:55-58 | removes the node from whichever list holds it; all else unchanged |
| Ring.Execute | include/kpp/util/List.hpp:28-58 | any run over any number of lists keeps all rings well formed and disjoint and refines prepend, append, remove on sequences |
| HashMap.BucketSearchIsSearch | include/kpp/util/HashMap.hpp:49-66 | searching one bucket finds what searching all inserts from the front finds, for every bucket count and every hasher that respects equality |
| HashMap.FirstIsEarliest | include/kpp/util/HashMap.hpp:56-65 | the result is the earliest insert with an equal key, null exactly if there is none |
| HashMap.BucketMissesIff | include/kpp/util/HashMap.hpp:49-66 | for any hasher at all a search comes back empty exactly when every node with an equal key is in another bucket |
| HashMap.LoseKey | include/kpp/util/HashMap.hpp:32-66 | a map whose hasher separates two equal keys answers null for the second after an insert of the first |
| HashMap.FoundStays | include/kpp/util/HashMap.hpp:45-61 | a pointer once found is found again after any further inserts |
| HashMap.KeysDecideNode | include/kpp/util/HashMap.hpp:59-61 | two keys lead to the same node exactly when they are equal |
| HashMap.HashMap.constructor | include/kpp/util/HashMap.hpp:27-30 | empty, with or without a bucket array |
| HashMap.HashMap.Insert | include/kpp/util/HashMap.hpp:32-47 | -ENOMEM and no change without memory, else one new node after all earlier ones |
| HashMap.HashMap.Find | include/kpp/util/HashMap.hpp:49-66 | the loop over the bucket's ring returns the earliest node with an equal key in the bucket, for any hasher; the earliest of all, if the hasher respects equality |
| HashMap.HashMap.InsertRequest | include/kpp/util/HashMap.hpp:32-47 | one insert changes the answer only for keys that are equal to the new one and had none |
| HashMap.HashMap.InsertAll | include/kpp/util/HashMap.hpp:32-66 | after any inserts with any allocation failures every key is answered by what was there before, else by the earliest insert that got its memory; hasher and bucket count do not occur |
| HashMap.HashMap.Store | include/kpp/util/HashMap.hpp:59-62 | a write through a found pointer is seen for equal keys and changes no answer for unequal keys |
| StringView.Strncmp | include/kpp/core/StringView.hpp:27-30 | zero exactly when both agree up to the size or the first NUL |
| StringView.Compare | include/kpp/core/StringView.hpp:27-30 | equality of sizes and of what is visible before a NUL |
| StringView.ContentEqualityIff | include/kpp/core/StringView.hpp:27-30 | equality is equality of bytes for exactly the views with no NUL before the last byte |
| StringView.HiddenBytes | include/kpp/core/StringView.hpp:27-30 | views of the same size that agree up to a NUL compare equal, whatever follows |
| StringView.NulHidesDifference | include/kpp/core/StringView.hpp:27-30 | two views with different bytes that compare equal |
| StringView.ByteHasherIncompatible | include/kpp/core/StringView.hpp:27-30 | a hasher that tells apart two contents differing only after a NUL does not respect equality of views |
| StringView.LoseView | include/kpp/util/HashMap.hpp:32-66 | a map keyed by views with such a hasher answers null for a key equal to an inserted one |
| EchoDriver.RunKeepsDevice | include/driver/driver.cpp:6-51 | any run with any sizes, 64-bit offsets and faults keeps the length below 256 and byte 255 zero |
| EchoDriver.ReadGuarantees | include/driver/driver.cpp:26-39 | with any number of open files: a read gives the next min(size, rest) bytes, returns their number and moves the offset past them; 0 exactly at size 0 or the end, which a negative offset counts as; -EFAULT exactly when fewer can be copied, and then nothing moves |
| EchoDriver.WriteGuarantees | include/driver/driver.cpp:41-55 | a write that does not fault stores, terminates and returns min(size, 255) bytes and rewinds its file; -EFAULT exactly on a fault, and then length and offsets stay; no byte beyond the terminator changes |
| EchoDriver.WrittenIsRead | include/driver/driver.cpp:26-55 | after a write that does not fault, reads of any sizes give back the user's bytes, cut at 255 and at the sum of the sizes |
| EchoDriver.RunComposes | include/driver/driver.cpp:26-55 | a run applies its requests one after the other |
| EchoDriver.FaultKeepsTerminatorIff | include/driver/driver.cpp:45-47 | a faulting write keeps the terminator of the old content, whatever bytes it leaves behind, exactly when it is not longer than the old content |
| EchoDriver.FaultLosesTerminator | include/driver/driver.cpp:45-47 | a one-byte write to the empty device that faults and leaves unterminated content |
| EchoDriver.ReadsConcatenate | include/driver/driver.cpp:26-39 | reads of any sizes from any position give the next min(sum, rest) bytes |
| EchoDriver.ReadWholeContent | include/driver/driver.cpp:26-39 | from offset 0 the results concatenate to the content cut at the sum of the sizes, after the end reads return 0 |
| EchoDriver.EchoDriver.constructor | include/driver/driver.cpp:6-12 | zeroed buffer, length 0, lock free |
| EchoDriver.EchoDriver.CopyToUser | include/driver/driver.cpp:34-35 | the bytes that reach the user and whether a fault is reported |
| EchoDriver.EchoDriver.CopyFromUser | include/driver/driver.cpp:46-47 | the buffer after the copy, faulting or not |
| EchoDriver.EchoDriver.ReadCall | include/driver/driver.cpp:26-39 | the locked steps compute one read; the lock is free on every return path |
| EchoDriver.EchoDriver.WriteCall | include/driver/driver.cpp:41-55 | the locked steps compute one write; the lock is free on every return path |
| EchoThreads.StepOk | include/driver/driver.cpp:26-55 | every step of every thread keeps the device at the committed state, or at a known distance from it while one thread holds the lock |
| EchoThreads.Linearizable | include/driver/driver.cpp:26-55 | in every interleaving the commits form a sequential execution with the same results, and each call commits once between call and return |
| EchoThreads.CommitInsideCall | include/kpp/sync/ScopedLock.hpp:15-23 | a returned result was committed after its call and before its return, so the commit order respects real time |
| EchoThreads.ReadsAreSlices | include/driver/driver.cpp:33-38 | data returned by a read is a slice of the buffer between two commits, never a mix of two writes |
| EchoThreads.FreeLockMeansCommitted | include/kpp/sync/ScopedLock.hpp:15-23 | whenever the lock is free the device is in a state between calls |
| EchoThreads.LockDiscipline | include/kpp/sync/ScopedLock.hpp:15-23 | mutual exclusion, all accesses in bounds, no lock kept after a return by any path |
| EchoThreads.HistoryIsTrue | include/driver/driver.cpp:26-55 | starting a call adds exactly that call to the history, returning adds the thread's result |
| EchoThreads.CallsEnd | include/driver/driver.cpp:26-55 | from every state that satisfies the invariant a thread that is not waiting for a taken lock returns, with the lock given back, after finitely many steps of its own |
| EchoThreads.SomeoneCanGoOn | include/kpp/sync/ScopedLock.hpp:15-23 | no deadlock: while some call is under way, some thread can go on |
| Ioctl.DispatchIsFirstMatch | include/kpp/vfs/IoctlDSL.hpp:29-73 | for every command list, duplicates included, the fold runs the first command with the number, else -ENOTTY with nothing changed |
| Ioctl.HandledIsFinal | include/kpp/vfs/IoctlDSL.hpp:45-47 | once handled, ret and everything else stay |
| Ioctl.DispatchEffects | include/kpp/vfs/IoctlDSL.hpp:52-70 | at most one handler call, none after a failed copy in, user memory changes only for READ or READ_WRITE with handler result 0, and only in the sizeof(DataType) bytes of the argument |
| Ioctl.InputByDirection | include/kpp/vfs/IoctlDSL.hpp:49-61 | the first match of direction WRITE or READ_WRITE gets the user's bytes, or there is no call and -EFAULT if one of them cannot be read; of direction NONE or READ it gets zeros |
| Ioctl.OutputByDirection | include/kpp/vfs/IoctlDSL.hpp:61-72 | NONE and WRITE leave user memory alone and return the handler's result; READ and READ_WRITE deliver the handler's data if it answers 0, and -EFAULT exactly if some byte cannot be written |
| Ioctl.InputIndependentOfUser | include/kpp/vfs/IoctlDSL.hpp:49-61 | for NONE and READ the call and its effect on the owner do not depend on user memory |
| Ioctl.CopyOutEffect | include/kpp/vfs/UserData.hpp:10-18 | copy out fails exactly when a target address is not writable and changes nothing outside its range |
| Ioctl.CopyRoundTrip | include/kpp/vfs/UserData.hpp:10-28 | what is copied out comes back when copied in |
| Ioctl.IoctlHandler.ProcessCommand | include/kpp/vfs/IoctlDSL.hpp:42-73 | the direction-dependent steps in place compute one element of the fold and write no user byte outside the argument |
| Ioctl.IoctlHandler.HandleIoctl | include/kpp/vfs/IoctlDSL.hpp:29-39 | the loop over the commands computes the whole fold |
| Expected.StepOk | include/kpp/util/Expected.hpp:20-54 | every construct, move, assign and destroy keeps tag and live alternative in step and never destroys or overwrites wrongly |
| Expected.RunOk | include/kpp/util/Expected.hpp:20-54 | so does every run over any number of objects, moved-from ones included |
| Expected.ConstructDelivers | include/kpp/util/Expected.hpp:20-23 | a construction stores the given alternative with the given payload and the matching tag |
| Expected.MoveDelivers | include/kpp/util/Expected.hpp:37-54 | a move delivers the source's alternative and payload and changes no other object; an assignment destroys exactly the object it overwrites |
| Expected.DestroyDelivers | include/kpp/util/Expected.hpp:25-32 | a destruction removes the object and destroys what it held, once |
| Expected.RunComposes | include/kpp/util/Expected.hpp:20-54 | a run does its operations one after the other |
| Expected.AllDestroyedOnce | include/kpp/util/Expected.hpp:25-54 | once all objects are gone every T and E constructed was destroyed exactly once |
| Expected.Storages.RunDestructor | include/kpp/util/Expected.hpp:25-32 | runs the destructor the tag selects |
| Expected.Storages.RunMoveConstructor | include/kpp/util/Expected.hpp:37-44 | copies the tag, then builds the named alternative |
| Expected.Storages.Assign | include/kpp/util/Expected.hpp:46-54 | destroy in place, then move-construct in place, unless self |
| Ownership.StepOk | include/kpp/memory/UniquePtr.hpp:28-68 | every step of pointers, schedulers and workers keeps each allocation in one place with the right history |
| Ownership.GiveUpEffects | include/kpp/memory/UniquePtr.hpp:28-68 | the destructor removes the object and frees its allocation once; release() leaves the object null and the allocation unfreed with the caller |
| Ownership.MakeAndMoveEffects | include/kpp/memory/UniquePtr.hpp:36-95 | a new object has the new allocation, or none without memory; a moved-to object has what the other had, which is null afterwards; what an assignment overwrites is freed once |
| Ownership.ScheduleEffects | include/kpp/async/WorkQueue.hpp:27-36 | an item goes from its scheduler, through initialising and releasing, to the queue |
| Ownership.WorkEffects | include/kpp/async/WorkQueue.hpp:19-24 | an item goes from the queue to a worker, is run once and then freed once |
| Ownership.FatesAfter | include/kpp/memory/UniquePtr.hpp:28-68 | in every interleaving an allocation is with a caller exactly if a release() put it there, and a work item exactly if schedule_work made it |
| Ownership.NothingLeaks | include/kpp/memory/UniquePtr.hpp:28-68 | once no pointer holds anything, every allocation neither released nor scheduled was freed exactly once and never run |
| Ownership.OneOwner | include/kpp/memory/UniquePtr.hpp:28-95 | in every interleaving each allocation is in exactly one place: a pointer, a scheduler, escaped, queued, a worker, freed; nothing is freed twice or used after free |
| Ownership.DrainedMeansFinished | include/kpp/async/WorkQueue.hpp:19-36 | once the queue is drained every accepted item ran exactly once and was then freed exactly once |
| Ownership.ProceedOk | include/kpp/async/WorkQueue.hpp:28-36 | initialising, releasing and queueing an item keeps its single owner |
| Ownership.FreeItemOk | include/kpp/async/WorkQueue.hpp:19-24 | the callback's kfree frees an item that ran and is nowhere else |
| Ownership.UniquePtrs.Assign | include/kpp/memory/UniquePtr.hpp:44-56 | delete the old, take the new, null the source, unless self |
| Ownership.UniquePtrs.Take | include/kpp/memory/UniquePtr.hpp:63-68 | release gives the raw pointer away and nulls the object |
| Ownership.UniquePtrs.DestroyPtr | include/kpp/memory/UniquePtr.hpp:28-34 | the destructor frees what is owned |
| NetDevices.StepOk | include/kpp/net/XDP.hpp:18-61 | every operation keeps references = base + handles + attachments; it faults exactly for an attach through a null handle |
| NetDevices.FindOk | include/kpp/net/NetDevice.hpp:81-84 | a found device's reference is adopted by exactly one handle |
| NetDevices.HandleEffects | include/kpp/net/NetDevice.hpp:16-46 | a handle names what was found; a moved-to handle has what the other had, which is null afterwards; a destroyed handle is gone; nothing else changes but the references |
| NetDevices.AttachEffects | include/kpp/net/XDP.hpp:18-26 | the object is attached to the handle's device exactly if the kernel agrees, and then the program is the given one |
| NetDevices.AttachmentEffects | include/kpp/net/XDP.hpp:28-61 | a moved-to object has what the other had, which is empty afterwards; a destroyed or overwritten one takes its device's program along if the kernel agrees |
| NetDevices.RunConservesReferences | include/kpp/net/NetDevice.hpp:16-46 | so does every run; attached implies a non-null device |
| NetDevices.AttachKeepsLawIff | include/kpp/net/XDP.hpp:18-26 | an attach keeps "installed exactly where attached" exactly when it fails or its descriptor is not negative |
| NetDevices.DropKeepsLawIff | include/kpp/net/XDP.hpp:28-35 | a destruction keeps it exactly when the object was not attached, or the kernel removes the program exactly if nobody else is attached to the device |
| NetDevices.AssignKeepsLawIff | include/kpp/net/XDP.hpp:46-61 | the same for the overwritten object of a move assignment |
| NetDevices.StepKeepsLawIff | include/kpp/net/XDP.hpp:18-61 | the exact condition for every operation |
| NetDevices.RunKeepsLawIff | include/kpp/net/XDP.hpp:18-61 | it holds throughout a run exactly when every operation meets its condition, for every answer of the kernel |
| NetDevices.RunKeepsLaw | include/kpp/net/XDP.hpp:18-61 | it holds throughout every run in which no device has two attachments at once, successful attaches have a non-negative descriptor, and detaches succeed |
| NetDevices.SecondAttachmentBreaksLaw | include/kpp/net/XDP.hpp:28-35 | a run in which dropping one of two attachments leaves the other without a program |
| NetDevices.FailedDetachBreaksLaw | include/kpp/net/XDP.hpp:28-35 | a run in which a failing detach leaves a program with nobody attached |
| NetDevices.NegativeDescriptorBreaksLaw | include/kpp/net/XDP.hpp:18-26 | a run in which a successful attach installs nothing |
| NetDevices.NullAttachFaults | include/kpp/net/XDP.hpp:18-20 | a run that dereferences a null device |
| NetDevices.Devices.AttachTo | include/kpp/net/XDP.hpp:18-26 | the constructor's steps in place |
| NetDevices.Devices.DropAttached | include/kpp/net/XDP.hpp:28-35 | the destructor's steps in place, with the kernel's ignored answer |
| NetDevices.Devices.Assign | include/kpp/net/XDP.hpp:46-61 | detach, whatever the kernel answers, take over, null the source, unless self |
| NetDevices.Devices.AssignDevice | include/kpp/net/NetDevice.hpp:34-46 | put the old device, take the new, null the source, unless self |

## Left out

- `FileOperations` and its trampolines: dispatch depends on vtable layout and on virtual calls inside a base constructor; the driver's read and write are called directly.
- Module init and exit, character devices, sysfs, debugfs, kobjects and the status example: kernel calls whose behaviour is not visible.
- Sockets, netlink, netfilter, SKB access and BPF execution: foreign calls; the firewall rule is one branch.
- The other move-only wrappers (`KSet`, `Dentry`, `DstEntry`, `KernelSocket`, `SKB`, `BPFProgram`): the `UniquePtr` pattern again.
- One-line wrappers over kernel primitives (`Atomic`, `Semaphore`, `Completion`, `SpinLock`, `Kref`, `PerCPU`, `Timer`, `Page`, `Poll`) and logging.
- Running `~T` on `UniquePtr` deletion: the default deleter only calls kfree, so only the freeing of memory is modelled.
- Weak memory: each atomic operation is one sequentially consistent step.
- The public two-argument `SharedPtr` constructor with unrelated pointers: handles come from `make_shared`.
- Destroying a `HashMap` or a `List` with linked nodes: the original frees neither nodes nor links.
- Aliasing between C++ objects in `SharedHeap`, `Storages`, `UniquePtrs` and `Devices`: objects are keys of maps that the methods reassign, so two different keys never share storage.
- SharedHeap.SharedHeap.MakeShared: the members of a new object start null; constructor arguments that fill them are modelled as the assignments that follow (`AssignToNullConstructs`).
- The `flags` of an XDP attach: they only influence the kernel's answer, which is a parameter.
- StringView.Compare: the case of a null `data_` with a positive size is excluded, the original would read through the null pointer.
