# Verified model of the D3DMetal pipeline-state cache

This project models the native helper library `d3dmetal-pso-cache` of a Wine distribution
(pipeline cache, execution leases, FSR to MetalFX translation, key bytes, and the half-float,
fence, upload and start-gate code of its D3D12 tests), together with two small pieces of the
Wine headers (RIFF chunk walking and Bluetooth UUID matching), and proves properties of them
with Dafny 4.11. `dafny verify dfyconfig.toml` checks everything.

## What is modelled

* **Pipeline cache** (`WaitGraph`, `PipelineCache`, `PipelineCacheInvariant`,
  `PipelineCacheTheorems`, `PipelineCacheService`, `PipelineCacheProgress`, `PipelineCacheImpl`).
  Any number of threads interleave the critical sections of `Cache::Impl`. Creation functions and
  retirement actions are foreign code that may call the cache again, so each thread has a stack of
  frames, and the thread-local `activeProducer`, the saved `previous_` of each guard and the
  `waitingOn` pointers are state. Memory exhaustion is a choice of the environment wherever the
  code catches `std::bad_alloc`. The main results: one creation in flight per scope and key, every
  caller gets the one published outcome, successes are reused and failures are not, no entry from
  before a detach is met after it, nothing is admitted during a retirement, waits never deadlock
  because the graph of `waitingOn` edges stays acyclic, and every call in progress can be brought
  to its end. A device address in the model stands for a pair of a cache object and an address, so
  several `Cache` objects sharing the wait graph are covered.
* **Execution leases** (`LeaseStore`, `LeaseStoreTheorems`, `LeaseStoreLifetimes`,
  `LeaseStoreWitnesses`, `LeaseStoreObjects`). Retain, publish, the two separately locked phases
  of retire, direct erasure and the loss of the owner, with both mutexes, the weak owner pointer
  and the strong references to each slot as state: a slot is freed with its last reference, and a
  step that uses a slot needs it alive. A retire may run on a reference of its own, as a feedback
  block does on its capture, or on a bare pointer.
* **Half-float codec** (`Bits`, `Binary32`, `HalfFloat`, `HalfCodec`). Unsigned bit operations on
  natural numbers; values are exact integers in units of 2^-149. `half` is proved to round to
  nearest with ties away from zero exactly outside one family of inputs, on which ORing the
  rounded mantissa loses its carry.
* **FSR contract** (`FsrContract`, `FsrFrame`). Floats are their 32 bits, so NaNs, infinities and
  both zeros are inputs like any other.
* **Fence protocol, texture upload, start gate** (`FenceProtocol`, `FenceLaps`, `TextureUpload`,
  `StartGate`). The GPU queue, the fence, the auto-reset event and the condition variable are
  abstract machines with their documented behaviour, spurious wakeups included.
* **Key bytes** (`KeyBytes`), **reference ownership** (`NativeResult`), **RIFF walking**
  (`RiffWalk`) and **Bluetooth UUIDs** (`BluetoothUuid`).

Where a property does not hold for all inputs, the exact condition is proved and the failing
family is exhibited: the lost carry of `half`, a retain or publication after a retire has begun, a
retire on a bare pointer that nothing protects, a 32-bit row offset that wraps, a fence counter
that wraps, any number of callers at the gate but two, an odd RIFF size of 2^32-1, and an upscale
size below the render size.

## Model

| member | source | states |
|---|---|---|
| WaitGraph.LeadsBack | d3dmetal-pso-cache/cache.mm:172-178 | the cycle walk terminates on every acyclic graph and reports exactly reachability of the waiting entry |
| WaitGraph.NewEdgeClosesCycle | d3dmetal-pso-cache/cache.mm:166-180 | an edge out of an entry that waits on nothing keeps the graph acyclic if and only if its target does not lead back |
| PipelineCacheInvariant.StepInv | d3dmetal-pso-cache/cache.mm:204-385 | every critical section of every thread keeps the whole invariant (tables, entries, frames, active producers, edges, acyclicity, retirements) |
| PipelineCacheTheorems.OneCreationInFlight | d3dmetal-pso-cache/cache.mm:223-234 | in every reachable state two frames creating for the same scope and key are the same frame |
| PipelineCacheTheorems.EntriesAreFinal | d3dmetal-pso-cache/cache.mm:271-301 | across any run an entry keeps scope, key and producer, and a completed entry never changes again |
| PipelineCacheTheorems.SuccessIsReused | d3dmetal-pso-cache/cache.mm:293-301 | once an entry succeeded it is the listed one at every later time and nothing creates for its scope and key again |
| PipelineCacheTheorems.FailureIsRetried | d3dmetal-pso-cache/cache.mm:271-300 | an entry that completed without success is in no table from then on; what success is, ListedExactlyIfUsable says |
| PipelineCacheService.ListedExactlyIfUsable | d3dmetal-pso-cache/cache.mm:271-301 | from its publication on an entry is listed under its scope and key if the creation gave a state and no error, and nowhere if it gave a nil state, an error or either kind of exception |
| PipelineCacheService.ScopeIsKept | d3dmetal-pso-cache/cache.mm:306-334 | whatever happens to other devices, a device keeps its scope until it is itself forgotten or retired |
| PipelineCacheService.SuccessServesItsDevice | d3dmetal-pso-cache/cache.mm:204-255 | once a creation for a device and key gave a state and no error, every later call for them until the device is detached is admitted to the same scope and returns that very outcome |
| PipelineCacheService.CallGetsItsOwnKey | d3dmetal-pso-cache/cache.mm:204-303 | a call that returns through the cache, as a hit, a waiter or the producer, returns an entry of its own key in a scope its own device led to during the call |
| PipelineCacheService.MissCreatesTheEntry | d3dmetal-pso-cache/cache.mm:224-233 | a missing key makes the caller the producer of a new listed entry if memory allows, and changes nothing otherwise |
| PipelineCacheService.ListedEntryIsUsed | d3dmetal-pso-cache/cache.mm:234-255 | a listed entry is returned if complete; otherwise the caller waits for that very entry unless that would close a cycle |
| PipelineCacheService.SelfCallBypasses | d3dmetal-pso-cache/cache.mm:166-241 | a creation function that asks for the entry it is itself producing bypasses the cache, from every reachable state |
| PipelineCacheService.ForeignCodeMayCall | d3dmetal-pso-cache/cache.mm:204-339 | creation functions, with or without an entry, and retirement actions can call the cache, forget devices and begin retirements |
| PipelineCacheTheorems.CompleteMeansPublished | d3dmetal-pso-cache/cache.mm:258-302 | every completed entry got its outcome from an earlier publication by the thread that owns it |
| PipelineCacheTheorems.PublishedOnce | d3dmetal-pso-cache/cache.mm:258-302 | no entry is published twice in any run |
| PipelineCacheTheorems.CallersGetThePublishedOutcome | d3dmetal-pso-cache/cache.mm:235-255 | producer, waiters and later hits all get exactly the outcome published for their entry, hits only successes, so the missing-result error cannot arise |
| PipelineCacheTheorems.WaitersSurviveDetach | d3dmetal-pso-cache/cache.hpp:56-58 | whatever other threads do, detaching included, a sleeping waiter keeps its frame and its entry, and can return once that entry completes |
| PipelineCacheTheorems.ScopeIsFreshAfterDetach | d3dmetal-pso-cache/cache.mm:306-334 | at any time after a detach the address leads to no scope that existed at the detach |
| PipelineCacheTheorems.NoEntryFromBeforeDetach | d3dmetal-pso-cache/cache.hpp:56-65 | a call admitted after a detach only ever meets entries made after it |
| PipelineCacheTheorems.RetirementBlocksAdmission | d3dmetal-pso-cache/cache.mm:361-385 | while some frame retires an address it has no scope and calls bypass the cache; otherwise calls are admitted if memory allows |
| PipelineCacheService.RetirementLastsItsAction | d3dmetal-pso-cache/cache.mm:319-339 | from the beginning of a retirement until its action has returned the device has no scope and calls for it bypass the cache |
| PipelineCacheTheorems.NoDeadlock | d3dmetal-pso-cache/cache.mm:137-198 | whoever sleeps waits, along finitely many sleeping producers, for a producer that is awake and has an enabled step |
| PipelineCacheProgress.EveryCallCanReturn | d3dmetal-pso-cache/cache.mm:204-339 | from every reachable state steps that begin no further call lead to a state in which every call of every thread has returned |
| PipelineCacheTheorems.BypassOnlyInsteadOfCycle | d3dmetal-pso-cache/cache.mm:236-243 | the code refuses to wait if and only if waiting would have made the wait graph cyclic |
| PipelineCacheTheorems.EdgesNeverDangle | d3dmetal-pso-cache/cache.mm:126-197 | both ends of every stored waitingOn pointer are entries held by running frames of one thread |
| PipelineCacheImpl.Impl.ScopeFor | d3dmetal-pso-cache/cache.mm:370-385 | takes exactly the admission step and keeps the invariant; gives no scope exactly during a retirement or for lack of memory, and otherwise the one the device then leads to |
| PipelineCacheImpl.Impl.IsRetired | d3dmetal-pso-cache/cache.mm:372-377 | the loop finds whether any retirement record names the address |
| PipelineCacheImpl.Impl.FindOrInsert | d3dmetal-pso-cache/cache.mm:220-256 | takes exactly the lookup step; a hit returns the stored outcome of the complete listed entry, an entry in flight is waited for or bypassed, a miss is produced or bypassed |
| PipelineCacheImpl.Impl.Join | d3dmetal-pso-cache/cache.mm:166-180 | waits for the entry it was given, or bypasses exactly if that entry leads back to the one the thread produces |
| PipelineCacheImpl.Impl.WakeUp | d3dmetal-pso-cache/cache.mm:242-254 | takes exactly the wake step and returns the stored outcome |
| PipelineCacheImpl.Impl.Complete | d3dmetal-pso-cache/cache.mm:271-302 | takes exactly the publication step for results and both kinds of exception; the entry holds the outcome and stays listed exactly for a state without error |
| PipelineCacheImpl.Impl.EndProducing | d3dmetal-pso-cache/cache.mm:148-303 | restores the previous producer, drops exactly its edge and returns the outcome of the entry |
| PipelineCacheImpl.Impl.ForgetDevice | d3dmetal-pso-cache/cache.mm:306-317 | takes exactly the detaching step: the device has no scope and all others keep theirs |
| PipelineCacheImpl.Impl.RetireDevice | d3dmetal-pso-cache/cache.mm:319-334 | links the record and detaches in one step, and all other devices keep their scopes |
| PipelineCacheImpl.Impl.UnlinkRetirement | d3dmetal-pso-cache/cache.mm:361-368 | removes exactly the record of the ending retirement |
| PipelineCacheImpl.RemoveRecord | d3dmetal-pso-cache/cache.mm:361-368 | the unguarded list walk stays in bounds because the record is linked, and removes one occurrence of that record and nothing else |
| LeaseStore.StepInv | d3dmetal-pso-cache/d3dmetal-transport.hpp:103-136 | every step of every interleaving of retains, publications, retires, direct erasures, reference drops and the loss of the owner keeps locks, lifetimes, references, leases and list consistent |
| LeaseStoreTheorems.StoreHoldsTheUnretired | d3dmetal-pso-cache/d3dmetal-transport.hpp:107-135 | when all retires and erasures are finished the store is the retained slots that were not retired, in order and multiplicity, if and only if no slot was retained after its retirement began and every retained slot that was retired belongs to this store or was erased directly |
| LeaseStoreTheorems.RetainFirstIsEnough | d3dmetal-pso-cache/d3dmetal-transport.mm:396-411 | retaining each slot before its retire or erasure begins leaves no late retain in any run |
| LeaseStoreTheorems.RetiredSlotsLeave | d3dmetal-pso-cache/d3dmetal-transport.mm:396-411 | if every slot is retained before its retirement begins and is constructed with this store as its owner, the store at rest is exactly the retained slots that were not retired |
| LeaseStoreWitnesses.LateRetainStaysListed | d3dmetal-pso-cache/d3dmetal-transport.hpp:107-114 | a reachable quiescent state in which a slot retained late stays in the store, empty |
| LeaseStoreTheorems.UnretiredStaysListed | d3dmetal-pso-cache/d3dmetal-transport.hpp:107-114 | a retained slot whose retirement or direct erasure has not begun is listed as long as the store exists |
| LeaseStoreTheorems.LeaseKeptUntilRetired | d3dmetal-pso-cache/d3dmetal-transport.hpp:129-133 | in every interleaving a slot keeps its lease until its own retirement begins |
| LeaseStoreTheorems.PublishedLeaseIsKept | d3dmetal-pso-cache/d3dmetal-transport.mm:375-391 | the lease published last into a slot is the one it holds until its retirement begins |
| LeaseStoreTheorems.NewSlotIsKept | d3dmetal-pso-cache/d3dmetal-transport.hpp:126-128 | a slot holds the lease it was constructed with until another is published or its retirement begins, and keeps its owner for good |
| LeaseStoreTheorems.OperationKeepsItsArguments | d3dmetal-pso-cache/d3dmetal-transport.hpp:103-136 | from its beginning to its end an operation works on the slot, and publishes the lease, it was called with |
| LeaseStoreTheorems.OperationsMayBegin | d3dmetal-pso-cache/d3dmetal-transport.hpp:103-136 | retires and publications can begin on any live slot with or without the owner, retains and erasures while it exists |
| LeaseStoreTheorems.HistoryIsOfTheSteps | d3dmetal-pso-cache/d3dmetal-transport.hpp:107-135 | what the other theorems call retained, begun and erased directly is what the steps of the run did |
| LeaseStoreTheorems.HandlesAreCounted | d3dmetal-pso-cache/d3dmetal-transport.mm:396-411 | references outside the store are one for the maker plus one for every copy minus one for every drop |
| LeaseStoreTheorems.ErasedSlotsAreEmpty | d3dmetal-pso-cache/d3dmetal-transport.hpp:111-135 | a slot is destroyed under the store mutex only by a retire on a bare pointer of that very slot, when the store held the last reference, and the lease destroyed with it is empty if and only if none was published since the reset |
| LeaseStoreTheorems.PublishFirstIsEnough | d3dmetal-pso-cache/d3dmetal-transport.mm:375-391 | publishing before the retire begins leaves no lease that an erasure could destroy |
| LeaseStoreWitnesses.LateLeaseDestroyedUnderStoreMutex | d3dmetal-pso-cache/d3dmetal-transport.hpp:111-135 | a reachable state in which a lease published after the reset is about to be destroyed under the store mutex |
| LeaseStoreTheorems.FreedStaysFreed | d3dmetal-pso-cache/d3dmetal-transport.hpp:103-136 | a slot whose last reference is gone is never referred to again |
| LeaseStoreTheorems.UntouchedSlotsAreNotUsed | d3dmetal-pso-cache/d3dmetal-transport.hpp:107-135 | the steps that need no live slot neither read nor write any slot or slot mutex |
| LeaseStoreTheorems.HeldSlotsLive | d3dmetal-pso-cache/d3dmetal-transport.hpp:117-135 | the only thread that can stand before a freed slot is a retire that owns no reference |
| LeaseStoreTheorems.NoUseAfterFree | d3dmetal-pso-cache/d3dmetal-transport.mm:828-831 | if every operation owns a reference, as the feedback block does by its capture, no step of any run touches a freed slot |
| LeaseStoreLifetimes.AliveExactlyIfProtected | d3dmetal-pso-cache/d3dmetal-transport.hpp:111-135 | in every reachable state a thread about to use a slot is sure to find it alive, whatever the others do first, if and only if it owns a reference or is inside the slot's mutex and keeps a thread waiting there that owns one; on a bare pointer before or after that mutex it never is |
| LeaseStoreTheorems.SoleRetirerIsSafe | d3dmetal-pso-cache/d3dmetal-transport.hpp:129-135 | a retire on a bare pointer touches no freed slot either while the owner keeps the store, if the store lists the slot and no other thread retires or erases it |
| LeaseStoreWitnesses.SecondRetirerTouchesFreed | d3dmetal-pso-cache/d3dmetal-transport.hpp:111-135 | a reachable state in which the first of two retires on bare pointers has freed the slot that the second is about to lock |
| LeaseStoreWitnesses.OwnerFreesTheSlot | d3dmetal-pso-cache/d3dmetal-transport.hpp:123-135 | a reachable state in which the owner has freed the slot that the only retire, on a bare pointer, is about to lock |
| LeaseStoreTheorems.OneMutexAtATime | d3dmetal-pso-cache/d3dmetal-transport.hpp:129-135 | no thread ever holds two of the mutexes |
| LeaseStoreTheorems.NoDeadlock | d3dmetal-pso-cache/d3dmetal-transport.hpp:107-135 | a thread in an operation can step, or the holder of the mutex it wants can, unless that one stands before a freed slot |
| LeaseStoreTheorems.StoreOutlivesItsUsers | d3dmetal-pso-cache/d3dmetal-transport.hpp:123-134 | the store is alive for every thread that has locked the weak owner, is retaining or is erasing directly |
| LeaseStoreObjects.ExecutionLeaseStore.Retire | d3dmetal-pso-cache/d3dmetal-transport.hpp:111-114 | removes every occurrence of the slot and keeps all others in order |
| LeaseStoreObjects.ExecutionSlot.Retire | d3dmetal-pso-cache/d3dmetal-transport.hpp:129-135 | empties the lease and erases the slot from its owner if there still is one |
| HalfFloat.HalfByFields | d3dmetal-pso-cache/d3d12-test-helpers.hpp:39-53 | the masks, shifts and ORs are sign, exponent and mantissa arithmetic |
| HalfFloat.TwoShiftsRoundOnce | d3dmetal-pso-cache/d3d12-test-helpers.hpp:47-48 | a truncating shift followed by a rounding shift is one rounding to nearest |
| HalfFloat.HalfIsNearest | d3dmetal-pso-cache/d3d12-test-helpers.hpp:39-53 | for every finite float the result has its sign and is nearest with ties away from zero, overflow included, if and only if the carry is not lost; if it is lost the result is half the nearest one; infinities and NaNs give infinity |
| HalfFloat.CarryLostValue | d3dmetal-pso-cache/d3d12-test-helpers.hpp:51-52 | on every input whose carry is lost the result is the power of two below the right one |
| HalfFloat.CarryLostExample | d3dmetal-pso-cache/d3d12-test-helpers.hpp:51-52 | the smallest such input is 0x38fff000 |
| HalfFloat.CarryLostEvaluated | d3dmetal-pso-cache/d3d12-test-helpers.hpp:51-52 | its result is 0x400, the bits of 2^-14 |
| HalfCodec.ToHalf | d3dmetal-pso-cache/d3d12-test-helpers.hpp:39-53 | the procedure returns the nearest number of the same sign, ties away from zero, if and only if the carry is not lost, half of it if it is lost, and infinity for infinities and NaNs |
| HalfCodec.Normalize | d3dmetal-pso-cache/d3d12-test-helpers.hpp:64-69 | the loop terminates with the leading bit in place and the denoted number unchanged |
| HalfCodec.FromHalf | d3dmetal-pso-cache/d3d12-test-helpers.hpp:55-79 | yields the float denoting exactly the same number, and converting back gives the same bits, except that a NaN becomes the infinity of its sign |
| HalfCodec.ExactRoundTrip | d3dmetal-pso-cache/d3d12-test-helpers.hpp:39-53 | any float that is exactly a binary16 number converts to that number |
| FenceProtocol.StepInv | d3dmetal-pso-cache/d3d12-test-helpers.hpp:100-122 | each step of the caller or the queue keeps the protocol invariant while the counter does not wrap |
| FenceProtocol.FenceValuesIncrease | d3dmetal-pso-cache/d3d12-test-helpers.hpp:116-117 | later signals carry strictly larger values while fewer than 2^64 were signalled |
| FenceProtocol.ValuesIncreaseExactlyBelowWrap | d3dmetal-pso-cache/d3d12-test-helpers.hpp:116-117 | later signals carry larger values in all runs of up to n submissions if and only if n is below 2^64 |
| FenceProtocol.CallsLeaveNothingBehind | d3dmetal-pso-cache/d3d12-test-helpers.hpp:113-122 | between calls all submitted work is complete, the event is unset and nothing is registered, while fewer than 2^64 values were signalled |
| FenceProtocol.CallsAreCleanExactlyBelowWrap | d3dmetal-pso-cache/d3d12-test-helpers.hpp:113-122 | all calls of all runs of up to n submissions leave nothing behind if and only if n is below 2^64 |
| FenceProtocol.SubmissionsReach | d3dmetal-pso-cache/d3d12-test-helpers.hpp:100-122 | any number of submissions below 2^64 can be made and completed |
| FenceProtocol.WaitIsNotStale | d3dmetal-pso-cache/d3d12-test-helpers.hpp:118-121 | while fewer than 2^64 values were signalled a wait returns only for the value of its own submission |
| FenceLaps.WaitsAreFreshExactlyForTwoLaps | d3dmetal-pso-cache/d3d12-test-helpers.hpp:113-122 | in all runs of up to n submissions a wait returns only when its own submission and all work is complete, if and only if n is at most 2^65 |
| FenceLaps.StaleWait | d3dmetal-pso-cache/d3d12-test-helpers.hpp:116-121 | a state reached by a run of 2^65+1 submissions in which a wait is met by a signal of the lap before |
| FenceProtocol.AllocatorIsUnusedWhenDropped | d3dmetal-pso-cache/d3d12-test-helpers.hpp:100-109 | no pending work was recorded with the allocator that begin drops |
| FenceProtocol.AllocatorsAreUnusedExactlyBelowWrap | d3dmetal-pso-cache/d3d12-test-helpers.hpp:100-122 | begin drops no allocator with pending work in any run of up to n submissions if and only if n is below 2^64 |
| FenceProtocol.AllocatorsAreCounted | d3dmetal-pso-cache/d3d12-test-helpers.hpp:100-115 | every begin makes a new allocator and nothing is submitted before the first |
| FenceProtocol.TimeoutIsFinal | d3dmetal-pso-cache/d3d12-test-helpers.hpp:120 | a wait can time out at any time and the caller then does nothing any more |
| FenceProtocol.WaitIsNotStuck | d3dmetal-pso-cache/d3d12-test-helpers.hpp:118-121 | a waiting thread can return exactly when the queue is empty, and otherwise the queue can run |
| FenceProtocol.WrappedCounterSkipsTheWait | d3dmetal-pso-cache/d3d12-test-helpers.hpp:116-118 | a state reached by a run of 2^64 submissions in which the last call has returned with its own work pending |
| TextureUpload.UploadRows | d3dmetal-pso-cache/d3d12-test-helpers.hpp:222-226 | the loop stays in bounds and leaves the buffer as the row-by-row reference does |
| TextureUpload.UploadIsExact | d3dmetal-pso-cache/d3d12-test-helpers.hpp:222-226 | without wrap every row is in place and every padding byte unchanged |
| TextureUpload.ExactIffNoWrap | d3dmetal-pso-cache/d3d12-test-helpers.hpp:222-226 | all images arrive exactly in all buffers if and only if (rows-1)*RowPitch is below 2^32 |
| FsrContract.ValidateCreate | d3dmetal-pso-cache/fsr-contract.cpp:21-39 | accepts exactly the valid packets, writes only on Ok, and the backend's accessors read back what was asked, low-resolution motion being the negated display-motion bit |
| FsrContract.FeatureBits | d3dmetal-pso-cache/fsr-contract.cpp:31-37 | the backend's bits are bits 0, 2 and 3 of the request, bit 1 negated and bit 5 as bit 6 |
| FsrContract.BoundsAreOneAndPi | d3dmetal-pso-cache/fsr-contract.cpp:70-77 | the bounds are 1.0 and the float nearest to the decimal written for pi |
| FsrFrame.ValidateFrame | d3dmetal-pso-cache/fsr-contract.cpp:41-127 | judges by the first violated clause of the ordered list, with its status and message, or translates |
| FsrFrame.AcceptedFrameCarriesThePacket | d3dmetal-pso-cache/fsr-contract.cpp:89-125 | every field of an accepted frame is the packet's of that name: resources, presence, sizes, numbers, exposure mode, colour transfer by flag value, masks, sharpening, capping, frame time and camera |
| FsrFrame.AcceptedNumbersAreInRange | d3dmetal-pso-cache/fsr-contract.cpp:68-80 | every number of an accepted frame is finite and the bounded ones denote values in their ranges |
| FsrFrame.AcceptedResourcesAreUsable | d3dmetal-pso-cache/fsr-contract.cpp:51-60 | in an accepted frame required and given optional resources come with a nonzero state of ten bits |
| FsrFrame.VerdictMeaning | d3dmetal-pso-cache/fsr-contract.cpp:43-87 | Ok iff no clause is violated, Unsupported iff only the debug view is, output untouched otherwise, detail naming the first violation |
| FsrFrame.VerdictIsUnique | d3dmetal-pso-cache/fsr-contract.cpp:41-127 | the specification allows exactly one verdict per input |
| FsrFrame.CombinedStateTest | d3dmetal-pso-cache/fsr-contract.cpp:55-57 | the one OR-ed mask test is seven separate tests |
| FsrFrame.BoundIsOfValues | d3dmetal-pso-cache/fsr-contract.cpp:70-77 | the upper-bound tests compare the numbers denoted |
| FsrFrame.SignTestsAreOfValues | d3dmetal-pso-cache/fsr-contract.cpp:70-80 | the tests for negative and non-positive values compare the numbers denoted, both zeros alike |
| FsrFrame.DefaultUpscaleIsFullSize | d3dmetal-pso-cache/fsr-contract.cpp:48-67 | for every created context a (0,0) request and an explicit full-size request get the same status, detail and contract |
| FsrFrame.LargerContextAcceptsMore | d3dmetal-pso-cache/fsr-contract.cpp:62-67 | enlarging both extents keeps every accepted explicit-size frame accepted with the identical contract |
| FsrFrame.RectanglesAreInside | d3dmetal-pso-cache/fsr-contract.cpp:97-104 | all rectangles are nonempty and inside the extents, motion being the colour or the output rectangle |
| FsrFrame.OutputCoversColorExactly | d3dmetal-pso-cache/fsr-contract.cpp:61-67 | an accepted output is at least as large as its input if and only if the default or a large enough size was asked for |
| FsrFrame.ShrinkingFrameIsAccepted | d3dmetal-pso-cache/fsr-contract.cpp:62-67 | a frame smaller than its input that is accepted |
| FsrFrame.ExposureModesAgree | d3dmetal-pso-cache/fsr-contract.cpp:111-112 | the mode from API bit 5 agrees with the backend's reading of bit 6 |
| FsrFrame.BackendDeterminesTheRequest | d3dmetal-pso-cache/metalfx-contract.hpp:27-55 | two created backends are equal if and only if the packets agree on four sizes and five bits |
| Binary32.KeyOrdersValues | d3dmetal-pso-cache/fsr-contract.cpp:70-80 | finite floats compare like their sign-magnitude bits |
| StartGate.GateHolds | d3dmetal-pso-cache/smoke.cpp:174-237 | with two callers nobody passes before both arrive and results are read only after both are stored, in every schedule with spurious wakeups |
| StartGate.NeverStuck | d3dmetal-pso-cache/smoke.cpp:176-180 | until the results are read some step is possible without a spurious wakeup |
| StartGate.ResultsCanBeRead | d3dmetal-pso-cache/smoke.cpp:174-237 | with two callers the results can be read from every reachable state |
| StartGate.ThirdCallerIsStranded | d3dmetal-pso-cache/smoke.cpp:178-179 | with any number of callers everyone after the second sleeps forever |
| StartGate.ThirdCallerCanStrandTheFirst | d3dmetal-pso-cache/smoke.cpp:178-179 | a run in which the third arrival keeps a notified caller asleep |
| StartGate.LoneCallerNeverPasses | d3dmetal-pso-cache/smoke.cpp:178-179 | a single caller never passes |
| StartGate.GateIsForTwo | d3dmetal-pso-cache/smoke.cpp:174-180 | from every reachable state every one of n callers can still get through if and only if there are exactly two, or none |
| KeyBytes.Buffer.Append | d3dmetal-pso-cache/key.mm:22-60 | appends the bytes the source held before the call, even a range of the key itself across reallocation, fails exactly if the size would pass 64 bits, and leaves the inline buffer exactly beyond 1024 bytes |
| KeyBytes.Buffer.AliasTestIsExact | d3dmetal-pso-cache/key.mm:32-39 | the address test holds exactly for ranges of the current contents |
| KeyBytes.Buffer.Clear | d3dmetal-pso-cache/key.hpp:36-39 | empties the key and returns to the inline buffer |
| KeyBytes.Replay | d3dmetal-pso-cache/key.hpp:32-54 | after any sequence of appends and clears the first size() bytes at data() are the expected key |
| KeyBytes.ConcatenationSinceClear | d3dmetal-pso-cache/key.hpp:32-54 | the expected key is the concatenation of what was appended since the last clear |
| NativeResult.ReferencesAreConserved | d3dmetal-pso-cache/cache.mm:18-61 | over any program each retain count is the references owned by live results and callers |
| NativeResult.LiveResultsReferToLiveObjects | d3dmetal-pso-cache/cache.mm:45-49 | nothing a live result refers to has been freed |
| NativeResult.NothingLeaks | d3dmetal-pso-cache/cache.mm:45-61 | when all results are destroyed and callers have released, every count is zero |
| NativeResult.ConstructThenTake | d3dmetal-pso-cache/cache.mm:18-19 | construction adopts the state and retains the others, and each take gives back the argument of its name |
| NativeResult.AllocateThenRelease | d3dmetal-pso-cache/cache.hpp:12-14 | a caller's own object has one reference and is gone once that is released |
| NativeResult.CopyThenDestroyChangesNothing | d3dmetal-pso-cache/cache.mm:21-24 | a copy refers to the same objects and is independent |
| NativeResult.MoveIsCopyThenDrop | d3dmetal-pso-cache/cache.mm:26-29 | a move is a copy followed by dropping the source |
| NativeResult.MoveAssignIsDestroyThenMove | d3dmetal-pso-cache/cache.mm:31-43 | move assignment destroys the target and moves, and does nothing to itself |
| NativeResult.TakeThenReleaseIsDestroy | d3dmetal-pso-cache/cache.mm:51-61 | each of the three takes transfers exactly the reference that destruction would have released, whatever else the result holds, and changes nothing if there is none |
| RiffWalk.WalkChunks | include/aviriff.h:43-44 | the loop terminates on arbitrary bytes and computes the walk and its end |
| RiffWalk.FccIsLittleEndian | include/aviriff.h:39-41 | the first byte of a code is its least significant one |
| RiffWalk.CodeIsReadBack | include/aviriff.h:26-41 | the code of a laid-out chunk is read back from its header |
| RiffWalk.NextAdvances | include/aviriff.h:43-44 | every step advances by an even amount of at least eight |
| RiffWalk.WalkReadsHeaders | include/aviriff.h:26-44 | a walk reads only whole headers at even offsets |
| RiffWalk.WalkIsShort | include/aviriff.h:43-44 | a walk over arbitrary bytes reads at most one header for every eight bytes |
| RiffWalk.NextLandsOnTheNextChunk | include/aviriff.h:43-44 | a step lands on the next chunk if and only if the size is not 2^32-1, from which it lands inside the payload |
| RiffWalk.WalkVisitsExactlyTheChunks | include/aviriff.h:26-44 | for any laid-out chunk list the walk visits exactly the starts if and only if no chunk has size 2^32-1, and it then ends at the end |
| BluetoothUuid.MemoryDeterminesGuid | include/bthledef.h:92 | comparing the sixteen bytes compares all fields |
| BluetoothUuid.IsMatch | include/bthledef.h:71-93 | a match is equality of the expanded UUIDs in every mix of forms, hence an equivalence |
| BluetoothUuid.ShortIsWrittenOut | include/bthledef.h:69-82 | a short UUID stands for 0000xxxx-0000-1000-8000-00805f9b34fb, byte for byte |
| BluetoothUuid.LongMatchesOneShort | include/bthledef.h:78-90 | a long UUID matches at most one short one |

## Left out

- Freeing of scopes and entries: identifiers are never reused, so the model shows that everything reachable stays valid but not when memory is returned.
- Retention of key resources by cache entries, and the byte hash that selects a bucket.
- PipelineCacheTheorems.NoDeadlock: assumes that creation functions and retirement actions themselves return; they are foreign code.
- PipelineCacheProgress.EveryCallCanReturn: assumes the same, and says that all calls can return, not that a given scheduler lets them.
- The function cache, the stage cache, the persistent-cache warm-up and the hooks: further caches of the same library, not modelled.
- The registry of pending command buffers in the transport and the locks around it.
- LeaseStoreObjects.ExecutionSlot.Retire: one uninterrupted call on live objects, without the mutexes or an owner that expires half-way; those interleavings are in LeaseStore.
- LeaseStoreObjects.ExecutionLeaseStore.Retire: one uninterrupted call without the mutex.
- LeaseStoreTheorems.SoleRetirerIsSafe: a sufficient condition on the rest of one run; the exact condition over all continuations is LeaseStoreLifetimes.AliveExactlyIfProtected.
- FenceProtocol.FenceValuesIncrease: the half below the wrap; the exact bound is ValuesIncreaseExactlyBelowWrap.
- FenceProtocol.WaitIsNotStale: the values of the first lap; the exact bound is FenceLaps.WaitsAreFreshExactlyForTwoLaps.
- LeaseStore: running out of memory while the store's vector grows, and the storage of a destroyed slot.
- FenceProtocol: the command list's recording state and the 30 s limit; a timeout simply ends the process.
- FsrFrame.ValidateFrame: a null detail pointer, which only suppresses the message; the assignments to the output are one value, not a sequence.
- KeyBytes.Buffer.Append: running out of memory while the vector grows, and sources that straddle the end of an existing object.
- NativeResult: results are values in a program state rather than heap objects.
- Identity comparison of the four logic-op pipelines, shader compilation, rendering and readback: foreign calls.
- The RIFF and Bluetooth headers' remaining declarations: types and constants only.
