/** What every interleaving of retains, publications, two-phase retirements, erasures and the
    destruction of the owner guarantees about leases, slots and the store. */
module LeaseStoreTheorems {

  import opened Optional
  import opened LeaseStore

  ghost predicate IsRun(states: seq<State>, steps: seq<Step>) {
    && |states| == |steps| + 1
    && states[0] == Initial
    && forall i {:trigger steps[i]} :: 0 <= i < |steps| ==> Enabled(states[i], steps[i]) && states[i + 1] == Apply(states[i], steps[i])
  }

  lemma {:induction false} RunInv(states: seq<State>, steps: seq<Step>, i: nat)
    requires IsRun(states, steps) && i < |states|
    ensures Inv(states[i])
  {
    if i == 0 {
      InitialInv();
    } else {
      RunInv(states, steps, i - 1);
      StepInv(states[i - 1], steps[i - 1]);
    }
  }

  // ---- Contents of the store ----

  predicate Removing(pc: Pc) {
    RetireBegun(pc) || Erases(pc)
  }

  ghost predicate Quiescent(s: State) {
    forall t: Thread :: !Removing(At(s, t))
  }

  /** A retire reaches the store of the slot's own owner; a direct erasure needs no owner. */
  predicate CanLeave(s: State, x: SlotId) {
    x < |s.slots| && (s.slots[x].owned || x in s.direct)
  }

  /** Once all retires and erasures have finished and the store still exists, it holds exactly
      the retained slots that were not retired, in order and with multiplicity, if and only if
      no slot was retained after its retirement began (and left there) and every retained slot
      that was retired can leave. */
  lemma StoreHoldsTheUnretired(states: seq<State>, steps: seq<Step>, i: nat)
    requires IsRun(states, steps) && i < |states| && Quiescent(states[i]) && states[i].storeAlive
    ensures
      var s := states[i];
      s.list == Without(s.retained, s.begun) <==>
      s.lateRetains == {} && forall x :: x in s.retained && x in s.begun ==> CanLeave(s, x)
  {
    var s := states[i];
    RunInv(states, steps, i);
    WithoutNothing(s.list, s.begun);
    WithoutMember(s.retained, s.begun);
    forall x | x in s.list && x in s.begun && CanLeave(s, x)
      ensures x in s.lateRetains
    {
      assert ListedOk(s, x);
    }
    forall x | x in s.retained && x in s.begun && !CanLeave(s, x)
      ensures x in s.list
    {
      assert ListedOk(s, x);
    }
  }

  predicate RetainsLate(s: State, step: Step) {
    step.Advance? && At(s, step.t).RetainInStore? && At(s, step.t).slot in s.begun
  }

  lemma OnlyLateRetainsAreLate(s: State, step: Step)
    requires Enabled(s, step) && !RetainsLate(s, step)
    ensures Apply(s, step).lateRetains <= s.lateRetains
  {
    if step.Advance? { AdvanceFrame(s, step.t); }
  }

  /** Retaining a slot only before its retirement begins rules the first exception out. */
  lemma {:induction false} RetainFirstIsEnough(states: seq<State>, steps: seq<Step>, i: nat)
    requires IsRun(states, steps) && i < |states|
    requires forall k {:trigger steps[k]} :: 0 <= k < i ==> !RetainsLate(states[k], steps[k])
    ensures states[i].lateRetains == {}
  {
    if i > 0 {
      RetainFirstIsEnough(states, steps, i - 1);
      OnlyLateRetainsAreLate(states[i - 1], steps[i - 1]);
    }
  }

  /** The promise of the store as a whole: if every slot is retained before its retirement
      begins, and only slots constructed with this store as their owner are retained, then at
      rest the store holds exactly the retained slots that were not retired. */
  lemma RetiredSlotsLeave(states: seq<State>, steps: seq<Step>, i: nat)
    requires IsRun(states, steps) && i < |states| && Quiescent(states[i]) && states[i].storeAlive
    requires forall k {:trigger steps[k]} :: 0 <= k < i ==> !RetainsLate(states[k], steps[k])
    requires forall x :: x in states[i].retained && x < |states[i].slots| ==> states[i].slots[x].owned
    ensures states[i].list == Without(states[i].retained, states[i].begun)
  {
    RunInv(states, steps, i);
    RetainFirstIsEnough(states, steps, i);
    StoreHoldsTheUnretired(states, steps, i);
  }

  /** A slot in a live store whose retirement or erasure has not begun is still listed. */
  lemma UnretiredStaysListed(states: seq<State>, steps: seq<Step>, i: nat, x: SlotId)
    requires IsRun(states, steps) && i < |states| && states[i].storeAlive
    requires x in states[i].retained && x !in states[i].begun
    ensures x in states[i].list
  {
    RunInv(states, steps, i);
    WithoutMember(states[i].retained, states[i].begun);
    WithoutMember(states[i].list, states[i].begun);
  }

  // ---- Leases ----

  predicate Publishes(s: State, step: Step, x: SlotId) {
    step.Advance? && At(s, step.t).PublishInSlot? && At(s, step.t).slot == x
  }

  lemma StepKeepsLease(s: State, step: Step, x: SlotId)
    requires Inv(s) && Enabled(s, step) && x < |s.slots| && !Publishes(s, step, x)
    ensures
      var s' := Apply(s, step);
      s.begun <= s'.begun && x < |s'.slots| && (x !in s.begun ==> s'.slots[x] == s.slots[x])
  {
    if step.Advance? {
      assert ThreadOk(s, step.t);
      AdvanceFrame(s, step.t);
      EffectSlot(s, step.t, x);
    }
  }

  lemma RunKeepsLease(states: seq<State>, steps: seq<Step>, k: nat, x: SlotId)
    requires IsRun(states, steps) && k < |steps| && x < |states[k].slots| && !Publishes(states[k], steps[k], x)
    ensures states[k].begun <= states[k + 1].begun && x < |states[k + 1].slots|
    ensures x !in states[k].begun ==> states[k + 1].slots[x] == states[k].slots[x]
  {
    RunInv(states, steps, k);
    StepKeepsLease(states[k], steps[k], x);
  }

  lemma {:induction false} RetirementsOnlyBegin(states: seq<State>, steps: seq<Step>, i: nat, j: nat)
    requires IsRun(states, steps) && i <= j < |states|
    ensures states[i].begun <= states[j].begun && |states[i].slots| <= |states[j].slots|
    ensures states[j].ownerHolds ==> states[i].ownerHolds
    decreases j
  {
    if i < j {
      RetirementsOnlyBegin(states, steps, i, j - 1);
      StepOnlyBegins(states[j - 1], steps[j - 1]);
    }
  }

  lemma StepOnlyBegins(s: State, step: Step)
    requires Enabled(s, step)
    ensures
      var s' := Apply(s, step);
      s.begun <= s'.begun && |s.slots| <= |s'.slots| && (s'.ownerHolds ==> s.ownerHolds)
  {
    if step.Advance? {
      AdvanceFrame(s, step.t);
      EffectSlot(s, step.t, At(s, step.t).slot);
    }
  }

  /** Whatever the other threads do, a slot keeps its lease until its own retirement begins. */
  lemma {:induction false} LeaseKeptUntilRetired(states: seq<State>, steps: seq<Step>, i: nat, j: nat, x: SlotId)
    requires IsRun(states, steps) && i <= j < |states| && x < |states[i].slots|
    requires forall k {:trigger steps[k]} :: i <= k < j ==> !Publishes(states[k], steps[k], x)
    ensures x < |states[j].slots| && (x !in states[j].begun ==> states[j].slots[x] == states[i].slots[x])
    decreases j
  {
    if i < j {
      LeaseKeptUntilRetired(states, steps, i, j - 1, x);
      RunKeepsLease(states, steps, j - 1, x);
    }
  }

  lemma PublicationStores(states: seq<State>, steps: seq<Step>, i: nat)
    requires IsRun(states, steps) && i < |steps| && steps[i].Advance? && At(states[i], steps[i].t).PublishInSlot?
    ensures
      var x, l := At(states[i], steps[i].t).slot, At(states[i], steps[i].t).lease;
      x < |states[i + 1].slots| && states[i + 1].slots[x].lease == Some(l)
  {
    AdvanceFrame(states[i], steps[i].t);
    EffectSlot(states[i], steps[i].t, At(states[i], steps[i].t).slot);
  }

  /** The lease published last into a slot is the one it holds until its retirement begins. */
  lemma PublishedLeaseIsKept(states: seq<State>, steps: seq<Step>, i: nat, j: nat, x: SlotId, l: LeaseId)
    requires IsRun(states, steps) && i < j < |states| && steps[i].Advance? && At(states[i], steps[i].t) == PublishInSlot(x, l)
    requires forall k {:trigger steps[k]} :: i < k < j ==> !Publishes(states[k], steps[k], x)
    requires x !in states[j].begun
    ensures x < |states[j].slots| && states[j].slots[x].lease == Some(l)
  {
    PublicationStores(states, steps, i);
    LeaseKeptUntilRetired(states, steps, i + 1, j, x);
  }

  lemma NewSlotStores(states: seq<State>, steps: seq<Step>, i: nat)
    requires IsRun(states, steps) && i < |steps| && steps[i].NewSlot?
    ensures |states[i + 1].slots| == |states[i].slots| + 1
    ensures states[i + 1].slots[|states[i].slots|] == Slot(steps[i].initial, steps[i].owned)
  {
  }

  lemma {:induction false} OwnershipIsFixed(states: seq<State>, steps: seq<Step>, i: nat, j: nat, x: SlotId)
    requires IsRun(states, steps) && i <= j < |states| && x < |states[i].slots|
    ensures x < |states[j].slots| && states[j].slots[x].owned == states[i].slots[x].owned
    decreases j
  {
    if i < j {
      OwnershipIsFixed(states, steps, i, j - 1, x);
      if steps[j - 1].Advance? {
        AdvanceSlot(states[j - 1], steps[j - 1].t, x);
      }
    }
  }

  /** A new slot holds the lease it was constructed with until another is published or its
      retirement begins, and belongs to the store it was constructed with for good. */
  lemma NewSlotIsKept(states: seq<State>, steps: seq<Step>, i: nat, j: nat)
    requires IsRun(states, steps) && i < j < |states| && steps[i].NewSlot?
    ensures
      var x := |states[i].slots|;
      && x < |states[j].slots| && states[j].slots[x].owned == steps[i].owned
      && ((forall k {:trigger steps[k]} :: i < k < j ==> !Publishes(states[k], steps[k], x)) && x !in states[j].begun ==>
            states[j].slots[x].lease == steps[i].initial)
  {
    var x := |states[i].slots|;
    NewSlotStores(states, steps, i);
    OwnershipIsFixed(states, steps, i + 1, j, x);
    if (forall k {:trigger steps[k]} :: i < k < j ==> !Publishes(states[k], steps[k], x)) {
      LeaseKeptUntilRetired(states, steps, i + 1, j, x);
    }
  }

  // ---- Operations and history ----

  /** The thread is still at the operation it began with `pc`, or has finished it. */
  predicate AtOperation(pc: Pc, pc': Pc) {
    || pc'.Idle?
    || (&& !pc.Idle? && pc'.slot == pc.slot
        && (RetireBegun(pc) <==> RetireBegun(pc')) && (Erases(pc) <==> Erases(pc')) && (ByOwner(pc) <==> ByOwner(pc'))
        && (IsPublish(pc) <==> IsPublish(pc')) && (IsPublish(pc) && IsPublish(pc') ==> pc'.lease == pc.lease))
  }

  predicate IsPublish(pc: Pc) {
    pc.PublishWantSlot? || pc.PublishInSlot?
  }

  lemma NextPcStays(s: State, t: Thread, pc: Pc)
    requires Ready(s, Advance(t)) && AtOperation(pc, At(s, t))
    ensures AtOperation(pc, NextPc(s, t))
  {
  }

  /** From its beginning to its end an operation works on the slot, and publishes the lease, that
      it was called with. */
  lemma {:induction false} OperationKeepsItsArguments(states: seq<State>, steps: seq<Step>, i: nat, j: nat, t: Thread)
    requires IsRun(states, steps) && i < j < |states| && steps[i].Begin? && steps[i].t == t
    requires forall k {:trigger steps[k]} :: i < k < j ==> !(steps[k].Begin? && steps[k].t == t)
    ensures AtOperation(steps[i].pc, At(states[j], t))
    decreases j
  {
    OthersStay(states[j - 1], steps[j - 1]);
    if i < j - 1 {
      OperationKeepsItsArguments(states, steps, i, j - 1, t);
      if steps[j - 1] == Advance(t) { NextPcStays(states[j - 1], t, steps[i].pc); }
    }
  }

  function RetainedBy(s: State, step: Step): seq<SlotId> {
    if step.Advance? && At(s, step.t).RetainInStore? then [At(s, step.t).slot] else []
  }

  /** On a live slot an idle thread can begin to retire or to publish whether or not the owner
      still exists, and to retain or to erase while it does. */
  lemma OperationsMayBegin(s: State, t: Thread, x: SlotId, l: LeaseId, held: bool)
    requires At(s, t).Idle? && x < |s.slots| && !Freed(s, x)
    ensures Enabled(s, Begin(t, RetireWantSlot(x), held)) && Enabled(s, Begin(t, PublishWantSlot(x, l), true))
    ensures s.ownerHolds ==> Enabled(s, Begin(t, RetainWantStore(x), true)) && Enabled(s, Begin(t, EraseWantStore(x), true))
  {
  }

  /** The slots whose retain was completed by the first `i` steps, in order. */
  function RetainsOf(states: seq<State>, steps: seq<Step>, i: nat): seq<SlotId>
    requires i <= |steps| < |states|
  {
    if i == 0 then [] else RetainsOf(states, steps, i - 1) + RetainedBy(states[i - 1], steps[i - 1])
  }

  predicate BeginsErasure(step: Step, x: SlotId) {
    step.Begin? && Erases(step.pc) && step.pc.slot == x
  }

  /** What a step adds to the history. */
  ghost predicate Records(s: State, step: Step, s': State) {
    && s'.retained == s.retained + RetainedBy(s, step)
    && (forall x :: x in s'.begun <==> x in s.begun || BeginsRemoval(step, x))
    && (forall x :: x in s'.direct <==> x in s.direct || BeginsErasure(step, x))
  }

  lemma StepRecords(s: State, step: Step)
    requires Ready(s, step)
    ensures Records(s, step, Apply(s, step))
  {
    if step.Advance? {
      AdvanceRecords(s, step.t, AdvanceStep(s, step.t));
    } else {
      StartRecords(s, step);
    }
  }

  lemma StartRecords(s: State, step: Step)
    requires Ready(s, step) && !step.Advance?
    ensures Records(s, step, Apply(s, step))
  {
    if step.Begin? {
    } else {
      assert Apply(s, step).begun == s.begun && Apply(s, step).direct == s.direct;
    }
  }

  lemma AdvanceRecords(s: State, t: Thread, s': State)
    requires Ready(s, Advance(t)) && s' == AdvanceStep(s, t)
    ensures Records(s, Advance(t), s')
  {
    AdvanceFrame(s, t);
    EffectRetains(s, t);
  }

  lemma EffectRetains(s: State, t: Thread)
    requires Ready(s, Advance(t))
    ensures Effect(s, t).retained == s.retained + RetainedBy(s, Advance(t))
  {
    var pc := At(s, t);
    if WantsSlot(pc) {
    } else if WantsStore(pc) {
    } else if InSlot(pc) {
    } else if InStore(pc) {
    }
  }

  ghost predicate RemovalBegunBy(steps: seq<Step>, i: nat, x: SlotId)
    requires i <= |steps|
  {
    exists k :: 0 <= k < i && BeginsRemoval(steps[k], x)
  }

  ghost predicate ErasureBegunBy(steps: seq<Step>, i: nat, x: SlotId)
    requires i <= |steps|
  {
    exists k :: 0 <= k < i && BeginsErasure(steps[k], x)
  }

  lemma BegunByNext(steps: seq<Step>, i: nat, x: SlotId)
    requires i < |steps|
    ensures RemovalBegunBy(steps, i + 1, x) <==> RemovalBegunBy(steps, i, x) || BeginsRemoval(steps[i], x)
    ensures ErasureBegunBy(steps, i + 1, x) <==> ErasureBegunBy(steps, i, x) || BeginsErasure(steps[i], x)
  {
  }

  ghost predicate Recorded(states: seq<State>, steps: seq<Step>) {
    && |states| == |steps| + 1
    && states[0].retained == [] && states[0].begun == {} && states[0].direct == {}
    && forall i {:trigger steps[i]} :: 0 <= i < |steps| ==> Records(states[i], steps[i], states[i + 1])
  }

  lemma RunIsRecorded(states: seq<State>, steps: seq<Step>)
    requires IsRun(states, steps)
    ensures Recorded(states, steps)
  {
    forall i | 0 <= i < |steps|
      ensures Records(states[i], steps[i], states[i + 1])
    {
      StepRecords(states[i], steps[i]);
    }
  }

  lemma {:induction false} RecordsFollow(states: seq<State>, steps: seq<Step>, i: nat, x: SlotId)
    requires Recorded(states, steps) && i < |states|
    ensures states[i].retained == RetainsOf(states, steps, i)
    ensures x in states[i].begun <==> RemovalBegunBy(steps, i, x)
    ensures x in states[i].direct <==> ErasureBegunBy(steps, i, x)
  {
    if i > 0 {
      RecordsFollow(states, steps, i - 1, x);
      BegunByNext(steps, i - 1, x);
      assert Records(states[i - 1], steps[i - 1], states[i]);
    }
  }

  /** The recorded history is that of the steps: what was retained, in order, and whose
      retirement or direct erasure has begun. */
  lemma HistoryIsOfTheSteps(states: seq<State>, steps: seq<Step>, i: nat, x: SlotId)
    requires IsRun(states, steps) && i < |states|
    ensures states[i].retained == RetainsOf(states, steps, i)
    ensures x in states[i].begun <==> RemovalBegunBy(steps, i, x)
    ensures x in states[i].direct <==> ErasureBegunBy(steps, i, x)
  {
    RunIsRecorded(states, steps);
    RecordsFollow(states, steps, i, x);
  }

  /** What a step adds to the references to `x` outside the store. */
  function HandlesAdded(s: State, step: Step, x: SlotId): int {
    match step
    case NewSlot(_, _) => if x == |s.slots| then 1 else 0
    case AddHandle(y) => if x == y then 1 else 0
    case DropHandle(y) => if x == y then -1 else 0
    case _ => 0
  }

  function HandleBalance(states: seq<State>, steps: seq<Step>, i: nat, x: SlotId): int
    requires i <= |steps| < |states|
  {
    if i == 0 then 0 else HandleBalance(states, steps, i - 1, x) + HandlesAdded(states[i - 1], steps[i - 1], x)
  }

  lemma StepCountsHandles(s: State, step: Step, x: SlotId)
    requires Ready(s, step)
    ensures Apply(s, step).handles[x] == s.handles[x] + HandlesAdded(s, step, x)
  {
    if step.Advance? { AdvanceFrame(s, step.t); }
  }

  /** References outside the store are conserved: one for the maker of the slot, one more for
      every copy and one less for every drop. */
  lemma {:induction false} HandlesAreCounted(states: seq<State>, steps: seq<Step>, i: nat, x: SlotId)
    requires IsRun(states, steps) && i < |states|
    ensures states[i].handles[x] == HandleBalance(states, steps, i, x)
  {
    if i > 0 {
      HandlesAreCounted(states, steps, i - 1, x);
      StepCountsHandles(states[i - 1], steps[i - 1], x);
    }
  }

  /** The erasure that `t` is about to make under the store mutex drops the last reference to
      `y` and so destroys it there, with its lease. */
  ghost predicate DestroysUnderStoreMutex(s: State, t: Thread, y: SlotId) {
    InStore(At(s, t)) && Ready(s, Advance(t)) && !Freed(s, y) && Freed(Effect(s, t), y)
  }

  lemma EraseReferences(s: State, t: Thread, y: SlotId)
    requires Ready(s, Advance(t)) && InStore(At(s, t)) && y < |s.slots| && y != At(s, t).slot
    ensures Freed(Effect(s, t), y) <==> Freed(s, y)
  {
    EffectFrame(s, t);
    EffectMembers(s, t, y);
    EffectSlot(s, t, y);
  }

  /** A section of the store destroys a slot under the mutex only when a retire on a bare
      pointer erases its own slot from the store that held the last reference; the destroyed
      lease is empty if and only if none was published into the slot since its reset. */
  lemma ErasedSlotsAreEmpty(states: seq<State>, steps: seq<Step>, i: nat, t: Thread, y: SlotId)
    requires IsRun(states, steps) && i < |states| && DestroysUnderStoreMutex(states[i], t, y)
    ensures At(states[i], t) == RetireInStore(y) && t !in states[i].holding && y in states[i].list
    ensures y < |states[i].slots| && (states[i].slots[y].lease.None? <==> y !in states[i].lateLeases)
  {
    var s := states[i];
    RunInv(states, steps, i);
    assert ThreadOk(s, t);
    EffectFrame(s, t);
    EffectSlot(s, t, At(s, t).slot);
    if y != At(s, t).slot { EraseReferences(s, t, y); }
    EffectMembers(s, t, y);
  }

  predicate PublishesLate(s: State, step: Step) {
    step.Advance? && At(s, step.t).PublishInSlot? && At(s, step.t).slot in s.begun
  }

  lemma OnlyLatePublicationsAreLate(s: State, step: Step)
    requires Enabled(s, step) && !PublishesLate(s, step)
    ensures Apply(s, step).lateLeases <= s.lateLeases
  {
    if step.Advance? {
      AdvanceFrame(s, step.t);
      if !InSlot(At(s, step.t)) { EffectOffSlots(s, step.t); }
    }
  }

  /** Publishing a lease only before the retirement begins, as encoding before committing does,
      leaves no lease to destroy under the mutex. */
  lemma {:induction false} PublishFirstIsEnough(states: seq<State>, steps: seq<Step>, i: nat)
    requires IsRun(states, steps) && i < |states|
    requires forall k {:trigger steps[k]} :: 0 <= k < i ==> !PublishesLate(states[k], steps[k])
    ensures states[i].lateLeases == {}
  {
    if i > 0 {
      PublishFirstIsEnough(states, steps, i - 1);
      OnlyLatePublicationsAreLate(states[i - 1], steps[i - 1]);
    }
  }

  // ---- Lifetimes ----

  /** A freed slot is never referred to again. */
  lemma FreedForever(s: State, step: Step, x: SlotId)
    requires Inv(s) && Enabled(s, step) && Freed(s, x)
    ensures Freed(Apply(s, step), x)
  {
    var s' := Apply(s, step);
    OthersKeepHolding(s, step);
    if step.Advance? {
      var t := step.t;
      assert ThreadOk(s, t);
      AdvanceFrame(s, t);
      EffectSlot(s, t, x);
      EffectMembers(s, t, x);
      assert At(s, t).RetainInStore? ==> t in s.holding && s.holding[t] == At(s, t).slot;
    }
  }

  lemma {:induction false} FreedStaysFreed(states: seq<State>, steps: seq<Step>, i: nat, j: nat, x: SlotId)
    requires IsRun(states, steps) && i <= j < |states| && Freed(states[i], x)
    ensures Freed(states[j], x)
    decreases j
  {
    if i < j {
      FreedStaysFreed(states, steps, i, j - 1, x);
      RunInv(states, steps, j - 1);
      FreedForever(states[j - 1], steps[j - 1], x);
    }
  }

  /** A step that does not touch its slot neither reads nor writes any slot or slot mutex: it
      does the same whatever they hold. */
  lemma UntouchedSlotsAreNotUsed(s: State, t: Thread, slots: seq<Slot>)
    requires Ready(s, Advance(t)) && !Touches(At(s, t)) && |slots| == |s.slots|
    ensures
      var s' := s.(slots := slots);
      && Ready(s', Advance(t)) && NextPc(s', t) == NextPc(s, t)
      && Effect(s', t) == Effect(s, t).(slots := slots) && Effect(s, t).slotLocks == s.slotLocks
  {
  }

  /** Only a retire that owns no reference can stand before a freed slot. */
  lemma HeldSlotsLive(states: seq<State>, steps: seq<Step>, i: nat, t: Thread)
    requires IsRun(states, steps) && i < |states| && !At(states[i], t).Idle?
    requires Freed(states[i], At(states[i], t).slot)
    ensures RetireBegun(At(states[i], t)) && t !in states[i].holding
  {
    RunInv(states, steps, i);
    assert ThreadOk(states[i], t);
  }

  lemma StepKeepsHolding(s: State, step: Step, t: Thread)
    requires Inv(s) && Enabled(s, step) && !At(Apply(s, step), t).Idle?
    requires At(s, t).Idle? || t in s.holding
    requires step.Begin? ==> step.held
    ensures t in Apply(s, step).holding
  {
    OthersStay(s, step);
    OthersKeepHolding(s, step);
    if step.Advance? && step.t == t { AdvanceFrame(s, t); }
  }

  /** If every operation runs on a reference of its own, as the feedback block does on its
      capture, no step ever touches a freed slot. */
  lemma {:induction false} NoUseAfterFree(states: seq<State>, steps: seq<Step>, i: nat, t: Thread)
    requires IsRun(states, steps) && i < |states|
    requires forall k {:trigger steps[k]} :: 0 <= k < i && steps[k].Begin? ==> steps[k].held
    ensures !At(states[i], t).Idle? ==> t in states[i].holding && !Freed(states[i], At(states[i], t).slot)
  {
    RunInv(states, steps, i);
    assert ThreadOk(states[i], t);
    if i > 0 && !At(states[i], t).Idle? {
      NoUseAfterFree(states, steps, i - 1, t);
      RunInv(states, steps, i - 1);
      StepKeepsHolding(states[i - 1], steps[i - 1], t);
    }
  }

  predicate RemovesSlot(pc: Pc, x: SlotId) {
    Removing(pc) && pc.slot == x
  }

  /** Thread `t` retires `x`, alone, and has not yet left the slot; the store lists it. */
  ghost predicate SoleRetirer(s: State, t: Thread, x: SlotId) {
    && (forall u: Thread :: RemovesSlot(At(s, u), x) ==> u == t)
    && (RemovesSlot(At(s, t), x) && Touches(At(s, t)) ==> x in s.list)
  }

  predicate BeginsRemoval(step: Step, x: SlotId) {
    step.Begin? && RemovesSlot(step.pc, x)
  }

  lemma SoleRetirerStep(s: State, step: Step, t: Thread, x: SlotId)
    requires Inv(s) && Enabled(s, step) && SoleRetirer(s, t, x) && !BeginsRemoval(step, x) && Apply(s, step).ownerHolds
    ensures SoleRetirer(Apply(s, step), t, x)
  {
    var s' := Apply(s, step);
    OthersStay(s, step);
    if step.Advance? {
      assert ThreadOk(s, step.t);
      NextPcFollows(s, step.t);
      AdvanceFrame(s, step.t);
      EffectMembers(s, step.t, x);
      assert RemovesSlot(At(s', step.t), x) ==> RemovesSlot(At(s, step.t), x);
      if step.t == t && Touches(At(s', t)) && RemovesSlot(At(s', t), x) { TouchesFollow(s, t); }
      if InStore(At(s, step.t)) && At(s, step.t).slot == x && step.t != t {
        assert !RemovesSlot(At(s, step.t), x);
      }
    }
  }

  lemma TouchesFollow(s: State, t: Thread)
    requires Ready(s, Advance(t)) && Touches(NextPc(s, t))
    ensures Touches(At(s, t))
  {
  }

  /** A retire on a bare pointer is safe too while the owner keeps the store, if it is the only
      retire or erasure of a slot that the store lists when it begins. */
  lemma {:induction false} SoleRetirerIsSafe(states: seq<State>, steps: seq<Step>, i: nat, j: nat, t: Thread, x: SlotId)
    requires IsRun(states, steps) && i < j < |states| && states[j].ownerHolds
    requires steps[i].Begin? && steps[i].t == t && steps[i].pc == RetireWantSlot(x) && x in states[i].list
    requires forall u: Thread :: !RemovesSlot(At(states[i], u), x)
    requires forall k {:trigger steps[k]} :: i < k < j ==> !BeginsRemoval(steps[k], x)
    ensures SoleRetirer(states[j], t, x)
    ensures RetireBegun(At(states[j], t)) && Touches(At(states[j], t)) && At(states[j], t).slot == x ==> !Freed(states[j], x)
    decreases j
  {
    RetirementsOnlyBegin(states, steps, j - 1, j);
    RunInv(states, steps, j - 1);
    if i == j - 1 {
      OthersStay(states[i], steps[i]);
    } else {
      SoleRetirerIsSafe(states, steps, i, j - 1, t, x);
      SoleRetirerStep(states[j - 1], steps[j - 1], t, x);
    }
  }

  // ---- Locks ----

  /** No thread ever holds two mutexes, a slot's and the store's or two slots', so no lock
      order can be violated. */
  lemma OneMutexAtATime(states: seq<State>, steps: seq<Step>, i: nat, x: SlotId, y: SlotId)
    requires IsRun(states, steps) && i < |states| && x in states[i].slotLocks
    ensures states[i].storeLock != Some(states[i].slotLocks[x])
    ensures y in states[i].slotLocks && states[i].slotLocks[y] == states[i].slotLocks[x] ==> x == y
  {
    RunInv(states, steps, i);
  }

  /** A thread in the middle of an operation can step, or the mutex it wants is held by a
      thread that can; the one exception is a thread that stands before a freed slot. */
  lemma NoDeadlock(states: seq<State>, steps: seq<Step>, i: nat, t: Thread) returns (u: Thread)
    requires IsRun(states, steps) && i < |states| && !At(states[i], t).Idle?
    ensures !At(states[i], u).Idle?
    ensures Enabled(states[i], Advance(u)) || (Touches(At(states[i], u)) && Freed(states[i], At(states[i], u).slot))
    ensures u == t || (At(states[i], t).slot in states[i].slotLocks && u == states[i].slotLocks[At(states[i], t).slot])
                   || states[i].storeLock == Some(u)
  {
    var s := states[i];
    RunInv(states, steps, i);
    assert ThreadOk(s, t);
    var pc := At(s, t);
    u := t;
    if WantsSlot(pc) && pc.slot in s.slotLocks {
      u := s.slotLocks[pc.slot];
      assert ThreadOk(s, u);
    } else if WantsStore(pc) && s.storeLock.Some? {
      u := s.storeLock.value;
      assert ThreadOk(s, u);
    }
  }

  /** The store outlives every thread that has locked the weak owner pointer, and every
      operation of its owner. */
  lemma StoreOutlivesItsUsers(states: seq<State>, steps: seq<Step>, i: nat, t: Thread)
    requires IsRun(states, steps) && i < |states|
    requires Pins(At(states[i], t)) || ByOwner(At(states[i], t))
    ensures states[i].storeAlive
  {
    RunInv(states, steps, i);
    StoreIsAlive(states[i], t);
  }
}
