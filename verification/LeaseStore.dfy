/** Execution leases: slots kept alive by an owner's store until GPU completion retires them.
    `ExecutionSlot::retire` locks the slot, then separately the store, which it reaches through
    a weak pointer; other threads retain, publish, retire and erase at the same time.  Slots are
    reference counted, so an erase may free the slot that another thread is about to use. */
module LeaseStore {

  import opened Optional

  type Thread = nat
  type SlotId = nat
  type LeaseId = nat

  /** `owned` says whether the slot was constructed with this store as its owner. */
  datatype Slot = Slot(lease: Option<LeaseId>, owned: bool)

  /** Where a thread stands.  `Want` is the point before acquiring a mutex, `In` the section
      that holds it. */
  datatype Pc =
    | Idle
    | RetireWantSlot(slot: SlotId)
    | RetireInSlot(slot: SlotId)
    | RetireWantOwner(slot: SlotId)
    | RetireWantStore(slot: SlotId)
    | RetireInStore(slot: SlotId)
    | RetainWantStore(slot: SlotId)
    | RetainInStore(slot: SlotId)
    | EraseWantStore(slot: SlotId)
    | EraseInStore(slot: SlotId)
    | PublishWantSlot(slot: SlotId, lease: LeaseId)
    | PublishInSlot(slot: SlotId, lease: LeaseId)

  /** `handles` are the strong references outside the store, such as the captures of feedback
      blocks; `holding` the ones that running operations own.  The last five fields are history:
      every retain so far, the slots whose retirement or erasure has begun, those whose direct
      erasure has, those retained since theirs began and not erased again, and those given a
      lease since then and not reset again. */
  datatype State = State(
    slots: seq<Slot>,
    list: seq<SlotId>,
    ownerHolds: bool,
    storeAlive: bool,
    slotLocks: map<SlotId, Thread>,
    storeLock: Option<Thread>,
    pcs: map<Thread, Pc>,
    handles: multiset<SlotId>,
    holding: map<Thread, SlotId>,
    retained: seq<SlotId>,
    begun: set<SlotId>,
    direct: set<SlotId>,
    lateRetains: set<SlotId>,
    lateLeases: set<SlotId>)

  const Initial := State([], [], true, true, map[], None, map[], multiset{}, map[], [], {}, {}, {}, {})

  function At(s: State, t: Thread): Pc {
    if t in s.pcs then s.pcs[t] else Idle
  }

  // ---- Lifetimes ----

  ghost predicate Referenced(s: State, x: SlotId) {
    x in s.handles || x in s.list || exists t :: t in s.holding && s.holding[t] == x
  }

  /** A slot lives exactly as long as something refers to it. */
  ghost predicate Freed(s: State, x: SlotId) {
    x < |s.slots| && !Referenced(s, x)
  }

  /** The next step of the thread uses the mutex, the lease or the owner pointer of its slot.
      The sections of the store only compare the slot's address. */
  predicate Touches(pc: Pc) {
    pc.RetireWantSlot? || pc.RetireInSlot? || pc.RetireWantOwner? || pc.PublishWantSlot? || pc.PublishInSlot?
  }

  /** A retiring thread that has locked the weak owner holds the store alive. */
  predicate Pins(pc: Pc) {
    pc.RetireWantStore? || pc.RetireInStore?
  }

  /** Operations of the owner on its store. */
  predicate ByOwner(pc: Pc) {
    pc.RetainWantStore? || pc.RetainInStore? || Erases(pc)
  }

  predicate Erases(pc: Pc) {
    pc.EraseWantStore? || pc.EraseInStore?
  }

  /** Operations that run on a `shared_ptr`; only a retire may run on a bare pointer. */
  predicate AlwaysHolds(pc: Pc) {
    ByOwner(pc) || pc.PublishWantSlot? || pc.PublishInSlot?
  }

  predicate RetireBegun(pc: Pc) {
    pc.RetireWantSlot? || pc.RetireInSlot? || AfterReset(pc)
  }

  predicate AfterReset(pc: Pc) {
    pc.RetireWantOwner? || pc.RetireWantStore? || pc.RetireInStore?
  }

  predicate Pinned(pcs: map<Thread, Pc>) {
    exists t :: t in pcs && Pins(pcs[t])
  }

  predicate OwnerBusy(pcs: map<Thread, Pc>) {
    exists t :: t in pcs && ByOwner(pcs[t])
  }

  /** `std::erase_if` with the predicate of `ExecutionLeaseStore::retire`. */
  function Without<T(==)>(list: seq<T>, xs: set<T>): seq<T> {
    if list == [] then []
    else if list[0] in xs then Without(list[1..], xs)
    else [list[0]] + Without(list[1..], xs)
  }

  // ---- Steps ----

  /** `Begin` calls an operation, with a reference of its own to the slot if `held`. */
  datatype Step =
    | NewSlot(initial: Option<LeaseId>, owned: bool)
    | AddHandle(slot: SlotId)
    | DropHandle(slot: SlotId)
    | Begin(t: Thread, pc: Pc, held: bool)
    | Advance(t: Thread)
    | DropOwner

  predicate IsFirst(pc: Pc) {
    pc.RetireWantSlot? || pc.RetainWantStore? || pc.EraseWantStore? || pc.PublishWantSlot?
  }

  predicate WantsSlot(pc: Pc) {
    pc.RetireWantSlot? || pc.PublishWantSlot?
  }

  predicate WantsStore(pc: Pc) {
    pc.RetireWantStore? || pc.RetainWantStore? || pc.EraseWantStore?
  }

  predicate InSlot(pc: Pc) {
    pc.RetireInSlot? || pc.PublishInSlot?
  }

  predicate InStore(pc: Pc) {
    pc.RetireInStore? || pc.RetainInStore? || pc.EraseInStore?
  }

  /** The program text and the mutexes allow the step. */
  predicate Ready(s: State, step: Step) {
    match step
    case NewSlot(_, _) => true
    case AddHandle(x) => x < |s.slots|
    case DropHandle(x) => x in s.handles
    case Begin(t, pc, held) =>
      && At(s, t).Idle? && IsFirst(pc) && pc.slot < |s.slots|
      && (AlwaysHolds(pc) ==> held) && (ByOwner(pc) ==> s.ownerHolds)
    case DropOwner => s.ownerHolds && !OwnerBusy(s.pcs)
    case Advance(t) =>
      var pc := At(s, t);
      && !pc.Idle? && pc.slot < |s.slots|
      && (WantsSlot(pc) ==> pc.slot !in s.slotLocks)
      && (WantsStore(pc) ==> s.storeLock.None?)
  }

  /** A step that refers to a slot or uses one needs it alive: on a freed slot the program has
      no next step. */
  ghost predicate Enabled(s: State, step: Step) {
    && Ready(s, step)
    && (step.AddHandle? ==> !Freed(s, step.slot))
    && (step.Begin? ==> !Freed(s, step.pc.slot))
    && (step.Advance? && Touches(At(s, step.t)) ==> !Freed(s, At(s, step.t).slot))
  }

  function NextPc(s: State, t: Thread): Pc
    requires Ready(s, Advance(t))
  {
    match At(s, t)
    case RetireWantSlot(x) => RetireInSlot(x)
    case RetireInSlot(x) => RetireWantOwner(x)
    case RetireWantOwner(x) => if s.slots[x].owned && s.storeAlive then RetireWantStore(x) else Idle
    case RetireWantStore(x) => RetireInStore(x)
    case RetainWantStore(x) => RetainInStore(x)
    case EraseWantStore(x) => EraseInStore(x)
    case PublishWantSlot(x, l) => PublishInSlot(x, l)
    case _ => Idle
  }

  /** What the step of a thread does to the slots and the store. */
  function Effect(s: State, t: Thread): State
    requires Ready(s, Advance(t))
  {
    var pc := At(s, t);
    if WantsSlot(pc) then s.(slotLocks := s.slotLocks[pc.slot := t])
    else if WantsStore(pc) then s.(storeLock := Some(t))
    else match pc
      case RetireInSlot(x) => SlotSection(s, x, None, s.lateLeases - {x})
      case PublishInSlot(x, l) => SlotSection(s, x, Some(l), s.lateLeases + (s.begun * {x}))
      case RetainInStore(x) =>
        s.(list := s.list + [x], storeLock := None, retained := s.retained + [x],
           lateRetains := s.lateRetains + (s.begun * {x}))
      case RetireInStore(x) => EraseSection(s, x)
      case EraseInStore(x) => EraseSection(s, x)
      case _ => s
  }

  function SlotSection(s: State, x: SlotId, lease: Option<LeaseId>, late: set<SlotId>): State
    requires x < |s.slots|
  {
    s.(slots := s.slots[x := s.slots[x].(lease := lease)], slotLocks := s.slotLocks - {x}, lateLeases := late)
  }

  /** `ExecutionLeaseStore::retire`, up to the release of its mutex. */
  function EraseSection(s: State, x: SlotId): State {
    s.(list := Without(s.list, {x}), storeLock := None, lateRetains := s.lateRetains - {x})
  }

  /** The thread goes on to `pc`; the end of an operation drops the reference it owned. */
  function Move(s: State, t: Thread, pc: Pc): State {
    s.(pcs := s.pcs[t := pc], holding := if pc.Idle? then s.holding - {t} else s.holding)
  }

  /** The store goes away with the last strong reference to it, and drops its slots. */
  function Settle(s: State): State {
    if !s.ownerHolds && !Pinned(s.pcs) then s.(storeAlive := false, list := []) else s
  }

  function AdvanceStep(s: State, t: Thread): State
    requires Ready(s, Advance(t))
  {
    Settle(Move(Effect(s, t), t, NextPc(s, t)))
  }

  function BeginStep(s: State, t: Thread, pc: Pc, held: bool): State
    requires Ready(s, Begin(t, pc, held))
  {
    s.(pcs := s.pcs[t := pc],
       holding := if held then s.holding[t := pc.slot] else s.holding - {t},
       begun := if RetireBegun(pc) || Erases(pc) then s.begun + {pc.slot} else s.begun,
       direct := if Erases(pc) then s.direct + {pc.slot} else s.direct)
  }

  function Apply(s: State, step: Step): State
    requires Ready(s, step)
  {
    match step
    case NewSlot(lease, owned) =>
      s.(slots := s.slots + [Slot(lease, owned)], handles := s.handles + multiset{|s.slots|})
    case AddHandle(x) => s.(handles := s.handles + multiset{x})
    case DropHandle(x) => s.(handles := s.handles - multiset{x})
    case Begin(t, pc, held) => BeginStep(s, t, pc, held)
    case DropOwner => Settle(s.(ownerHolds := false))
    case Advance(t) => AdvanceStep(s, t)
  }

  // ---- Invariant ----

  /** The thread is on its way to erase `x` from the store. */
  predicate Removes(pc: Pc, x: SlotId, owned: bool) {
    ((owned && RetireBegun(pc)) || Erases(pc)) && pc.slot == x
  }

  /** A mutex is held exactly by the thread inside its section. */
  ghost predicate SlotLocksOk(s: State) {
    && (forall x :: x in s.slotLocks ==> InSlot(At(s, s.slotLocks[x])) && At(s, s.slotLocks[x]).slot == x)
    && (forall t: Thread :: InSlot(At(s, t)) ==> At(s, t).slot in s.slotLocks && s.slotLocks[At(s, t).slot] == t)
  }

  ghost predicate StoreLockOk(s: State) {
    && (s.storeLock.Some? ==> InStore(At(s, s.storeLock.value)))
    && (forall t: Thread :: InStore(At(s, t)) ==> s.storeLock == Some(t))
  }

  /** The store lives as long as anything that may touch it. */
  ghost predicate LifetimeOk(s: State) {
    && (s.storeAlive <==> s.ownerHolds || Pinned(s.pcs))
    && (OwnerBusy(s.pcs) ==> s.ownerHolds)
    && (!s.storeAlive ==> s.list == [])
  }

  ghost predicate ThreadOk(s: State, t: Thread) {
    var pc := At(s, t);
    && (!pc.Idle? ==> pc.slot < |s.slots|)
    && (RetireBegun(pc) || Erases(pc) ==> pc.slot in s.begun)
    && (Erases(pc) ==> pc.slot in s.direct)
    && (Pins(pc) ==> pc.slot < |s.slots| && s.slots[pc.slot].owned)
    && (AfterReset(pc) ==> LeaseIsLate(s, pc.slot))
    && (t in s.holding ==> !pc.Idle? && s.holding[t] == pc.slot)
    && (AlwaysHolds(pc) ==> t in s.holding)
  }

  /** Past its reset a slot has a lease exactly if one was published since. */
  ghost predicate LeaseIsLate(s: State, x: SlotId) {
    x < |s.slots| && (s.slots[x].lease.Some? <==> x in s.lateLeases)
  }

  /** A removable slot that is listed although its removal began was retained late or is about
      to be erased; a foreign slot that nobody erases directly stays listed with the store. */
  ghost predicate ListedOk(s: State, x: SlotId) {
    x < |s.slots| ==>
      && (x in s.list && x in s.begun && (s.slots[x].owned || x in s.direct) ==>
            x in s.lateRetains || exists t: Thread :: Removes(At(s, t), x, s.slots[x].owned))
      && (x in s.retained && s.storeAlive && !s.slots[x].owned && x !in s.direct ==> x in s.list)
  }

  ghost predicate HistoryOk(s: State) {
    && (forall x :: x in s.begun || x in s.handles || x in s.list || x in s.retained ==> x < |s.slots|)
    && s.lateRetains <= s.begun && s.lateLeases <= s.begun && s.direct <= s.begun
    && (s.storeAlive ==> forall x :: x in s.lateRetains ==> x in s.list)
    && (forall x :: x in s.list || x in s.lateRetains ==> x in s.retained)
  }

  ghost predicate ListOk(s: State) {
    && (s.storeAlive ==> Without(s.list, s.begun) == Without(s.retained, s.begun))
    && (forall x: SlotId :: ListedOk(s, x))
  }

  ghost predicate Inv(s: State) {
    && SlotLocksOk(s) && StoreLockOk(s)
    && LifetimeOk(s)
    && (forall t: Thread :: ThreadOk(s, t))
    && HistoryOk(s)
    && ListOk(s)
  }

  lemma InitialInv()
    ensures Inv(Initial)
  {
  }

  // ---- The list without some slots ----

  lemma {:induction false} WithoutMember<T>(list: seq<T>, xs: set<T>)
    ensures forall x :: x in Without(list, xs) <==> x in list && x !in xs
  {
    if list != [] {
      WithoutMember(list[1..], xs);
      assert forall x :: x in list <==> x == list[0] || x in list[1..];
    }
  }

  lemma {:induction false} WithoutAppend<T>(list: seq<T>, x: T, xs: set<T>)
    ensures Without(list + [x], xs) == Without(list, xs) + if x in xs then [] else [x]
  {
    if list == [] {
      assert list + [x] == [x];
      assert [x][1..] == [];
    } else {
      assert (list + [x])[1..] == list[1..] + [x];
      WithoutAppend(list[1..], x, xs);
    }
  }

  lemma {:induction false} WithoutTwice(list: seq<SlotId>, xs: set<SlotId>, ys: set<SlotId>)
    ensures Without(Without(list, xs), ys) == Without(list, xs + ys)
  {
    if list != [] {
      WithoutTwice(list[1..], xs, ys);
      if list[0] !in xs {
        assert ([list[0]] + Without(list[1..], xs))[1..] == Without(list[1..], xs);
      }
    }
  }

  lemma {:induction false} WithoutNothing(list: seq<SlotId>, xs: set<SlotId>)
    ensures Without(list, xs) == list <==> forall x :: x in list ==> x !in xs
  {
    if list != [] {
      WithoutNothing(list[1..], xs);
      WithoutShorter(list[1..], xs);
      if list[0] !in xs {
        assert Without(list, xs)[1..] == Without(list[1..], xs);
      }
    }
  }

  lemma {:induction false} WithoutShorter(list: seq<SlotId>, xs: set<SlotId>)
    ensures |Without(list, xs)| <= |list|
  {
    if list != [] {
      WithoutShorter(list[1..], xs);
    }
  }

  // ---- Every step keeps the invariant ----

  predicate Moves(step: Step, t: Thread) {
    (step.Advance? || step.Begin?) && step.t == t
  }

  lemma EffectFrame(s: State, t: Thread)
    requires Ready(s, Advance(t))
    ensures
      var e := Effect(s, t);
      && e.pcs == s.pcs && e.holding == s.holding && e.handles == s.handles && e.ownerHolds == s.ownerHolds
      && e.storeAlive == s.storeAlive && e.begun == s.begun && e.direct == s.direct
  {
    var pc := At(s, t);
    if WantsSlot(pc) {
    } else if WantsStore(pc) {
    } else if InSlot(pc) {
    } else if InStore(pc) {
    }
  }

  /** What `Move` and `Settle` leave alone. */
  lemma AdvanceFrame(s: State, t: Thread)
    requires Ready(s, Advance(t))
    ensures
      var s', e := AdvanceStep(s, t), Effect(s, t);
      && s'.pcs == s.pcs[t := NextPc(s, t)] && s'.slots == e.slots && s'.slotLocks == e.slotLocks
      && s'.storeLock == e.storeLock && s'.handles == s.handles && s'.ownerHolds == s.ownerHolds
      && s'.holding == (if NextPc(s, t).Idle? then s.holding - {t} else s.holding)
      && s'.retained == e.retained && s'.begun == s.begun && s'.direct == s.direct
      && s'.lateRetains == e.lateRetains && s'.lateLeases == e.lateLeases
      && (s'.list == e.list || (s'.list == [] && !s'.storeAlive))
  {
    EffectFrame(s, t);
  }

  lemma AdvancePcs(s: State, t: Thread)
    requires Ready(s, Advance(t))
    ensures AdvanceStep(s, t).pcs == s.pcs[t := NextPc(s, t)]
  {
    AdvanceFrame(s, t);
  }

  lemma StepPcs(s: State, step: Step)
    requires Ready(s, step)
    ensures
      Apply(s, step).pcs ==
      match step
      case Begin(t, pc, _) => s.pcs[t := pc]
      case Advance(t) => s.pcs[t := NextPc(s, t)]
      case _ => s.pcs
  {
    if step.Advance? { AdvancePcs(s, step.t); }
  }

  lemma OthersStay(s: State, step: Step)
    requires Ready(s, step)
    ensures forall u: Thread :: !Moves(step, u) ==> At(Apply(s, step), u) == At(s, u)
    ensures step.Advance? ==> At(Apply(s, step), step.t) == NextPc(s, step.t)
    ensures step.Begin? ==> At(Apply(s, step), step.t) == step.pc
  {
    StepPcs(s, step);
  }

  lemma OthersKeepHolding(s: State, step: Step)
    requires Ready(s, step)
    ensures
      var s' := Apply(s, step);
      forall u: Thread :: !Moves(step, u) ==>
        (u in s'.holding <==> u in s.holding) && (u in s.holding ==> s'.holding[u] == s.holding[u])
  {
    if step.Advance? { AdvanceFrame(s, step.t); }
  }

  lemma StepLocks(s: State, step: Step)
    requires SlotLocksOk(s) && StoreLockOk(s) && Ready(s, step)
    ensures SlotLocksOk(Apply(s, step)) && StoreLockOk(Apply(s, step))
  {
    OthersStay(s, step);
    if step.Advance? {
      AdvanceSlotLocks(s, step.t);
      AdvanceStoreLock(s, step.t);
    } else {
      var s' := Apply(s, step);
      assert s'.slotLocks == s.slotLocks && s'.storeLock == s.storeLock;
      assert forall u: Thread :: InSlot(At(s', u)) || InStore(At(s', u)) || InSlot(At(s, u)) || InStore(At(s, u)) ==> At(s', u) == At(s, u);
    }
  }

  lemma AdvanceStoreLock(s: State, t: Thread)
    requires StoreLockOk(s) && Ready(s, Advance(t))
    ensures StoreLockOk(AdvanceStep(s, t))
  {
    AdvanceFrame(s, t);
    OthersStay(s, Advance(t));
    var pc, pc' := At(s, t), NextPc(s, t);
    if WantsStore(pc) {
      assert Effect(s, t).storeLock == Some(t) && InStore(pc');
    } else if InStore(pc) {
      assert Effect(s, t).storeLock == None && !InStore(pc');
    } else {
      assert Effect(s, t).storeLock == s.storeLock && !InStore(pc');
    }
  }

  lemma AdvanceSlotLocks(s: State, t: Thread)
    requires SlotLocksOk(s) && Ready(s, Advance(t))
    ensures SlotLocksOk(AdvanceStep(s, t))
  {
    AdvanceFrame(s, t);
    OthersStay(s, Advance(t));
    var pc, pc' := At(s, t), NextPc(s, t);
    if WantsSlot(pc) {
      assert Effect(s, t).slotLocks == s.slotLocks[pc.slot := t] && InSlot(pc') && pc'.slot == pc.slot;
    } else if InSlot(pc) {
      assert Effect(s, t).slotLocks == s.slotLocks - {pc.slot} && !InSlot(pc');
    } else {
      assert Effect(s, t).slotLocks == s.slotLocks && !InSlot(pc');
    }
    SlotLocksFollow(s, AdvanceStep(s, t), t);
  }

  /** Only the section `t` enters or leaves changes hands. */
  lemma SlotLocksFollow(s: State, s': State, t: Thread)
    requires SlotLocksOk(s) && forall u: Thread :: u != t ==> At(s', u) == At(s, u)
    requires
      if InSlot(At(s', t)) then
        !InSlot(At(s, t)) && At(s', t).slot !in s.slotLocks && s'.slotLocks == s.slotLocks[At(s', t).slot := t]
      else if InSlot(At(s, t)) then s'.slotLocks == s.slotLocks - {At(s, t).slot}
      else s'.slotLocks == s.slotLocks
    ensures SlotLocksOk(s')
  {
    forall u: Thread | InSlot(At(s', u))
      ensures At(s', u).slot in s'.slotLocks && s'.slotLocks[At(s', u).slot] == u
    {
      if u != t { assert InSlot(At(s, u)); }
    }
  }

  lemma StepLifetime(s: State, step: Step)
    requires LifetimeOk(s) && Ready(s, step)
    ensures LifetimeOk(Apply(s, step))
  {
    StepPcs(s, step);
    if step.Advance? {
      AdvanceLifetime(s, step.t);
    } else if step.Begin? {
      PinsFollow(s.pcs, step.t, step.pc);
    }
  }

  /** Which threads hold the store alive before and after one of them moves on. */
  lemma PinsFollow(pcs: map<Thread, Pc>, t: Thread, pc: Pc)
    ensures Pinned(pcs[t := pc]) <==> Pins(pc) || exists u :: u in pcs && u != t && Pins(pcs[u])
    ensures Pinned(pcs) <==> (t in pcs && Pins(pcs[t])) || exists u :: u in pcs && u != t && Pins(pcs[u])
    ensures OwnerBusy(pcs[t := pc]) ==> ByOwner(pc) || OwnerBusy(pcs)
  {
    var pcs' := pcs[t := pc];
    assert t in pcs' && pcs'[t] == pc;
    assert forall u :: u in pcs && u != t ==> u in pcs' && pcs'[u] == pcs[u];
  }

  lemma AdvanceLifetime(s: State, t: Thread)
    requires LifetimeOk(s) && Ready(s, Advance(t))
    ensures LifetimeOk(AdvanceStep(s, t))
  {
    var pc, pc' := At(s, t), NextPc(s, t);
    assert t in s.pcs && pc == s.pcs[t];
    PinsFollow(s.pcs, t, pc');
    assert ByOwner(pc') ==> ByOwner(pc);
    if ByOwner(pc) { assert OwnerBusy(s.pcs); }
    EffectFrame(s, t);
    EffectKeepsStore(s, t);
  }

  lemma EffectKeepsStore(s: State, t: Thread)
    requires Ready(s, Advance(t))
    ensures s.list == [] && !At(s, t).RetainInStore? ==> Effect(s, t).list == []
    ensures Pins(NextPc(s, t)) ==> Pins(At(s, t)) || s.storeAlive
  {
  }

  lemma StepThread(s: State, step: Step, t: Thread)
    requires Inv(s) && Ready(s, step)
    ensures ThreadOk(Apply(s, step), t)
  {
    assert ThreadOk(s, t);
    if step.Advance? {
      assert ThreadOk(s, step.t);
      AdvanceThread(s, step.t, t);
    } else {
      OthersStay(s, step);
      OthersKeepHolding(s, step);
    }
  }

  lemma AdvanceSlot(s: State, t: Thread, x: SlotId)
    requires Ready(s, Advance(t)) && x < |s.slots|
    ensures
      var s' := AdvanceStep(s, t);
      && |s'.slots| == |s.slots| && s'.begun == s.begun && s'.direct == s.direct
      && s'.slots[x].owned == s.slots[x].owned
      && (LeaseIsLate(s, x) && x in s.begun ==> LeaseIsLate(s', x))
      && (At(s, t) == RetireInSlot(x) ==> LeaseIsLate(s', x))
  {
    AdvanceFrame(s, t);
    EffectSlot(s, t, x);
  }

  lemma EffectSlot(s: State, t: Thread, x: SlotId)
    requires Ready(s, Advance(t)) && x < |s.slots|
    ensures
      var pc, e := At(s, t), Effect(s, t);
      && |e.slots| == |s.slots| && e.slots[x].owned == s.slots[x].owned
      && (if InSlot(pc) && pc.slot == x then
            if pc.RetireInSlot? then e.slots[x].lease.None? && x !in e.lateLeases
            else e.slots[x].lease == Some(pc.lease) && (x in s.begun ==> x in e.lateLeases)
          else e.slots[x] == s.slots[x] && (x in e.lateLeases <==> x in s.lateLeases))
  {
    if !InSlot(At(s, t)) { EffectOffSlots(s, t); }
  }

  lemma EffectOffSlots(s: State, t: Thread)
    requires Ready(s, Advance(t)) && !InSlot(At(s, t))
    ensures Effect(s, t).slots == s.slots && Effect(s, t).lateLeases == s.lateLeases
  {
  }

  lemma AdvanceThread(s: State, t: Thread, u: Thread)
    requires ThreadOk(s, t) && ThreadOk(s, u) && Ready(s, Advance(t))
    ensures ThreadOk(AdvanceStep(s, t), u)
  {
    OthersStay(s, Advance(t));
    OthersKeepHolding(s, Advance(t));
    AdvanceFrame(s, t);
    if !At(s, u).Idle? { AdvanceSlot(s, t, At(s, u).slot); }
    if u == t { NextPcFollows(s, t); }
  }

  lemma NextPcFollows(s: State, t: Thread)
    requires Ready(s, Advance(t))
    ensures
      var pc, pc' := At(s, t), NextPc(s, t);
      pc'.Idle? || (
        && pc'.slot == pc.slot
        && (RetireBegun(pc') <==> RetireBegun(pc)) && (Erases(pc') <==> Erases(pc)) && (AlwaysHolds(pc') <==> AlwaysHolds(pc))
        && (AfterReset(pc') ==> AfterReset(pc) || pc.RetireInSlot?)
        && (Pins(pc') ==> Pins(pc) || s.slots[pc.slot].owned))
  {
  }

  lemma StoreIsAlive(s: State, t: Thread)
    requires LifetimeOk(s) && (Pins(At(s, t)) || ByOwner(At(s, t)))
    ensures s.storeAlive
  {
    assert t in s.pcs;
  }

  lemma StepListEquation(s: State, step: Step)
    requires Inv(s) && Ready(s, step)
    ensures
      var s' := Apply(s, step);
      s'.storeAlive ==> Without(s'.list, s'.begun) == Without(s'.retained, s'.begun)
  {
    if step.Begin? {
      WithoutTwice(s.list, s.begun, {step.pc.slot});
      WithoutTwice(s.retained, s.begun, {step.pc.slot});
    } else if step.Advance? {
      AdvanceListEquation(s, step.t);
    }
  }

  lemma AdvanceListEquation(s: State, t: Thread)
    requires Inv(s) && Ready(s, Advance(t))
    ensures
      var s' := AdvanceStep(s, t);
      s'.storeAlive ==> Without(s'.list, s'.begun) == Without(s'.retained, s'.begun)
  {
    AdvanceFrame(s, t);
    EffectFrame(s, t);
    EffectKeepsStore(s, t);
    assert ThreadOk(s, t);
    var pc, e := At(s, t), Effect(s, t);
    if pc.RetainInStore? {
      StoreIsAlive(s, t);
      WithoutAppend(s.list, pc.slot, s.begun);
      WithoutAppend(s.retained, pc.slot, s.begun);
    } else if InStore(pc) {
      StoreIsAlive(s, t);
      WithoutTwice(s.list, {pc.slot}, s.begun);
      assert {pc.slot} + s.begun == s.begun;
    } else {
      assert e.list == s.list && e.retained == s.retained;
    }
  }

  lemma StepHistory(s: State, step: Step)
    requires Inv(s) && Ready(s, step)
    ensures HistoryOk(Apply(s, step))
  {
    if step.Advance? {
      AdvanceHistory(s, step.t);
    } else {
      StartHistory(s, step);
    }
  }

  lemma StartHistory(s: State, step: Step)
    requires HistoryOk(s) && LifetimeOk(s) && Ready(s, step) && !step.Advance?
    ensures HistoryOk(Apply(s, step))
  {
    match step
    case NewSlot(lease, owned) => NewSlotHistory(s, lease, owned);
    case Begin(t, pc, held) => BeginHistory(s, t, pc, held);
    case _ =>
  }

  lemma NewSlotHistory(s: State, lease: Option<LeaseId>, owned: bool)
    requires HistoryOk(s)
    ensures HistoryOk(Apply(s, NewSlot(lease, owned)))
  {
  }

  lemma BeginHistory(s: State, t: Thread, pc: Pc, held: bool)
    requires HistoryOk(s) && Ready(s, Begin(t, pc, held))
    ensures HistoryOk(BeginStep(s, t, pc, held))
  {
  }

  lemma AdvanceHistory(s: State, t: Thread)
    requires HistoryOk(s) && LifetimeOk(s) && Ready(s, Advance(t))
    ensures HistoryOk(AdvanceStep(s, t))
  {
    AdvanceFrame(s, t);
    EffectFrame(s, t);
    EffectKeepsStore(s, t);
    EffectHistory(s, t);
    if InStore(At(s, t)) { StoreIsAlive(s, t); }
  }

  lemma EffectHistory(s: State, t: Thread)
    requires HistoryOk(s) && Ready(s, Advance(t)) && (InStore(At(s, t)) ==> s.storeAlive)
    ensures HistoryOk(Effect(s, t))
  {
    WithoutMember(s.list, {At(s, t).slot});
  }

  /** A thread on its way to erase a slot stays at it until it has. */
  lemma RemoverKeepsGoing(s: State, t: Thread, x: SlotId)
    requires LifetimeOk(s) && Ready(s, Advance(t)) && x < |s.slots| && Removes(At(s, t), x, s.slots[x].owned)
    ensures x in AdvanceStep(s, t).list ==> Removes(NextPc(s, t), x, s.slots[x].owned)
  {
    WithoutMember(s.list, {x});
    AdvanceFrame(s, t);
  }

  lemma StepListed(s: State, step: Step, x: SlotId)
    requires Inv(s) && Ready(s, step)
    ensures ListedOk(Apply(s, step), x)
  {
    assert ListedOk(s, x);
    if step.Advance? {
      AdvanceListed(s, step.t, x);
    } else {
      StartListed(s, step, x);
    }
  }

  lemma StartListed(s: State, step: Step, x: SlotId)
    requires ListedOk(s, x) && LifetimeOk(s) && HistoryOk(s) && Ready(s, step) && !step.Advance?
    ensures ListedOk(Apply(s, step), x)
  {
    var s' := Apply(s, step);
    OthersStay(s, step);
    if x < |s.slots| {
      if t: Thread :| Removes(At(s, t), x, s.slots[x].owned) {
        assert Removes(At(s', t), x, s'.slots[x].owned);
      }
      if step.Begin? && step.pc.slot == x && Removes(step.pc, x, s.slots[x].owned) {
        assert Removes(At(s', step.t), x, s'.slots[x].owned);
      }
    }
  }

  lemma AdvanceListed(s: State, t: Thread, x: SlotId)
    requires ListedOk(s, x) && LifetimeOk(s) && HistoryOk(s) && ThreadOk(s, t) && Ready(s, Advance(t))
    ensures ListedOk(AdvanceStep(s, t), x)
  {
    var s' := AdvanceStep(s, t);
    OthersStay(s, Advance(t));
    AdvanceFrame(s, t);
    if x < |s.slots| {
      AdvanceSlot(s, t, x);
      EffectMembers(s, t, x);
      EffectFrame(s, t);
      EffectKeepsStore(s, t);
      if InStore(At(s, t)) { StoreIsAlive(s, t); }
      if u: Thread :| Removes(At(s, u), x, s.slots[x].owned) {
        if u == t {
          RemoverKeepsGoing(s, t, x);
        }
        assert x in s'.list ==> Removes(At(s', u), x, s.slots[x].owned);
      }
    }
  }

  lemma EffectMembers(s: State, t: Thread, x: SlotId)
    requires Ready(s, Advance(t))
    ensures
      var pc, e := At(s, t), Effect(s, t);
      if pc.RetainInStore? && pc.slot == x then
        x in e.list && x in e.retained && (x in s.begun ==> x in e.lateRetains)
      else if (pc.RetireInStore? || pc.EraseInStore?) && pc.slot == x then
        x !in e.list && (x in e.retained <==> x in s.retained)
      else
        (x in e.list <==> x in s.list) && (x in e.retained <==> x in s.retained) && (x in e.lateRetains <==> x in s.lateRetains)
  {
    WithoutMember(s.list, {At(s, t).slot});
  }

  /** Every step of every thread keeps the invariant. */
  lemma StepInv(s: State, step: Step)
    requires Inv(s) && Enabled(s, step)
    ensures Inv(Apply(s, step))
  {
    StepLocks(s, step);
    StepLifetime(s, step);
    forall t: Thread
      ensures ThreadOk(Apply(s, step), t)
    {
      StepThread(s, step, t);
    }
    StepHistory(s, step);
    StepListEquation(s, step);
    forall x: SlotId
      ensures ListedOk(Apply(s, step), x)
    {
      StepListed(s, step, x);
    }
  }
}
