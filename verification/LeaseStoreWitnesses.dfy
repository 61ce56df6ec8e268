/** Reachable states behind the exceptions that the theorems about the lease store allow. */
module LeaseStoreWitnesses {

  import opened Optional
  import opened LeaseStore
  import opened LeaseStoreTheorems

  ghost predicate Reachable(s: State) {
    exists states, steps :: IsRun(states, steps) && states[|steps|] == s
  }

  lemma InitialReachable()
    ensures Reachable(Initial)
  {
    var steps: seq<Step> := [];
    assert IsRun([Initial], steps) && [Initial][|steps|] == Initial;
  }

  lemma ReachableStep(s: State, step: Step, s': State)
    requires Reachable(s) && Enabled(s, step) && s' == Apply(s, step)
    ensures Reachable(s')
  {
    var states, steps :| IsRun(states, steps) && states[|steps|] == s;
    assert IsRun(states + [s'], steps + [step]) && (states + [s'])[|steps + [step]|] == s';
  }

  /** Advances a thread that owns no reference, past a point where the store lives on. */
  lemma ReachableAdvance(s: State, t: Thread, s': State)
    requires Reachable(s) && Ready(s, Advance(t)) && s.ownerHolds
    requires Touches(At(s, t)) ==> At(s, t).slot in s.list || At(s, t).slot in s.handles
    requires s' == Move(Effect(s, t), t, NextPc(s, t))
    ensures Reachable(s')
  {
    EffectFrame(s, t);
    ReachableStep(s, Advance(t), s');
  }

  /** One slot with lease 7, held by whoever made it. */
  const Fresh := Initial.(slots := [Slot(Some(7), true)], handles := multiset{0})

  lemma FreshReachable()
    ensures Reachable(Fresh)
  {
    InitialReachable();
    ReachableStep(Initial, NewSlot(Some(7), true), Fresh);
  }

  // ---- Retained after it was retired ----

  function Retiring(lease: Option<LeaseId>, pc: Pc): State {
    Initial.(slots := [Slot(lease, true)], handles := multiset{0}, begun := {0}, pcs := map[0 := pc])
  }

  lemma RetiringReachable()
    ensures Reachable(Retiring(Some(7), RetireWantSlot(0)))
  {
    FreshReachable();
    ReachableStep(Fresh, Begin(0, RetireWantSlot(0), false), Retiring(Some(7), RetireWantSlot(0)));
  }

  lemma ResetReachable()
    ensures Reachable(Retiring(None, RetireWantOwner(0)))
  {
    RetiringReachable();
    var s1 := Retiring(Some(7), RetireWantSlot(0));
    var s2 := Retiring(Some(7), RetireInSlot(0)).(slotLocks := map[0 := 0]);
    ReachableAdvance(s1, 0, s2);
    ReachableAdvance(s2, 0, Retiring(None, RetireWantOwner(0)));
  }

  lemma WantStoreReachable()
    ensures Reachable(Retiring(None, RetireWantStore(0)))
  {
    ResetReachable();
    ReachableAdvance(Retiring(None, RetireWantOwner(0)), 0, Retiring(None, RetireWantStore(0)));
  }

  lemma RetiredReachable()
    ensures Reachable(Retiring(None, Idle))
  {
    WantStoreReachable();
    var s4 := Retiring(None, RetireWantStore(0));
    var s5 := Retiring(None, RetireInStore(0)).(storeLock := Some(0));
    ReachableAdvance(s4, 0, s5);
    ReachableAdvance(s5, 0, Retiring(None, Idle));
  }

  lemma LateRetainReachable()
    ensures Reachable(Retiring(None, RetainInStore(0)).(holding := map[0 := 0], storeLock := Some(0)))
  {
    RetiredReachable();
    var s1 := Retiring(None, RetainWantStore(0)).(holding := map[0 := 0]);
    ReachableStep(Retiring(None, Idle), Begin(0, RetainWantStore(0), true), s1);
    ReachableAdvance(s1, 0, Retiring(None, RetainInStore(0)).(holding := map[0 := 0], storeLock := Some(0)));
  }

  /** A slot retained after it was retired stays in the store, empty. */
  lemma LateRetainStaysListed()
    ensures exists s :: Reachable(s) && Quiescent(s) && s.storeAlive && s.list == [0] && s.begun == {0} && s.slots == [Slot(None, true)]
  {
    LateRetainReachable();
    var s2 := Retiring(None, RetainInStore(0)).(holding := map[0 := 0], storeLock := Some(0));
    var s3 := Retiring(None, Idle).(list := [0], retained := [0], lateRetains := {0});
    assert s3.holding == s2.holding - {0};
    ReachableAdvance(s2, 0, s3);
    assert Quiescent(s3);
  }

  // ---- A retained slot under retires on bare pointers ----

  /** The slot is retained; thread 0 retires it on a bare pointer. */
  function Shared(lease: Option<LeaseId>, handles: multiset<SlotId>, pc: Pc): State {
    Initial.(slots := [Slot(lease, true)], handles := handles, list := [0], retained := [0], begun := {0}, pcs := map[0 := pc])
  }

  const Retaining := Fresh.(pcs := map[0 := RetainWantStore(0)], holding := map[0 := 0])

  lemma RetainingReachable()
    ensures Reachable(Retaining)
  {
    FreshReachable();
    ReachableStep(Fresh, Begin(0, RetainWantStore(0), true), Retaining);
  }

  lemma RetainedReachable()
    ensures Reachable(Shared(Some(7), multiset{0}, Idle).(begun := {}))
  {
    RetainingReachable();
    var s1 := Retaining;
    var s2 := s1.(pcs := map[0 := RetainInStore(0)], storeLock := Some(0));
    ReachableAdvance(s1, 0, s2);
    assert s2.holding - {0} == map[];
    ReachableAdvance(s2, 0, Shared(Some(7), multiset{0}, Idle).(begun := {}));
  }

  lemma SharedReachable()
    ensures Reachable(Shared(Some(7), multiset{0}, RetireWantSlot(0)))
  {
    RetainedReachable();
    var s := Shared(Some(7), multiset{0}, Idle).(begun := {});
    ReachableStep(s, Begin(0, RetireWantSlot(0), false), Shared(Some(7), multiset{0}, RetireWantSlot(0)));
  }

  /** Only the store refers to the slot any more. */
  lemma StoreOnlyReachable()
    ensures Reachable(Shared(Some(7), multiset{}, RetireWantSlot(0)))
  {
    SharedReachable();
    var s := Shared(Some(7), multiset{0}, RetireWantSlot(0));
    assert s.handles - multiset{0} == multiset{};
    ReachableStep(s, DropHandle(0), Shared(Some(7), multiset{}, RetireWantSlot(0)));
  }

  /** Being the only retirer is not enough without the owner: its store takes the slot along. */
  lemma OwnerFreesTheSlot()
    ensures exists s :: Reachable(s) && s.pcs == map[0 := RetireWantSlot(0)] && Freed(s, 0)
  {
    StoreOnlyReachable();
    var s := Shared(Some(7), multiset{}, RetireWantSlot(0));
    var s' := s.(ownerHolds := false, storeAlive := false, list := []);
    ReachableStep(s, DropOwner, s');
    assert Freed(s', 0);
  }

  /** Thread 0 at `pc`, and thread 1 about to lock the slot. */
  function Both(lease: Option<LeaseId>, pc: Pc): State {
    Shared(lease, multiset{}, pc).(pcs := map[0 := pc, 1 := RetireWantSlot(0)])
  }

  lemma BothReachable()
    ensures Reachable(Both(Some(7), RetireWantSlot(0)))
  {
    StoreOnlyReachable();
    var s := Shared(Some(7), multiset{}, RetireWantSlot(0));
    ReachableStep(s, Begin(1, RetireWantSlot(0), false), Both(Some(7), RetireWantSlot(0)));
  }

  lemma BothResetReachable()
    ensures Reachable(Both(None, RetireWantOwner(0)))
  {
    BothReachable();
    var s0 := Both(Some(7), RetireWantSlot(0));
    var s1 := Both(Some(7), RetireInSlot(0)).(slotLocks := map[0 := 0]);
    ReachableAdvance(s0, 0, s1);
    ReachableAdvance(s1, 0, Both(None, RetireWantOwner(0)));
  }

  lemma BothWantStoreReachable()
    ensures Reachable(Both(None, RetireWantStore(0)))
  {
    BothResetReachable();
    ReachableAdvance(Both(None, RetireWantOwner(0)), 0, Both(None, RetireWantStore(0)));
  }

  /** Two retires on bare pointers, with only the store's reference: the first one frees the
      slot that the second is about to lock. */
  lemma SecondRetirerTouchesFreed()
    ensures exists s :: Reachable(s) && s.ownerHolds && At(s, 1) == RetireWantSlot(0) && Freed(s, 0)
  {
    BothWantStoreReachable();
    var s1 := Both(None, RetireWantStore(0));
    var s2 := Both(None, RetireInStore(0)).(storeLock := Some(0));
    ReachableAdvance(s1, 0, s2);
    var s3 := Both(None, Idle).(list := []);
    ReachableAdvance(s2, 0, s3);
    assert Freed(s3, 0);
  }

  // ---- A lease published after the reset ----

  lemma SharedResetReachable()
    ensures Reachable(Shared(None, multiset{0}, RetireWantOwner(0)))
  {
    SharedReachable();
    var s1 := Shared(Some(7), multiset{0}, RetireInSlot(0)).(slotLocks := map[0 := 0]);
    ReachableAdvance(Shared(Some(7), multiset{0}, RetireWantSlot(0)), 0, s1);
    ReachableAdvance(s1, 0, Shared(None, multiset{0}, RetireWantOwner(0)));
  }

  function Republished(handles: multiset<SlotId>, pc: Pc): State {
    Shared(Some(9), handles, pc).(pcs := map[0 := pc, 1 := Idle], lateLeases := {0})
  }

  function Republishing(pc: Pc): State {
    Shared(None, multiset{0}, pc).(pcs := map[0 := RetireWantOwner(0), 1 := pc], holding := map[1 := 0])
  }

  lemma RepublishingReachable()
    ensures Reachable(Republishing(PublishWantSlot(0, 9)))
  {
    SharedResetReachable();
    var s0 := Shared(None, multiset{0}, RetireWantOwner(0));
    ReachableStep(s0, Begin(1, PublishWantSlot(0, 9), true), Republishing(PublishWantSlot(0, 9)));
  }

  lemma RepublishedReachable()
    ensures Reachable(Republished(multiset{0}, RetireWantOwner(0)))
  {
    RepublishingReachable();
    var s1 := Republishing(PublishWantSlot(0, 9));
    var s2 := Republishing(PublishInSlot(0, 9)).(slotLocks := map[0 := 1]);
    ReachableAdvance(s1, 1, s2);
    assert s2.holding - {1} == map[];
    ReachableAdvance(s2, 1, Republished(multiset{0}, RetireWantOwner(0)));
  }

  lemma StoreOnlyRepublishedReachable()
    ensures Reachable(Republished(multiset{}, RetireWantOwner(0)))
  {
    RepublishedReachable();
    assert multiset{0} - multiset{0} == multiset{};
    ReachableStep(Republished(multiset{0}, RetireWantOwner(0)), DropHandle(0), Republished(multiset{}, RetireWantOwner(0)));
  }

  /** A lease published after the reset of a retire on a bare pointer can be destroyed under
      the store mutex. */
  lemma LateLeaseDestroyedUnderStoreMutex()
    ensures exists s :: Reachable(s) && At(s, 0) == RetireInStore(0) && s.slots == [Slot(Some(9), true)] && DestroysUnderStoreMutex(s, 0, 0)
  {
    StoreOnlyRepublishedReachable();
    var s0 := Republished(multiset{}, RetireWantOwner(0));
    var s1 := Republished(multiset{}, RetireWantStore(0));
    ReachableAdvance(s0, 0, s1);
    var s2 := Republished(multiset{}, RetireInStore(0)).(storeLock := Some(0));
    ReachableAdvance(s1, 0, s2);
    assert DestroysUnderStoreMutex(s2, 0, 0);
  }
}
