/** When exactly a thread that is about to use a slot can count on finding it alive. */
module LeaseStoreLifetimes {

  import opened Optional
  import opened LeaseStore
  import opened LeaseStoreTheorems

  /** Steps of the other threads, of handles and of the owner, while `t` stands still. */
  ghost predicate IsPath(states: seq<State>, steps: seq<Step>, t: Thread) {
    && |states| == |steps| + 1
    && forall i {:trigger steps[i]} :: 0 <= i < |steps| ==>
         Enabled(states[i], steps[i]) && !Moves(steps[i], t) && states[i + 1] == Apply(states[i], steps[i])
  }

  ghost predicate Leads(s: State, s': State, t: Thread) {
    exists states, steps :: IsPath(states, steps, t) && states[0] == s && states[|steps|] == s'
  }

  lemma LeadsNowhere(s: State, t: Thread)
    ensures Leads(s, s, t)
  {
    var steps: seq<Step> := [];
    assert IsPath([s], steps, t) && [s][0] == s && [s][|steps|] == s;
  }

  lemma LeadsOn(s: State, s': State, t: Thread, step: Step)
    requires Leads(s, s', t) && Enabled(s', step) && !Moves(step, t)
    ensures Leads(s, Apply(s', step), t)
  {
    var states, steps :| IsPath(states, steps, t) && states[0] == s && states[|steps|] == s';
    var states', steps' := states + [Apply(s', step)], steps + [step];
    assert IsPath(states', steps', t) && states'[0] == s && states'[|steps'|] == Apply(s', step);
  }

  /** Whatever happens before `t` moves again, its slot is not freed. */
  ghost predicate StaysAlive(s: State, t: Thread)
    requires !At(s, t).Idle?
  {
    forall s' :: Leads(s, s', t) ==> !Freed(s', At(s, t).slot)
  }

  /** A thread that owns a reference to `x` is waiting for the mutex of `x`. */
  ghost predicate HolderWaits(s: State, x: SlotId) {
    exists u :: u in s.holding && s.holding[u] == x && WantsSlot(At(s, u))
  }

  /** The thread owns a reference itself, or has locked out a thread that does. */
  ghost predicate Protected(s: State, t: Thread)
    requires !At(s, t).Idle?
  {
    t in s.holding || (InSlot(At(s, t)) && HolderWaits(s, At(s, t).slot))
  }

  // ---- A protected slot stays alive ----

  lemma ProtectedStep(s: State, step: Step, t: Thread)
    requires Inv(s) && Enabled(s, step) && !Moves(step, t) && !At(s, t).Idle? && Protected(s, t)
    ensures At(Apply(s, step), t) == At(s, t) && Protected(Apply(s, step), t)
  {
    var s' := Apply(s, step);
    OthersStay(s, step);
    OthersKeepHolding(s, step);
    if t !in s.holding {
      var x := At(s, t).slot;
      var u :| u in s.holding && s.holding[u] == x && WantsSlot(At(s, u));
      assert ThreadOk(s, u);
      assert !Moves(step, u);
      assert u in s'.holding && s'.holding[u] == x && WantsSlot(At(s', u));
    }
  }

  lemma ProtectedIsAlive(s: State, t: Thread)
    requires Inv(s) && !At(s, t).Idle? && Protected(s, t)
    ensures !Freed(s, At(s, t).slot)
  {
    assert ThreadOk(s, t);
  }

  lemma {:induction false} ProtectedStays(states: seq<State>, steps: seq<Step>, t: Thread, i: nat)
    requires IsPath(states, steps, t) && i < |states| && Inv(states[0]) && !At(states[0], t).Idle? && Protected(states[0], t)
    ensures Inv(states[i]) && At(states[i], t) == At(states[0], t) && Protected(states[i], t)
  {
    if i > 0 {
      ProtectedStays(states, steps, t, i - 1);
      ProtectedStep(states[i - 1], steps[i - 1], t);
      StepInv(states[i - 1], steps[i - 1]);
    }
  }

  // ---- An unprotected one can be freed ----

  ghost predicate Scene(s: State, t: Thread, x: SlotId) {
    Inv(s) && Touches(At(s, t)) && At(s, t).slot == x && !Protected(s, t)
  }

  ghost function Holders(s: State, x: SlotId): set<Thread> {
    set u | u in s.holding && s.holding[u] == x
  }

  lemma NextPcAsksForNoSlot(s: State, t: Thread)
    requires Ready(s, Advance(t))
    ensures !WantsSlot(NextPc(s, t))
  {
  }

  lemma SceneAdvance(s: State, t: Thread, x: SlotId, v: Thread)
    requires Scene(s, t, x) && v != t && Enabled(s, Advance(v))
    ensures
      var s' := AdvanceStep(s, v);
      && Scene(s', t, x) && Holders(s', x) <= Holders(s, x)
      && s'.handles == s.handles && s'.ownerHolds == s.ownerHolds
      && (NextPc(s, v).Idle? ==> v !in s'.holding)
  {
    var s' := AdvanceStep(s, v);
    StepInv(s, Advance(v));
    OthersStay(s, Advance(v));
    AdvanceFrame(s, v);
    NextPcAsksForNoSlot(s, v);
    if u :| u in s'.holding && s'.holding[u] == x && WantsSlot(At(s', u)) {
      assert u in s.holding && s.holding[u] == x && WantsSlot(At(s, u));
    }
  }

  /** Lets the thread inside the mutex of the slot, or of the store, leave it. */
  lemma LeavesSection(s: State, v: Thread)
    requires Ready(s, Advance(v))
    ensures InSlot(At(s, v)) ==> AdvanceStep(s, v).slotLocks == s.slotLocks - {At(s, v).slot}
    ensures InStore(At(s, v)) ==> AdvanceStep(s, v).storeLock == None && AdvanceStep(s, v).slotLocks == s.slotLocks
  {
    AdvanceFrame(s, v);
  }

  lemma FreeStoreLock(s0: State, s: State, t: Thread, x: SlotId) returns (s': State)
    requires Leads(s0, s, t) && Scene(s, t, x)
    ensures Leads(s0, s', t) && Scene(s', t, x) && Holders(s', x) <= Holders(s, x)
    ensures s'.handles == s.handles && s'.ownerHolds == s.ownerHolds && s'.storeLock.None?
    ensures s'.slotLocks == s.slotLocks
    ensures forall u: Thread :: !InStore(At(s, u)) ==> At(s', u) == At(s, u) && (u in s.holding ==> u in s'.holding && s'.holding[u] == s.holding[u])
  {
    s' := s;
    if s.storeLock.Some? {
      var v := s.storeLock.value;
      assert ThreadOk(s, v);
      LeadsOn(s0, s, t, Advance(v));
      SceneAdvance(s, t, x, v);
      LeavesSection(s, v);
      OthersStay(s, Advance(v));
      OthersKeepHolding(s, Advance(v));
      s' := AdvanceStep(s, v);
    }
  }

  lemma FreeSlotLock(s0: State, s: State, t: Thread, x: SlotId, u: Thread) returns (s': State)
    requires Leads(s0, s, t) && Scene(s, t, x) && u in Holders(s, x) && WantsSlot(At(s, u))
    ensures Leads(s0, s', t) && Scene(s', t, x) && Holders(s', x) <= Holders(s, x)
    ensures s'.handles == s.handles && s'.ownerHolds == s.ownerHolds && x !in s'.slotLocks
    ensures At(s', u) == At(s, u) && u in Holders(s', x)
  {
    s' := s;
    assert ThreadOk(s, u);
    if x in s.slotLocks {
      var v := s.slotLocks[x];
      assert ThreadOk(s, v);
      LeadsOn(s0, s, t, Advance(v));
      SceneAdvance(s, t, x, v);
      LeavesSection(s, v);
      OthersStay(s, Advance(v));
      OthersKeepHolding(s, Advance(v));
      s' := AdvanceStep(s, v);
    }
  }

  /** Clears the way for the next step of a holder. */
  lemma Unblock(s0: State, s: State, t: Thread, x: SlotId, u: Thread) returns (s': State)
    requires Leads(s0, s, t) && Scene(s, t, x) && u in Holders(s, x)
    ensures Leads(s0, s', t) && Scene(s', t, x) && Holders(s', x) <= Holders(s, x)
    ensures s'.handles == s.handles && s'.ownerHolds == s.ownerHolds
    ensures At(s', u) == At(s, u) && u in Holders(s', x) && Enabled(s', Advance(u))
  {
    s' := s;
    if WantsSlot(At(s, u)) {
      s' := FreeSlotLock(s0, s, t, x, u);
    } else if WantsStore(At(s, u)) {
      s' := FreeStoreLock(s0, s, t, x);
    }
    assert ThreadOk(s', u);
  }

  /** How many steps an operation still has before it. */
  function Rank(pc: Pc): nat {
    match pc
    case Idle => 0
    case RetireWantSlot(_) => 5
    case RetireInSlot(_) => 4
    case RetireWantOwner(_) => 3
    case RetireWantStore(_) => 2
    case RetainWantStore(_) => 2
    case EraseWantStore(_) => 2
    case PublishWantSlot(_, _) => 2
    case _ => 1
  }

  lemma RankFalls(s: State, t: Thread)
    requires Ready(s, Advance(t))
    ensures Rank(NextPc(s, t)) < Rank(At(s, t))
  {
  }

  /** A holder can finish, and gives its reference back. */
  lemma {:induction false} HolderFinishes(s0: State, s: State, t: Thread, x: SlotId, u: Thread) returns (s': State)
    requires Leads(s0, s, t) && Scene(s, t, x) && u in Holders(s, x)
    ensures Leads(s0, s', t) && Scene(s', t, x) && Holders(s', x) <= Holders(s, x) - {u}
    ensures s'.handles == s.handles && s'.ownerHolds == s.ownerHolds
    decreases Rank(At(s, u))
  {
    var s1 := Unblock(s0, s, t, x, u);
    LeadsOn(s0, s1, t, Advance(u));
    SceneAdvance(s1, t, x, u);
    RankFalls(s1, u);
    OthersStay(s1, Advance(u));
    s' := AdvanceStep(s1, u);
    if u in Holders(s', x) {
      s' := HolderFinishes(s0, s', t, x, u);
    }
  }

  lemma {:induction false} HoldersFinish(s0: State, s: State, t: Thread, x: SlotId) returns (s': State)
    requires Leads(s0, s, t) && Scene(s, t, x)
    ensures Leads(s0, s', t) && Scene(s', t, x) && Holders(s', x) == {}
    ensures s'.handles == s.handles && s'.ownerHolds == s.ownerHolds
    decreases Holders(s, x)
  {
    s' := s;
    if u :| u in Holders(s, x) {
      var s1 := HolderFinishes(s0, s, t, x, u);
      s' := HoldersFinish(s0, s1, t, x);
    }
  }

  // ---- The store lets go ----

  ghost function PinsOf(s: State): set<Thread> {
    set u | u in s.pcs && Pins(s.pcs[u])
  }

  /** A thread inside a section of the store, after its owner is gone, pins the store and can
      leave. */
  lemma PinLeaves(s0: State, s: State, t: Thread, x: SlotId, v: Thread) returns (s': State)
    requires Leads(s0, s, t) && Scene(s, t, x) && !s.ownerHolds && At(s, v).RetireInStore?
    ensures Leads(s0, s', t) && Scene(s', t, x) && Holders(s', x) <= Holders(s, x) && s'.handles == s.handles && !s'.ownerHolds
    ensures PinsOf(s') == PinsOf(s) - {v} && v in PinsOf(s)
  {
    assert ThreadOk(s, v);
    LeadsOn(s0, s, t, Advance(v));
    SceneAdvance(s, t, x, v);
    StepPcs(s, Advance(v));
    s' := AdvanceStep(s, v);
  }

  lemma PinEnters(s0: State, s: State, t: Thread, x: SlotId, v: Thread) returns (s': State)
    requires Leads(s0, s, t) && Scene(s, t, x) && !s.ownerHolds && s.storeLock.None? && v in PinsOf(s)
    ensures Leads(s0, s', t) && Scene(s', t, x) && Holders(s', x) <= Holders(s, x) && s'.handles == s.handles && !s'.ownerHolds
    ensures PinsOf(s') == PinsOf(s) && At(s', v).RetireInStore?
  {
    assert ThreadOk(s, v);
    LeadsOn(s0, s, t, Advance(v));
    SceneAdvance(s, t, x, v);
    StepPcs(s, Advance(v));
    s' := AdvanceStep(s, v);
  }

  /** Once the owner is gone, the store goes away with the last thread that pins it. */
  lemma {:induction false} PinsRunOut(s0: State, s: State, t: Thread, x: SlotId) returns (s': State)
    requires Leads(s0, s, t) && Scene(s, t, x) && !s.ownerHolds
    ensures Leads(s0, s', t) && Scene(s', t, x) && Holders(s', x) <= Holders(s, x) && s'.handles == s.handles && s'.list == []
    decreases PinsOf(s)
  {
    assert forall u :: u in s.pcs && Pins(s.pcs[u]) ==> u in PinsOf(s);
    if s.storeLock.Some? {
      HolderOfStoreLockPins(s);
      s' := PinLeaves(s0, s, t, x, s.storeLock.value);
      s' := PinsRunOut(s0, s', t, x);
    } else if v :| v in PinsOf(s) {
      var s1 := PinEnters(s0, s, t, x, v);
      var s2 := PinLeaves(s0, s1, t, x, v);
      s' := PinsRunOut(s0, s2, t, x);
    } else {
      s' := s;
    }
  }

  lemma HolderOfStoreLockPins(s: State)
    requires Inv(s) && !s.ownerHolds && s.storeLock.Some?
    ensures At(s, s.storeLock.value).RetireInStore?
  {
    var v := s.storeLock.value;
    assert v in s.pcs;
    assert ByOwner(s.pcs[v]) ==> OwnerBusy(s.pcs);
  }

  lemma {:induction false} FreshThread(threads: set<Thread>) returns (u: Thread)
    ensures u !in threads && forall v :: v in threads ==> v < u
  {
    if v :| v in threads {
      var w := FreshThread(threads - {v});
      assert forall y :: y in threads ==> y == v || y in threads - {v};
      u := if v < w then w else v + 1;
    } else {
      u := 0;
    }
  }

  /** The owner can erase the slot directly. */
  lemma OwnerErases(s0: State, s: State, t: Thread, x: SlotId) returns (s': State)
    requires Leads(s0, s, t) && Scene(s, t, x) && s.ownerHolds && x in s.list && Holders(s, x) == {}
    ensures Leads(s0, s', t) && Scene(s', t, x) && Holders(s', x) == {} && s'.handles == s.handles && x !in s'.list
  {
    var s1 := FreeStoreLock(s0, s, t, x);
    s' := s1;
    if x in s1.list {
      var u := FreshThread(s1.pcs.Keys);
      var s2 := EraseBegins(s0, s1, t, x, u);
      s' := EraseEnds(s0, s2, t, x, u);
    }
  }

  lemma EraseBegins(s0: State, s: State, t: Thread, x: SlotId, u: Thread) returns (s': State)
    requires Leads(s0, s, t) && Scene(s, t, x) && s.ownerHolds && x in s.list && Holders(s, x) == {}
    requires u !in s.pcs && s.storeLock.None?
    ensures Leads(s0, s', t) && Scene(s', t, x) && Holders(s', x) == {u} && s'.handles == s.handles
    ensures At(s', u) == EraseWantStore(x) && s'.storeLock.None?
  {
    var step := Begin(u, EraseWantStore(x), true);
    assert ThreadOk(s, t);
    LeadsOn(s0, s, t, step);
    StepInv(s, step);
    OthersStay(s, step);
    s' := Apply(s, step);
    assert forall v :: v in Holders(s', x) ==> v == u || v in Holders(s, x);
    assert u in Holders(s', x);
  }

  lemma EraseEnds(s0: State, s: State, t: Thread, x: SlotId, u: Thread) returns (s': State)
    requires Leads(s0, s, t) && Scene(s, t, x) && Holders(s, x) == {u} && At(s, u) == EraseWantStore(x) && s.storeLock.None?
    ensures Leads(s0, s', t) && Scene(s', t, x) && Holders(s', x) == {} && s'.handles == s.handles && x !in s'.list
  {
    assert ThreadOk(s, u);
    LeadsOn(s0, s, t, Advance(u));
    SceneAdvance(s, t, x, u);
    OthersStay(s, Advance(u));
    var s1 := AdvanceStep(s, u);
    assert ThreadOk(s1, u);
    LeadsOn(s0, s1, t, Advance(u));
    SceneAdvance(s1, t, x, u);
    AdvanceFrame(s1, u);
    EffectMembers(s1, u, x);
    s' := AdvanceStep(s1, u);
    assert u !in Holders(s', x);
  }

  lemma StoreLetsGo(s0: State, s: State, t: Thread, x: SlotId) returns (s': State)
    requires Leads(s0, s, t) && Scene(s, t, x) && Holders(s, x) == {}
    ensures Leads(s0, s', t) && Scene(s', t, x) && Holders(s', x) == {} && s'.handles == s.handles && x !in s'.list
  {
    if x !in s.list {
      s' := s;
    } else if s.ownerHolds {
      s' := OwnerErases(s0, s, t, x);
    } else {
      s' := PinsRunOut(s0, s, t, x);
    }
  }

  lemma {:induction false} HandlesDrop(s0: State, s: State, t: Thread, x: SlotId) returns (s': State)
    requires Leads(s0, s, t) && x < |s.slots| && Holders(s, x) == {} && x !in s.list
    ensures Leads(s0, s', t) && Freed(s', x)
    decreases s.handles[x]
  {
    assert forall u :: u in s.holding && s.holding[u] == x ==> u in Holders(s, x);
    if x in s.handles {
      LeadsOn(s0, s, t, DropHandle(x));
      s' := HandlesDrop(s0, Apply(s, DropHandle(x)), t, x);
    } else {
      s' := s;
    }
  }

  lemma UnprotectedCanBeFreed(s: State, t: Thread, x: SlotId) returns (s': State)
    requires Scene(s, t, x)
    ensures Leads(s, s', t) && Freed(s', x)
  {
    LeadsNowhere(s, t);
    var s1 := HoldersFinish(s, s, t, x);
    var s2 := StoreLetsGo(s, s1, t, x);
    assert ThreadOk(s2, t);
    s' := HandlesDrop(s, s2, t, x);
  }

  /** In every reachable state, a thread about to use its slot is sure to find it alive, whatever
      the others do first, if and only if it owns a reference, or is inside the slot's mutex and
      keeps a thread waiting there that owns one.  So a retire on a bare pointer that has not
      yet locked the slot, or has left it, never is. */
  lemma AliveExactlyIfProtected(states: seq<State>, steps: seq<Step>, i: nat, t: Thread)
    requires IsRun(states, steps) && i < |states| && Touches(At(states[i], t))
    ensures StaysAlive(states[i], t) <==> Protected(states[i], t)
    ensures !InSlot(At(states[i], t)) ==> (StaysAlive(states[i], t) <==> t in states[i].holding)
  {
    var s := states[i];
    RunInv(states, steps, i);
    if Protected(s, t) {
      forall s' | Leads(s, s', t)
        ensures !Freed(s', At(s, t).slot)
      {
        var path, moves :| IsPath(path, moves, t) && path[0] == s && path[|moves|] == s';
        ProtectedStays(path, moves, t, |moves|);
        ProtectedIsAlive(s', t);
      }
    } else {
      var s' := UnprotectedCanBeFreed(s, t, At(s, t).slot);
    }
  }
}
