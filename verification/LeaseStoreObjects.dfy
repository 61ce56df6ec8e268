/** `ExecutionLeaseStore` and `ExecutionSlot` as objects: what one call does to their fields. */
module LeaseStoreObjects {

  import opened Optional
  import opened LeaseStore

  class ExecutionLeaseStore {
    var slots: seq<ExecutionSlot>

    constructor ()
      ensures slots == []
    {
      slots := [];
    }

    method Retain(slot: ExecutionSlot)
      modifies this
      ensures slots == old(slots) + [slot]
    {
      slots := slots + [slot];
    }

    /** Erases every occurrence of `slot` and keeps the others in order. */
    method Retire(slot: ExecutionSlot)
      modifies this
      ensures slots == Without(old(slots), {slot})
      ensures slot !in slots && forall other :: other != slot ==> (other in slots <==> other in old(slots))
    {
      var kept: seq<ExecutionSlot> := [];
      for i := 0 to |slots|
        invariant slots == old(slots) && kept == Without(slots[..i], {slot})
      {
        assert slots[..i + 1] == slots[..i] + [slots[i]];
        WithoutAppend(slots[..i], slots[i], {slot});
        if slots[i] != slot {
          kept := kept + [slots[i]];
        }
      }
      assert slots[..|slots|] == slots;
      WithoutMember(slots, {slot});
      slots := kept;
    }
  }

  class ExecutionSlot {
    var lease: Option<LeaseId>
    /** What locking the weak owner pointer yields; null when empty or expired. */
    var owner: ExecutionLeaseStore?

    constructor (initial: Option<LeaseId>, retention: ExecutionLeaseStore?)
      ensures lease == initial && owner == retention
    {
      lease, owner := initial, retention;
    }

    method Retire()
      modifies this`lease, owner
      ensures lease.None? && owner == old(owner)
      ensures owner != null ==> owner.slots == Without(old(owner.slots), {this})
    {
      lease := None;
      var retention := owner;
      if retention != null {
        retention.Retire(this);
      }
    }
  }
}
