/** The critical sections of `Cache::Impl` as methods on its fields.  Each is proved to take
    exactly one step of the step system, which carries the theorems over. */
module PipelineCacheImpl {

  import opened Optional
  import opened WaitGraph
  import opened PipelineCache
  import opened PipelineCacheInvariant
  import opened PipelineCacheTheorems

  datatype Found =
    | Hit(outcome: Outcome)
    | Wait(entry: EntryId, waiter: Option<EntryId>)
    | Produce(entry: EntryId, previous: Option<EntryId>)
    | Bypass

  /** How the stack of the calling thread reflects what a lookup found. */
  predicate Answers(found: Found, before: seq<Frame>, after: seq<Frame>) {
    && before != []
    && match found
       case Hit(_) => after == Pop(before)
       case Wait(entry, waiter) => after == Pop(before) + [Waiting(entry, waiter)]
       case Produce(entry, previous) => after == Pop(before) + [Producing(entry, previous)]
       case Bypass => after == Pop(before) + [Bypassing]
  }

  /** The device is gone and all others lead where they led. */
  ghost predicate Detached(before: map<Address, ScopeId>, after: map<Address, ScopeId>, device: Address) {
    && device !in after
    && forall d :: d != device ==> (d in after <==> d in before) && (d in before ==> after[d] == before[d])
  }

  /** The entry leads, along waits, to the one the thread is itself producing. */
  ghost predicate LocksItselfOut(s: State, t: Thread, entry: EntryId) {
    Active(s, t).Some? && Reaches(s.waitingOn, entry, Active(s, t).value)
  }

  class Impl {
    var scopes: map<Address, ScopeId>
    var retirements: seq<Retirement>
    var tables: seq<map<Key, EntryId>>
    var entries: seq<Entry>
    var waitingOn: Graph
    var active: map<Thread, EntryId>
    ghost var stacks: map<Thread, seq<Frame>>

    ghost function Snapshot(): State
      reads this
    {
      State(scopes, retirements, tables, entries, waitingOn, active, stacks)
    }

    constructor ()
      ensures Snapshot() == Initial && Inv(Snapshot())
    {
      scopes, retirements, tables, entries := map[], [], [], [];
      waitingOn, active, stacks := map[], map[], map[];
      new;
      InitialInv();
    }

    /** The loop of `scopeFor` over the list of retirements. */
    method IsRetired(device: Address) returns (retired: bool)
      ensures retired <==> Retired(retirements, device)
    {
      for i := 0 to |retirements|
        invariant forall k :: 0 <= k < i ==> retirements[k].device != device
      {
        if retirements[i].device == device {
          return true;
        }
      }
      return false;
    }

    /** `scopeFor`: walks the list of retirements before it looks at the scopes. */
    method ScopeFor(ghost t: Thread, device: Address, ghost key: Key, memory: bool) returns (scope: Option<ScopeId>)
      requires Inv(Snapshot()) && Enabled(Snapshot(), Admit(t, memory))
      requires Stack(Snapshot(), t) != [] && Top(Stack(Snapshot(), t)) == Entering(device, key)
      modifies this
      ensures Inv(Snapshot()) && Snapshot() == Apply(old(Snapshot()), Admit(t, memory))
      ensures Stack(Snapshot(), t) != []
      ensures Top(Stack(Snapshot(), t)) == if scope.Some? then Looking(scope.value, key) else Bypassing
      ensures scope.None? <==> Retired(old(retirements), device) || (device !in old(scopes) && !memory)
      ensures scope.Some? ==> device in scopes && scopes[device] == scope.value
      ensures scope.Some? ==> scope.value == if device in old(scopes) then old(scopes)[device] else |old(tables)|
    {
      ghost var s := Snapshot();
      AdmitInv(s, t, memory);
      AdmitAnswers(s, t, memory);
      var retired := IsRetired(device);
      if retired {
        scope := None;
      } else {
        scope := CurrentOrNewScope(device, memory);
      }
      stacks := AdmitStep(s, t, memory).stacks;
    }

    /** What an admission does to each field. */
    static lemma AdmitAnswers(s: State, t: Thread, memory: bool)
      requires Enabled(s, Admit(t, memory))
      ensures
        var s', call := AdmitStep(s, t, memory), Top(Stack(s, t));
        var fresh_ := !Retired(s.retirements, call.device) && call.device !in s.scopes && memory;
        && s'.retirements == s.retirements && s'.entries == s.entries && s'.waitingOn == s.waitingOn && s'.active == s.active
        && s'.scopes == (if fresh_ then s.scopes[call.device := |s.tables|] else s.scopes)
        && s'.tables == (if fresh_ then s.tables + [map[]] else s.tables)
        && Stack(s', t) != []
        && Top(Stack(s', t)) ==
           if Retired(s.retirements, call.device) then Bypassing
           else if call.device in s.scopes then Looking(s.scopes[call.device], call.key)
           else if memory then Looking(|s.tables|, call.key) else Bypassing
    {
    }

    method CurrentOrNewScope(device: Address, memory: bool) returns (scope: Option<ScopeId>)
      modifies this`scopes, this`tables
      ensures device in old(scopes) ==> scope == Some(old(scopes)[device])
      ensures device !in old(scopes) ==> scope == if memory then Some(|old(tables)|) else None
      ensures if device !in old(scopes) && memory
              then scopes == old(scopes)[device := |old(tables)|] && tables == old(tables) + [map[]]
              else scopes == old(scopes) && tables == old(tables)
    {
      if device in scopes {
        scope := Some(scopes[device]);
      } else if !memory {
        scope := None;
      } else {
        scope := Some(|tables|);
        scopes := scopes[device := |tables|];
        tables := tables + [map[]];
      }
    }

    /** The section of `getOrCreate` under the scope mutex, up to the wait. */
    method FindOrInsert(t: Thread, scope: ScopeId, key: Key, depth: nat, memory: bool) returns (found: Found)
      requires Inv(Snapshot()) && Enabled(Snapshot(), Lookup(t, memory))
      requires |Stack(Snapshot(), t)| == depth + 1 && Top(Stack(Snapshot(), t)) == Looking(scope, key)
      modifies this
      ensures Inv(Snapshot()) && Snapshot() == LookupStep(old(Snapshot()), t, memory)
      ensures Answers(found, old(Stack(Snapshot(), t)), Stack(Snapshot(), t))
      ensures key !in old(tables)[scope] ==>
                if memory then found.Produce? && found.entry == |old(entries)| else found.Bypass?
      ensures key in old(tables)[scope] ==>
                var e := old(tables)[scope][key];
                && e < |old(entries)|
                && (found.Hit? <==> old(entries)[e].complete)
                && (found.Hit? ==> Some(found.outcome) == old(entries)[e].outcome)
                && (found.Hit? ==> ReturnedEntry(old(Snapshot()), Lookup(t, memory)) == Some(e))
                && (found.Wait? ==> found.entry == e)
                && (found.Bypass? <==> !old(entries)[e].complete && LocksItselfOut(old(Snapshot()), t, e))
                && !found.Produce?
    {
      ghost var s := Snapshot();
      LookupInv(s, t, memory);
      if key !in tables[scope] {
        if memory {
          found := Insert(t, scope, key, depth);
        } else {
          found := Bypass;
          stacks := ReplaceTop(s, t, Bypassing).stacks;
        }
      } else {
        var entry := tables[scope][key];
        ListedEntry(s, scope, key);
        if entries[entry].complete {
          found := Hit(entries[entry].outcome.value);
          stacks := WithStack(s, t, Pop(Stack(s, t))).stacks;
        } else {
          found := Join(t, entry);
        }
      }
    }

    method Insert(t: Thread, scope: ScopeId, key: Key, depth: nat) returns (found: Found)
      requires |Stack(Snapshot(), t)| == depth + 1 && scope < |tables|
      modifies this
      ensures Snapshot() == StartProducing(old(Snapshot()), t, scope, key)
      ensures found.Produce? && found.entry == |old(entries)|
      ensures Answers(found, old(Stack(Snapshot(), t)), Stack(Snapshot(), t))
    {
      var previous := if t in active then Some(active[t]) else None;
      found := Produce(|entries|, previous);
      stacks := StartProducing(Snapshot(), t, scope, key).stacks;
      var table: map<Key, EntryId> := tables[scope][key := |entries|];
      tables := tables[scope := table];
      if previous.Some? {
        waitingOn := waitingOn[previous.value := |entries|];
      }
      active := active[t := |entries|];
      entries := entries + [Entry(scope, key, false, None, t, depth)];
    }

    /** Constructs the `WaitDependency` for an entry in flight. */
    method Join(t: Thread, entry: EntryId) returns (found: Found)
      requires Stack(Snapshot(), t) != [] && Acyclic(waitingOn)
      modifies this
      ensures Snapshot() == StartWaiting(old(Snapshot()), t, entry)
      ensures found.Bypass? <==> LocksItselfOut(old(Snapshot()), t, entry)
      ensures found.Bypass? || (found.Wait? && found.entry == entry)
      ensures Answers(found, old(Stack(Snapshot(), t)), Stack(Snapshot(), t))
    {
      ghost var s := Snapshot();
      var waiter := if t in active then Some(active[t]) else None;
      if waiter.Some? {
        var cyclic := LeadsBack(waitingOn, entry, waiter.value);
        if cyclic {
          found := Bypass;
          stacks := ReplaceTop(s, t, Bypassing).stacks;
          return;
        }
        waitingOn := waitingOn[waiter.value := entry];
      }
      found := Wait(entry, waiter);
      stacks := ReplaceTop(s, t, Waiting(entry, waiter)).stacks;
    }

    /** Returning from `ready.wait` once the entry is complete. */
    method WakeUp(ghost t: Thread, entry: EntryId, waiter: Option<EntryId>) returns (outcome: Outcome)
      requires Inv(Snapshot()) && Stack(Snapshot(), t) != [] && Top(Stack(Snapshot(), t)) == Waiting(entry, waiter)
      requires entry < |entries| && entries[entry].complete
      modifies this
      ensures Inv(Snapshot()) && Snapshot() == Apply(old(Snapshot()), Wake(t))
      ensures Some(outcome) == old(entries[entry]).outcome
      ensures ReturnedEntry(old(Snapshot()), Wake(t)) == Some(entry)
    {
      ghost var s := Snapshot();
      WakeInv(s, t);
      assert EntryOk(s, entry);
      if waiter.Some? {
        waitingOn := waitingOn - {waiter.value};
      }
      stacks := WithStack(s, t, Pop(Stack(s, t))).stacks;
      outcome := entries[entry].outcome.value;
    }

    /** Publication of a result or an exception by the producer. */
    method Complete(ghost t: Thread, entry: EntryId, ghost previous: Option<EntryId>, outcome: Outcome)
      requires Inv(Snapshot()) && Stack(Snapshot(), t) != [] && Top(Stack(Snapshot(), t)) == Producing(entry, previous)
      modifies this
      ensures Inv(Snapshot()) && Enabled(old(Snapshot()), Publish(t, outcome))
      ensures Snapshot() == PublishStep(old(Snapshot()), t, outcome)
      ensures entry < |entries| && entries[entry].outcome == Some(outcome) && entries[entry].scope < |tables|
      ensures
        var scope, key := entries[entry].scope, entries[entry].key;
        key in tables[scope] && tables[scope][key] == entry <==> outcome.Native? && outcome.state.Some? && outcome.error.None?
    {
      ghost var s := Snapshot();
      ProducedEntry(s, t, entry, previous);
      PublishInv(s, t, outcome);
      var scope, key := entries[entry].scope, entries[entry].key;
      entries := entries[entry := entries[entry].(complete := true, outcome := Some(outcome))];
      if !Successful(outcome) {
        tables := tables[scope := EraseIfCurrent(tables[scope], key, entry)];
      }
      stacks := ReplaceTop(s, t, Published(entry, previous)).stacks;
      assert EntryOk(Snapshot(), entry);
    }

    /** The destructor of `ProducerGuard`, after the producer's own outcome has been copied. */
    method EndProducing(t: Thread, entry: EntryId, previous: Option<EntryId>) returns (outcome: Outcome)
      requires Inv(Snapshot()) && Stack(Snapshot(), t) != [] && Top(Stack(Snapshot(), t)) == Published(entry, previous)
      modifies this
      ensures Inv(Snapshot()) && Snapshot() == Apply(old(Snapshot()), Leave(t))
      ensures entry < |old(entries)| && Some(outcome) == old(entries)[entry].outcome
      ensures ReturnedEntry(old(Snapshot()), Leave(t)) == Some(entry)
    {
      ghost var s := Snapshot();
      LeaveInv(s, t);
      PublishedEntry(s, t, entry, previous);
      outcome := entries[entry].outcome.value;
      active := SetActive(active, t, previous);
      if previous.Some? && previous.value in waitingOn && waitingOn[previous.value] == entry {
        waitingOn := waitingOn - {previous.value};
      }
      stacks := WithStack(s, t, Pop(Stack(s, t))).stacks;
    }

    method ForgetDevice(ghost t: Thread, device: Address)
      requires Inv(Snapshot()) && RunsForeignCode(Stack(Snapshot(), t))
      modifies this
      ensures Inv(Snapshot()) && Snapshot() == Apply(old(Snapshot()), Forget(t, device))
      ensures Detached(old(scopes), scopes, device)
    {
      ForgetInv(Snapshot(), t, device);
      if device in scopes {
        scopes := scopes - {device};
      }
      assert scopes == old(scopes) - {device};
    }

    /** The first section of `withDeviceRetired`: link the record, take the scope away. */
    method RetireDevice(t: Thread, depth: nat, device: Address)
      requires Inv(Snapshot()) && RunsForeignCode(Stack(Snapshot(), t)) && depth == |Stack(Snapshot(), t)|
      modifies this
      ensures Inv(Snapshot()) && Snapshot() == Apply(old(Snapshot()), BeginRetirement(t, device))
      ensures Detached(old(scopes), scopes, device) && Retired(retirements, device)
    {
      ghost var s := Snapshot();
      BeginRetirementInv(s, t, device);
      retirements := [Retirement(t, depth, device)] + retirements;
      if device in scopes {
        scopes := scopes - {device};
      }
      stacks := Push(s, t, Retiring(device)).stacks;
      assert scopes == old(scopes) - {device};
      assert retirements[0].device == device;
    }

    /** `endRetirement`: walk the list to the record and unlink it.  The loop has no
        null check; it is safe because the record of a running retirement is linked. */
    method UnlinkRetirement(t: Thread, depth: nat, device: Address)
      requires Inv(Snapshot())
      requires |Stack(Snapshot(), t)| == depth + 1 && Top(Stack(Snapshot(), t)) == Retiring(device)
      modifies this
      ensures Inv(Snapshot()) && Snapshot() == Apply(old(Snapshot()), EndRetirement(t))
    {
      ghost var s := Snapshot();
      EndRetirementInv(s, t);
      var record := Retirement(t, depth, device);
      RecordIsLinked(s, t, depth, device);
      retirements := RemoveRecord(retirements, record);
      stacks := WithStack(s, t, Pop(Stack(s, t))).stacks;
    }
  }

  lemma RecordIsLinked(s: State, t: Thread, depth: nat, device: Address)
    requires RetirementsOk(s) && depth < |Stack(s, t)| && Stack(s, t)[depth] == Retiring(device)
    ensures Retirement(t, depth, device) in s.retirements
  {
    assert Stack(s, t)[depth].Retiring?;
  }

  lemma ListedEntry(s: State, scope: ScopeId, key: Key)
    requires Inv(s) && scope < |s.tables| && key in s.tables[scope]
    ensures
      var e := s.tables[scope][key];
      && e < |s.entries|
      && (s.entries[e].complete ==> s.entries[e].outcome.Some? && Successful(s.entries[e].outcome.value))
  {
    assert EntryOk(s, s.tables[scope][key]);
  }

  lemma ProducedEntry(s: State, t: Thread, entry: EntryId, previous: Option<EntryId>)
    requires Inv(s) && Stack(s, t) != [] && Top(Stack(s, t)) == Producing(entry, previous)
    ensures entry < |s.entries| && s.entries[entry].scope < |s.tables|
  {
    assert FrameOk(s, t, |Stack(s, t)| - 1) && EntryOk(s, entry);
  }

  lemma PublishedEntry(s: State, t: Thread, entry: EntryId, previous: Option<EntryId>)
    requires Inv(s) && Stack(s, t) != [] && Top(Stack(s, t)) == Published(entry, previous)
    ensures entry < |s.entries| && s.entries[entry].outcome.Some?
  {
    assert FrameOk(s, t, |Stack(s, t)| - 1) && EntryOk(s, entry);
  }

  method RemoveRecord(records: seq<Retirement>, record: Retirement) returns (rest: seq<Retirement>)
    requires record in records
    ensures rest == Unlink(records, record) && multiset(rest) == multiset(records) - multiset{record}
  {
    var current := 0;
    while records[current] != record
      invariant 0 <= current < |records| && record in records[current..]
      invariant Unlink(records, record) == records[..current] + Unlink(records[current..], record)
      decreases |records| - current
    {
      UnlinkSkips(records, current, record);
      current := current + 1;
    }
    assert records[current..][1..] == records[current + 1..];
    assert records == records[..current] + [record] + records[current + 1..];
    rest := records[..current] + records[current + 1..];
  }

  lemma UnlinkSkips(rs: seq<Retirement>, i: nat, r: Retirement)
    requires i < |rs| && rs[i] != r && r in rs[i..]
    ensures r in rs[i + 1..]
    ensures rs[..i] + Unlink(rs[i..], r) == rs[..i + 1] + Unlink(rs[i + 1..], r)
  {
    assert rs[i..] == [rs[i]] + rs[i + 1..];
    assert rs[..i + 1] == rs[..i] + [rs[i]];
  }
}
