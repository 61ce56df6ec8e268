/** What a caller of the cache gets, in terms of the arguments of its call and of the outcomes
    of creation functions. */
module PipelineCacheService {

  import opened Optional
  import opened WaitGraph
  import opened PipelineCache
  import opened PipelineCacheInvariant
  import opened PipelineCacheTheorems

  // ---- What is kept ----

  ghost predicate ListedSomewhere(s: State, e: EntryId) {
    exists c: nat, k :: c < |s.tables| && k in s.tables[c] && s.tables[c][k] == e
  }

  predicate ListedAt(s: State, c: ScopeId, k: Key, e: EntryId) {
    c < |s.tables| && k in s.tables[c] && s.tables[c][k] == e
  }

  /** From its publication on, an entry is listed under its scope and key if the creation gave a
      state and no error, and nowhere at all if it gave anything else: a nil state, an error,
      or an exception of either kind. */
  lemma ListedExactlyIfUsable(states: seq<State>, steps: seq<Step>, i: nat, j: nat)
    requires IsRun(states, steps) && i < j < |states| && steps[i].Publish?
    ensures
      var e := Top(Stack(states[i], steps[i].t)).entry;
      && e < |states[i].entries|
      && match steps[i].outcome
         case Native(Some(_), None) => ListedAt(states[j], states[i].entries[e].scope, states[i].entries[e].key, e)
         case Native(_, _) => !ListedSomewhere(states[j], e)
         case ObjcException(_) => !ListedSomewhere(states[j], e)
         case CppException(_) => !ListedSomewhere(states[j], e)
  {
    var e := Top(Stack(states[i], steps[i].t)).entry;
    RunInv(states, steps, i);
    assert FrameOk(states[i], steps[i].t, |Stack(states[i], steps[i].t)| - 1);
    PublishStores(states[i], steps[i].t, steps[i].outcome);
    if steps[i].outcome.Native? && steps[i].outcome.state.Some? && steps[i].outcome.error.None? {
      SuccessIsReused(states, steps, i + 1, j, e);
    } else {
      FailureIsRetried(states, steps, i + 1, j, e);
    }
  }

  lemma PublishStores(s: State, t: Thread, outcome: Outcome)
    requires Enabled(s, Publish(t, outcome))
    ensures
      var e, s' := Top(Stack(s, t)).entry, PublishStep(s, t, outcome);
      && e < |s'.entries| && s'.entries[e].outcome == Some(outcome)
      && s'.entries[e].scope == s.entries[e].scope && s'.entries[e].key == s.entries[e].key
  {
  }

  // ---- Devices keep their scopes ----

  lemma StepKeepsScope(s: State, step: Step, device: Address)
    requires Enabled(s, step) && device in s.scopes && !Detaches(step, device)
    ensures device in Apply(s, step).scopes && Apply(s, step).scopes[device] == s.scopes[device]
  {
  }

  /** Whatever happens to other devices, a device keeps its scope until it is detached itself. */
  lemma {:induction false} ScopeIsKept(states: seq<State>, steps: seq<Step>, i: nat, j: nat, device: Address)
    requires IsRun(states, steps) && i <= j < |states| && device in states[i].scopes
    requires forall m {:trigger steps[m]} :: i <= m < j ==> !Detaches(steps[m], device)
    ensures device in states[j].scopes && states[j].scopes[device] == states[i].scopes[device]
    decreases j
  {
    if i < j {
      ScopeIsKept(states, steps, i, j - 1, device);
      StepKeepsScope(states[j - 1], steps[j - 1], device);
    }
  }

  /** Once a creation for a device and key has given a state and no error, every later call for
      them, until the device is detached, is admitted to the same scope and hits that entry. */
  lemma SuccessServesItsDevice(states: seq<State>, steps: seq<Step>, i: nat, j: nat, device: Address)
    requires IsRun(states, steps) && i < j < |steps|
    requires steps[i].Publish? && steps[i].outcome.Native? && steps[i].outcome.state.Some? && steps[i].outcome.error.None?
    requires
      var e := Top(Stack(states[i], steps[i].t)).entry;
      device in states[i].scopes && states[i].scopes[device] == states[i].entries[e].scope
    requires forall m {:trigger steps[m]} :: i <= m < j ==> !Detaches(steps[m], device)
    ensures
      var e, t := Top(Stack(states[i], steps[i].t)).entry, steps[j].t;
      var c, k := states[i].entries[e].scope, states[i].entries[e].key;
      && (steps[j].Admit? && Top(Stack(states[j], t)) == Entering(device, k) ==>
            Stack(states[j + 1], t) == Pop(Stack(states[j], t)) + [Looking(c, k)])
      && (steps[j].Lookup? && Top(Stack(states[j], t)) == Looking(c, k) ==>
            && ReturnedEntry(states[j], steps[j]) == Some(e)
            && Stack(states[j + 1], t) == Pop(Stack(states[j], t))
            && states[j].entries[e].outcome == Some(steps[i].outcome))
  {
    var e, t := Top(Stack(states[i], steps[i].t)).entry, steps[j].t;
    RunInv(states, steps, i);
    RunInv(states, steps, j);
    ScopeIsKept(states, steps, i, j, device);
    ListedExactlyIfUsable(states, steps, i, j);
    PublishCompletes(states[i], steps[i]);
    PublishStores(states[i], steps[i].t, steps[i].outcome);
    EntriesAreFinal(states, steps, i + 1, j, e);
    if steps[j].Admit? && Top(Stack(states[j], t)).device == device {
      AttachedIsNotRetired(states[j], device);
    }
  }

  lemma AttachedIsNotRetired(s: State, device: Address)
    requires RetirementsOk(s) && device in s.scopes
    ensures !Retired(s.retirements, device)
  {
    assert forall k :: 0 <= k < |s.retirements| ==> s.retirements[k] in s.retirements;
  }

  // ---- What a lookup finds ----

  /** A missing key makes the thread the producer of a new entry, listed under its scope and key,
      if memory allows, and changes nothing otherwise. */
  lemma MissCreatesTheEntry(s: State, t: Thread, memory: bool)
    requires Enabled(s, Lookup(t, memory)) && Top(Stack(s, t)).key !in s.tables[Top(Stack(s, t)).scope]
    ensures
      var s', c, k := LookupStep(s, t, memory), Top(Stack(s, t)).scope, Top(Stack(s, t)).key;
      if memory then
        && |s'.entries| == |s.entries| + 1 && Stack(s', t) == Pop(Stack(s, t)) + [Producing(|s.entries|, Active(s, t))]
        && ListedAt(s', c, k, |s.entries|) && Active(s', t) == Some(|s.entries|)
        && !s'.entries[|s.entries|].complete && s'.entries[|s.entries|].owner == t
        && s'.entries[|s.entries|].scope == c && s'.entries[|s.entries|].key == k
      else
        s'.tables == s.tables && s'.entries == s.entries && Stack(s', t) == Pop(Stack(s, t)) + [Bypassing]
  {
  }

  /** A listed entry is returned if it is complete; otherwise the thread waits for that very
      entry, unless that would close a cycle of waits. */
  lemma ListedEntryIsUsed(s: State, t: Thread, memory: bool)
    requires Inv(s) && Enabled(s, Lookup(t, memory)) && Top(Stack(s, t)).key in s.tables[Top(Stack(s, t)).scope]
    ensures
      var s', e := LookupStep(s, t, memory), s.tables[Top(Stack(s, t)).scope][Top(Stack(s, t)).key];
      && e < |s.entries| && s'.tables == s.tables && s'.entries == s.entries
      && Stack(s', t) ==
         if s.entries[e].complete then Pop(Stack(s, t))
         else if Active(s, t).Some? && !Acyclic(s.waitingOn[Active(s, t).value := e]) then Pop(Stack(s, t)) + [Bypassing]
         else Pop(Stack(s, t)) + [Waiting(e, Active(s, t))]
  {
    var e := s.tables[Top(Stack(s, t)).scope][Top(Stack(s, t)).key];
    assert ActiveOk(s, t);
    if Active(s, t).Some? && !s.entries[e].complete {
      NewEdgeClosesCycle(s.waitingOn, Active(s, t).value, e);
    }
  }

  // ---- A call is served for its own arguments ----

  /** At some time after `i` and up to `j` the device led to the scope `c`. */
  ghost predicate LedTo(states: seq<State>, i: nat, j: nat, device: Address, c: ScopeId) {
    exists m: nat :: i < m <= j && m < |states| && device in states[m].scopes && states[m].scopes[device] == c
  }

  /** What the frame of a call for `device` and `key`, begun at `i`, may be at `j`. */
  ghost predicate Serves(states: seq<State>, i: nat, j: nat, f: Frame, device: Address, key: Key)
    requires j < |states|
  {
    match f
    case Entering(d, k) => d == device && k == key
    case Looking(c, k) => k == key && LedTo(states, i, j, device, c)
    case Waiting(e, _) => ServesEntry(states, i, j, e, device, key)
    case Producing(e, _) => ServesEntry(states, i, j, e, device, key)
    case Published(e, _) => ServesEntry(states, i, j, e, device, key)
    case Bypassing => true
    case Retiring(_) => false
  }

  ghost predicate ServesEntry(states: seq<State>, i: nat, j: nat, e: EntryId, device: Address, key: Key)
    requires j < |states|
  {
    e < |states[j].entries| && states[j].entries[e].key == key && LedTo(states, i, j, device, states[j].entries[e].scope)
  }

  lemma LedToLater(states: seq<State>, i: nat, j: nat, device: Address, c: ScopeId)
    requires LedTo(states, i, j, device, c)
    ensures LedTo(states, i, j + 1, device, c)
  {
    var m: nat :| i < m <= j && m < |states| && device in states[m].scopes && states[m].scopes[device] == c;
    assert i < m <= j + 1;
  }

  lemma ServesEntryLater(states: seq<State>, steps: seq<Step>, i: nat, j: nat, e: EntryId, device: Address, key: Key)
    requires IsRun(states, steps) && j < |steps| && ServesEntry(states, i, j, e, device, key)
    ensures ServesEntry(states, i, j + 1, e, device, key)
  {
    EntriesAreFinal(states, steps, j, j + 1, e);
    LedToLater(states, i, j, device, states[j].entries[e].scope);
  }

  /** A frame that is not touched still serves its call. */
  lemma ServesLater(states: seq<State>, steps: seq<Step>, i: nat, j: nat, f: Frame, device: Address, key: Key)
    requires IsRun(states, steps) && j < |steps| && Serves(states, i, j, f, device, key)
    ensures Serves(states, i, j + 1, f, device, key)
  {
    match f
    case Looking(c, _) => LedToLater(states, i, j, device, c);
    case Waiting(e, _) => ServesEntryLater(states, steps, i, j, e, device, key);
    case Producing(e, _) => ServesEntryLater(states, steps, i, j, e, device, key);
    case Published(e, _) => ServesEntryLater(states, steps, i, j, e, device, key);
    case _ =>
  }

  /** What a step makes of the frame at depth `n` of a stack that stays higher than that. */
  lemma FrameBelowStays(s: State, step: Step, t: Thread, n: nat)
    requires Enabled(s, step) && n < |Stack(s, t)| && n < |Stack(Apply(s, step), t)|
    requires step.t != t || n < |Stack(s, t)| - 1 || BeginsSomething(step)
    ensures Stack(Apply(s, step), t)[n] == Stack(s, t)[n]
  {
    if step.t != t { OthersKeepMyStack(s, step, t); }
  }

  lemma AdmitServes(states: seq<State>, steps: seq<Step>, i: nat, j: nat, device: Address, key: Key)
    requires IsRun(states, steps) && i <= j < |steps| && steps[j].Admit?
    requires Serves(states, i, j, Top(Stack(states[j], steps[j].t)), device, key)
    ensures Stack(states[j + 1], steps[j].t) != []
    ensures Serves(states, i, j + 1, Top(Stack(states[j + 1], steps[j].t)), device, key)
  {
    var s' := states[j + 1];
    var f := Top(Stack(s', steps[j].t));
    if f.Looking? {
      assert i < j + 1 <= j + 1 && device in states[j + 1].scopes && states[j + 1].scopes[device] == f.scope;
    }
  }

  lemma LookupServes(states: seq<State>, steps: seq<Step>, i: nat, j: nat, device: Address, key: Key)
    requires IsRun(states, steps) && i <= j < |steps| && steps[j].Lookup?
    requires Serves(states, i, j, Top(Stack(states[j], steps[j].t)), device, key)
    requires |Stack(states[j + 1], steps[j].t)| == |Stack(states[j], steps[j].t)|
    ensures Serves(states, i, j + 1, Top(Stack(states[j + 1], steps[j].t)), device, key)
  {
    var s, t := states[j], steps[j].t;
    var c := Top(Stack(s, t)).scope;
    RunInv(states, steps, j);
    LedToLater(states, i, j, device, c);
    if key in s.tables[c] {
      ListedEntryIsUsed(s, t, steps[j].memory);
    } else {
      MissCreatesTheEntry(s, t, steps[j].memory);
    }
  }

  lemma PublishServes(states: seq<State>, steps: seq<Step>, i: nat, j: nat, device: Address, key: Key)
    requires IsRun(states, steps) && i <= j < |steps| && steps[j].Publish?
    requires Serves(states, i, j, Top(Stack(states[j], steps[j].t)), device, key)
    ensures Stack(states[j + 1], steps[j].t) != []
    ensures Serves(states, i, j + 1, Top(Stack(states[j + 1], steps[j].t)), device, key)
  {
    ServesEntryLater(states, steps, i, j, Top(Stack(states[j], steps[j].t)).entry, device, key);
  }

  /** The frame of a call at depth `n`, as long as it is on the stack. */
  lemma {:induction false} FrameServesItsCall(states: seq<State>, steps: seq<Step>, i: nat, j: nat, n: nat)
    requires IsRun(states, steps) && i < j < |states| && steps[i].Call? && n == |Stack(states[i], steps[i].t)|
    requires forall m {:trigger states[m]} :: i < m <= j ==> |Stack(states[m], steps[i].t)| > n
    ensures Serves(states, i, j, Stack(states[j], steps[i].t)[n], steps[i].device, steps[i].key)
    decreases j
  {
    var t, device, key := steps[i].t, steps[i].device, steps[i].key;
    if j > i + 1 {
      FrameServesItsCall(states, steps, i, j - 1, n);
      FrameServesNext(states, steps, i, j - 1, n, t, device, key);
    }
  }

  predicate BeginsSomething(step: Step) {
    step.Call? || step.Forget? || step.BeginRetirement?
  }

  /** A top frame that neither calls out nor returns is admitted, looks up or publishes. */
  lemma TopFrameMoves(s: State, step: Step)
    requires Enabled(s, step) && !BeginsSomething(step) && Stack(s, step.t) != []
    requires |Stack(Apply(s, step), step.t)| >= |Stack(s, step.t)|
    ensures step.Admit? || step.Lookup? || step.Publish?
    ensures |Stack(Apply(s, step), step.t)| == |Stack(s, step.t)|
  {
  }

  lemma FrameServesNext(states: seq<State>, steps: seq<Step>, i: nat, j: nat, n: nat, t: Thread, device: Address, key: Key)
    requires IsRun(states, steps) && i <= j < |steps| && n < |Stack(states[j], t)| && n < |Stack(states[j + 1], t)|
    requires Serves(states, i, j, Stack(states[j], t)[n], device, key)
    ensures Serves(states, i, j + 1, Stack(states[j + 1], t)[n], device, key)
  {
    if steps[j].t != t || n < |Stack(states[j], t)| - 1 || BeginsSomething(steps[j]) {
      FrameBelowServes(states, steps, i, j, n, t, device, key);
    } else {
      TopFrameServes(states, steps, i, j, device, key);
    }
  }

  lemma FrameBelowServes(states: seq<State>, steps: seq<Step>, i: nat, j: nat, n: nat, t: Thread, device: Address, key: Key)
    requires IsRun(states, steps) && j < |steps| && n < |Stack(states[j], t)| && n < |Stack(states[j + 1], t)|
    requires steps[j].t != t || n < |Stack(states[j], t)| - 1 || BeginsSomething(steps[j])
    requires Serves(states, i, j, Stack(states[j], t)[n], device, key)
    ensures Serves(states, i, j + 1, Stack(states[j + 1], t)[n], device, key)
  {
    FrameBelowStays(states[j], steps[j], t, n);
    ServesLater(states, steps, i, j, Stack(states[j], t)[n], device, key);
  }

  lemma TopFrameServes(states: seq<State>, steps: seq<Step>, i: nat, j: nat, device: Address, key: Key)
    requires IsRun(states, steps) && i <= j < |steps| && !BeginsSomething(steps[j]) && Stack(states[j], steps[j].t) != []
    requires |Stack(states[j + 1], steps[j].t)| >= |Stack(states[j], steps[j].t)|
    requires Serves(states, i, j, Top(Stack(states[j], steps[j].t)), device, key)
    ensures |Stack(states[j + 1], steps[j].t)| == |Stack(states[j], steps[j].t)|
    ensures Serves(states, i, j + 1, Top(Stack(states[j + 1], steps[j].t)), device, key)
  {
    TopFrameMoves(states[j], steps[j]);
    match steps[j]
    case Admit(_, _) => AdmitServes(states, steps, i, j, device, key);
    case Lookup(_, _) => LookupServes(states, steps, i, j, device, key);
    case Publish(_, _) => PublishServes(states, steps, i, j, device, key);
  }

  /** A call that returns through the cache, directly, after waiting or as the producer, returns
      the outcome of an entry of its own key, in a scope its own device led to during the call. */
  lemma CallGetsItsOwnKey(states: seq<State>, steps: seq<Step>, i: nat, j: nat)
    requires IsRun(states, steps) && i < j < |steps| && steps[i].Call? && steps[j].t == steps[i].t
    requires |Stack(states[j], steps[i].t)| == |Stack(states[i], steps[i].t)| + 1
    requires forall m {:trigger states[m]} :: i < m <= j ==> |Stack(states[m], steps[i].t)| > |Stack(states[i], steps[i].t)|
    requires ReturnedEntry(states[j], steps[j]).Some?
    ensures
      var e := ReturnedEntry(states[j], steps[j]).value;
      && e < |states[j].entries| && states[j].entries[e].key == steps[i].key
      && LedTo(states, i, j, steps[i].device, states[j].entries[e].scope)
  {
    FrameServesItsCall(states, steps, i, j, |Stack(states[i], steps[i].t)|);
    RunInv(states, steps, j);
  }

  // ---- Calls from inside a creation ----

  /** A creation function that asks for the very entry it is producing is not made to wait for
      itself: its call bypasses the cache. */
  lemma SelfCallBypasses(states: seq<State>, steps: seq<Step>, i: nat, t: Thread, device: Address, memory: bool)
    requires IsRun(states, steps) && i < |states| && Stack(states[i], t) != [] && Top(Stack(states[i], t)).Producing?
    requires
      var e := Top(Stack(states[i], t)).entry;
      e < |states[i].entries| && device in states[i].scopes && states[i].scopes[device] == states[i].entries[e].scope
    ensures
      var s, e := states[i], Top(Stack(states[i], t)).entry;
      && Enabled(s, Call(t, device, s.entries[e].key))
      && var s1 := Apply(s, Call(t, device, s.entries[e].key));
      && Enabled(s1, Admit(t, memory))
      && var s2 := Apply(s1, Admit(t, memory));
      && Enabled(s2, Lookup(t, memory))
      && Stack(Apply(s2, Lookup(t, memory)), t) == Stack(s, t) + [Bypassing]
  {
    var s, e := states[i], Top(Stack(states[i], t)).entry;
    RunInv(states, steps, i);
    assert FrameOk(s, t, |Stack(s, t)| - 1) && EntryOk(s, e) && ActiveOk(s, t);
    AttachedIsNotRetired(s, device);
    var s1 := Apply(s, Call(t, device, s.entries[e].key));
    assert Pop(Stack(s1, t)) == Stack(s, t);
    var s2 := Apply(s1, Admit(t, memory));
    assert Pop(Stack(s2, t)) == Stack(s, t);
    assert Active(s, t) == Some(e);
    assert ReachesIn(s.waitingOn, e, e, 0);
  }

  /** Foreign code, be it a thread outside the cache, a creation function with or without an
      entry, or a retirement action, can call the cache, forget a device and begin a retirement. */
  lemma ForeignCodeMayCall(s: State, t: Thread, device: Address, key: Key)
    requires Stack(s, t) == [] || Top(Stack(s, t)).Producing? || Top(Stack(s, t)).Bypassing? || Top(Stack(s, t)).Retiring?
    ensures Enabled(s, Call(t, device, key)) && Enabled(s, Forget(t, device)) && Enabled(s, BeginRetirement(t, device))
  {
  }

  // ---- Retirements last as long as their actions ----

  lemma RetiringFrameStays(s: State, step: Step, t: Thread, n: nat)
    requires Enabled(s, step) && n < |Stack(s, t)| && n < |Stack(Apply(s, step), t)| && Stack(s, t)[n].Retiring?
    ensures Stack(Apply(s, step), t)[n] == Stack(s, t)[n]
  {
    if step.t != t || n < |Stack(s, t)| - 1 || BeginsSomething(step) {
      FrameBelowStays(s, step, t, n);
    } else {
      TopFrameMoves(s, step);
    }
  }

  lemma {:induction false} RetiringFrameLasts(states: seq<State>, steps: seq<Step>, i: nat, j: nat, n: nat)
    requires IsRun(states, steps) && i < j < |states| && steps[i].BeginRetirement? && n == |Stack(states[i], steps[i].t)|
    requires forall m {:trigger states[m]} :: i < m <= j ==> |Stack(states[m], steps[i].t)| > n
    ensures Stack(states[j], steps[i].t)[n] == Retiring(steps[i].device)
    decreases j
  {
    if j > i + 1 {
      RetiringFrameLasts(states, steps, i, j - 1, n);
      RetiringFrameStaysInRun(states, steps, j - 1, steps[i].t, n);
    } else {
      RetirementPushes(states, steps, i);
    }
  }

  lemma RetirementPushes(states: seq<State>, steps: seq<Step>, i: nat)
    requires IsRun(states, steps) && i < |steps| && steps[i].BeginRetirement?
    ensures Stack(states[i + 1], steps[i].t) == Stack(states[i], steps[i].t) + [Retiring(steps[i].device)]
  {
  }

  lemma RetiringFrameStaysInRun(states: seq<State>, steps: seq<Step>, j: nat, t: Thread, n: nat)
    requires IsRun(states, steps) && j < |steps| && n < |Stack(states[j], t)| && n < |Stack(states[j + 1], t)|
    requires Stack(states[j], t)[n].Retiring?
    ensures Stack(states[j + 1], t)[n] == Stack(states[j], t)[n]
  {
    RetiringFrameStays(states[j], steps[j], t, n);
  }

  /** From the beginning of a retirement until its action has returned, whatever the action and
      other threads do, the device has no scope and calls for it bypass the cache. */
  lemma RetirementLastsItsAction(states: seq<State>, steps: seq<Step>, i: nat, j: nat, t: Thread, memory: bool)
    requires IsRun(states, steps) && i < j < |states| && steps[i].BeginRetirement?
    requires forall m {:trigger states[m]} :: i < m <= j ==> |Stack(states[m], steps[i].t)| > |Stack(states[i], steps[i].t)|
    ensures steps[i].device !in states[j].scopes
    ensures Enabled(states[j], Admit(t, memory)) && Top(Stack(states[j], t)).device == steps[i].device ==>
              Stack(Apply(states[j], Admit(t, memory)), t) == Pop(Stack(states[j], t)) + [Bypassing]
  {
    var n := |Stack(states[i], steps[i].t)|;
    RetiringFrameLasts(states, steps, i, j, n);
    RunInv(states, steps, j);
    assert Stack(states[j], steps[i].t)[n].Retiring?;
    assert BeingRetired(states[j], steps[i].device);
    RecordsTellWhatIsRetired(states[j], steps[i].device);
    assert Retirement(steps[i].t, n, steps[i].device) in states[j].retirements;
  }
}
