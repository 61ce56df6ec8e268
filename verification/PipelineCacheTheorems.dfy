/** Safety and progress of the pipeline cache over whole runs. */
module PipelineCacheTheorems {

  import opened Optional
  import opened WaitGraph
  import opened PipelineCache
  import opened PipelineCacheInvariant

  /** A run from the empty cache: any interleaving of enabled steps of any threads. */
  ghost predicate IsRun(states: seq<State>, steps: seq<Step>) {
    && |states| == |steps| + 1
    && states[0] == Initial
    && forall i {:trigger steps[i]} :: 0 <= i < |steps| ==> Enabled(states[i], steps[i]) && states[i + 1] == Apply(states[i], steps[i])
  }

  lemma {:induction false} RunInv(states: seq<State>, steps: seq<Step>, i: nat)
    requires IsRun(states, steps) && i < |states|
    ensures Inv(states[i])
  {
    if i == 0 {
      InitialInv();
    } else {
      RunInv(states, steps, i - 1);
      StepInv(states[i - 1], steps[i - 1]);
    }
  }

  // ---- One creation at a time ----

  /** Two frames that are creating for the same scope and key are the same frame. */
  lemma OneCreationInFlight(states: seq<State>, steps: seq<Step>, i: nat, t: Thread, j: nat, t': Thread, j': nat)
    requires IsRun(states, steps) && i < |states|
    requires j < |Stack(states[i], t)| && Stack(states[i], t)[j].Producing?
    requires j' < |Stack(states[i], t')| && Stack(states[i], t')[j'].Producing?
    ensures
      var s := states[i];
      var e, e' := Stack(s, t)[j].entry, Stack(s, t')[j'].entry;
      && e < |s.entries| && e' < |s.entries|
      && (s.entries[e].scope == s.entries[e'].scope && s.entries[e].key == s.entries[e'].key ==> t == t' && j == j')
  {
    var s := states[i];
    RunInv(states, steps, i);
    assert FrameOk(s, t, j) && FrameOk(s, t', j');
    assert EntryOk(s, Stack(s, t)[j].entry) && EntryOk(s, Stack(s, t')[j'].entry);
  }

  // ---- Entries are final ----

  /** Identity never changes, and neither does anything once the entry is complete. */
  predicate Evolves(e: Entry, e': Entry) {
    && e'.scope == e.scope && e'.key == e.key && e'.owner == e.owner && e'.depth == e.depth
    && (e.complete ==> e' == e)
  }

  /** Scopes and entries are only added, and entries only evolve. */
  ghost predicate Grows(s: State, s': State) {
    && |s.tables| <= |s'.tables| && |s.entries| <= |s'.entries|
    && (forall e: EntryId :: e < |s.entries| ==> Evolves(s.entries[e], s'.entries[e]))
  }

  lemma StepGrows(s: State, step: Step)
    requires Inv(s) && Enabled(s, step)
    ensures Grows(s, Apply(s, step))
  {
    if step.Publish? {
      assert FrameOk(s, step.t, |Stack(s, step.t)| - 1);
      PublishGrows(s, step.t, step.outcome);
    } else if step.Lookup? {
      LookupGrows(s, step.t, step.memory);
    }
  }

  lemma PublishGrows(s: State, t: Thread, outcome: Outcome)
    requires Enabled(s, Publish(t, outcome)) && !s.entries[Top(Stack(s, t)).entry].complete
    ensures Grows(s, PublishStep(s, t, outcome))
  {
  }

  lemma LookupGrows(s: State, t: Thread, memory: bool)
    requires Enabled(s, Lookup(t, memory))
    ensures Grows(s, LookupStep(s, t, memory))
  {
  }

  /** Whatever runs in between, an entry keeps its identity, and a completed one its outcome. */
  lemma {:induction false} EntriesAreFinal(states: seq<State>, steps: seq<Step>, i: nat, j: nat, e: EntryId)
    requires IsRun(states, steps) && i <= j < |states| && e < |states[i].entries|
    ensures |states[i].tables| <= |states[j].tables| && |states[i].entries| <= |states[j].entries|
    ensures Evolves(states[i].entries[e], states[j].entries[e])
    decreases j
  {
    if i < j {
      EntriesAreFinal(states, steps, i, j - 1, e);
      RunInv(states, steps, j - 1);
      StepGrows(states[j - 1], steps[j - 1]);
    }
  }

  lemma {:induction false} RunGrows(states: seq<State>, steps: seq<Step>, i: nat, j: nat)
    requires IsRun(states, steps) && i <= j < |states|
    ensures |states[i].tables| <= |states[j].tables| && |states[i].entries| <= |states[j].entries|
    decreases j
  {
    if i < j {
      RunGrows(states, steps, i, j - 1);
      RunInv(states, steps, j - 1);
      StepGrows(states[j - 1], steps[j - 1]);
    }
  }

  /** A success is served for as long as the scope is used: at every later time the entry is
      the listed one, and nothing creates for its scope and key again. */
  lemma SuccessIsReused(states: seq<State>, steps: seq<Step>, i: nat, j: nat, e: EntryId)
    requires IsRun(states, steps) && i <= j < |states| && e < |states[i].entries|
    requires states[i].entries[e].outcome.Some? && Successful(states[i].entries[e].outcome.value)
    ensures
      var entry := states[i].entries[e];
      && entry.scope < |states[j].tables|
      && entry.key in states[j].tables[entry.scope]
      && states[j].tables[entry.scope][entry.key] == e
      && forall f: EntryId ::
           (&& f < |states[j].entries|
            && states[j].entries[f].scope == entry.scope
            && states[j].entries[f].key == entry.key)
           ==> states[j].entries[f].complete
  {
    RunInv(states, steps, i);
    RunInv(states, steps, j);
    EntriesAreFinal(states, steps, i, j, e);
    assert EntryOk(states[i], e) && EntryOk(states[j], e);
    forall f: EntryId | f < |states[j].entries| && states[j].entries[f].scope == states[i].entries[e].scope
                        && states[j].entries[f].key == states[i].entries[e].key
      ensures states[j].entries[f].complete
    {
      assert EntryOk(states[j], f);
    }
  }

  /** A failure is not served: the entry is unlisted from the moment it completes. */
  lemma FailureIsRetried(states: seq<State>, steps: seq<Step>, i: nat, j: nat, e: EntryId)
    requires IsRun(states, steps) && i <= j < |states| && e < |states[i].entries|
    requires states[i].entries[e].outcome.Some? && !Successful(states[i].entries[e].outcome.value)
    ensures forall c: nat, k :: c < |states[j].tables| && k in states[j].tables[c] ==> states[j].tables[c][k] != e
  {
    RunInv(states, steps, i);
    RunInv(states, steps, j);
    EntriesAreFinal(states, steps, i, j, e);
    assert EntryOk(states[i], e) && EntryOk(states[j], e);
  }

  // ---- What calls return ----

  /** The entry whose outcome a step hands to a caller of `getOrCreate`, if it does. */
  function ReturnedEntry(s: State, step: Step): Option<EntryId>
    requires Enabled(s, step)
  {
    var top := if Stack(s, step.t) == [] then Bypassing else Top(Stack(s, step.t));
    match step
    case Lookup(_, _) =>
      var table := s.tables[top.scope];
      if top.key in table && table[top.key] < |s.entries| && s.entries[table[top.key]].complete
      then Some(table[top.key]) else None
    case Wake(_) => Some(top.entry)
    case Leave(_) => Some(top.entry)
    case _ => None
  }

  lemma StepCompletes(s: State, step: Step, e: EntryId)
    requires Inv(s) && Enabled(s, step)
    requires e < |Apply(s, step).entries| && Apply(s, step).entries[e].complete
    requires e < |s.entries| ==> !s.entries[e].complete
    ensures step.Publish? && e < |s.entries| && Top(Stack(s, step.t)).entry == e && s.entries[e].owner == step.t
    ensures Apply(s, step).entries[e].outcome == Some(step.outcome)
  {
    if step.Publish? { assert FrameOk(s, step.t, |Stack(s, step.t)| - 1); }
  }

  /** A completed entry got its outcome from one publication by the call that produced it. */
  lemma {:induction false} CompleteMeansPublished(states: seq<State>, steps: seq<Step>, j: nat, e: EntryId) returns (i: nat)
    requires IsRun(states, steps) && j < |states| && e < |states[j].entries| && states[j].entries[e].complete
    ensures i < j && steps[i].Publish?
    ensures Stack(states[i], steps[i].t) != [] && Top(Stack(states[i], steps[i].t)).Producing?
    ensures Top(Stack(states[i], steps[i].t)).entry == e && steps[i].t == states[j].entries[e].owner
    ensures states[j].entries[e].outcome == Some(steps[i].outcome)
    decreases j
  {
    var s, step := states[j - 1], steps[j - 1];
    RunInv(states, steps, j - 1);
    if e < |s.entries| && s.entries[e].complete {
      i := CompleteMeansPublished(states, steps, j - 1, e);
      StepGrows(s, step);
    } else {
      i := j - 1;
      StepCompletes(s, step, e);
      assert Evolves(s.entries[e], states[j].entries[e]) by { StepGrows(s, step); }
    }
  }

  /** An entry is published at most once. */
  lemma PublishedOnce(states: seq<State>, steps: seq<Step>, i: nat, j: nat)
    requires IsRun(states, steps) && i < |steps| && j < |steps|
    requires steps[i].Publish? && steps[j].Publish?
    requires Top(Stack(states[i], steps[i].t)).entry == Top(Stack(states[j], steps[j].t)).entry
    ensures i == j
  {
    if i < j {
      PublishedEarlier(states, steps, i, j);
      assert false;
    } else if j < i {
      PublishedEarlier(states, steps, j, i);
      assert false;
    }
  }

  lemma PublishedEarlier(states: seq<State>, steps: seq<Step>, i: nat, j: nat)
    requires IsRun(states, steps) && i < j < |steps| && steps[i].Publish? && steps[j].Publish?
    ensures Top(Stack(states[i], steps[i].t)).entry != Top(Stack(states[j], steps[j].t)).entry
  {
    var e := Top(Stack(states[i], steps[i].t)).entry;
    RunInv(states, steps, i);
    RunInv(states, steps, j);
    PublishCompletes(states[i], steps[i]);
    EntriesAreFinal(states, steps, i + 1, j, e);
    PublishCompletes(states[j], steps[j]);
  }

  lemma PublishCompletes(s: State, step: Step)
    requires Inv(s) && Enabled(s, step) && step.Publish?
    ensures
      var e := Top(Stack(s, step.t)).entry;
      !s.entries[e].complete && e < |Apply(s, step).entries| && Apply(s, step).entries[e].complete
  {
    assert FrameOk(s, step.t, |Stack(s, step.t)| - 1);
  }

  /** Every caller served through the cache, be it the producer, a waiter or a later hit,
      gets exactly the outcome published for the entry; a hit is always a success. */
  lemma CallersGetThePublishedOutcome(states: seq<State>, steps: seq<Step>, j: nat) returns (i: nat)
    requires IsRun(states, steps) && j < |steps| && ReturnedEntry(states[j], steps[j]).Some?
    ensures
      var e := ReturnedEntry(states[j], steps[j]).value;
      && i < j && steps[i].Publish? && Stack(states[i], steps[i].t) != []
      && Top(Stack(states[i], steps[i].t)).Producing? && Top(Stack(states[i], steps[i].t)).entry == e
      && e < |states[j].entries| && states[j].entries[e].complete
      && states[j].entries[e].outcome == Some(steps[i].outcome)
      && (steps[j].Lookup? ==> Successful(steps[i].outcome))
  {
    var e := ReturnedEntry(states[j], steps[j]).value;
    RunInv(states, steps, j);
    assert FrameOk(states[j], steps[j].t, |Stack(states[j], steps[j].t)| - 1);
    assert EntryOk(states[j], e);
    i := CompleteMeansPublished(states, steps, j, e);
  }

  lemma OthersKeepMyStack(s: State, step: Step, t: Thread)
    requires Enabled(s, step) && step.t != t
    ensures Stack(Apply(s, step), t) == Stack(s, t)
  {
  }

  lemma {:induction false} OthersNeverTouchMyStack(states: seq<State>, steps: seq<Step>, i: nat, j: nat, t: Thread)
    requires IsRun(states, steps) && i <= j < |states|
    requires forall k :: i <= k < j ==> steps[k].t != t
    ensures Stack(states[j], t) == Stack(states[i], t)
    decreases j
  {
    if i < j {
      OthersNeverTouchMyStack(states, steps, i, j - 1, t);
      OthersKeepMyStack(states[j - 1], steps[j - 1], t);
    }
  }

  /** A sleeping waiter is not disturbed by anybody else's steps, detaching included:
      it still waits for the same entry of the same scope, and can return once that completes. */
  lemma WaitersSurviveDetach(states: seq<State>, steps: seq<Step>, i: nat, j: nat, t: Thread)
    requires IsRun(states, steps) && i <= j < |states|
    requires Stack(states[i], t) != [] && Top(Stack(states[i], t)).Waiting?
    requires forall k :: i <= k < j ==> steps[k].t != t
    ensures Stack(states[j], t) == Stack(states[i], t)
    ensures
      var e := Top(Stack(states[i], t)).entry;
      && e < |states[i].entries| && e < |states[j].entries|
      && Evolves(states[i].entries[e], states[j].entries[e])
      && (states[j].entries[e].complete ==> Enabled(states[j], Wake(t)))
  {
    OthersNeverTouchMyStack(states, steps, i, j, t);
    RunInv(states, steps, i);
    assert FrameOk(states[i], t, |Stack(states[i], t)| - 1);
    EntriesAreFinal(states, steps, i, j, Top(Stack(states[i], t)).entry);
  }

  // ---- Address reuse ----

  predicate Detaches(step: Step, device: Address) {
    (step.Forget? || step.BeginRetirement?) && step.device == device
  }

  /** No scope below `bound` is behind the address. */
  predicate ScopeAtLeast(s: State, device: Address, bound: nat) {
    device in s.scopes ==> s.scopes[device] >= bound
  }

  lemma ScopeStaysAtLeast(s: State, step: Step, device: Address, bound: nat)
    requires Enabled(s, step) && bound <= |s.tables|
    ensures ScopeAtLeast(s, device, bound) ==> ScopeAtLeast(Apply(s, step), device, bound)
    ensures Detaches(step, device) ==> ScopeAtLeast(Apply(s, step), device, bound)
  {
  }

  /** After a detach, an address leads to no scope that existed at the detach. */
  lemma {:induction false} ScopeIsFreshAfterDetach(states: seq<State>, steps: seq<Step>, i: nat, j: nat, device: Address)
    requires IsRun(states, steps) && i < j < |states| && Detaches(steps[i], device)
    ensures ScopeAtLeast(states[j], device, |states[i].tables|)
    decreases j
  {
    if i + 1 < j {
      ScopeIsFreshAfterDetach(states, steps, i, j - 1, device);
    }
    RunGrows(states, steps, i, j - 1);
    ScopeStaysAtLeast(states[j - 1], steps[j - 1], device, |states[i].tables|);
  }

  /** A call admitted after a detach of its address never meets an entry made before it. */
  lemma NoEntryFromBeforeDetach(states: seq<State>, steps: seq<Step>, i: nat, j: nat, device: Address, k: nat, e: EntryId)
    requires IsRun(states, steps) && i < j < |steps| && Detaches(steps[i], device)
    requires steps[j].Admit? && Top(Stack(states[j], steps[j].t)).device == device
    requires Top(Stack(states[j + 1], steps[j].t)).Looking?
    requires k < |states| && e < |states[k].entries|
    requires states[k].entries[e].scope == Top(Stack(states[j + 1], steps[j].t)).scope
    ensures e >= |states[i].entries|
  {
    ScopeIsFreshAfterDetach(states, steps, i, j, device);
    RunGrows(states, steps, i, j);
    RunInv(states, steps, i);
    if e < |states[i].entries| {
      assert EntryOk(states[i], e);
      if i <= k {
        EntriesAreFinal(states, steps, i, k, e);
      } else {
        EntriesAreFinal(states, steps, k, i, e);
      }
      assert false;
    }
  }

  /** Some thread is inside a retirement of the address. */
  ghost predicate BeingRetired(s: State, device: Address) {
    exists u: Thread, j: nat :: j < |Stack(s, u)| && Stack(s, u)[j] == Retiring(device)
  }

  /** The list of records says exactly which addresses are being retired. */
  lemma RecordsTellWhatIsRetired(s: State, device: Address)
    requires RetirementsOk(s)
    ensures Retired(s.retirements, device) <==> BeingRetired(s, device)
  {
    if u: Thread, j: nat :| j < |Stack(s, u)| && Stack(s, u)[j] == Retiring(device) {
      assert Stack(s, u)[j].Retiring?;
      assert Retirement(u, j, device) in s.retirements;
    }
    if k :| 0 <= k < |s.retirements| && s.retirements[k].device == device {
      var r := s.retirements[k];
      assert r in s.retirements;
      assert Stack(s, r.owner)[r.depth] == Retiring(device);
    }
  }

  /** While any retirement of an address is running, the address has no scope and every
      call for it bypasses the cache; otherwise a call is admitted if memory allows. */
  lemma RetirementBlocksAdmission(states: seq<State>, steps: seq<Step>, i: nat, t: Thread, memory: bool)
    requires IsRun(states, steps) && i < |states| && Enabled(states[i], Admit(t, memory))
    ensures
      var s := states[i];
      var device := Top(Stack(s, t)).device;
      var after := Top(Stack(Apply(s, Admit(t, memory)), t));
      && (BeingRetired(s, device) ==> device !in s.scopes && after.Bypassing?)
      && (!BeingRetired(s, device) && (memory || device in s.scopes) ==> after.Looking?)
  {
    var s := states[i];
    var device := Top(Stack(s, t)).device;
    RunInv(states, steps, i);
    RecordsTellWhatIsRetired(s, device);
    if k :| 0 <= k < |s.retirements| && s.retirements[k].device == device {
      assert s.retirements[k] in s.retirements;
    }
  }

  // ---- Waiting never deadlocks ----

  predicate Blocked(s: State, t: Thread) {
    && Stack(s, t) != [] && Top(Stack(s, t)).Waiting?
    && Top(Stack(s, t)).entry < |s.entries| && !s.entries[Top(Stack(s, t)).entry].complete
  }

  /** The thread that has to complete the entry `t` sleeps on. */
  function Blocker(s: State, t: Thread): Thread
    requires Blocked(s, t)
  {
    s.entries[Top(Stack(s, t)).entry].owner
  }

  predicate WaitPath(s: State, path: seq<Thread>) {
    && path != []
    && forall i :: 0 <= i < |path| - 1 ==> Blocked(s, path[i]) && path[i + 1] == Blocker(s, path[i])
  }

  /** Going up a stack from a producer, the innermost producer is reached through edges. */
  lemma {:induction false} EdgesClimbTheStack(s: State, t: Thread, d: nat, j: nat) returns (k: nat)
    requires FramesOk(s) && d < j <= |Stack(s, t)| && IsProducer(Stack(s, t)[d])
    ensures ProducerBelow(Stack(s, t), j).Some?
    ensures ReachesIn(s.waitingOn, Stack(s, t)[d].entry, ProducerBelow(Stack(s, t), j).value, k)
    decreases j
  {
    var stack := Stack(s, t);
    if j == d + 1 {
      k := 0;
    } else {
      k := EdgesClimbTheStack(s, t, d, j - 1);
      if IsProducer(stack[j - 1]) {
        assert FrameOk(s, t, j - 1);
        ReachesExtend(s.waitingOn, stack[d].entry, ProducerBelow(stack, j - 1).value, k);
        k := k + 1;
      }
    }
  }

  /** If the producer of `e` is itself asleep, `e` leads to the entry it sleeps on. */
  lemma SleepingProducerHasEdge(s: State, e: EntryId) returns (k: nat)
    requires Inv(s) && e < |s.entries| && !s.entries[e].complete && Blocked(s, s.entries[e].owner)
    ensures k > 0 && ReachesIn(s.waitingOn, e, Top(Stack(s, s.entries[e].owner)).entry, k)
  {
    assert EntryOk(s, e);
    k := ProducerLeadsToWait(s, e);
  }

  lemma ProducerLeadsToWait(s: State, e: EntryId) returns (k: nat)
    requires FramesOk(s) && e < |s.entries| && EntryOk(s, e) && !s.entries[e].complete && Blocked(s, s.entries[e].owner)
    ensures k > 0 && ReachesIn(s.waitingOn, e, Top(Stack(s, s.entries[e].owner)).entry, k)
  {
    var t := s.entries[e].owner;
    var n := |Stack(s, t)| - 1;
    assert FrameOk(s, t, n);
    k := EdgesClimbTheStack(s, t, s.entries[e].depth, n);
    ReachesExtend(s.waitingOn, e, ProducerBelow(Stack(s, t), n).value, k);
    k := k + 1;
  }

  /** A thread inside a call that is not asleep can take its call's next step. */
  lemma AwakeThreadAdvances(s: State, t: Thread) returns (step: Step)
    requires Inv(s) && Stack(s, t) != [] && !Blocked(s, t)
    ensures step.t == t && Enabled(s, step) && !step.Call? && !step.Forget? && !step.BeginRetirement?
  {
    assert FrameOk(s, t, |Stack(s, t)| - 1);
    match Top(Stack(s, t))
    case Entering(_, _) => step := Admit(t, true);
    case Looking(_, _) => step := Lookup(t, true);
    case Waiting(_, _) => step := Wake(t);
    case Producing(e, _) =>
      assert EntryOk(s, e);
      step := Publish(t, CppException(0));
    case Published(_, _) => step := Leave(t);
    case Bypassing => step := EndBypass(t);
    case Retiring(_) => step := EndRetirement(t);
  }

  lemma {:induction false} FollowBlockers(s: State, t: Thread, n: nat) returns (path: seq<Thread>)
    requires Inv(s) && Blocked(s, t) && Ends(s.waitingOn, Top(Stack(s, t)).entry, n)
    ensures WaitPath(s, path) && |path| > 1 && path[0] == t
    ensures !Blocked(s, path[|path| - 1]) && Stack(s, path[|path| - 1]) != []
    decreases n
  {
    var e := Top(Stack(s, t)).entry;
    var t' := Blocker(s, t);
    assert EntryOk(s, e);
    if Blocked(s, t') {
      var k := SleepingProducerHasEdge(s, e);
      EndsAfter(s.waitingOn, e, Top(Stack(s, t')).entry, k, n);
      var rest := FollowBlockers(s, t', n - k);
      path := [t] + rest;
    } else {
      path := [t, t'];
    }
  }

  /** In every reachable state, whoever is asleep waits, through finitely many sleeping
      producers, for a producer that is awake and can take a step: waits never form a cycle. */
  lemma NoDeadlock(states: seq<State>, steps: seq<Step>, i: nat, t: Thread)
    returns (path: seq<Thread>, step: Step)
    requires IsRun(states, steps) && i < |states| && Blocked(states[i], t)
    ensures WaitPath(states[i], path) && path[0] == t && !Blocked(states[i], path[|path| - 1])
    ensures step.t == path[|path| - 1] && Enabled(states[i], step)
    ensures !step.Call? && !step.Forget? && !step.BeginRetirement?
  {
    var s := states[i];
    RunInv(states, steps, i);
    assert Finite(s.waitingOn, Top(Stack(s, t)).entry);
    var n: nat :| Ends(s.waitingOn, Top(Stack(s, t)).entry, n);
    path := FollowBlockers(s, t, n);
    step := AwakeThreadAdvances(s, path[|path| - 1]);
  }

  /** The bypass is not over-cautious: where the code refuses to wait, waiting would have
      closed a cycle of edges. */
  lemma BypassOnlyInsteadOfCycle(s: State, t: Thread, e: EntryId)
    requires Inv(s) && Stack(s, t) != [] && !Top(Stack(s, t)).Bypassing? && !Top(Stack(s, t)).Waiting?
    ensures Top(Stack(StartWaiting(s, t, e), t)).Bypassing? <==>
              Active(s, t).Some? && !Acyclic(s.waitingOn[Active(s, t).value := e])
  {
    assert ActiveOk(s, t);
    if Active(s, t).Some? {
      NewEdgeClosesCycle(s.waitingOn, Active(s, t).value, e);
    }
  }

  /** Both ends of a stored `waitingOn` pointer are entries that frames of one running call
      chain hold, so following it never touches a freed entry. */
  lemma EdgesNeverDangle(states: seq<State>, steps: seq<Step>, i: nat, p: EntryId) returns (j: nat)
    requires IsRun(states, steps) && i < |states| && p in states[i].waitingOn
    ensures
      var s := states[i];
      && p < |s.entries|
      && var stack := Stack(s, s.entries[p].owner);
      && s.entries[p].depth < j < |stack|
      && stack[s.entries[p].depth].Producing? && stack[s.entries[p].depth].entry == p
      && (stack[j].Producing? || stack[j].Published? || stack[j].Waiting?)
      && stack[j].entry == s.waitingOn[p]
  {
    var s := states[i];
    RunInv(states, steps, i);
    assert EdgeOk(s, p);
    j :| HoldsTarget(s, p, j);
    var stack := Stack(s, s.entries[p].owner);
    var k := ProducerBelowIsFrame(stack, j);
    assert FrameOk(s, s.entries[p].owner, k);
  }
}
