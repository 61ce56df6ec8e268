/** From wherever the threads stand, every call in progress can be brought to its end. */
module PipelineCacheProgress {

  import opened Optional
  import opened WaitGraph
  import opened PipelineCache
  import opened PipelineCacheInvariant
  import opened PipelineCacheTheorems

  /** Steps that carry on a call or a retirement, as opposed to beginning one. */
  predicate CarriesOn(step: Step) {
    !step.Call? && !step.Forget? && !step.BeginRetirement?
  }

  ghost predicate IsPath(states: seq<State>, steps: seq<Step>) {
    && |states| == |steps| + 1
    && forall i {:trigger steps[i]} :: 0 <= i < |steps| ==>
         Enabled(states[i], steps[i]) && CarriesOn(steps[i]) && states[i + 1] == Apply(states[i], steps[i])
  }

  ghost predicate Leads(s: State, s': State) {
    exists states, steps :: IsPath(states, steps) && states[0] == s && states[|steps|] == s'
  }

  lemma LeadsNowhere(s: State)
    ensures Leads(s, s)
  {
    var steps: seq<Step> := [];
    assert IsPath([s], steps) && [s][0] == s && [s][|steps|] == s;
  }

  lemma LeadsOn(s: State, s': State, step: Step)
    requires Leads(s, s') && Enabled(s', step) && CarriesOn(step)
    ensures Leads(s, Apply(s', step))
  {
    var states, steps :| IsPath(states, steps) && states[0] == s && states[|steps|] == s';
    var states', steps' := states + [Apply(s', step)], steps + [step];
    assert IsPath(states', steps') && states'[0] == s && states'[|steps'|] == Apply(s', step);
  }

  // ---- What is left to do ----

  /** An upper bound on the steps that a frame still takes itself. */
  function Rank(f: Frame): nat {
    match f
    case Entering(_, _) => 5
    case Looking(_, _) => 4
    case Producing(_, _) => 3
    case Published(_, _) => 2
    case _ => 1
  }

  ghost function Work(stacks: map<Thread, seq<Frame>>): set<(Thread, nat, nat)> {
    set t, j: nat, k: nat | t in stacks && j < |stacks[t]| && k < Rank(stacks[t][j]) :: (t, j, k)
  }

  /** The stack after a step: the top frame returns or comes closer to its return. */
  predicate Follows(stack: seq<Frame>, stack': seq<Frame>) {
    && stack != []
    && (|| stack' == Pop(stack)
        || (|stack'| == |stack| && Pop(stack') == Pop(stack) && Rank(Top(stack')) < Rank(Top(stack))))
  }

  lemma ReplacedTopFollows(stack: seq<Frame>, f: Frame)
    requires stack != [] && Rank(f) < Rank(Top(stack))
    ensures Follows(stack, Pop(stack) + [f])
  {
    assert Pop(Pop(stack) + [f]) == Pop(stack);
  }

  /** Only the stack of the thread that moves changes, and follows from what it was. */
  ghost predicate Carried(s: State, t: Thread, s': State) {
    t in s.stacks && t in s'.stacks && s'.stacks == s.stacks[t := s'.stacks[t]] && Follows(s.stacks[t], s'.stacks[t])
  }

  lemma AdmitCarries(s: State, t: Thread, memory: bool)
    requires Enabled(s, Admit(t, memory))
    ensures Carried(s, t, AdmitStep(s, t, memory))
  {
    var f := Top(AdmitStep(s, t, memory).stacks[t]);
    assert AdmitStep(s, t, memory).stacks[t] == Pop(Stack(s, t)) + [f];
    ReplacedTopFollows(Stack(s, t), f);
  }

  lemma WaitingCarries(s: State, t: Thread, e: EntryId)
    requires Stack(s, t) != [] && Top(Stack(s, t)).Looking?
    ensures Carried(s, t, StartWaiting(s, t, e))
  {
    var f := Top(StartWaiting(s, t, e).stacks[t]);
    assert StartWaiting(s, t, e).stacks[t] == Pop(Stack(s, t)) + [f];
    ReplacedTopFollows(Stack(s, t), f);
  }

  lemma LookupCarries(s: State, t: Thread, memory: bool)
    requires Enabled(s, Lookup(t, memory))
    ensures Carried(s, t, LookupStep(s, t, memory))
  {
    var call := Top(Stack(s, t));
    var table := s.tables[call.scope];
    if call.key in table {
      WaitingCarries(s, t, table[call.key]);
    } else {
      ReplacedTopFollows(Stack(s, t), Bypassing);
      ReplacedTopFollows(Stack(s, t), Producing(|s.entries|, Active(s, t)));
    }
  }

  lemma StepCarries(s: State, step: Step)
    requires Enabled(s, step) && CarriesOn(step)
    ensures Carried(s, step.t, Apply(s, step))
  {
    match step
    case Admit(t, memory) => AdmitCarries(s, t, memory);
    case Lookup(t, memory) => LookupCarries(s, t, memory);
    case Publish(t, _) =>
      var frame := Top(Stack(s, t));
      ReplacedTopFollows(Stack(s, t), Published(frame.entry, frame.previous));
    case _ =>
  }

  lemma WorkFalls(stacks: map<Thread, seq<Frame>>, t: Thread, stack': seq<Frame>)
    requires t in stacks && Follows(stacks[t], stack')
    ensures Work(stacks[t := stack']) < Work(stacks)
  {
    var stack, stacks' := stacks[t], stacks[t := stack'];
    var n: nat := |stack| - 1;
    assert forall j :: 0 <= j < n ==> stack'[j] == stack[j] by {
      assert stack'[..n] == stack[..n];
    }
    forall u, j: nat, k: nat | (u, j, k) in Work(stacks')
      ensures (u, j, k) in Work(stacks)
    {
      assert u in stacks && j < |stacks[u]|;
    }
    var last: nat := Rank(stack[n]) - 1;
    assert (t, n, last) in Work(stacks) && (t, n, last) !in Work(stacks');
  }

  lemma SomeoneCarriesOn(s: State, t: Thread) returns (step: Step)
    requires Inv(s) && Stack(s, t) != []
    ensures Enabled(s, step) && CarriesOn(step)
  {
    var u := t;
    if Blocked(s, t) {
      assert Finite(s.waitingOn, Top(Stack(s, t)).entry);
      var n: nat :| Ends(s.waitingOn, Top(Stack(s, t)).entry, n);
      var path := FollowBlockers(s, t, n);
      u := path[|path| - 1];
    }
    step := AwakeThreadAdvances(s, u);
  }

  lemma {:induction false} CallsRunOut(s0: State, s: State) returns (s': State)
    requires Leads(s0, s) && Inv(s)
    ensures Leads(s0, s') && Inv(s') && forall t: Thread :: Stack(s', t) == []
    decreases Work(s.stacks)
  {
    if t: Thread :| Stack(s, t) != [] {
      var step := SomeoneCarriesOn(s, t);
      LeadsOn(s0, s, step);
      StepInv(s, step);
      StepCarries(s, step);
      WorkFalls(s.stacks, step.t, Apply(s, step).stacks[step.t]);
      s' := CallsRunOut(s0, Apply(s, step));
    } else {
      s' := s;
    }
  }

  /** From every reachable state, whoever sleeps and however deep the calls are nested, steps
      that begin no further call lead to a state in which every call has returned. */
  lemma EveryCallCanReturn(states: seq<State>, steps: seq<Step>, i: nat) returns (s': State)
    requires IsRun(states, steps) && i < |states|
    ensures Leads(states[i], s') && forall t: Thread :: Stack(s', t) == []
  {
    RunInv(states, steps, i);
    LeadsNowhere(states[i]);
    s' := CallsRunOut(states[i], states[i]);
  }
}
