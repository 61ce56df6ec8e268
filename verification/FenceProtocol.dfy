/** `Gpu::begin` and `Gpu::executeClosed`: submit, signal a fence, wait on an auto-reset event.
    The queue runs its work in order and on its own schedule; the fence, the event and the
    queue follow the Direct3D 12 and Win32 contracts. */
module FenceProtocol {

  const WRAP: nat := 0x1_0000_0000_0000_0000

  /** What a queue executes: a command list, recorded with an allocator, or a fence signal. */
  datatype Work = Commands(allocator: nat) | SignalFence(value: nat)

  /** Where the calling thread stands inside `executeClosed`. */
  datatype Cpu =
    | Idle
    | Executed
    | Signalled(value: nat)
    | MustWait(value: nat)
    | Registered(value: nat)
    | Failed

  datatype State = State(
    cpu: Cpu,
    fenceValue: nat,       // the counter of the class, 64 bits wide
    completed: nat,        // the value of the fence
    queue: seq<Work>,      // submitted and not yet executed
    registered: seq<nat>,  // values on which the event is to be set
    event: bool,           // the auto-reset event
    allocator: nat)        // the current allocator; each `begin` makes the next one

  const Initial := State(Idle, 0, 0, [], [], false, 0)

  datatype Step = Begin | Execute | Signal | Check | Register | Wait | Timeout | GpuStep

  predicate Enabled(s: State, step: Step) {
    match step
    case Begin => s.cpu.Idle?
    case Execute => s.cpu.Idle? && s.allocator > 0
    case Signal => s.cpu.Executed?
    case Check => s.cpu.Signalled?
    case Register => s.cpu.MustWait?
    case Wait => s.cpu.Registered? && s.event
    case Timeout => s.cpu.Registered?
    case GpuStep => s.queue != []
  }

  predicate Due(values: seq<nat>, completed: nat) {
    exists i :: 0 <= i < |values| && values[i] <= completed
  }

  function NotDue(values: seq<nat>, completed: nat): seq<nat> {
    if values == [] then []
    else (if values[0] <= completed then [] else [values[0]]) + NotDue(values[1..], completed)
  }

  /** The queue executes its oldest item; reaching a registered value sets the event. */
  function GpuStepOf(s: State): State
    requires s.queue != []
  {
    match s.queue[0]
    case Commands(_) => s.(queue := s.queue[1..])
    case SignalFence(v) =>
      s.(queue := s.queue[1..], completed := v,
         event := s.event || Due(s.registered, v), registered := NotDue(s.registered, v))
  }

  function Apply(s: State, step: Step): State
    requires Enabled(s, step)
  {
    match step
    case Begin => s.(allocator := s.allocator + 1)
    case Execute => s.(cpu := Executed, queue := s.queue + [Commands(s.allocator)])
    case Signal =>
      var value := (s.fenceValue + 1) % WRAP;
      s.(cpu := Signalled(value), fenceValue := value, queue := s.queue + [SignalFence(value)])
    case Check => s.(cpu := if s.completed < s.cpu.value then MustWait(s.cpu.value) else Idle)
    case Register =>
      if s.completed >= s.cpu.value then s.(cpu := Registered(s.cpu.value), event := true)
      else s.(cpu := Registered(s.cpu.value), registered := s.registered + [s.cpu.value])
    case Wait => s.(cpu := Idle, event := false)
    case Timeout => s.(cpu := Failed)
    case GpuStep => GpuStepOf(s)
  }

  // ---- Invariant ----

  /** The work of the submission in progress: at most its command list and its signal. */
  predicate OwnWork(s: State, signalled: bool) {
    if signalled then
      && s.fenceValue > 0
      && (|| s.queue == [Commands(s.allocator), SignalFence(s.fenceValue)]
          || s.queue == [SignalFence(s.fenceValue)]
          || s.queue == [])
      && s.completed == if s.queue == [] then s.fenceValue else s.fenceValue - 1
    else
      && (s.queue == [Commands(s.allocator)] || s.queue == [])
      && s.completed == s.fenceValue
  }

  /** Between calls nothing is outstanding, and the event is set only when it is about to be
      consumed by the wait for exactly the work submitted last. */
  predicate Inv(s: State) {
    match s.cpu
    case Idle => s.queue == [] && s.completed == s.fenceValue && s.registered == [] && !s.event
    case Executed => OwnWork(s, false) && s.registered == [] && !s.event
    case Signalled(v) => v == s.fenceValue && OwnWork(s, true) && s.registered == [] && !s.event
    case MustWait(v) => v == s.fenceValue && OwnWork(s, true) && s.registered == [] && !s.event
    case Registered(v) =>
      && v == s.fenceValue && OwnWork(s, true)
      && (s.event <==> s.queue == []) && s.registered == (if s.queue == [] then [] else [v])
    case Failed => true
  }

  lemma GpuStepInv(s: State)
    requires Inv(s) && s.queue != []
    ensures Inv(GpuStepOf(s))
  {
    if s.queue == [Commands(s.allocator), SignalFence(s.fenceValue)] {
      assert s.queue[1..] == [SignalFence(s.fenceValue)];
    } else if s.cpu.Registered? && s.queue == [SignalFence(s.fenceValue)] {
      assert s.registered[0] == s.fenceValue && s.registered[1..] == [];
      assert NotDue(s.registered, s.fenceValue) == [] + NotDue(s.registered[1..], s.fenceValue) == [];
    }
  }

  /** Every step keeps the invariant, as long as the counter does not wrap. */
  lemma StepInv(s: State, step: Step)
    requires Inv(s) && Enabled(s, step) && (step.Signal? ==> s.fenceValue + 1 < WRAP)
    ensures Inv(Apply(s, step))
  {
    if step.GpuStep? {
      GpuStepInv(s);
    }
  }

  // ---- Runs ----

  predicate IsRun(states: seq<State>, steps: seq<Step>) {
    && |states| == |steps| + 1
    && states[0] == Initial
    && forall i {:trigger steps[i]} :: 0 <= i < |steps| ==> Enabled(states[i], steps[i]) && states[i + 1] == Apply(states[i], steps[i])
  }

  function Signals(steps: seq<Step>, i: nat): nat
    requires i <= |steps|
  {
    if i == 0 then 0 else Signals(steps, i - 1) + if steps[i - 1].Signal? then 1 else 0
  }

  /** While fewer than 2^64 values have been signalled, the counter is their number. */
  lemma {:induction false} RunInv(states: seq<State>, steps: seq<Step>, i: nat)
    requires IsRun(states, steps) && i < |states| && Signals(steps, i) < WRAP
    ensures Inv(states[i]) && states[i].fenceValue == Signals(steps, i)
  {
    if i > 0 {
      RunInv(states, steps, i - 1);
      StepInv(states[i - 1], steps[i - 1]);
    }
  }

  lemma {:induction false} SignalsGrow(steps: seq<Step>, i: nat, j: nat)
    requires i <= j <= |steps|
    ensures Signals(steps, i) <= Signals(steps, j)
    decreases j
  {
    if i < j { SignalsGrow(steps, i, j - 1); }
  }

  /** Later signals carry strictly larger values. */
  lemma FenceValuesIncrease(states: seq<State>, steps: seq<Step>, i: nat, j: nat)
    requires IsRun(states, steps) && i < j < |steps| && steps[i].Signal? && steps[j].Signal?
    requires Signals(steps, j + 1) < WRAP
    ensures states[i + 1].cpu.Signalled? && states[j + 1].cpu.Signalled?
    ensures states[i + 1].cpu.value < states[j + 1].cpu.value
    ensures states[i + 1].fenceValue < states[j + 1].fenceValue
  {
    SignalsGrow(steps, i + 1, j);
    RunInv(states, steps, i + 1);
    RunInv(states, steps, j + 1);
  }

  /** Whenever a call is over, by any path, all work ever submitted is complete, the event is
      unset and nothing is registered on it: no later wait can be satisfied by a stale signal. */
  lemma CallsLeaveNothingBehind(states: seq<State>, steps: seq<Step>, i: nat)
    requires IsRun(states, steps) && i < |states| && Signals(steps, i) < WRAP && states[i].cpu.Idle?
    ensures states[i].queue == [] && states[i].registered == [] && !states[i].event
    ensures states[i].completed == Signals(steps, i)
  {
    RunInv(states, steps, i);
  }

  /** The wait returns for the fence value of its own submission.  The bound is that of the
      values; waits stay fresh for another lap of the counter, as `FenceLaps` shows. */
  lemma WaitIsNotStale(states: seq<State>, steps: seq<Step>, i: nat)
    requires IsRun(states, steps) && i < |steps| && Signals(steps, i) < WRAP && steps[i].Wait?
    ensures states[i].completed == states[i].cpu.value == Signals(steps, i) && states[i].queue == []
  {
    RunInv(states, steps, i);
  }

  /** When `begin` drops an allocator, no submitted command list recorded with it is pending. */
  lemma AllocatorIsUnusedWhenDropped(states: seq<State>, steps: seq<Step>, i: nat)
    requires IsRun(states, steps) && i < |steps| && Signals(steps, i) < WRAP && steps[i].Begin?
    ensures Commands(states[i].allocator) !in states[i].queue
  {
    RunInv(states, steps, i);
  }

  /** No wakeup is lost: a thread in the wait can return, or the queue still has work to run. */
  lemma WaitIsNotStuck(states: seq<State>, steps: seq<Step>, i: nat)
    requires IsRun(states, steps) && i < |states| && Signals(steps, i) < WRAP && states[i].cpu.Registered?
    ensures Enabled(states[i], Wait) || Enabled(states[i], GpuStep)
    ensures Enabled(states[i], Wait) <==> states[i].queue == []
  {
    RunInv(states, steps, i);
  }

  function Begins(steps: seq<Step>, i: nat): nat
    requires i <= |steps|
  {
    if i == 0 then 0 else Begins(steps, i - 1) + if steps[i - 1].Begin? then 1 else 0
  }

  /** Every `begin` makes a new allocator, and nothing is submitted before the first. */
  lemma {:induction false} AllocatorsAreCounted(states: seq<State>, steps: seq<Step>, i: nat)
    requires IsRun(states, steps) && i < |states|
    ensures states[i].allocator == Begins(steps, i)
    ensures i < |steps| && steps[i].Execute? ==> Begins(steps, i) > 0
  {
    if i > 0 {
      AllocatorsAreCounted(states, steps, i - 1);
    }
  }

  /** A wait can time out at any time, and after that the caller does nothing any more. */
  lemma {:induction false} TimeoutIsFinal(states: seq<State>, steps: seq<Step>, i: nat, j: nat)
    requires IsRun(states, steps) && i <= j < |states|
    ensures states[i].cpu.Registered? ==> Enabled(states[i], Timeout) && Apply(states[i], Timeout).cpu.Failed?
    ensures states[i].cpu.Failed? ==> states[j].cpu.Failed? && (j < |steps| ==> steps[j].GpuStep?)
    decreases j
  {
    if i < j {
      TimeoutIsFinal(states, steps, i, j - 1);
    }
  }

  // ---- The bound is exact ----

  ghost predicate Reaches(s: State, n: nat) {
    exists states, steps :: IsRun(states, steps) && states[|steps|] == s && Signals(steps, |steps|) == n
  }

  lemma {:induction false} SignalsOfPrefix(steps: seq<Step>, step: Step, i: nat)
    requires i <= |steps|
    ensures Signals(steps + [step], i) == Signals(steps, i)
  {
    if i > 0 { SignalsOfPrefix(steps, step, i - 1); }
  }

  lemma ReachesStep(s: State, n: nat, step: Step, s': State)
    requires Reaches(s, n) && Enabled(s, step) && s' == Apply(s, step)
    ensures Reaches(s', if step.Signal? then n + 1 else n)
  {
    var states, steps :| IsRun(states, steps) && states[|steps|] == s && Signals(steps, |steps|) == n;
    SignalsOfPrefix(steps, step, |steps|);
    RunExtends(states, steps, step);
    assert (states + [s'])[|steps + [step]|] == s';
  }

  lemma RunExtends(states: seq<State>, steps: seq<Step>, step: Step)
    requires IsRun(states, steps) && Enabled(states[|steps|], step)
    ensures IsRun(states + [Apply(states[|steps|], step)], steps + [step])
  {
  }

  /** At rest after `n` submissions, with the first allocator. */
  function AtRest(n: nat): State {
    State(Idle, n, n, [], [], false, 1)
  }

  /** Any number of submissions below 2^64 can be made and completed. */
  lemma {:induction false} SubmissionsReach(n: nat)
    requires n < WRAP
    ensures Reaches(AtRest(n), n)
  {
    if n == 0 {
      var steps: seq<Step> := [];
      assert IsRun([Initial], steps) && [Initial][|steps|] == Initial && Signals(steps, 0) == 0;
      ReachesStep(Initial, 0, Begin, AtRest(0));
    } else {
      SubmissionsReach(n - 1);
      SubmissionPending(n - 1);
      SubmissionCompletes(n);
    }
  }

  /** The next submission after `n`, signalled and not yet run. */
  function Pending(n: nat): State {
    var value := (n + 1) % WRAP;
    State(Signalled(value), value, n, [Commands(1), SignalFence(value)], [], false, 1)
  }

  lemma SubmissionPending(n: nat)
    requires Reaches(AtRest(n), n)
    ensures Reaches(Pending(n), n + 1)
  {
    var s1 := Apply(AtRest(n), Execute);
    ReachesStep(AtRest(n), n, Execute, s1);
    ReachesStep(s1, n, Signal, Pending(n));
  }

  lemma SubmissionCompletes(n: nat)
    requires 0 < n < WRAP && Reaches(Pending(n - 1), n)
    ensures Reaches(AtRest(n), n)
  {
    assert Pending(n - 1) == State(Signalled(n), n, n - 1, [Commands(1), SignalFence(n)], [], false, 1);
    var s1 := Pending(n - 1).(queue := [SignalFence(n)]);
    ReachesStep(Pending(n - 1), n, GpuStep, s1);
    var s2 := s1.(queue := [], completed := n);
    ReachesStep(s1, n, GpuStep, s2);
    ReachesStep(s2, n, Check, AtRest(n));
  }

  /** When the counter wraps, the call returns with its own work still pending. */
  lemma WrappedCounterSkipsTheWait() returns (s: State)
    ensures Reaches(s, WRAP) && s.cpu.Idle? && Commands(s.allocator) in s.queue
  {
    SubmissionsReach(WRAP - 1);
    SubmissionPending(WRAP - 1);
    var s0 := Pending(WRAP - 1);
    s := s0.(cpu := Idle);
    ReachesStep(s0, WRAP, Check, s);
    assert s.queue[0] == Commands(s.allocator);
  }

  /** All work is complete, nothing is registered on the event, and it is unset. */
  predicate NothingLeft(s: State) {
    s.queue == [] && s.registered == [] && !s.event
  }

  /** Every call in every run of up to `n` submissions leaves nothing behind if and only if
      `n` is below 2^64. */
  lemma CallsAreCleanExactlyBelowWrap(n: nat)
    ensures
      n < WRAP <==>
      forall states: seq<State>, steps: seq<Step> ::
        IsRun(states, steps) && Signals(steps, |steps|) <= n && states[|steps|].cpu.Idle? ==> NothingLeft(states[|steps|])
  {
    if n < WRAP {
      forall states: seq<State>, steps: seq<Step> |
        IsRun(states, steps) && Signals(steps, |steps|) <= n && states[|steps|].cpu.Idle?
        ensures NothingLeft(states[|steps|])
      {
        CallsLeaveNothingBehind(states, steps, |steps|);
      }
    } else {
      var s := WrappedCounterSkipsTheWait();
      var states, steps :| IsRun(states, steps) && states[|steps|] == s && Signals(steps, |steps|) == WRAP;
      assert !NothingLeft(states[|steps|]);
    }
  }

  /** The work recorded with the current allocator is not pending. */
  predicate AllocatorUnused(s: State) {
    Commands(s.allocator) !in s.queue
  }

  /** An allocator is never dropped with work pending, in any run of up to `n` submissions, if
      and only if `n` is below 2^64. */
  lemma AllocatorsAreUnusedExactlyBelowWrap(n: nat)
    ensures
      n < WRAP <==>
      forall states: seq<State>, steps: seq<Step> ::
        IsRun(states, steps) && Signals(steps, |steps|) <= n && Enabled(states[|steps|], Begin) ==>
          AllocatorUnused(states[|steps|])
  {
    if n < WRAP {
      forall states: seq<State>, steps: seq<Step> |
        IsRun(states, steps) && Signals(steps, |steps|) <= n && Enabled(states[|steps|], Begin)
        ensures AllocatorUnused(states[|steps|])
      {
        CallsLeaveNothingBehind(states, steps, |steps|);
      }
    } else {
      var s := WrappedCounterSkipsTheWait();
      var states, steps :| IsRun(states, steps) && states[|steps|] == s && Signals(steps, |steps|) == WRAP;
      assert Enabled(s, Begin) && !AllocatorUnused(states[|steps|]);
    }
  }

  /** Every signal of the run carries a larger value than all earlier ones. */
  predicate ValuesIncrease(states: seq<State>, steps: seq<Step>)
    requires |states| == |steps| + 1
  {
    forall i, j :: 0 <= i < j < |steps| && steps[i].Signal? && steps[j].Signal? ==>
      states[i + 1].fenceValue < states[j + 1].fenceValue
  }

  lemma {:induction false} SomeSignal(steps: seq<Step>, i: nat) returns (k: nat)
    requires i <= |steps| && Signals(steps, i) > 0
    ensures k < i && steps[k].Signal?
  {
    if steps[i - 1].Signal? {
      k := i - 1;
    } else {
      k := SomeSignal(steps, i - 1);
    }
  }

  /** The signal after 2^64 - 1 others carries the value 0. */
  lemma WrappingSignalIsSmaller(states: seq<State>, steps: seq<Step>)
    requires IsRun(states, steps) && Signals(steps, |steps|) == WRAP - 1
    requires states[|steps|].cpu.Executed? && states[|steps|].fenceValue == WRAP - 1
    ensures
      var states', steps' := states + [Apply(states[|steps|], Signal)], steps + [Signal];
      IsRun(states', steps') && Signals(steps', |steps'|) == WRAP && !ValuesIncrease(states', steps')
  {
    var states', steps' := states + [Apply(states[|steps|], Signal)], steps + [Signal];
    var k := SomeSignal(steps, |steps|);
    SignalsOfPrefix(steps, Signal, |steps|);
    RunExtends(states, steps, Signal);
    var j := |steps|;
    assert steps'[k].Signal? && steps'[j].Signal? && states'[j + 1].fenceValue == 0;
  }

  lemma WrappedSignalIsSmaller() returns (states: seq<State>, steps: seq<Step>)
    ensures IsRun(states, steps) && Signals(steps, |steps|) == WRAP && !ValuesIncrease(states, steps)
  {
    var n := WRAP - 1;
    SubmissionsReach(n);
    ReachesStep(AtRest(n), n, Execute, Apply(AtRest(n), Execute));
    states, steps :| IsRun(states, steps) && states[|steps|] == Apply(AtRest(n), Execute) && Signals(steps, |steps|) == n;
    WrappingSignalIsSmaller(states, steps);
    states, steps := states + [Apply(states[|steps|], Signal)], steps + [Signal];
  }

  /** The values of the signals increase in every run of up to `n` submissions if and only if
      `n` is below 2^64. */
  lemma ValuesIncreaseExactlyBelowWrap(n: nat)
    ensures
      n < WRAP <==>
      forall states: seq<State>, steps: seq<Step> ::
        IsRun(states, steps) && Signals(steps, |steps|) <= n ==> ValuesIncrease(states, steps)
  {
    if n < WRAP {
      forall states: seq<State>, steps: seq<Step> | IsRun(states, steps) && Signals(steps, |steps|) <= n
        ensures ValuesIncrease(states, steps)
      {
        forall i, j | 0 <= i < j < |steps| && steps[i].Signal? && steps[j].Signal?
          ensures states[i + 1].fenceValue < states[j + 1].fenceValue
        {
          SignalsGrow(steps, j + 1, |steps|);
          FenceValuesIncrease(states, steps, i, j);
        }
      }
    } else {
      var states, steps := WrappedSignalIsSmaller();
      assert !ValuesIncrease(states, steps);
    }
  }
}
