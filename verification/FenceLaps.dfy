/** How long waits stay fresh once the 64-bit counter has wrapped: the first calls after the
    wrap do not wait at all, so work of earlier calls can pile up in the queue. */
module FenceLaps {

  import opened FenceProtocol

  // ---- The signals in the queue ----

  function SignalsIn(queue: seq<Work>): seq<nat> {
    if queue == [] then []
    else if queue[0].SignalFence? then [queue[0].value] + SignalsIn(queue[1..])
    else SignalsIn(queue[1..])
  }

  lemma {:induction false} SignalsInAppend(queue: seq<Work>, w: Work)
    ensures SignalsIn(queue + [w]) == SignalsIn(queue) + if w.SignalFence? then [w.value] else []
  {
    if queue == [] {
      assert queue + [w] == [w];
      assert [w][1..] == [];
    } else {
      assert (queue + [w])[1..] == queue[1..] + [w];
      SignalsInAppend(queue[1..], w);
    }
  }

  /** The values of signals `d + 1` to `n`. */
  function Upcoming(d: nat, n: nat): seq<nat>
    requires d <= n
    decreases n - d
  {
    if d == n then [] else [(d + 1) % WRAP] + Upcoming(d + 1, n)
  }

  lemma {:induction false} UpcomingAppend(d: nat, n: nat)
    requires d <= n
    ensures Upcoming(d, n + 1) == Upcoming(d, n) + [(n + 1) % WRAP]
    decreases n - d
  {
    if d < n {
      UpcomingAppend(d + 1, n);
    } else {
      assert Upcoming(n + 1, n + 1) == [];
    }
  }

  predicate EndsInSignal(queue: seq<Work>) {
    queue == [] || queue[|queue| - 1].SignalFence?
  }

  lemma {:induction false} NoSignalNoWork(queue: seq<Work>)
    requires EndsInSignal(queue) && SignalsIn(queue) == []
    ensures queue == []
  {
    if |queue| > 1 {
      assert EndsInSignal(queue[1..]);
      NoSignalNoWork(queue[1..]);
    }
  }

  // ---- The second lap ----

  /** After `n` signals, of which `d` have been executed. */
  predicate LapInv(s: State, n: nat, d: nat) {
    && WRAP <= n <= 2 * WRAP && WRAP - 1 <= d <= n
    && s.fenceValue == n % WRAP && s.completed == d % WRAP
    && SignalsIn(s.queue) == Upcoming(d, n)
    && match s.cpu
       case Idle => EndsInSignal(s.queue) && s.registered == [] && !s.event
       case Executed => s.registered == [] && !s.event
       case Signalled(v) => v == n % WRAP && EndsInSignal(s.queue) && s.registered == [] && !s.event
       case MustWait(v) =>
         && v == n % WRAP && EndsInSignal(s.queue) && s.registered == [] && !s.event
         && WRAP <= d && n < 2 * WRAP
       case Registered(v) =>
         && v == n % WRAP && EndsInSignal(s.queue)
         && WRAP <= d && n < 2 * WRAP
         && (if d == n then s.event && s.registered == [] else !s.event && s.registered == [v])
       case Failed => true
  }

  lemma LapGpuStep(s: State, n: nat, d: nat) returns (d': nat)
    requires LapInv(s, n, d) && s.queue != []
    ensures LapInv(GpuStepOf(s), n, d')
  {
    d' := d;
    if s.queue[0].SignalFence? {
      assert d < n;
      d' := d + 1;
      assert [s.queue[0].value] + SignalsIn(s.queue[1..]) == [(d + 1) % WRAP] + Upcoming(d + 1, n);
      assert SignalsIn(s.queue[1..]) == ([s.queue[0].value] + SignalsIn(s.queue[1..]))[1..];
      assert s.queue[0].value == (d + 1) % WRAP && SignalsIn(s.queue[1..]) == Upcoming(d + 1, n);
      if s.cpu.Registered? { RegisteredComesDue(s.cpu.value, n, d); }
    }
    assert EndsInSignal(s.queue) ==> EndsInSignal(s.queue[1..]);
  }

  /** In the second lap the first signal that reaches the value waited for is its own. */
  lemma RegisteredComesDue(v: nat, n: nat, d: nat)
    requires WRAP <= d < n < 2 * WRAP && v == n % WRAP
    ensures Due([v], (d + 1) % WRAP) <==> d + 1 == n
    ensures NotDue([v], (d + 1) % WRAP) == if d + 1 == n then [] else [v]
  {
    assert v == n - WRAP && (d + 1) % WRAP == d + 1 - WRAP;
    assert [v][0] == v && [v][1..] == [];
  }

  lemma LapSignal(s: State, n: nat, d: nat)
    requires LapInv(s, n, d) && s.cpu.Executed? && n < 2 * WRAP
    ensures LapInv(Apply(s, Signal), n + 1, d)
  {
    var value := (s.fenceValue + 1) % WRAP;
    assert value == (n + 1) % WRAP;
    SignalsInAppend(s.queue, SignalFence(value));
    UpcomingAppend(d, n);
  }

  lemma LapStep(s: State, step: Step, n: nat, d: nat) returns (d': nat)
    requires LapInv(s, n, d) && Enabled(s, step) && (step.Signal? ==> n < 2 * WRAP)
    ensures LapInv(Apply(s, step), if step.Signal? then n + 1 else n, d')
  {
    d' := d;
    match step
    case GpuStep => d' := LapGpuStep(s, n, d);
    case Signal => LapSignal(s, n, d);
    case Execute => SignalsInAppend(s.queue, Commands(s.allocator));
    case _ =>
  }

  /** The signal that wraps the counter begins the second lap. */
  lemma LapBegins(s: State)
    requires Inv(s) && s.cpu.Executed? && s.fenceValue == WRAP - 1
    ensures LapInv(Apply(s, Signal), WRAP, WRAP - 1)
  {
    SignalsInAppend(s.queue, SignalFence(0));
    if s.queue != [] {
      assert s.queue[1..] == [];
      assert SignalsIn(s.queue) == SignalsIn(s.queue[1..]);
    }
    UpcomingAppend(WRAP - 1, WRAP - 1);
    assert Upcoming(WRAP - 1, WRAP - 1) == [];
  }

  lemma {:induction false} LapRun(states: seq<State>, steps: seq<Step>, i: nat) returns (d: nat)
    requires IsRun(states, steps) && i < |states| && WRAP <= Signals(steps, i) <= 2 * WRAP
    ensures LapInv(states[i], Signals(steps, i), d)
  {
    if Signals(steps, i - 1) < WRAP {
      LapRunBegins(states, steps, i - 1);
      d := WRAP - 1;
    } else {
      d := LapRun(states, steps, i - 1);
      d := LapRunStep(states, steps, i - 1, d);
    }
  }

  lemma LapRunBegins(states: seq<State>, steps: seq<Step>, i: nat)
    requires IsRun(states, steps) && i < |steps| && Signals(steps, i) < WRAP <= Signals(steps, i + 1)
    ensures Signals(steps, i + 1) == WRAP && LapInv(states[i + 1], WRAP, WRAP - 1)
  {
    RunInv(states, steps, i);
    assert steps[i].Signal?;
    LapBegins(states[i]);
  }

  lemma LapRunStep(states: seq<State>, steps: seq<Step>, i: nat, d: nat) returns (d': nat)
    requires IsRun(states, steps) && i < |steps| && Signals(steps, i + 1) <= 2 * WRAP && LapInv(states[i], Signals(steps, i), d)
    ensures LapInv(states[i + 1], Signals(steps, i + 1), d')
  {
    d' := LapStep(states[i], steps[i], Signals(steps, i), d);
  }

  // ---- A stale wait ----

  /** The counter `k` submissions after its largest value. */
  function Value(k: nat): nat {
    (WRAP - 1 + k) % WRAP
  }

  lemma NextValue(k: nat)
    ensures (Value(k) + 1) % WRAP == Value(k + 1) && Value(k) < WRAP
  {
  }

  /** `k` submissions after the wrap, none of them executed. */
  function Backlog(k: nat): seq<Work> {
    if k == 0 then [] else Backlog(k - 1) + [Commands(1), SignalFence(Value(k))]
  }

  function Stalled(k: nat): State {
    State(Idle, Value(k), WRAP - 1, Backlog(k), [], false, 1)
  }

  lemma {:induction false} StalledReached(k: nat)
    requires k <= WRAP + 1
    ensures Reaches(Stalled(k), WRAP - 1 + k)
  {
    if k == 0 {
      SubmissionsReach(WRAP - 1);
    } else {
      StalledReached(k - 1);
      StalledSubmits(k - 1);
    }
  }

  lemma StalledSubmits(k: nat)
    requires Reaches(Stalled(k), WRAP - 1 + k)
    ensures Reaches(Stalled(k + 1), WRAP + k)
  {
    NextValue(k);
    NextValue(k + 1);
    PassedCallReturns(Stalled(k), WRAP - 1 + k, Value(k + 1));
  }

  /** A call whose value the fence has already passed does not wait. */
  lemma PassedCallReturns(s: State, n: nat, value: nat)
    requires Reaches(s, n) && s.cpu.Idle? && s.allocator > 0 && value == (s.fenceValue + 1) % WRAP && value <= s.completed
    ensures Reaches(s.(fenceValue := value, queue := s.queue + [Commands(s.allocator), SignalFence(value)]), n + 1)
  {
    var s1 := s.(cpu := Executed, queue := s.queue + [Commands(s.allocator)]);
    ReachesStep(s, n, Execute, s1);
    var s2 := s1.(cpu := Signalled(value), fenceValue := value, queue := s1.queue + [SignalFence(value)]);
    ReachesStep(s1, n, Signal, s2);
    assert s2.queue == s.queue + [Commands(s.allocator), SignalFence(value)];
    ReachesStep(s2, n + 1, Check, s2.(cpu := Idle));
  }

  lemma {:induction false} BacklogStarts(k: nat)
    requires k >= 2
    ensures |Backlog(k)| >= 4 && Backlog(k)[..4] == [Commands(1), SignalFence(0), Commands(1), SignalFence(1)]
  {
    if k == 2 {
      assert Backlog(1) == [Commands(1), SignalFence(0)];
    } else {
      BacklogStarts(k - 1);
      assert Backlog(k)[..4] == Backlog(k - 1)[..4];
    }
  }

  /** The fence stands at 0, and the next call waits for 1. */
  lemma WaitBegins(rest: seq<Work>) returns (s: State)
    requires Reaches(State(Idle, 0, WRAP - 1, [Commands(1), SignalFence(0), Commands(1), SignalFence(1)] + rest, [], false, 1), 2 * WRAP)
    ensures Reaches(s, 2 * WRAP + 1)
    ensures s == State(Registered(1), 1, 0, [Commands(1), SignalFence(1)] + rest + [Commands(1), SignalFence(1)], [1], false, 1)
  {
    var s0 := State(Idle, 0, WRAP - 1, [Commands(1), SignalFence(0), Commands(1), SignalFence(1)] + rest, [], false, 1);
    var s1 := s0.(queue := [SignalFence(0), Commands(1), SignalFence(1)] + rest);
    assert s0.queue[1..] == s1.queue;
    ReachesStep(s0, 2 * WRAP, GpuStep, s1);
    var s2 := s0.(queue := [Commands(1), SignalFence(1)] + rest, completed := 0);
    assert s1.queue[1..] == s2.queue;
    ReachesStep(s1, 2 * WRAP, GpuStep, s2);
    s := WaitRegisters(s2);
  }

  lemma WaitRegisters(s: State) returns (s': State)
    requires Reaches(s, 2 * WRAP) && s == State(Idle, 0, 0, s.queue, [], false, 1)
    ensures Reaches(s', 2 * WRAP + 1)
    ensures s' == State(Registered(1), 1, 0, s.queue + [Commands(1), SignalFence(1)], [1], false, 1)
  {
    var s1 := Apply(s, Execute);
    ReachesStep(s, 2 * WRAP, Execute, s1);
    var s2 := Apply(s1, Signal);
    ReachesStep(s1, 2 * WRAP, Signal, s2);
    assert s2.queue == s.queue + [Commands(1), SignalFence(1)];
    var s3 := Apply(s2, Check);
    ReachesStep(s2, 2 * WRAP + 1, Check, s3);
    s' := Apply(s3, Register);
    ReachesStep(s3, 2 * WRAP + 1, Register, s');
  }

  /** The signal 1 of a lap ago lets the wait return, with its own work still pending. */
  lemma WaitIsMet(s: State, rest: seq<Work>) returns (s': State)
    requires Reaches(s, 2 * WRAP + 1)
    requires s == State(Registered(1), 1, 0, [Commands(1), SignalFence(1)] + rest, [1], false, 1)
    ensures Reaches(s', 2 * WRAP + 1) && Enabled(s', Wait) && s'.queue == rest
  {
    var s1 := s.(queue := [SignalFence(1)] + rest);
    assert s.queue[1..] == s1.queue;
    ReachesStep(s, 2 * WRAP + 1, GpuStep, s1);
    assert s1.queue[1..] == rest;
    assert s1.registered[0] <= 1;
    s' := GpuStepOf(s1);
    ReachesStep(s1, 2 * WRAP + 1, GpuStep, s');
  }

  lemma StaleWait() returns (s: State)
    ensures Reaches(s, 2 * WRAP + 1) && Enabled(s, Wait) && s.queue != []
  {
    var k := WRAP + 1;
    StalledReached(k);
    s := StaleAfter(k);
  }

  lemma StaleAfter(k: nat) returns (s: State)
    requires k == WRAP + 1 && Reaches(Stalled(k), WRAP - 1 + k)
    ensures Reaches(s, 2 * WRAP + 1) && Enabled(s, Wait) && s.queue != []
  {
    var rest := StalledSplits(k);
    var own := [Commands(1), SignalFence(1)];
    s := WaitBegins(rest);
    assert own + rest + own == own + (rest + own);
    s := WaitIsMet(s, rest + own);
  }

  lemma StalledSplits(k: nat) returns (rest: seq<Work>)
    requires k == WRAP + 1
    ensures Stalled(k) == State(Idle, 0, WRAP - 1, [Commands(1), SignalFence(0), Commands(1), SignalFence(1)] + rest, [], false, 1)
  {
    BacklogStarts(k);
    rest := Backlog(k)[4..];
    assert Backlog(k) == Backlog(k)[..4] + rest;
  }

  /** In every run of up to `n` submissions a wait returns only when its own submission, and
      with it all work, is complete, if and only if `n` is at most 2^65. */
  lemma WaitsAreFreshExactlyForTwoLaps(n: nat)
    ensures
      n <= 2 * WRAP <==>
      forall states: seq<State>, steps: seq<Step> ::
        IsRun(states, steps) && Signals(steps, |steps|) <= n && Enabled(states[|steps|], Wait) ==> states[|steps|].queue == []
  {
    if n <= 2 * WRAP {
      forall states: seq<State>, steps: seq<Step> |
        IsRun(states, steps) && Signals(steps, |steps|) <= n && Enabled(states[|steps|], Wait)
        ensures states[|steps|].queue == []
      {
        if Signals(steps, |steps|) < WRAP {
          WaitIsNotStuck(states, steps, |steps|);
        } else {
          var d := LapRun(states, steps, |steps|);
          NoSignalNoWork(states[|steps|].queue);
        }
      }
    } else {
      var s := StaleWait();
      var states, steps :| IsRun(states, steps) && states[|steps|] == s && Signals(steps, |steps|) == 2 * WRAP + 1;
    }
  }
}
