/** The two-party start gate of the smoke test and the concurrent creation behind it.
    Every step is a section under the gate's mutex, or one thread's work outside it; a
    thread asleep on the condition variable may also wake up spuriously at any time. */
module StartGate {

  type Thread = nat

  /** The worker and the thread that joins it. */
  const WORKER: Thread := 0
  const JOINER: Thread := 1

  datatype Pc =
    | Outside                  // has not reached the gate
    | Asleep(notified: bool)   // waiting on the condition variable
    | Creating                 // past the gate, creating its pipeline state
    | Created                  // its status and result are stored
    | Reading                  // has joined the worker and reads both results

  datatype State = State(arrived: nat, pcs: seq<Pc>)

  /** `n` threads that will each call `wait` once. */
  function Initial(n: nat): State {
    State(0, seq(n, _ => Outside))
  }

  datatype Step = Arrive(t: Thread) | Wake(t: Thread) | Finish(t: Thread) | Join

  predicate Enabled(s: State, step: Step) {
    match step
    case Arrive(t) => t < |s.pcs| && s.pcs[t].Outside?
    case Wake(t) => t < |s.pcs| && s.pcs[t].Asleep?
    case Finish(t) => t < |s.pcs| && s.pcs[t].Creating?
    case Join => JOINER < |s.pcs| && s.pcs[JOINER].Created? && s.pcs[WORKER].Created?
  }

  /** A wakeup that somebody caused, as opposed to a spurious one. */
  predicate Caused(s: State, step: Step) {
    Enabled(s, step) && (step.Wake? ==> s.pcs[step.t].notified)
  }

  function NotifyAll(pcs: seq<Pc>): (r: seq<Pc>)
    ensures |r| == |pcs|
    ensures forall i :: 0 <= i < |pcs| ==> r[i] == if pcs[i].Asleep? then Asleep(true) else pcs[i]
  {
    seq(|pcs|, i requires 0 <= i < |pcs| => if pcs[i].Asleep? then Asleep(true) else pcs[i])
  }

  /** The predicate is tested on arrival and after every wakeup. */
  function Test(arrived: nat): Pc {
    if arrived == 2 then Creating else Asleep(false)
  }

  function Apply(s: State, step: Step): State
    requires Enabled(s, step)
  {
    match step
    case Arrive(t) =>
      var arrived := s.arrived + 1;
      State(arrived, (if arrived == 2 then NotifyAll(s.pcs) else s.pcs)[t := Test(arrived)])
    case Wake(t) => s.(pcs := s.pcs[t := Test(s.arrived)])
    case Finish(t) => s.(pcs := s.pcs[t := Created])
    case Join => s.(pcs := s.pcs[JOINER := Reading])
  }

  predicate IsPath(states: seq<State>, steps: seq<Step>) {
    && |states| == |steps| + 1
    && forall i {:trigger steps[i]} :: 0 <= i < |steps| ==> Enabled(states[i], steps[i]) && states[i + 1] == Apply(states[i], steps[i])
  }

  predicate IsRun(n: nat, states: seq<State>, steps: seq<Step>) {
    IsPath(states, steps) && states[0] == Initial(n)
  }

  // ---- Two callers ----

  predicate Past(pc: Pc) {
    pc.Creating? || pc.Created? || pc.Reading?
  }

  predicate Inv(s: State) {
    && |s.pcs| == 2
    && s.arrived == (if s.pcs[0].Outside? then 0 else 1) + (if s.pcs[1].Outside? then 0 else 1)
    && (forall t :: 0 <= t < 2 && Past(s.pcs[t]) ==> s.arrived == 2)
    && (forall t :: 0 <= t < 2 && s.pcs[t].Asleep? ==> (s.pcs[t].notified <==> s.arrived == 2))
    && !s.pcs[WORKER].Reading?
    && (s.pcs[JOINER].Reading? ==> s.pcs[WORKER].Created?)
  }

  lemma StepInv(s: State, step: Step)
    requires Inv(s) && Enabled(s, step)
    ensures Inv(Apply(s, step))
  {
  }

  lemma {:induction false} RunInv(states: seq<State>, steps: seq<Step>, i: nat)
    requires IsRun(2, states, steps) && i < |states|
    ensures Inv(states[i])
  {
    if i > 0 {
      RunInv(states, steps, i - 1);
      StepInv(states[i - 1], steps[i - 1]);
    }
  }

  /** With two callers, however they are scheduled and however often they wake spuriously,
      nobody starts creating before both have arrived, and results are read only after both
      are stored. */
  lemma GateHolds(states: seq<State>, steps: seq<Step>, i: nat, t: Thread)
    requires IsRun(2, states, steps) && i < |states| && t < 2
    ensures |states[i].pcs| == 2
    ensures Past(states[i].pcs[t]) ==> !states[i].pcs[0].Outside? && !states[i].pcs[1].Outside?
    ensures states[i].pcs[JOINER].Reading? ==> states[i].pcs[WORKER].Created?
  {
    RunInv(states, steps, i);
  }

  /** Until the results are read some step is always possible that needs no spurious wakeup. */
  lemma NeverStuck(states: seq<State>, steps: seq<Step>, i: nat) returns (step: Step)
    requires IsRun(2, states, steps) && i < |states|
    requires JOINER < |states[i].pcs| ==> !states[i].pcs[JOINER].Reading?
    ensures Caused(states[i], step)
  {
    RunInv(states, steps, i);
    var s := states[i];
    if s.pcs[0].Outside? {
      step := Arrive(0);
    } else if s.pcs[1].Outside? {
      step := Arrive(1);
    } else if s.pcs[0].Asleep? {
      step := Wake(0);
    } else if s.pcs[1].Asleep? {
      step := Wake(1);
    } else if s.pcs[0].Creating? {
      step := Finish(0);
    } else if s.pcs[1].Creating? {
      step := Finish(1);
    } else {
      step := Join;
    }
  }

  // ---- More callers ----

  lemma ArrivedNeverDrops(s: State, step: Step)
    requires Enabled(s, step)
    ensures Apply(s, step).arrived >= s.arrived && |Apply(s, step).pcs| == |s.pcs|
  {
  }

  /** With any number of callers, once more than two have arrived whoever is asleep stays
      asleep forever, notified or not. */
  lemma {:induction false} SleepersAreStranded(states: seq<State>, steps: seq<Step>, i: nat, j: nat, t: Thread)
    requires IsPath(states, steps) && i <= j < |states| && t < |states[i].pcs|
    requires states[i].arrived > 2 && states[i].pcs[t].Asleep?
    ensures states[j].arrived > 2 && t < |states[j].pcs| && states[j].pcs[t].Asleep?
    decreases j
  {
    if i < j {
      SleepersAreStranded(states, steps, i, j - 1, t);
      ArrivedNeverDrops(states[j - 1], steps[j - 1]);
    }
  }

  /** So every caller after the second sleeps forever. */
  lemma ThirdCallerIsStranded(n: nat, states: seq<State>, steps: seq<Step>, i: nat, j: nat)
    requires IsRun(n, states, steps) && i < j < |states| && steps[i].Arrive? && states[i].arrived >= 2
    ensures |states[j].pcs| > steps[i].t && states[j].pcs[steps[i].t].Asleep?
  {
    assert states[i + 1].pcs[steps[i].t] == Asleep(false);
    SleepersAreStranded(states, steps, i + 1, j, steps[i].t);
  }

  /** And it can take one of the two with it: a run of three callers in which the gate opened
      and yet only one caller ever passes. */
  lemma ThirdCallerCanStrandTheFirst() returns (states: seq<State>, steps: seq<Step>)
    ensures IsRun(3, states, steps) && |steps| == 3
    ensures states[3] == State(3, [Asleep(true), Creating, Asleep(false)])
    ensures Apply(states[3], Wake(0)).pcs[0] == Asleep(false)
  {
    steps := [Arrive(0), Arrive(1), Arrive(2)];
    var s0 := Initial(3);
    var s1 := State(1, [Asleep(false), Outside, Outside]);
    var s2 := State(2, [Asleep(true), Creating, Outside]);
    var s3 := State(3, [Asleep(true), Creating, Asleep(false)]);
    assert Apply(s0, Arrive(0)) == s1 && Apply(s1, Arrive(1)) == s2 && Apply(s2, Arrive(2)) == s3;
    states := [s0, s1, s2, s3];
  }

  /** A single caller never gets through either. */
  lemma {:induction false} LoneCallerNeverPasses(states: seq<State>, steps: seq<Step>, i: nat)
    requires IsRun(1, states, steps) && i < |states|
    ensures |states[i].pcs| == 1 && !Past(states[i].pcs[0])
    ensures states[i].arrived == if states[i].pcs[0].Outside? then 0 else 1
  {
    if i > 0 {
      LoneCallerNeverPasses(states, steps, i - 1);
      assert states[i] == Apply(states[i - 1], steps[i - 1]);
    }
  }

  // ---- Exactly two callers ----

  ghost predicate Leads(s: State, s': State) {
    exists states, steps :: IsPath(states, steps) && states[0] == s && states[|steps|] == s'
  }

  lemma LeadsNowhere(s: State)
    ensures Leads(s, s)
  {
    var steps: seq<Step> := [];
    assert IsPath([s], steps) && [s][0] == s && [s][|steps|] == s;
  }

  lemma LeadsOn(s: State, s': State, step: Step)
    requires Leads(s, s') && Enabled(s', step)
    ensures Leads(s, Apply(s', step))
  {
    var states, steps :| IsPath(states, steps) && states[0] == s && states[|steps|] == s';
    var states', steps' := states + [Apply(s', step)], steps + [step];
    assert IsPath(states', steps') && states'[0] == s && states'[|steps'|] == Apply(s', step);
  }

  ghost predicate CanPass(s: State, t: Thread) {
    exists s' :: Leads(s, s') && t < |s'.pcs| && Past(s'.pcs[t])
  }

  /** However `n` callers have been scheduled so far, each of them can still get through. */
  ghost predicate GateLetsAllThrough(n: nat) {
    forall s, t: Thread :: Leads(Initial(n), s) && t < n ==> CanPass(s, t)
  }

  lemma ArriveIfOutside(s: State, s': State, t: Thread) returns (next: State)
    requires Leads(s, s') && Inv(s') && t < 2
    ensures Leads(s, next) && Inv(next) && !next.pcs[t].Outside?
    ensures forall u :: 0 <= u < 2 && !s'.pcs[u].Outside? ==> !next.pcs[u].Outside?
  {
    next := s';
    if s'.pcs[t].Outside? {
      LeadsOn(s, s', Arrive(t));
      StepInv(s', Arrive(t));
      next := Apply(s', Arrive(t));
    }
  }

  lemma TwoCanPass(s: State, t: Thread)
    requires Inv(s) && t < 2
    ensures CanPass(s, t)
  {
    LeadsNowhere(s);
    var s1 := ArriveIfOutside(s, s, 0);
    var s2 := ArriveIfOutside(s, s1, 1);
    if s2.pcs[t].Asleep? {
      LeadsOn(s, s2, Wake(t));
      assert Past(Apply(s2, Wake(t)).pcs[t]);
    }
  }

  /** The first three of the callers have arrived, the last of them in vain. */
  lemma ThreeArrive(n: nat) returns (s: State)
    requires n >= 3
    ensures Leads(Initial(n), s) && |s.pcs| == n && s.arrived == 3 && s.pcs[2].Asleep?
  {
    LeadsNowhere(Initial(n));
    s := Apply(Initial(n), Arrive(0));
    LeadsOn(Initial(n), Initial(n), Arrive(0));
    LeadsOn(Initial(n), s, Arrive(1));
    s := Apply(s, Arrive(1));
    LeadsOn(Initial(n), s, Arrive(2));
    s := Apply(s, Arrive(2));
  }

  lemma SleeperCannotPass(s: State, t: Thread)
    requires s.arrived > 2 && t < |s.pcs| && s.pcs[t].Asleep?
    ensures !CanPass(s, t)
  {
    forall s' | Leads(s, s')
      ensures t < |s'.pcs| && !Past(s'.pcs[t])
    {
      var states, steps :| IsPath(states, steps) && states[0] == s && states[|steps|] == s';
      SleepersAreStranded(states, steps, 0, |steps|, t);
    }
  }

  lemma LoneCallerCannotPass()
    ensures !CanPass(Initial(1), 0)
  {
    forall s' | Leads(Initial(1), s')
      ensures |s'.pcs| == 1 && !Past(s'.pcs[0])
    {
      var states, steps :| IsPath(states, steps) && states[0] == Initial(1) && states[|steps|] == s';
      LoneCallerNeverPasses(states, steps, |steps|);
    }
  }

  /** The gate lets every caller through in every schedule if and only if there are exactly
      two, or none at all. */
  lemma GateIsForTwo(n: nat)
    ensures GateLetsAllThrough(n) <==> n == 2 || n == 0
  {
    if n == 1 {
      LeadsNowhere(Initial(1));
      LoneCallerCannotPass();
    } else if n == 2 {
      forall s, t: Thread | Leads(Initial(2), s) && t < 2
        ensures CanPass(s, t)
      {
        var states, steps :| IsPath(states, steps) && states[0] == Initial(2) && states[|steps|] == s;
        RunInv(states, steps, |steps|);
        TwoCanPass(s, t);
      }
    } else if n > 2 {
      var s := ThreeArrive(n);
      SleeperCannotPass(s, 2);
    }
  }

  /** Brings thread `t` past the gate, if it is not yet, and lets it finish. */
  lemma FinishCreating(s: State, s': State, t: Thread) returns (next: State)
    requires Leads(s, s') && Inv(s') && t < 2 && s'.arrived == 2 && !s'.pcs[t].Reading?
    ensures Leads(s, next) && Inv(next) && next.arrived == 2 && next.pcs[t].Created?
    ensures forall u :: 0 <= u < 2 && u != t ==> next.pcs[u] == s'.pcs[u]
  {
    next := s';
    if next.pcs[t].Asleep? {
      LeadsOn(s, next, Wake(t));
      StepInv(next, Wake(t));
      next := Apply(next, Wake(t));
    }
    if next.pcs[t].Creating? {
      LeadsOn(s, next, Finish(t));
      StepInv(next, Finish(t));
      next := Apply(next, Finish(t));
    }
  }

  /** With two callers, from every reachable state, the results of both can be read. */
  lemma ResultsCanBeRead(states: seq<State>, steps: seq<Step>, i: nat) returns (s': State)
    requires IsRun(2, states, steps) && i < |states|
    ensures Leads(states[i], s') && JOINER < |s'.pcs| && s'.pcs[JOINER].Reading?
  {
    var s := states[i];
    RunInv(states, steps, i);
    LeadsNowhere(s);
    s' := s;
    if !s.pcs[JOINER].Reading? {
      s' := ArriveIfOutside(s, s', WORKER);
      s' := ArriveIfOutside(s, s', JOINER);
      if !s'.pcs[JOINER].Reading? {
        s' := FinishCreating(s, s', WORKER);
        s' := FinishCreating(s, s', JOINER);
        LeadsOn(s, s', Join);
        s' := Apply(s', Join);
      }
    }
  }
}
