/** Reference ownership of `NativeResult`: retain counts over any program of constructing,
    copying, moving, taking from and destroying results. */
module NativeResult {

  import opened Optional

  type Object = nat

  /** The three references a result owns; an absent one is nil. */
  datatype Result = Result(state: Option<Object>, reflection: Option<Object>, error: Option<Object>)

  const Empty := Result(None, None, None)

  /** `counts` are the retain counts; `results` the live variables (None when destroyed or not
      yet constructed); `callers` the references transferred to or still owned by callers. */
  datatype State = State(counts: map<Object, int>, results: seq<Option<Result>>, callers: multiset<Object>)

  function Count(s: State, o: Object): int {
    if o in s.counts then s.counts[o] else 0
  }

  function Add(counts: map<Object, int>, o: Option<Object>, n: int): map<Object, int> {
    match o
    case None => counts
    case Some(x) => counts[x := (if x in counts then counts[x] else 0) + n]
  }

  /** `[x retain]` or `[x release]` on all three references. */
  function AddAll(counts: map<Object, int>, r: Result, n: int): map<Object, int> {
    Add(Add(Add(counts, r.state, n), r.reflection, n), r.error, n)
  }

  function One(o: Option<Object>, x: Object): nat {
    if o == Some(x) then 1 else 0
  }

  /** How many references to `x` a result owns. */
  function Owns(r: Option<Result>, x: Object): nat {
    match r
    case None => 0
    case Some(r) => One(r.state, x) + One(r.reflection, x) + One(r.error, x)
  }

  function Held(results: seq<Option<Result>>, x: Object): nat {
    if results == [] then 0 else Owns(results[0], x) + Held(results[1..], x)
  }

  datatype Operation =
    | Allocate(x: Object)                                          // a caller makes an object at +1
    | CallerRelease(x: Object)                                     // a caller drops a reference
    | Construct(v: nat, state: Option<Object>, reflection: Option<Object>, error: Option<Object>)
    | Copy(v: nat, from: nat)
    | Move(v: nat, from: nat)
    | MoveAssign(v: nat, from: nat)
    | TakeState(v: nat)
    | TakeReflection(v: nat)
    | TakeError(v: nat)
    | Destroy(v: nat)

  predicate Live(s: State, v: nat) {
    v < |s.results| && s.results[v].Some?
  }

  predicate Dead(s: State, v: nat) {
    v < |s.results| && s.results[v].None?
  }

  predicate Alive(s: State, o: Option<Object>) {
    o.Some? ==> Count(s, o.value) > 0
  }

  /** What the language and the class demand: a constructor runs on a variable that is not live,
      the adopted state is a reference its caller owns, the borrowed objects are alive. */
  predicate Enabled(s: State, op: Operation) {
    match op
    case Allocate(x) => Count(s, x) == 0
    case CallerRelease(x) => x in s.callers
    case Construct(v, state, reflection, error) =>
      Dead(s, v) && (state.Some? ==> state.value in s.callers) && Alive(s, reflection) && Alive(s, error)
    case Copy(v, from) => Dead(s, v) && Live(s, from)
    case Move(v, from) => Dead(s, v) && Live(s, from)
    case MoveAssign(v, from) => Live(s, v) && Live(s, from)
    case TakeState(v) => Live(s, v)
    case TakeReflection(v) => Live(s, v)
    case TakeError(v) => Live(s, v)
    case Destroy(v) => Live(s, v)
  }

  function Given(o: Option<Object>): multiset<Object> {
    if o.Some? then multiset{o.value} else multiset{}
  }

  function Apply(s: State, op: Operation): State
    requires Enabled(s, op)
  {
    match op
    case Allocate(x) => s.(counts := s.counts[x := 1], callers := s.callers + multiset{x})
    case CallerRelease(x) => s.(counts := Add(s.counts, Some(x), -1), callers := s.callers - multiset{x})
    case Construct(v, state, reflection, error) =>
      State(Add(Add(s.counts, reflection, 1), error, 1),
            s.results[v := Some(Result(state, reflection, error))], s.callers - Given(state))
    case Copy(v, from) => s.(counts := AddAll(s.counts, s.results[from].value, 1), results := s.results[v := s.results[from]])
    case Move(v, from) => s.(results := s.results[v := s.results[from]][from := Some(Empty)])
    case MoveAssign(v, from) =>
      if v == from then s
      else s.(counts := AddAll(s.counts, s.results[v].value, -1),
              results := s.results[v := s.results[from]][from := Some(Empty)])
    case TakeState(v) =>
      var r := s.results[v].value;
      s.(results := s.results[v := Some(r.(state := None))], callers := s.callers + Given(r.state))
    case TakeReflection(v) =>
      var r := s.results[v].value;
      s.(results := s.results[v := Some(r.(reflection := None))], callers := s.callers + Given(r.reflection))
    case TakeError(v) =>
      var r := s.results[v].value;
      s.(results := s.results[v := Some(r.(error := None))], callers := s.callers + Given(r.error))
    case Destroy(v) =>
      s.(counts := AddAll(s.counts, s.results[v].value, -1), results := s.results[v := None])
  }

  // ---- Conservation ----

  /** The retain count of `x` is the number of references live results and callers own. */
  ghost predicate Balanced(s: State, x: Object) {
    Count(s, x) == s.callers[x] + Held(s.results, x)
  }

  lemma {:induction false} HeldAfterUpdate(results: seq<Option<Result>>, v: nat, r: Option<Result>, x: Object)
    requires v < |results|
    ensures Held(results[v := r], x) == Held(results, x) - Owns(results[v], x) + Owns(r, x)
    decreases v
  {
    if v > 0 {
      assert results[v := r][1..] == results[1..][v - 1 := r];
      HeldAfterUpdate(results[1..], v - 1, r, x);
    } else {
      assert results[v := r][1..] == results[1..];
    }
  }

  lemma AddAllCounts(s: State, r: Result, n: int, x: Object)
    ensures Count(s.(counts := AddAll(s.counts, r, n)), x) == Count(s, x) + n * Owns(Some(r), x)
  {
  }

  lemma CallersConserve(s: State, op: Operation, x: Object)
    requires Balanced(s, x) && Enabled(s, op) && (op.Allocate? || op.CallerRelease?)
    ensures Balanced(Apply(s, op), x)
  {
  }

  lemma AddCounts(counts: map<Object, int>, o: Option<Object>, n: int, x: Object)
    ensures
      var counts' := Add(counts, o, n);
      (if x in counts' then counts'[x] else 0) == (if x in counts then counts[x] else 0) + n * One(o, x)
  {
  }

  lemma ConstructConserves(s: State, op: Operation, x: Object)
    requires Balanced(s, x) && Enabled(s, op) && op.Construct?
    ensures Balanced(Apply(s, op), x)
  {
    var r := Result(op.state, op.reflection, op.error);
    HeldAfterUpdate(s.results, op.v, Some(r), x);
    AddCounts(s.counts, op.reflection, 1, x);
    AddCounts(Add(s.counts, op.reflection, 1), op.error, 1, x);
    assert (s.callers - Given(op.state))[x] == s.callers[x] - One(op.state, x);
  }

  lemma MovesConserve(s: State, op: Operation, x: Object)
    requires Balanced(s, x) && Enabled(s, op) && (op.Copy? || op.Move? || op.MoveAssign?)
    ensures Balanced(Apply(s, op), x)
  {
    var moved := s.results[op.v := s.results[op.from]];
    HeldAfterUpdate(s.results, op.v, s.results[op.from], x);
    HeldAfterUpdate(moved, op.from, Some(Empty), x);
    if op.Copy? { AddAllCounts(s, s.results[op.from].value, 1, x); }
    if op.MoveAssign? { AddAllCounts(s, s.results[op.v].value, -1, x); }
  }

  lemma TakesConserve(s: State, op: Operation, x: Object)
    requires Balanced(s, x) && Enabled(s, op) && (op.TakeState? || op.TakeReflection? || op.TakeError? || op.Destroy?)
    ensures Balanced(Apply(s, op), x)
  {
    var r := s.results[op.v].value;
    match op
    case TakeState(v) => HeldAfterUpdate(s.results, v, Some(r.(state := None)), x);
    case TakeReflection(v) => HeldAfterUpdate(s.results, v, Some(r.(reflection := None)), x);
    case TakeError(v) => HeldAfterUpdate(s.results, v, Some(r.(error := None)), x);
    case Destroy(v) =>
      HeldAfterUpdate(s.results, v, None, x);
      AddAllCounts(s, r, -1, x);
  }

  /** Every operation conserves references. */
  lemma StepConserves(s: State, op: Operation, x: Object)
    requires Balanced(s, x) && Enabled(s, op)
    ensures Balanced(Apply(s, op), x)
  {
    match op
    case Allocate(_) => CallersConserve(s, op, x);
    case CallerRelease(_) => CallersConserve(s, op, x);
    case Construct(_, _, _, _) => ConstructConserves(s, op, x);
    case Copy(_, _) => MovesConserve(s, op, x);
    case Move(_, _) => MovesConserve(s, op, x);
    case MoveAssign(_, _) => MovesConserve(s, op, x);
    case TakeState(_) => TakesConserve(s, op, x);
    case TakeReflection(_) => TakesConserve(s, op, x);
    case TakeError(_) => TakesConserve(s, op, x);
    case Destroy(_) => TakesConserve(s, op, x);
  }

  ghost predicate IsRun(states: seq<State>, ops: seq<Operation>) {
    && |states| == |ops| + 1
    && states[0].counts == map[] && states[0].callers == multiset{}
    && (forall v :: 0 <= v < |states[0].results| ==> states[0].results[v].None?)
    && forall i {:trigger ops[i]} :: 0 <= i < |ops| ==> Enabled(states[i], ops[i]) && states[i + 1] == Apply(states[i], ops[i])
  }

  lemma {:induction false} NothingHeld(results: seq<Option<Result>>, x: Object)
    requires forall v :: 0 <= v < |results| ==> results[v].None?
    ensures Held(results, x) == 0
  {
    if results != [] {
      NothingHeld(results[1..], x);
    }
  }

  /** Over any program each count is exactly the references owned; so nothing a live result
      or caller refers to is freed, and what nobody owns is. */
  lemma {:induction false} ReferencesAreConserved(states: seq<State>, ops: seq<Operation>, i: nat, x: Object)
    requires IsRun(states, ops) && i < |states|
    ensures Balanced(states[i], x)
  {
    if i == 0 {
      NothingHeld(states[0].results, x);
    } else {
      ReferencesAreConserved(states, ops, i - 1, x);
      StepConserves(states[i - 1], ops[i - 1], x);
    }
  }

  lemma {:induction false} HeldIncludes(results: seq<Option<Result>>, v: nat, x: Object)
    requires v < |results|
    ensures Held(results, x) >= Owns(results[v], x)
    decreases v
  {
    if v > 0 { HeldIncludes(results[1..], v - 1, x); }
  }

  /** No object a live result refers to has been freed, and no release is one too many. */
  lemma LiveResultsReferToLiveObjects(states: seq<State>, ops: seq<Operation>, i: nat, v: nat, x: Object)
    requires IsRun(states, ops) && i < |states| && Live(states[i], v)
    ensures Count(states[i], x) >= Owns(states[i].results[v], x)
  {
    ReferencesAreConserved(states, ops, i, x);
    HeldIncludes(states[i].results, v, x);
  }

  /** Once every result is destroyed and every caller has released, nothing is left. */
  lemma NothingLeaks(states: seq<State>, ops: seq<Operation>, i: nat, x: Object)
    requires IsRun(states, ops) && i < |states| && states[i].callers == multiset{}
    requires forall v :: 0 <= v < |states[i].results| ==> states[i].results[v].None?
    ensures Count(states[i], x) == 0
  {
    ReferencesAreConserved(states, ops, i, x);
    NothingHeld(states[i].results, x);
  }

  // ---- What the operations are for ----

  /** Same variables, same callers, same counts. */
  ghost predicate Same(s: State, s': State) {
    s.results == s'.results && s.callers == s'.callers && forall x: Object :: Count(s, x) == Count(s', x)
  }

  /** A copy is independent: it refers to the same three objects, and destroying it leaves
      everything as it was. */
  lemma CopyThenDestroyChangesNothing(s: State, v: nat, from: nat)
    requires Enabled(s, Copy(v, from))
    ensures
      var s' := Apply(s, Copy(v, from));
      s'.results[v] == s'.results[from] == s.results[from] && Same(s, Apply(s', Destroy(v)))
  {
    var s' := Apply(s, Copy(v, from));
    var r := s.results[from].value;
    assert s'.results[v := None] == s.results;
    forall x: Object
      ensures Count(s, x) == Count(Apply(s', Destroy(v)), x)
    {
      AddAllCounts(s, r, 1, x);
      AddAllCounts(s', r, -1, x);
    }
  }

  /** Moving is copying and then destroying the source, up to the emptied source variable. */
  lemma MoveIsCopyThenDrop(s: State, v: nat, from: nat)
    requires Enabled(s, Move(v, from))
    ensures
      var moved := Apply(s, Move(v, from));
      var dropped := Apply(Apply(s, Copy(v, from)), Destroy(from));
      moved.results[from] == Some(Empty) && Same(moved.(results := moved.results[from := None]), dropped)
  {
    var moved := Apply(s, Move(v, from));
    var copied := Apply(s, Copy(v, from));
    var r := s.results[from].value;
    assert moved.results[from := None] == Apply(copied, Destroy(from)).results;
    forall x: Object
      ensures Count(moved.(results := moved.results[from := None]), x) == Count(Apply(copied, Destroy(from)), x)
    {
      AddAllCounts(s, r, 1, x);
      AddAllCounts(copied, r, -1, x);
    }
  }

  /** Move assignment is destroying the target and then moving into it, unless it is to itself. */
  lemma MoveAssignIsDestroyThenMove(s: State, v: nat, from: nat)
    requires Enabled(s, MoveAssign(v, from))
    ensures v == from ==> Apply(s, MoveAssign(v, from)) == s
    ensures v != from ==> Same(Apply(s, MoveAssign(v, from)), Apply(Apply(s, Destroy(v)), Move(v, from)))
  {
    if v != from {
      assert s.results[v := None][v := s.results[from]] == s.results[v := s.results[from]];
    }
  }

  predicate IsTake(op: Operation) {
    op.TakeState? || op.TakeReflection? || op.TakeError?
  }

  /** The reference that a take is after. */
  function Taken(r: Result, op: Operation): Option<Object>
    requires IsTake(op)
  {
    match op
    case TakeState(_) => r.state
    case TakeReflection(_) => r.reflection
    case TakeError(_) => r.error
  }

  lemma TakeLeavesTheRest(s: State, op: Operation)
    requires IsTake(op) && Enabled(s, op)
    ensures
      var r, taken := s.results[op.v].value, Apply(s, op);
      && Live(taken, op.v) && Taken(taken.results[op.v].value, op).None?
      && taken.counts == s.counts && taken.callers == s.callers + Given(Taken(r, op))
      && taken.results[op.v := None] == s.results[op.v := None]
      && (Taken(r, op).None? ==> taken.results == s.results)
      && forall y: Object :: Owns(taken.results[op.v], y) == Owns(s.results[op.v], y) - One(Taken(r, op), y)
  {
  }

  /** A take gives its caller exactly the reference that destroying the result would have
      released, whatever else the result holds: releasing it and then destroying the rest is
      destroying the whole.  Taking what is absent changes nothing. */
  lemma TakeThenReleaseIsDestroy(s: State, op: Operation)
    requires IsTake(op) && Enabled(s, op)
    ensures
      var x, taken := Taken(s.results[op.v].value, op), Apply(s, op);
      if x.None? then Same(s, taken)
      else
        && x.value in taken.callers && Taken(taken.results[op.v].value, op).None?
        && Same(Apply(s, Destroy(op.v)), Apply(Apply(taken, CallerRelease(x.value)), Destroy(op.v)))
  {
    var x, taken := Taken(s.results[op.v].value, op), Apply(s, op);
    TakeLeavesTheRest(s, op);
    if x.Some? { ReleaseThenDestroy(s, taken, op.v, x.value); }
  }

  lemma ReleaseThenDestroy(s: State, taken: State, v: nat, x: Object)
    requires Live(s, v) && Live(taken, v) && taken.counts == s.counts && taken.callers == s.callers + multiset{x}
    requires taken.results[v := None] == s.results[v := None]
    requires forall y: Object :: Owns(taken.results[v], y) == Owns(s.results[v], y) - One(Some(x), y)
    ensures Same(Apply(s, Destroy(v)), Apply(Apply(taken, CallerRelease(x)), Destroy(v)))
  {
    var released := Apply(taken, CallerRelease(x));
    assert released.callers == s.callers;
    forall y: Object
      ensures Count(Apply(s, Destroy(v)), y) == Count(Apply(released, Destroy(v)), y)
    {
      AddAllCounts(s, s.results[v].value, -1, y);
      AddAllCounts(released, taken.results[v].value, -1, y);
      AddCounts(s.counts, Some(x), -1, y);
    }
  }

  /** Construction adopts the state and retains the other two: what each take gives back is the
      argument of that name, and the caller ends up owning the borrowed objects once more. */
  lemma ConstructThenTake(s: State, v: nat, state: Option<Object>, reflection: Option<Object>, error: Option<Object>)
    requires Enabled(s, Construct(v, state, reflection, error))
    ensures
      var s1 := Apply(s, Construct(v, state, reflection, error));
      && Live(s1, v)
      && Apply(s1, TakeState(v)).callers == s.callers
      && Apply(s1, TakeReflection(v)).callers == s1.callers + Given(reflection)
      && Apply(s1, TakeError(v)).callers == s1.callers + Given(error)
      && (forall x: Object :: Count(s1, x) == Count(s, x) + One(reflection, x) + One(error, x))
  {
    assert (s.callers - Given(state)) + Given(state) == s.callers;
    forall x: Object
      ensures Count(Apply(s, Construct(v, state, reflection, error)), x) == Count(s, x) + One(reflection, x) + One(error, x)
    {
      ConstructCounts(s, v, state, reflection, error, x);
    }
  }

  lemma ConstructCounts(s: State, v: nat, state: Option<Object>, reflection: Option<Object>, error: Option<Object>, x: Object)
    requires Enabled(s, Construct(v, state, reflection, error))
    ensures Count(Apply(s, Construct(v, state, reflection, error)), x) == Count(s, x) + One(reflection, x) + One(error, x)
  {
    AddCounts(s.counts, reflection, 1, x);
    AddCounts(Add(s.counts, reflection, 1), error, 1, x);
  }

  /** An allocated object is its caller's, with one reference, and gone once that is released. */
  lemma AllocateThenRelease(s: State, x: Object)
    requires Enabled(s, Allocate(x))
    ensures
      var s1 := Apply(s, Allocate(x));
      && Count(s1, x) == 1 && s1.callers == s.callers + multiset{x} && s1.results == s.results
      && Enabled(s1, CallerRelease(x)) && Same(s, Apply(s1, CallerRelease(x)))
  {
    var s1 := Apply(s, Allocate(x));
    assert s1.callers - multiset{x} == s.callers;
  }
}
