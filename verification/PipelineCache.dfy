/** The native pipeline cache as a step system.  Each step is one critical section of
    `Cache::Impl` (or of the thread-local bookkeeping around it); any number of threads
    interleave their steps, and a creation function may call the cache again, so every
    thread carries a stack of frames. */
module PipelineCache {

  import opened Optional
  import opened WaitGraph

  type Thread = nat
  type Address = nat
  type Key = seq<bv8>
  type ScopeId = nat
  type EntryId = nat

  /** How a creation function ended: a `NativeResult` or one of the two exception kinds. */
  datatype Outcome =
    | Native(state: Option<nat>, error: Option<nat>)
    | ObjcException(id: nat)
    | CppException(id: nat)

  predicate Successful(o: Outcome) {
    o.Native? && o.state.Some? && o.error.None?
  }

  /** `owner` and `depth` locate the stack frame of the call that produces the entry;
      the other fields are the ones of the cache entry itself. */
  datatype Entry = Entry(scope: ScopeId, key: Key, complete: bool, outcome: Option<Outcome>,
                         owner: Thread, depth: nat)

  /** A `Retirement` record lives in the frame of its call, so the frame is its identity. */
  datatype Retirement = Retirement(owner: Thread, depth: nat, device: Address)

  datatype Frame =
    | Entering(device: Address, key: Key)                       // about to look up the scope
    | Looking(scope: ScopeId, key: Key)                         // scope in hand, not yet locked
    | Waiting(entry: EntryId, waiter: Option<EntryId>)          // in `ready.wait`, with its WaitDependency
    | Producing(entry: EntryId, previous: Option<EntryId>)      // running create() under a ProducerGuard
    | Published(entry: EntryId, previous: Option<EntryId>)      // entry completed, guard still installed
    | Bypassing                                                 // running create() without the cache
    | Retiring(device: Address)                                 // running a retirement action

  /** `active` is the thread-local `activeProducer`; `tables` are the entry maps of all
      scopes ever created, whether or not an address still leads to them. */
  datatype State = State(
    scopes: map<Address, ScopeId>,
    retirements: seq<Retirement>,
    tables: seq<map<Key, EntryId>>,
    entries: seq<Entry>,
    waitingOn: Graph,
    active: map<Thread, EntryId>,
    stacks: map<Thread, seq<Frame>>)

  const Initial := State(map[], [], [], [], map[], map[], map[])

  function Stack(s: State, t: Thread): seq<Frame> {
    if t in s.stacks then s.stacks[t] else []
  }

  function Active(s: State, t: Thread): Option<EntryId> {
    if t in s.active then Some(s.active[t]) else None
  }

  function SetActive(active: map<Thread, EntryId>, t: Thread, e: Option<EntryId>): map<Thread, EntryId> {
    match e
    case Some(entry) => active[t := entry]
    case None => active - {t}
  }

  predicate IsProducer(f: Frame) {
    f.Producing? || f.Published?
  }

  /** Frames in which foreign code runs, and may therefore call the cache again. */
  predicate RunsForeignCode(stack: seq<Frame>) {
    stack == [] || stack[|stack| - 1].Producing? || stack[|stack| - 1].Bypassing? || stack[|stack| - 1].Retiring?
  }

  function Top(stack: seq<Frame>): Frame
    requires stack != []
  {
    stack[|stack| - 1]
  }

  function Pop(stack: seq<Frame>): seq<Frame>
    requires stack != []
  {
    stack[..|stack| - 1]
  }

  function WithStack(s: State, t: Thread, stack: seq<Frame>): State {
    s.(stacks := s.stacks[t := stack])
  }

  function Push(s: State, t: Thread, f: Frame): State {
    WithStack(s, t, Stack(s, t) + [f])
  }

  function ReplaceTop(s: State, t: Thread, f: Frame): State
    requires Stack(s, t) != []
  {
    WithStack(s, t, Pop(Stack(s, t)) + [f])
  }

  predicate Retired(retirements: seq<Retirement>, device: Address) {
    exists i :: 0 <= i < |retirements| && retirements[i].device == device
  }

  /** Unlinks one record from the list of retirements. */
  function Unlink(retirements: seq<Retirement>, r: Retirement): seq<Retirement> {
    if retirements == [] then []
    else if retirements[0] == r then retirements[1..]
    else [retirements[0]] + Unlink(retirements[1..], r)
  }

  datatype Step =
    | Call(t: Thread, device: Address, key: Key)
    | Admit(t: Thread, memory: bool)
    | Lookup(t: Thread, memory: bool)
    | Wake(t: Thread)
    | Publish(t: Thread, outcome: Outcome)
    | Leave(t: Thread)
    | EndBypass(t: Thread)
    | Forget(t: Thread, device: Address)
    | BeginRetirement(t: Thread, device: Address)
    | EndRetirement(t: Thread)

  predicate Enabled(s: State, step: Step) {
    var stack := Stack(s, step.t);
    match step
    case Call(_, _, _) => RunsForeignCode(stack)
    case Admit(_, _) => stack != [] && Top(stack).Entering?
    case Lookup(_, _) => stack != [] && Top(stack).Looking? && Top(stack).scope < |s.tables|
    case Wake(_) => stack != [] && Top(stack).Waiting? && Top(stack).entry < |s.entries| && s.entries[Top(stack).entry].complete
    case Publish(_, _) => stack != [] && Top(stack).Producing? && Top(stack).entry < |s.entries|
                          && s.entries[Top(stack).entry].scope < |s.tables|
    case Leave(_) => stack != [] && Top(stack).Published?
    case EndBypass(_) => stack != [] && Top(stack).Bypassing?
    case Forget(_, _) => RunsForeignCode(stack)
    case BeginRetirement(_, _) => RunsForeignCode(stack)
    case EndRetirement(_) => stack != [] && Top(stack).Retiring?
  }

  // ---- getOrCreate ----

  /** `scopeFor`: no scope while the address is being retired, the current scope if there
      is one, a new scope otherwise.  Only making a new scope allocates. */
  function AdmitStep(s: State, t: Thread, memory: bool): State
    requires Enabled(s, Admit(t, memory))
  {
    var call := Top(Stack(s, t));
    if Retired(s.retirements, call.device) then
      ReplaceTop(s, t, Bypassing)
    else if call.device in s.scopes then
      ReplaceTop(s, t, Looking(s.scopes[call.device], call.key))
    else if !memory then
      ReplaceTop(s, t, Bypassing)
    else
      ReplaceTop(s.(scopes := s.scopes[call.device := |s.tables|], tables := s.tables + [map[]]),
                 t, Looking(|s.tables|, call.key))
  }

  /** The entry is missing: insert a new one and become its producer. */
  function StartProducing(s: State, t: Thread, scope: ScopeId, key: Key): State
    requires Stack(s, t) != [] && scope < |s.tables|
  {
    var entry: EntryId := |s.entries|;
    var table: map<Key, EntryId> := s.tables[scope][key := entry];
    var previous := Active(s, t);
    ReplaceTop(
      s.(entries := s.entries + [Entry(scope, key, false, None, t, |Stack(s, t)| - 1)],
         tables := s.tables[scope := table],
         waitingOn := if previous.Some? then s.waitingOn[previous.value := entry] else s.waitingOn,
         active := s.active[t := entry]),
      t, Producing(entry, previous))
  }

  /** The entry is in flight: wait for it, unless that wait would close a cycle. */
  ghost function StartWaiting(s: State, t: Thread, entry: EntryId): State
    requires Stack(s, t) != []
  {
    var waiter := Active(s, t);
    if waiter.None? then
      ReplaceTop(s, t, Waiting(entry, None))
    else if Reaches(s.waitingOn, entry, waiter.value) then
      ReplaceTop(s, t, Bypassing)
    else
      ReplaceTop(s.(waitingOn := s.waitingOn[waiter.value := entry]), t, Waiting(entry, waiter))
  }

  ghost function LookupStep(s: State, t: Thread, memory: bool): State
    requires Enabled(s, Lookup(t, memory))
  {
    var call := Top(Stack(s, t));
    var table := s.tables[call.scope];
    if call.key !in table then
      if memory then StartProducing(s, t, call.scope, call.key) else ReplaceTop(s, t, Bypassing)
    else
      var entry := table[call.key];
      if entry < |s.entries| && s.entries[entry].complete then WithStack(s, t, Pop(Stack(s, t)))
      else StartWaiting(s, t, entry)
  }

  function WakeStep(s: State, t: Thread): State
    requires Enabled(s, Wake(t))
  {
    var frame := Top(Stack(s, t));
    WithStack(s.(waitingOn := if frame.waiter.Some? then s.waitingOn - {frame.waiter.value} else s.waitingOn),
              t, Pop(Stack(s, t)))
  }

  /** `eraseIfCurrent`. */
  function EraseIfCurrent(table: map<Key, EntryId>, key: Key, entry: EntryId): map<Key, EntryId> {
    if key in table && table[key] == entry then table - {key} else table
  }

  function PublishStep(s: State, t: Thread, outcome: Outcome): State
    requires Enabled(s, Publish(t, outcome))
  {
    var frame := Top(Stack(s, t));
    var e := s.entries[frame.entry];
    ReplaceTop(
      s.(entries := s.entries[frame.entry := e.(complete := true, outcome := Some(outcome))],
         tables := if Successful(outcome) then s.tables
                   else s.tables[e.scope := EraseIfCurrent(s.tables[e.scope], e.key, frame.entry)]),
      t, Published(frame.entry, frame.previous))
  }

  /** The destructor of `ProducerGuard`, then the return to the caller. */
  function LeaveStep(s: State, t: Thread): State
    requires Enabled(s, Leave(t))
  {
    var frame := Top(Stack(s, t));
    var linked := frame.previous.Some? && frame.previous.value in s.waitingOn
                  && s.waitingOn[frame.previous.value] == frame.entry;
    WithStack(
      s.(active := SetActive(s.active, t, frame.previous),
         waitingOn := if linked then s.waitingOn - {frame.previous.value} else s.waitingOn),
      t, Pop(Stack(s, t)))
  }

  // ---- forgetDevice and withDeviceRetired ----

  function BeginRetirementStep(s: State, t: Thread, device: Address): State {
    Push(s.(retirements := [Retirement(t, |Stack(s, t)|, device)] + s.retirements,
            scopes := s.scopes - {device}),
         t, Retiring(device))
  }

  function EndRetirementStep(s: State, t: Thread): State
    requires Enabled(s, EndRetirement(t))
  {
    var stack := Stack(s, t);
    WithStack(s.(retirements := Unlink(s.retirements, Retirement(t, |stack| - 1, Top(stack).device))),
              t, Pop(stack))
  }

  ghost function Apply(s: State, step: Step): State
    requires Enabled(s, step)
  {
    match step
    case Call(t, device, key) => Push(s, t, Entering(device, key))
    case Admit(t, memory) => AdmitStep(s, t, memory)
    case Lookup(t, memory) => LookupStep(s, t, memory)
    case Wake(t) => WakeStep(s, t)
    case Publish(t, outcome) => PublishStep(s, t, outcome)
    case Leave(t) => LeaveStep(s, t)
    case EndBypass(t) => WithStack(s, t, Pop(Stack(s, t)))
    case Forget(t, device) => s.(scopes := s.scopes - {device})
    case BeginRetirement(t, device) => BeginRetirementStep(s, t, device)
    case EndRetirement(t) => EndRetirementStep(s, t)
  }
}
