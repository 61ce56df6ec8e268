/** What every step of the pipeline cache keeps. */
module PipelineCacheInvariant {

  import opened Optional
  import opened WaitGraph
  import opened PipelineCache

  /** The innermost producer among the lowest `j` frames of a stack. */
  function ProducerBelow(stack: seq<Frame>, j: nat): Option<EntryId>
    requires j <= |stack|
  {
    if j == 0 then None
    else if IsProducer(stack[j - 1]) then Some(stack[j - 1].entry)
    else ProducerBelow(stack, j - 1)
  }

  /** Every device has a scope of its own, and scope tables hold only entries of that scope
      and key. */
  ghost predicate TablesOk(s: State) {
    && (forall d :: d in s.scopes ==> s.scopes[d] < |s.tables|)
    && (forall d, d' :: d in s.scopes && d' in s.scopes && s.scopes[d] == s.scopes[d'] ==> d == d')
    && (forall c: nat, k :: c < |s.tables| && k in s.tables[c] ==>
          && s.tables[c][k] < |s.entries|
          && s.entries[s.tables[c][k]].scope == c
          && s.entries[s.tables[c][k]].key == k)
  }

  ghost predicate EntryOk(s: State, e: EntryId)
    requires e < |s.entries|
  {
    var entry := s.entries[e];
    && entry.scope < |s.tables|
    && (entry.complete <==> entry.outcome.Some?)
    // An entry in flight is the listed one, and exactly its owner's frame produces it.
    && (!entry.complete ==>
          && entry.key in s.tables[entry.scope]
          && s.tables[entry.scope][entry.key] == e
          && entry.depth < |Stack(s, entry.owner)|
          && Stack(s, entry.owner)[entry.depth].Producing?
          && Stack(s, entry.owner)[entry.depth].entry == e)
    // A completed entry stays listed if and only if it succeeded.
    && (entry.complete ==>
          (Successful(entry.outcome.value) <==>
             entry.key in s.tables[entry.scope] && s.tables[entry.scope][entry.key] == e))
  }

  ghost predicate EntriesOk(s: State) {
    forall e: EntryId :: e < |s.entries| ==> EntryOk(s, e)
  }

  /** The edge from the innermost producer below a frame to the entry the frame is about. */
  ghost predicate Linked(s: State, from: Option<EntryId>, to: EntryId) {
    from.Some? ==> from.value in s.waitingOn && s.waitingOn[from.value] == to
  }

  ghost predicate FrameOk(s: State, t: Thread, j: nat)
    requires j < |Stack(s, t)|
  {
    var stack := Stack(s, t);
    var top := j == |stack| - 1;
    match stack[j]
    case Entering(_, _) => top
    case Looking(scope, _) => top && scope < |s.tables|
    case Waiting(e, waiter) =>
      top && e < |s.entries| && waiter == ProducerBelow(stack, j) && Linked(s, waiter, e)
    case Producing(e, previous) =>
      && e < |s.entries| && !s.entries[e].complete && s.entries[e].owner == t && s.entries[e].depth == j
      && previous == ProducerBelow(stack, j) && Linked(s, previous, e)
    case Published(e, previous) =>
      && top && e < |s.entries| && s.entries[e].complete && s.entries[e].owner == t && s.entries[e].depth == j
      && previous == ProducerBelow(stack, j) && Linked(s, previous, e)
    case Bypassing => true
    case Retiring(_) => true
  }

  ghost predicate FramesOk(s: State) {
    forall t: Thread, j: nat :: j < |Stack(s, t)| ==> FrameOk(s, t, j)
  }

  /** `activeProducer` is the innermost producer, and it has an outgoing edge exactly
      while its thread sleeps in a wait. */
  ghost predicate ActiveOk(s: State, t: Thread) {
    var stack := Stack(s, t);
    && Active(s, t) == ProducerBelow(stack, |stack|)
    && (Active(s, t).Some? && Active(s, t).value in s.waitingOn ==> Top(stack).Waiting?)
  }

  ghost predicate ThreadsOk(s: State) {
    forall t: Thread :: ActiveOk(s, t)
  }

  /** The frame at `j` holds a reference to the target of the edge out of `p`. */
  ghost predicate HoldsTarget(s: State, p: EntryId, j: nat)
    requires p < |s.entries| && p in s.waitingOn
  {
    var stack := Stack(s, s.entries[p].owner);
    && s.entries[p].depth < j < |stack|
    && ProducerBelow(stack, j) == Some(p)
    && (IsProducer(stack[j]) || stack[j].Waiting?)
    && stack[j].entry == s.waitingOn[p]
  }

  /** No edge dangles: both ends of every edge are held by frames of one thread. */
  ghost predicate EdgeOk(s: State, p: EntryId)
    requires p in s.waitingOn
  {
    && p < |s.entries| && s.waitingOn[p] < |s.entries|
    && exists j: nat :: HoldsTarget(s, p, j)
  }

  ghost predicate EdgesOk(s: State) {
    forall p :: p in s.waitingOn ==> EdgeOk(s, p)
  }

  predicate Distinct(rs: seq<Retirement>) {
    forall i, j :: 0 <= i < j < |rs| ==> rs[i] != rs[j]
  }

  /** The records are exactly the retirement frames, and a retired address has no scope. */
  ghost predicate RetirementsOk(s: State) {
    && Distinct(s.retirements)
    && (forall r :: r in s.retirements ==>
          && r.device !in s.scopes
          && r.depth < |Stack(s, r.owner)|
          && Stack(s, r.owner)[r.depth] == Retiring(r.device))
    && (forall t: Thread, j: nat :: j < |Stack(s, t)| && Stack(s, t)[j].Retiring? ==>
          Retirement(t, j, Stack(s, t)[j].device) in s.retirements)
  }

  ghost predicate Inv(s: State) {
    && TablesOk(s)
    && EntriesOk(s)
    && FramesOk(s)
    && ThreadsOk(s)
    && EdgesOk(s)
    && Acyclic(s.waitingOn)
    && RetirementsOk(s)
  }

  // ---- Facts about stacks ----

  lemma {:induction false} ProducerBelowPrefix(a: seq<Frame>, b: seq<Frame>, j: nat)
    requires j <= |a| && j <= |b| && a[..j] == b[..j]
    ensures ProducerBelow(a, j) == ProducerBelow(b, j)
  {
    if j > 0 {
      assert a[j - 1] == a[..j][j - 1] == b[..j][j - 1] == b[j - 1];
      assert a[..j - 1] == a[..j][..j - 1] == b[..j][..j - 1] == b[..j - 1];
      ProducerBelowPrefix(a, b, j - 1);
    }
  }

  /** The innermost producer below a level is one of the frames below it. */
  lemma {:induction false} ProducerBelowIsFrame(stack: seq<Frame>, j: nat) returns (i: nat)
    requires j <= |stack| && ProducerBelow(stack, j).Some?
    ensures i < j && IsProducer(stack[i]) && stack[i].entry == ProducerBelow(stack, j).value
    ensures forall k :: i < k < j ==> !IsProducer(stack[k])
  {
    if IsProducer(stack[j - 1]) {
      i := j - 1;
    } else {
      i := ProducerBelowIsFrame(stack, j - 1);
    }
  }

  lemma SamePrefix(a: seq<Frame>, b: seq<Frame>, n: nat)
    requires n <= |a| && n <= |b| && a[..n] == b[..n]
    ensures forall j: nat :: j <= n ==> ProducerBelow(a, j) == ProducerBelow(b, j)
    ensures forall j: nat :: j < n ==> a[j] == b[j]
  {
    forall j: nat | j <= n
      ensures ProducerBelow(a, j) == ProducerBelow(b, j)
    {
      assert a[..j] == a[..n][..j] == b[..n][..j] == b[..j];
      ProducerBelowPrefix(a, b, j);
    }
    forall j: nat | j < n
      ensures a[j] == b[j]
    {
      assert a[j] == a[..n][j] == b[..n][j];
    }
  }

  lemma InitialInv()
    ensures Inv(Initial)
  {
    forall e: nat
      ensures Finite(Initial.waitingOn, e)
    {
      assert Ends(Initial.waitingOn, e, 0);
    }
  }

  // ---- Steps that touch no producer, no wait and no entry ----

  predicate Quiet(f: Frame) {
    f.Entering? || f.Looking? || f.Bypassing? || f.Retiring?
  }

  /** `s'` differs from `s` in at most one quiet frame above level `n` of one stack,
      and may have new empty scopes. */
  ghost predicate QuietChange(s: State, s': State, t: Thread, n: nat) {
    var stack, stack' := Stack(s, t), Stack(s', t);
    && s'.entries == s.entries && s'.waitingOn == s.waitingOn && s'.active == s.active
    && |s.tables| <= |s'.tables| && s'.tables[..|s.tables|] == s.tables
    && (forall u: Thread :: u != t ==> Stack(s', u) == Stack(s, u))
    && n <= |stack| <= n + 1 && n <= |stack'| <= n + 1 && stack[..n] == stack'[..n]
    && (|stack| == n + 1 ==> Quiet(stack[n]))
    && (|stack'| == n + 1 ==> Quiet(stack'[n]) && (stack'[n].Looking? ==> stack'[n].scope < |s'.tables|))
    && (|stack| == n ==> RunsForeignCode(stack))
  }

  lemma QuietStep(s: State, s': State, t: Thread, n: nat)
    requires Inv(s) && QuietChange(s, s', t, n)
    requires TablesOk(s') && RetirementsOk(s')
    ensures Inv(s')
  {
    QuietFrames(s, s', t, n);
    QuietEntries(s, s', t, n);
    QuietThreads(s, s', t, n);
    QuietEdges(s, s', t, n);
  }

  lemma QuietFrames(s: State, s': State, t: Thread, n: nat)
    requires FramesOk(s) && QuietChange(s, s', t, n)
    ensures FramesOk(s')
  {
    SamePrefix(Stack(s, t), Stack(s', t), n);
    forall u: Thread, j: nat | j < |Stack(s', u)|
      ensures FrameOk(s', u, j)
    {
      if u != t || j < n { assert FrameOk(s, u, j); }
    }
  }

  lemma QuietEntries(s: State, s': State, t: Thread, n: nat)
    requires EntriesOk(s) && QuietChange(s, s', t, n)
    ensures EntriesOk(s')
  {
    SamePrefix(Stack(s, t), Stack(s', t), n);
    forall e: EntryId | e < |s'.entries|
      ensures EntryOk(s', e)
    {
      assert EntryOk(s, e);
      var c := s.entries[e].scope;
      assert s'.tables[c] == s'.tables[..|s.tables|][c] == s.tables[c];
    }
  }

  lemma QuietThreads(s: State, s': State, t: Thread, n: nat)
    requires ThreadsOk(s) && QuietChange(s, s', t, n)
    ensures ThreadsOk(s')
  {
    SamePrefix(Stack(s, t), Stack(s', t), n);
    forall u: Thread
      ensures ActiveOk(s', u)
    {
      assert ActiveOk(s, u);
    }
  }

  lemma QuietRetirements(s: State, s': State, t: Thread, n: nat)
    requires RetirementsOk(s) && QuietChange(s, s', t, n) && s'.retirements == s.retirements
    requires |Stack(s, t)| == n + 1 ==> !Stack(s, t)[n].Retiring?
    requires |Stack(s', t)| == n + 1 ==> !Stack(s', t)[n].Retiring?
    requires forall r :: r in s.retirements ==> r.device !in s'.scopes
    ensures RetirementsOk(s')
  {
    SamePrefix(Stack(s, t), Stack(s', t), n);
  }

  lemma QuietEdges(s: State, s': State, t: Thread, n: nat)
    requires EdgesOk(s) && QuietChange(s, s', t, n)
    ensures EdgesOk(s')
  {
    SamePrefix(Stack(s, t), Stack(s', t), n);
    forall p | p in s'.waitingOn
      ensures EdgeOk(s', p)
    {
      assert EdgeOk(s, p);
      var j: nat :| HoldsTarget(s, p, j);
      assert HoldsTarget(s', p, j);
    }
  }

  lemma CallInv(s: State, t: Thread, device: Address, key: Key)
    requires Inv(s) && Enabled(s, Call(t, device, key))
    ensures Inv(Apply(s, Call(t, device, key)))
  {
    var s' := Apply(s, Call(t, device, key));
    assert Stack(s', t)[..|Stack(s, t)|] == Stack(s, t)[..|Stack(s, t)|];
    QuietRetirements(s, s', t, |Stack(s, t)|);
    QuietStep(s, s', t, |Stack(s, t)|);
  }

  /** A new empty scope for an address that has none and is not being retired. */
  lemma NewScopeInv(s: State, t: Thread, device: Address)
    requires Inv(s) && Stack(s, t) != [] && Top(Stack(s, t)).Entering?
    requires device !in s.scopes && !Retired(s.retirements, device)
    ensures Inv(s.(scopes := s.scopes[device := |s.tables|], tables := s.tables + [map[]]))
  {
    var s' := s.(scopes := s.scopes[device := |s.tables|], tables := s.tables + [map[]]);
    var n := |Stack(s, t)| - 1;
    assert s'.tables[..|s.tables|] == s.tables;
    NewScopeTables(s, device);
    forall r | r in s.retirements
      ensures r.device !in s'.scopes
    {
      var i :| 0 <= i < |s.retirements| && s.retirements[i] == r;
    }
    QuietRetirements(s, s', t, n);
    QuietStep(s, s', t, n);
  }

  lemma NewScopeTables(s: State, device: Address)
    requires TablesOk(s) && device !in s.scopes
    ensures TablesOk(s.(scopes := s.scopes[device := |s.tables|], tables := s.tables + [map[]]))
  {
  }

  lemma AdmitInv(s: State, t: Thread, memory: bool)
    requires Inv(s) && Enabled(s, Admit(t, memory))
    ensures Inv(AdmitStep(s, t, memory))
  {
    var call := Top(Stack(s, t));
    if Retired(s.retirements, call.device) || (call.device !in s.scopes && !memory) {
      QuietReplaceInv(s, t, Bypassing);
    } else if call.device in s.scopes {
      QuietReplaceInv(s, t, Looking(s.scopes[call.device], call.key));
    } else {
      NewScopeInv(s, t, call.device);
      var s1 := s.(scopes := s.scopes[call.device := |s.tables|], tables := s.tables + [map[]]);
      QuietReplaceInv(s1, t, Looking(|s.tables|, call.key));
    }
  }

  /** Replacing one quiet frame by another. */
  lemma QuietReplaceInv(s: State, t: Thread, f: Frame)
    requires Inv(s) && Stack(s, t) != [] && Quiet(Top(Stack(s, t))) && !Top(Stack(s, t)).Retiring?
    requires Quiet(f) && !f.Retiring? && (f.Looking? ==> f.scope < |s.tables|)
    ensures Inv(ReplaceTop(s, t, f))
  {
    var s' := ReplaceTop(s, t, f);
    var n := |Stack(s, t)| - 1;
    assert Stack(s', t)[..n] == Stack(s, t)[..n];
    QuietRetirements(s, s', t, n);
    QuietStep(s, s', t, n);
  }

  /** A hit returns straight away, and so does a finished bypass. */
  lemma ReturnInv(s: State, t: Thread)
    requires Inv(s) && Stack(s, t) != [] && Quiet(Top(Stack(s, t))) && !Top(Stack(s, t)).Retiring?
    ensures Inv(WithStack(s, t, Pop(Stack(s, t))))
  {
    var s' := WithStack(s, t, Pop(Stack(s, t)));
    var n := |Stack(s, t)| - 1;
    assert Stack(s', t)[..n] == Stack(s, t)[..n];
    QuietRetirements(s, s', t, n);
    QuietStep(s, s', t, n);
  }

  // ---- Steps that add an edge: becoming a producer, or starting to wait ----

  /** The active producer of a thread is produced by that thread, below its top. */
  lemma ActiveIsOwn(s: State, t: Thread)
    requires FramesOk(s) && ThreadsOk(s) && Active(s, t).Some?
    ensures
      var p := Active(s, t).value;
      && p < |s.entries| && s.entries[p].owner == t
      && s.entries[p].depth < |Stack(s, t)|
      && IsProducer(Stack(s, t)[s.entries[p].depth])
      && Stack(s, t)[s.entries[p].depth].entry == p
  {
    assert ActiveOk(s, t);
    var i := ProducerBelowIsFrame(Stack(s, t), |Stack(s, t)|);
    assert FrameOk(s, t, i);
  }

  /** In `s'` the top frame of `t` is about entry `e`, to which its active producer is linked. */
  ghost predicate LinkChange(s: State, s': State, t: Thread, e: EntryId) {
    var stack, stack', from := Stack(s, t), Stack(s', t), Active(s, t);
    && stack != [] && Quiet(Top(stack)) && !Top(stack).Retiring? && |stack'| == |stack| && Pop(stack) == Pop(stack')
    && (Top(stack') == Producing(e, from) || Top(stack') == Waiting(e, from))
    && (forall u: Thread :: u != t ==> Stack(s', u) == Stack(s, u) && Active(s', u) == Active(s, u))
    && |s.entries| <= |s'.entries| && s'.entries[..|s.entries|] == s.entries && e < |s'.entries|
    && |s'.tables| == |s.tables|
    && s'.retirements == s.retirements && s'.scopes == s.scopes
    && s'.waitingOn == if from.Some? then s.waitingOn[from.value := e] else s.waitingOn
  }

  lemma LinkFrames(s: State, s': State, t: Thread, e: EntryId)
    requires FramesOk(s) && ThreadsOk(s) && LinkChange(s, s', t, e)
    ensures forall u: Thread, j: nat :: j < |Stack(s', u)| && (u != t || j < |Stack(s, t)| - 1) ==> FrameOk(s', u, j)
    ensures Active(s, t) == ProducerBelow(Stack(s', t), |Stack(s, t)| - 1) && Linked(s', Active(s, t), e)
  {
    var n := |Stack(s, t)| - 1;
    SamePrefix(Stack(s, t), Stack(s', t), n);
    assert ActiveOk(s, t);
    forall u: Thread, j: nat | j < |Stack(s', u)| && (u != t || j < n)
      ensures FrameOk(s', u, j)
    {
      assert FrameOk(s, u, j);
      assert forall i: nat :: i < |s.entries| ==> s'.entries[i] == s'.entries[..|s.entries|][i];
    }
  }

  lemma LinkThreads(s: State, s': State, t: Thread, e: EntryId)
    requires FramesOk(s) && ThreadsOk(s) && LinkChange(s, s', t, e)
    ensures forall u: Thread :: u != t ==> ActiveOk(s', u)
  {
    forall u: Thread | u != t
      ensures ActiveOk(s', u)
    {
      assert ActiveOk(s, u);
      if Active(s, u).Some? { ActiveIsOwn(s, u); }
      if Active(s, t).Some? { ActiveIsOwn(s, t); }
    }
  }

  lemma LinkEdges(s: State, s': State, t: Thread, e: EntryId)
    requires FramesOk(s) && ThreadsOk(s) && EdgesOk(s) && LinkChange(s, s', t, e)
    ensures EdgesOk(s')
  {
    var n := |Stack(s, t)| - 1;
    SamePrefix(Stack(s, t), Stack(s', t), n);
    assert ActiveOk(s, t);
    assert forall i: nat :: i < |s.entries| ==> s'.entries[i] == s'.entries[..|s.entries|][i];
    forall p | p in s'.waitingOn
      ensures EdgeOk(s', p)
    {
      if Active(s, t) == Some(p) {
        ActiveIsOwn(s, t);
        assert HoldsTarget(s', p, n);
      } else {
        assert EdgeOk(s, p);
        var j: nat :| HoldsTarget(s, p, j);
        assert HoldsTarget(s', p, j);
      }
    }
  }

  lemma LinkRetirements(s: State, s': State, t: Thread, e: EntryId)
    requires RetirementsOk(s) && LinkChange(s, s', t, e)
    ensures RetirementsOk(s')
  {
    SamePrefix(Stack(s, t), Stack(s', t), |Stack(s, t)| - 1);
  }

  lemma LinkAcyclic(s: State, s': State, t: Thread, e: EntryId)
    requires Acyclic(s.waitingOn) && ThreadsOk(s) && LinkChange(s, s', t, e)
    requires Active(s, t).Some? ==> !Reaches(s.waitingOn, e, Active(s, t).value)
    ensures Acyclic(s'.waitingOn)
  {
    assert ActiveOk(s, t);
    if Active(s, t).Some? {
      AddEdge(s.waitingOn, Active(s, t).value, e);
    }
  }

  /** Nothing leads out of an entry that has just been made. */
  lemma NewEntryLeadsNowhere(s: State, p: EntryId)
    requires EdgesOk(s) && p < |s.entries|
    ensures !Reaches(s.waitingOn, |s.entries|, p)
  {
    EdgeSourcesExist(s);
    assert forall k: nat :: !ReachesIn(s.waitingOn, |s.entries|, p, k);
  }

  lemma EdgeSourcesExist(s: State)
    requires EdgesOk(s)
    ensures forall p :: p in s.waitingOn ==> p < |s.entries|
  {
    forall p | p in s.waitingOn
      ensures p < |s.entries|
    {
      assert EdgeOk(s, p);
    }
  }

  lemma StartProducingTables(s: State, t: Thread, c: ScopeId, k: Key)
    requires TablesOk(s) && EntriesOk(s) && Stack(s, t) != [] && Top(Stack(s, t)) == Looking(c, k)
    requires c < |s.tables| && k !in s.tables[c]
    ensures TablesOk(StartProducing(s, t, c, k)) && EntriesOk(StartProducing(s, t, c, k))
  {
    var s' := StartProducing(s, t, c, k);
    forall e: EntryId | e < |s'.entries|
      ensures EntryOk(s', e)
    {
      if e < |s.entries| { assert EntryOk(s, e); }
    }
  }

  lemma StartProducingInv(s: State, t: Thread, c: ScopeId, k: Key)
    requires Inv(s) && Stack(s, t) != [] && Top(Stack(s, t)) == Looking(c, k)
    requires c < |s.tables| && k !in s.tables[c]
    ensures Inv(StartProducing(s, t, c, k))
  {
    var s' := StartProducing(s, t, c, k);
    var e := |s.entries|;
    assert LinkChange(s, s', t, e);
    StartProducingTables(s, t, c, k);
    LinkFrames(s, s', t, e);
    LinkThreads(s, s', t, e);
    LinkEdges(s, s', t, e);
    LinkRetirements(s, s', t, e);
    if Active(s, t).Some? {
      ActiveIsOwn(s, t);
      NewEntryLeadsNowhere(s, Active(s, t).value);
    }
    LinkAcyclic(s, s', t, e);
    StartProducingTop(s, t, c, k);
  }

  lemma StartProducingTop(s: State, t: Thread, c: ScopeId, k: Key)
    requires FramesOk(s) && ThreadsOk(s) && EdgesOk(s)
    requires Stack(s, t) != [] && Top(Stack(s, t)) == Looking(c, k) && c < |s.tables|
    ensures
      var s' := StartProducing(s, t, c, k);
      FrameOk(s', t, |Stack(s', t)| - 1) && ActiveOk(s', t)
  {
    var s' := StartProducing(s, t, c, k);
    LinkFrames(s, s', t, |s.entries|);
    EdgeSourcesExist(s);
    if Active(s, t).Some? { ActiveIsOwn(s, t); }
  }

  lemma StartWaitingInv(s: State, t: Thread, e: EntryId)
    requires Inv(s) && Stack(s, t) != [] && Quiet(Top(Stack(s, t))) && !Top(Stack(s, t)).Retiring? && e < |s.entries|
    ensures Inv(StartWaiting(s, t, e))
  {
    var s' := StartWaiting(s, t, e);
    if Top(Stack(s', t)).Bypassing? {
      QuietReplaceInv(s, t, Bypassing);
    } else {
      assert LinkChange(s, s', t, e);
      StartWaitingFrames(s, s', t, e);
      LinkEdges(s, s', t, e);
      LinkRetirements(s, s', t, e);
      LinkAcyclic(s, s', t, e);
      StartWaitingEntries(s, s', t, e);
    }
  }

  lemma StartWaitingFrames(s: State, s': State, t: Thread, e: EntryId)
    requires FramesOk(s) && ThreadsOk(s) && LinkChange(s, s', t, e)
    requires Top(Stack(s', t)).Waiting? && s'.active == s.active
    ensures FramesOk(s') && ThreadsOk(s')
  {
    LinkFrames(s, s', t, e);
    LinkThreads(s, s', t, e);
    assert FrameOk(s', t, |Stack(s', t)| - 1);
    assert ActiveOk(s, t);
    assert ActiveOk(s', t);
  }

  lemma StartWaitingEntries(s: State, s': State, t: Thread, e: EntryId)
    requires EntriesOk(s) && LinkChange(s, s', t, e) && s'.tables == s.tables && s'.entries == s.entries
    ensures EntriesOk(s')
  {
    SamePrefix(Stack(s, t), Stack(s', t), |Stack(s, t)| - 1);
    forall e: EntryId | e < |s'.entries|
      ensures EntryOk(s', e)
    {
      assert EntryOk(s, e);
    }
  }

  lemma LookupInv(s: State, t: Thread, memory: bool)
    requires Inv(s) && Enabled(s, Lookup(t, memory))
    ensures Inv(LookupStep(s, t, memory))
  {
    var call := Top(Stack(s, t));
    var table := s.tables[call.scope];
    if call.key !in table {
      if memory { StartProducingInv(s, t, call.scope, call.key); } else { QuietReplaceInv(s, t, Bypassing); }
    } else if s.entries[table[call.key]].complete {
      ReturnInv(s, t);
    } else {
      StartWaitingInv(s, t, table[call.key]);
    }
  }

  // ---- Steps that drop an edge: waking up, or leaving the producer guard ----

  /** `s'` has lost the top frame of `t`, and the edge that belonged to that frame. */
  ghost predicate UnlinkChange(s: State, s': State, t: Thread) {
    var stack := Stack(s, t);
    && stack != [] && (Top(stack).Waiting? || Top(stack).Published?)
    && Stack(s', t) == Pop(stack)
    && var from := if Top(stack).Waiting? then Top(stack).waiter else Top(stack).previous;
    && s'.waitingOn == (if from.Some? then s.waitingOn - {from.value} else s.waitingOn)
    && Active(s', t) == from
    && (forall u: Thread :: u != t ==> Stack(s', u) == Stack(s, u) && Active(s', u) == Active(s, u))
    && s'.entries == s.entries && s'.tables == s.tables
    && s'.retirements == s.retirements && s'.scopes == s.scopes
  }

  /** Within a stack, two frames that end edges end edges of different producers. */
  lemma EdgeBelongsToOneFrame(s: State, t: Thread, j: nat, n: nat)
    requires FramesOk(s) && j < n < |Stack(s, t)| && IsProducer(Stack(s, t)[j])
    requires ProducerBelow(Stack(s, t), n).Some?
    ensures ProducerBelow(Stack(s, t), j) != ProducerBelow(Stack(s, t), n)
  {
    var i' := ProducerBelowIsFrame(Stack(s, t), n);
    assert FrameOk(s, t, i');
    if ProducerBelow(Stack(s, t), j).Some? {
      var i := ProducerBelowIsFrame(Stack(s, t), j);
      assert FrameOk(s, t, i);
    }
  }

  lemma SameProducerSameThread(s: State, t: Thread, j: nat, t': Thread, j': nat)
    requires FramesOk(s) && j <= |Stack(s, t)| && j' <= |Stack(s, t')|
    requires ProducerBelow(Stack(s, t), j).Some?
    requires ProducerBelow(Stack(s, t), j) == ProducerBelow(Stack(s, t'), j')
    ensures t == t'
  {
    var i := ProducerBelowIsFrame(Stack(s, t), j);
    var i' := ProducerBelowIsFrame(Stack(s, t'), j');
    assert FrameOk(s, t, i) && FrameOk(s, t', i');
  }

  lemma UnlinkFrames(s: State, s': State, t: Thread)
    requires FramesOk(s) && UnlinkChange(s, s', t)
    ensures FramesOk(s')
  {
    var n := |Stack(s, t)| - 1;
    SamePrefix(Stack(s, t), Stack(s', t), n);
    assert FrameOk(s, t, n);
    forall u: Thread, j: nat | j < |Stack(s', u)|
      ensures FrameOk(s', u, j)
    {
      assert FrameOk(s, u, j);
      var f := Stack(s, u)[j];
      if ProducerBelow(Stack(s, t), n).Some? && ProducerBelow(Stack(s, u), j) == ProducerBelow(Stack(s, t), n)
         && (f.Waiting? || IsProducer(f)) {
        SameProducerSameThread(s, t, n, u, j);
        EdgeBelongsToOneFrame(s, t, j, n);
      }
    }
  }

  lemma UnlinkThreads(s: State, s': State, t: Thread)
    requires FramesOk(s) && ThreadsOk(s) && UnlinkChange(s, s', t)
    ensures ThreadsOk(s')
  {
    var n := |Stack(s, t)| - 1;
    SamePrefix(Stack(s, t), Stack(s', t), n);
    assert FrameOk(s, t, n);
    forall u: Thread
      ensures ActiveOk(s', u)
    {
      assert ActiveOk(s, u);
    }
  }

  lemma UnlinkEdges(s: State, s': State, t: Thread)
    requires FramesOk(s) && EdgesOk(s) && UnlinkChange(s, s', t)
    ensures EdgesOk(s')
  {
    var n := |Stack(s, t)| - 1;
    SamePrefix(Stack(s, t), Stack(s', t), n);
    assert FrameOk(s, t, n);
    forall p | p in s'.waitingOn
      ensures EdgeOk(s', p)
    {
      assert EdgeOk(s, p);
      var j: nat :| HoldsTarget(s, p, j);
      assert HoldsTarget(s', p, j);
    }
  }

  lemma UnlinkEntries(s: State, s': State, t: Thread)
    requires EntriesOk(s) && UnlinkChange(s, s', t)
    ensures EntriesOk(s')
  {
    SamePrefix(Stack(s, t), Stack(s', t), |Stack(s, t)| - 1);
    forall e: EntryId | e < |s'.entries|
      ensures EntryOk(s', e)
    {
      assert EntryOk(s, e);
    }
  }

  lemma UnlinkRetirements(s: State, s': State, t: Thread)
    requires RetirementsOk(s) && UnlinkChange(s, s', t)
    ensures RetirementsOk(s')
  {
    SamePrefix(Stack(s, t), Stack(s', t), |Stack(s, t)| - 1);
  }

  lemma UnlinkInv(s: State, s': State, t: Thread)
    requires Inv(s) && UnlinkChange(s, s', t)
    ensures Inv(s')
  {
    UnlinkFrames(s, s', t);
    UnlinkThreads(s, s', t);
    UnlinkEdges(s, s', t);
    UnlinkEntries(s, s', t);
    UnlinkRetirements(s, s', t);
    var top := Top(Stack(s, t));
    var from := if top.Waiting? then top.waiter else top.previous;
    if from.Some? { RemoveEdge(s.waitingOn, from.value); }
  }

  lemma WakeInv(s: State, t: Thread)
    requires Inv(s) && Enabled(s, Wake(t))
    ensures Inv(WakeStep(s, t))
  {
    assert ActiveOk(s, t) && FrameOk(s, t, |Stack(s, t)| - 1);
    UnlinkInv(s, WakeStep(s, t), t);
  }

  lemma LeaveInv(s: State, t: Thread)
    requires Inv(s) && Enabled(s, Leave(t))
    ensures Inv(LeaveStep(s, t))
  {
    assert FrameOk(s, t, |Stack(s, t)| - 1);
    UnlinkInv(s, LeaveStep(s, t), t);
  }

  // ---- Completing an entry ----

  lemma PublishTables(s: State, t: Thread, outcome: Outcome)
    requires TablesOk(s) && Enabled(s, Publish(t, outcome))
    ensures TablesOk(PublishStep(s, t, outcome))
  {
  }

  lemma PublishEntries(s: State, t: Thread, outcome: Outcome)
    requires EntriesOk(s) && FramesOk(s) && Enabled(s, Publish(t, outcome))
    ensures EntriesOk(PublishStep(s, t, outcome))
  {
    var s' := PublishStep(s, t, outcome);
    var n := |Stack(s, t)| - 1;
    SamePrefix(Stack(s, t), Stack(s', t), n);
    assert FrameOk(s, t, n);
    assert EntryOk(s, Top(Stack(s, t)).entry);
    forall e: EntryId | e < |s'.entries|
      ensures EntryOk(s', e)
    {
      assert EntryOk(s, e);
    }
  }

  lemma PublishFrames(s: State, t: Thread, outcome: Outcome)
    requires FramesOk(s) && Enabled(s, Publish(t, outcome))
    ensures FramesOk(PublishStep(s, t, outcome))
  {
    var s' := PublishStep(s, t, outcome);
    var n := |Stack(s, t)| - 1;
    SamePrefix(Stack(s, t), Stack(s', t), n);
    assert FrameOk(s, t, n);
    forall u: Thread, j: nat | j < |Stack(s', u)|
      ensures FrameOk(s', u, j)
    {
      assert FrameOk(s, u, j);
    }
  }

  lemma PublishThreads(s: State, t: Thread, outcome: Outcome)
    requires ThreadsOk(s) && EdgesOk(s) && Enabled(s, Publish(t, outcome))
    ensures ThreadsOk(PublishStep(s, t, outcome)) && EdgesOk(PublishStep(s, t, outcome))
  {
    var s' := PublishStep(s, t, outcome);
    var n := |Stack(s, t)| - 1;
    SamePrefix(Stack(s, t), Stack(s', t), n);
    forall u: Thread
      ensures ActiveOk(s', u)
    {
      assert ActiveOk(s, u);
    }
    forall p | p in s'.waitingOn
      ensures EdgeOk(s', p)
    {
      assert EdgeOk(s, p);
      var j: nat :| HoldsTarget(s, p, j);
      assert HoldsTarget(s', p, j);
    }
  }

  lemma PublishInv(s: State, t: Thread, outcome: Outcome)
    requires Inv(s) && Enabled(s, Publish(t, outcome))
    ensures Inv(PublishStep(s, t, outcome))
  {
    PublishTables(s, t, outcome);
    PublishEntries(s, t, outcome);
    PublishFrames(s, t, outcome);
    PublishThreads(s, t, outcome);
    PublishRetirements(s, t, outcome);
  }

  lemma PublishRetirements(s: State, t: Thread, outcome: Outcome)
    requires RetirementsOk(s) && Enabled(s, Publish(t, outcome))
    ensures RetirementsOk(PublishStep(s, t, outcome))
  {
    var s' := PublishStep(s, t, outcome);
    SamePrefix(Stack(s, t), Stack(s', t), |Stack(s, t)| - 1);
    forall u: Thread, j: nat | j < |Stack(s', u)| && Stack(s', u)[j].Retiring?
      ensures Retirement(u, j, Stack(s', u)[j].device) in s'.retirements
    {
      if u != t {
        assert Stack(s', u) == Stack(s, u);
      } else {
        assert j < |Stack(s, t)| - 1;
      }
      assert Stack(s, u)[j].Retiring?;
    }
  }

  // ---- Detaching scopes ----

  lemma ForgetInv(s: State, t: Thread, device: Address)
    requires Inv(s) && Enabled(s, Forget(t, device))
    ensures Inv(s.(scopes := s.scopes - {device}))
  {
    var s' := s.(scopes := s.scopes - {device});
    assert s'.tables[..|s.tables|] == s.tables;
    QuietRetirements(s, s', t, |Stack(s, t)|);
    QuietStep(s, s', t, |Stack(s, t)|);
  }

  lemma BeginRetirementRecords(s: State, t: Thread, device: Address)
    requires RetirementsOk(s)
    ensures RetirementsOk(BeginRetirementStep(s, t, device))
  {
    var s' := BeginRetirementStep(s, t, device);
    assert forall r :: r in s'.retirements <==> r == Retirement(t, |Stack(s, t)|, device) || r in s.retirements;
    forall u: Thread, j: nat | j < |Stack(s', u)| && Stack(s', u)[j].Retiring?
      ensures Retirement(u, j, Stack(s', u)[j].device) in s'.retirements
    {
      if j < |Stack(s, u)| { assert Stack(s, u)[j].Retiring?; }
    }
  }

  lemma BeginRetirementInv(s: State, t: Thread, device: Address)
    requires Inv(s) && Enabled(s, BeginRetirement(t, device))
    ensures Inv(BeginRetirementStep(s, t, device))
  {
    var s' := BeginRetirementStep(s, t, device);
    var n := |Stack(s, t)|;
    BeginRetirementRecords(s, t, device);
    assert Stack(s', t)[..n] == Stack(s, t)[..n];
    QuietStep(s, s', t, n);
  }

  /** Unlinking removes that one record and keeps the order of the rest. */
  lemma {:induction false} UnlinkRecord(rs: seq<Retirement>, r: Retirement)
    requires r in rs && Distinct(rs)
    ensures forall q :: q in Unlink(rs, r) <==> q in rs && q != r
    ensures Distinct(Unlink(rs, r))
    decreases |rs|
  {
    if rs[0] != r {
      assert forall q :: q in rs <==> q == rs[0] || q in rs[1..];
      assert rs[0] !in rs[1..];
      UnlinkRecord(rs[1..], r);
      assert Unlink(rs, r)[1..] == Unlink(rs[1..], r);
    }
  }

  lemma EndRetirementRecords(s: State, t: Thread)
    requires RetirementsOk(s) && Enabled(s, EndRetirement(t))
    ensures RetirementsOk(EndRetirementStep(s, t))
  {
    var stack := Stack(s, t);
    var r := Retirement(t, |stack| - 1, Top(stack).device);
    assert r in s.retirements;
    UnlinkRecord(s.retirements, r);
    var s' := EndRetirementStep(s, t);
    SamePrefix(stack, Stack(s', t), |stack| - 1);
    forall q | q in s'.retirements
      ensures
        && q.device !in s'.scopes
        && q.depth < |Stack(s', q.owner)|
        && Stack(s', q.owner)[q.depth] == Retiring(q.device)
    {
      assert q in s.retirements && q != r;
    }
    forall u: Thread, j: nat | j < |Stack(s', u)| && Stack(s', u)[j].Retiring?
      ensures Retirement(u, j, Stack(s', u)[j].device) in s'.retirements
    {
      assert Stack(s, u)[j].Retiring?;
    }
  }

  lemma EndRetirementInv(s: State, t: Thread)
    requires Inv(s) && Enabled(s, EndRetirement(t))
    ensures Inv(EndRetirementStep(s, t))
  {
    var s' := EndRetirementStep(s, t);
    var n := |Stack(s, t)| - 1;
    EndRetirementRecords(s, t);
    assert Stack(s', t)[..n] == Stack(s, t)[..n];
    QuietStep(s, s', t, n);
  }

  /** Every step of every thread keeps the invariant. */
  lemma StepInv(s: State, step: Step)
    requires Inv(s) && Enabled(s, step)
    ensures Inv(Apply(s, step))
  {
    match step
    case Call(t, device, key) => CallInv(s, t, device, key);
    case Admit(t, memory) => AdmitInv(s, t, memory);
    case Lookup(t, memory) => LookupInv(s, t, memory);
    case Wake(t) => WakeInv(s, t);
    case Publish(t, outcome) => PublishInv(s, t, outcome);
    case Leave(t) => LeaveInv(s, t);
    case EndBypass(t) => ReturnInv(s, t);
    case Forget(t, device) => ForgetInv(s, t, device);
    case BeginRetirement(t, device) => BeginRetirementInv(s, t, device);
    case EndRetirement(t) => EndRetirementInv(s, t);
  }
}
