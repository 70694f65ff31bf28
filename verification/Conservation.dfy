// No input of a shared arena is lost, duplicated or dropped twice, in any interleaving with exclusive
// operations in between; and what became of the values each handle and checkpoint was issued for.
module Conservation {
  import opened Options
  import opened Stamps
  import opened History
  import opened Pasts
  import opened Protocol
  import opened Guarantees

  /** How many of its inputs a call has put in their slots. */
  function FilledOf(l: Local): nat {
    if l.Fill? then l.filled else if HasRange(l) then l.len else 0
  }

  /** In how many places an input is: in a slot, dropped, or drained. */
  ghost function Places(s: State, x: Token): nat {
    (if x in s.storage.Values then 1 else 0) + multiset(s.past.dropped)[x] + multiset(s.past.drained)[x]
  }

  ghost predicate Accounted(s: State) {
    forall x :: Places(s, x) == if x in s.written then 1 else 0
  }

  /** What is written of a call's inputs: as many as it has filled, and all of them once it has returned. */
  ghost predicate CallsOk(s: State) {
    && (forall x :: x in s.written ==> x.call < s.calls)
    && (forall t, x :: t in s.threads && x in s.written && CallOf(s.threads[t]) == Some(x.call) ==>
          x.offset < FilledOf(s.threads[t]))
    && (forall call :: call in s.returned ==> call < s.calls && AllWritten(s, call, s.returned[call]))
    && (forall t :: t in s.threads && CallOf(s.threads[t]).Some? ==> CallOf(s.threads[t]).value !in s.returned)
  }

  ghost predicate AllWritten(s: State, call: nat, len: nat) {
    forall k :: 0 <= k < len ==> Token(call, k) in s.written
  }

  ghost predicate AllTraced(s: State) {
    Traced(View(s), s.past, s.issues, s.captures)
  }

  ghost predicate LedgerOk(s: State) {
    Accounted(s) && CallsOk(s) && AllTraced(s)
  }

  // ---- filling a slot ----

  /** The input about to be put in its slot was never written before. */
  lemma InputIsNew(s: State, t: ThreadId)
    requires CallsOk(s) && t in s.threads && s.threads[t].Fill?
    ensures Token(s.threads[t].call, s.threads[t].filled) !in s.written
  {
  }

  lemma FillWrites(s: State, t: ThreadId)
    requires Inv(s) && CallsOk(s) && t in s.threads && s.threads[t].Fill?
    ensures var l, s' := s.threads[t], StepThread(s, t);
      var x := Token(l.call, l.filled);
      && s'.storage == s.storage[l.start + l.filled := x] && l.start + l.filled !in s.storage
      && s'.written == s.written + {x} && s'.past == s.past && s'.returned == s.returned && s'.calls == s.calls
      && s'.threads.Keys == s.threads.Keys && FilledOf(s'.threads[t]) == l.filled + 1 && CallOf(s'.threads[t]) == CallOf(l)
      && forall u :: u in s.threads && u != t ==> s'.threads[u] == s.threads[u]
  {
    ReservedSlotIsFree(s, t);
    assert ThreadOk(s, s.threads[t]);
  }

  lemma AccountedAfterFill(s: State, t: ThreadId)
    requires Inv(s) && Accounted(s) && CallsOk(s) && t in s.threads && s.threads[t].Fill?
    ensures Accounted(StepThread(s, t))
  {
    var l, s' := s.threads[t], StepThread(s, t);
    var slot, x := l.start + l.filled, Token(l.call, l.filled);
    FillWrites(s, t);
    InputIsNew(s, t);
    assert Places(s, x) == 0;
    assert slot in s'.storage && s'.storage[slot] == x;
    forall y | y in s.storage.Values
      ensures y in s'.storage.Values
    {
      var i :| i in s.storage && s.storage[i] == y;
      assert i in s'.storage && s'.storage[i] == y;
    }
    forall y
      ensures Places(s', y) == if y in s'.written then 1 else 0
    {
      assert Places(s, y) == if y in s.written then 1 else 0;
    }
  }

  lemma CallsAfterFill(s: State, t: ThreadId)
    requires Inv(s) && CallsOk(s) && t in s.threads && s.threads[t].Fill?
    ensures CallsOk(StepThread(s, t))
  {
    var l, s' := s.threads[t], StepThread(s, t);
    FillWrites(s, t);
    assert ThreadOk(s, l);
    forall u, x | u in s'.threads && x in s'.written && CallOf(s'.threads[u]) == Some(x.call)
      ensures x.offset < FilledOf(s'.threads[u])
    {
      assert u != t ==> Apart(l, s.threads[u]);
    }
    forall call | call in s.returned
      ensures AllWritten(s', call, s.returned[call])
    {
      assert AllWritten(s, call, s.returned[call]);
    }
  }

  // ---- the other steps ----

  lemma StepKeepsLedger(s: State, t: ThreadId)
    requires t in s.threads && !s.threads[t].Fill?
    ensures var l, s' := s.threads[t], StepThread(s, t);
      && s'.written == s.written && s'.past == s.past && s'.calls == s.calls
      && s'.returned == (if t !in s'.threads && l.AdvanceLoad? then s.returned[l.call := l.len] else s.returned)
      && (t in s'.threads ==> FilledOf(s'.threads[t]) == FilledOf(l))
  {
    match s.threads[t]
    case LoadCurrent(_, _) =>
    case AssignFresh(_) =>
    case AssignCas(_, _) =>
    case AssignStore(_, _) =>
    case AssignSpin(_) =>
    case Reserve(_, _, _) =>
    case AdvanceLoad(_, _, _, _) =>
    case AdvanceCheck(_, _, _, _, _) =>
    case AdvanceCas(_, _, _, _, _) =>
    case LoadLen =>
    case LoadTail(_) =>
    case LoadBirth(_, _) =>
  }

  /** The thread is where it was, or has let go of its call. */
  ghost predicate SameCalls(s: State, s': State) {
    && s'.written == s.written && s.calls <= s'.calls
    && forall u :: u in s'.threads ==>
      if u in s.threads
      then
        && (CallOf(s'.threads[u]).Some? ==> CallOf(s'.threads[u]) == CallOf(s.threads[u]))
        && FilledOf(s.threads[u]) <= FilledOf(s'.threads[u])
      else CallOf(s'.threads[u]).Some? ==> s.calls <= CallOf(s'.threads[u]).value
  }

  lemma CallsTransfer(s: State, s': State)
    requires CallsOk(s) && SameCalls(s, s') && s'.returned == s.returned
    ensures CallsOk(s')
  {
    forall call | call in s'.returned
      ensures call < s'.calls && AllWritten(s', call, s'.returned[call])
    {
      assert AllWritten(s, call, s.returned[call]);
    }
  }

  /** When a call returns, every one of its inputs has been written. */
  lemma ReturnedIsWritten(s: State, t: ThreadId)
    requires Inv(s) && Accounted(s) && t in s.threads && s.threads[t].AdvanceLoad?
    ensures AllWritten(s, s.threads[t].call, s.threads[t].len)
  {
    var l := s.threads[t];
    assert ThreadOk(s, l);
    forall k | 0 <= k < l.len
      ensures Token(l.call, k) in s.written
    {
      assert l.start <= l.start + k < l.start + l.len;
      assert s.storage[l.start + k] == Token(l.call, k);
      assert Places(s, Token(l.call, k)) >= 1;
    }
  }

  lemma CallsAfterReturn(s: State, t: ThreadId)
    requires Inv(s) && Accounted(s) && CallsOk(s) && t in s.threads && s.threads[t].AdvanceLoad?
    requires s.threads[t].start + s.threads[t].len <= s.published
    ensures CallsOk(StepThread(s, t))
  {
    var l, s' := s.threads[t], StepThread(s, t);
    ReturnedIsWritten(s, t);
    assert ThreadOk(s, l);
    forall call | call in s'.returned
      ensures call < s'.calls && AllWritten(s', call, s'.returned[call])
    {
      assert call != l.call ==> AllWritten(s, call, s.returned[call]);
    }
    forall u | u in s'.threads && CallOf(s'.threads[u]).Some?
      ensures CallOf(s'.threads[u]).value !in s'.returned
    {
      assert Apart(l, s.threads[u]);
    }
  }

  lemma CallsAfterStep(s: State, t: ThreadId)
    requires Inv(s) && Accounted(s) && CallsOk(s) && t in s.threads && !s.threads[t].Fill?
    ensures CallsOk(StepThread(s, t))
  {
    StepKeepsLedger(s, t);
    StepKeepsCalls(s, t);
    if s.threads[t].AdvanceLoad? && s.threads[t].start + s.threads[t].len <= s.published {
      CallsAfterReturn(s, t);
    } else {
      CallsTransfer(s, StepThread(s, t));
    }
  }

  // ---- exclusive operations ----

  lemma {:induction false} CountInDistinct<T(!new)>(items: seq<T>)
    requires forall i, j :: 0 <= i < j < |items| ==> items[i] != items[j]
    ensures forall x :: multiset(items)[x] == if x in items then 1 else 0
  {
    if items == [] {
    } else {
      var front, last := items[..|items| - 1], items[|items| - 1];
      CountInDistinct(front);
      assert items == front + [last];
    }
  }

  /** With nothing in flight, what is stored is exactly what is observable. */
  lemma StoredItems(s: State)
    requires Inv(s) && NoRange(s)
    ensures forall x :: x in s.storage.Values <==> x in View(s).items
  {
    Quiescent(s);
    forall x | x in s.storage.Values
      ensures x in View(s).items
    {
      var i :| i in s.storage && s.storage[i] == x;
      assert View(s).items[i] == x;
    }
  }

  lemma PlacesOfItems(s: State, x: Token)
    requires Inv(s) && NoRange(s) && TokensOk(s)
    ensures Places(s, x) == (multiset(View(s).items) + multiset(s.past.dropped) + multiset(s.past.drained))[x]
  {
    Quiescent(s);
    StoredItems(s);
    CountInDistinct(View(s).items);
  }

  lemma AccountedAcross(s: State, s': State)
    requires Inv(s) && Inv(s') && TokensOk(s) && TokensOk(s') && Accounted(s) && NoRange(s) && NoRange(s')
    requires s'.written == s.written
    requires multiset(View(s').items) + multiset(s'.past.dropped) + multiset(s'.past.drained) ==
      multiset(View(s).items) + multiset(s.past.dropped) + multiset(s.past.drained)
    ensures Accounted(s')
  {
    forall x
      ensures Places(s', x) == if x in s'.written then 1 else 0
    {
      PlacesOfItems(s, x);
      PlacesOfItems(s', x);
      assert Places(s, x) == if x in s.written then 1 else 0;
    }
  }

  lemma ExclusivePast(s: State, a: Action)
    requires IsExclusive(a) && EventOf(s, a).Some? && EventOf(s, a).value.keep <= s.published
    ensures Do(s, a).past ==
      if a.ExclusiveDrain? then AfterDrain(s.past, View(s).items) else AfterDrops(s.past, View(s).items, EventOf(s, a).value.keep)
  {
  }

  /** What an exclusive operation takes is moved to the values dropped or to those drained. */
  lemma ExclusiveMoves(s: State, a: Action)
    requires Inv(s) && IsExclusive(a) && EventOf(s, a).Some?
    ensures var s' := Do(s, a);
      multiset(View(s').items) + multiset(s'.past.dropped) + multiset(s'.past.drained) ==
      multiset(View(s).items) + multiset(s.past.dropped) + multiset(s.past.drained)
  {
    var keep := EventOf(s, a).value.keep;
    StepRefinesHistory(s, a);
    ExclusivePast(s, a);
    PastConserves(View(s).items, s.past, keep);
    assert View(Do(s, a)).items == View(s).items[..keep];
    assert a.ExclusiveDrain? ==> View(s).items[..keep] == [];
  }

  lemma AccountedAfterExclusive(s: State, a: Action)
    requires Inv(s) && TokensOk(s) && Accounted(s) && IsExclusive(a)
    ensures Accounted(Do(s, a))
  {
    if EventOf(s, a).Some? {
      DoKeepsInv(s, a);
      TokensKept(s, a);
      ExclusiveMoves(s, a);
      AccountedAcross(s, Do(s, a));
    }
  }

  lemma CallsAfterExclusive(s: State, a: Action)
    requires CallsOk(s) && IsExclusive(a)
    ensures CallsOk(Do(s, a))
  {
    CallsTransfer(s, Do(s, a));
  }
  // ---- what each record was issued for ----

  ghost predicate OnlyLiveAdded(s: State, s': State) {
    && (forall r :: r in s'.issues ==> r in s.issues || LiveIssue(View(s'), r))
    && (forall c :: c in s'.captures ==> c in s.captures || LiveCapture(View(s'), c))
  }

  lemma ReturnRecords(s: State, t: ThreadId)
    requires Inv(s) && t in s.threads && s.threads[t].AdvanceLoad?
    ensures OnlyLiveAdded(s, StepThread(s, t))
  {
    var l, s' := s.threads[t], StepThread(s, t);
    assert View(s') == View(s);
    if l.start + l.len <= s.published {
      forall r | r in BlockIssues(s, l.call, l.len, l.stamp, l.start)
        ensures LiveIssue(View(s'), r)
      {
        var k :| 0 <= k < l.len && r == Issue(Handle(l.stamp, l.start + k), Token(l.call, k), |s.history|);
        ReturnedHandles(s, t, k);
      }
    }
  }

  lemma CheckpointRecords(s: State, t: ThreadId)
    requires Inv(s) && t in s.threads && (s.threads[t].LoadBirth? || s.threads[t].AssignSpin?)
    ensures OnlyLiveAdded(s, StepThread(s, t))
  {
    assert ThreadOk(s, s.threads[t]);
    assert View(StepThread(s, t)) == View(s);
  }

  lemma OtherStepsRecordNothing(s: State, t: ThreadId)
    requires t in s.threads && !s.threads[t].AdvanceLoad? && !s.threads[t].LoadBirth? && !s.threads[t].AssignSpin?
    ensures StepThread(s, t).issues == s.issues && StepThread(s, t).captures == s.captures
  {
    match s.threads[t]
    case LoadCurrent(_, _) =>
    case AssignFresh(_) =>
    case AssignCas(_, _) =>
    case AssignStore(_, _) =>
    case Reserve(_, _, _) =>
    case Fill(_, _, _, _, _) =>
    case AdvanceCheck(_, _, _, _, _) =>
    case AdvanceCas(_, _, _, _, _) =>
    case LoadLen =>
    case LoadTail(_) =>
  }

  lemma StepRecords(s: State, t: ThreadId)
    requires Inv(s)
    ensures OnlyLiveAdded(s, StepThread(s, t))
  {
    if t in s.threads {
      if s.threads[t].AdvanceLoad? {
        ReturnRecords(s, t);
      } else if s.threads[t].LoadBirth? || s.threads[t].AssignSpin? {
        CheckpointRecords(s, t);
      } else {
        OtherStepsRecordNothing(s, t);
      }
    }
  }

  lemma IterNextRecords(s: State, pos: nat)
    requires Inv(s)
    ensures OnlyLiveAdded(s, Do(s, IterNext(pos)))
  {
    assert View(Do(s, IterNext(pos))) == View(s);
  }

  lemma StepKeepsPast(s: State, t: ThreadId)
    requires Inv(s)
    ensures StepThread(s, t).past == s.past
  {
    if t in s.threads {
      if s.threads[t].Fill? {
        ReservedSlotIsFree(s, t);
      } else {
        StepKeepsLedger(s, t);
      }
    }
  }

  lemma TracedAfterSharing(s: State, a: Action)
    requires Inv(s) && AllTraced(s) && !IsExclusive(a)
    ensures AllTraced(Do(s, a))
  {
    var s' := Do(s, a);
    StepRefinesHistory(s, a);
    match a {
      case Step(t) =>
        StepRecords(s, t);
        StepKeepsPast(s, t);
      case IterNext(pos) => IterNextRecords(s, pos);
      case _ =>
    }
    assert s'.past == s.past && OnlyLiveAdded(s, s');
    assert EventOf(s, a).Some? ==> !EventOf(s, a).value.Cut?;
    TracedKept(View(s), s.past, s.issues, s.captures, View(s'), s'.past, s'.issues, s'.captures, 0);
  }

  lemma TracedAfterExclusive(s: State, a: Action)
    requires Inv(s) && AllTraced(s) && IsExclusive(a)
    ensures AllTraced(Do(s, a))
  {
    var s' := Do(s, a);
    if EventOf(s, a).Some? {
      var keep := EventOf(s, a).value.keep;
      StepRefinesHistory(s, a);
      DropsPass(View(s).items, s.past, keep);
      TracedKept(View(s), s.past, s.issues, s.captures, View(s'), s'.past, s'.issues, s'.captures, keep);
    }
  }

  // ---- every run ----

  /** The action is a step of a thread in flight. */
  predicate IsStep(s: State, a: Action) {
    a.Step? && a.thread in s.threads
  }

  lemma OtherActionsKeepLedger(s: State, a: Action)
    requires !IsStep(s, a) && !IsExclusive(a)
    ensures var s' := Do(s, a);
      s'.storage == s.storage && s'.past == s.past && s'.written == s.written && s'.returned == s.returned
  {
  }

  lemma OtherActionsKeepCalls(s: State, a: Action)
    requires !IsStep(s, a) && !IsExclusive(a)
    ensures SameCalls(s, Do(s, a))
  {
  }

  lemma AccountedAfterStep(s: State, t: ThreadId)
    requires Inv(s) && Accounted(s) && CallsOk(s) && t in s.threads
    ensures Accounted(StepThread(s, t))
  {
    if s.threads[t].Fill? {
      AccountedAfterFill(s, t);
    } else {
      StepKeepsLedger(s, t);
      StepKeepsCalls(s, t);
      SamePlaces(s, StepThread(s, t));
    }
  }

  lemma AccountedAfterSharing(s: State, a: Action)
    requires Inv(s) && Accounted(s) && CallsOk(s) && !IsExclusive(a)
    ensures Accounted(Do(s, a))
  {
    if IsStep(s, a) {
      AccountedAfterStep(s, a.thread);
    } else {
      OtherActionsKeepLedger(s, a);
      SamePlaces(s, Do(s, a));
    }
  }

  lemma SamePlaces(s: State, s': State)
    requires Accounted(s) && s'.storage == s.storage && s'.past == s.past && s'.written == s.written
    ensures Accounted(s')
  {
    forall x
      ensures Places(s', x) == if x in s'.written then 1 else 0
    {
      assert Places(s, x) == Places(s', x);
    }
  }

  lemma CallsAfterSharing(s: State, a: Action)
    requires Inv(s) && Accounted(s) && CallsOk(s) && !IsExclusive(a)
    ensures CallsOk(Do(s, a))
  {
    if !IsStep(s, a) {
      OtherActionsKeepLedger(s, a);
      OtherActionsKeepCalls(s, a);
      CallsTransfer(s, Do(s, a));
    } else if s.threads[a.thread].Fill? {
      CallsAfterFill(s, a.thread);
    } else {
      CallsAfterStep(s, a.thread);
    }
  }

  lemma LedgerKept(s: State, a: Action)
    requires Inv(s) && TokensOk(s) && LedgerOk(s)
    ensures LedgerOk(Do(s, a))
  {
    if IsExclusive(a) {
      AccountedAfterExclusive(s, a);
      CallsAfterExclusive(s, a);
      TracedAfterExclusive(s, a);
    } else {
      AccountedAfterSharing(s, a);
      CallsAfterSharing(s, a);
      TracedAfterSharing(s, a);
    }
  }

  lemma {:induction false} LedgerInEveryRun(actions: seq<Action>)
    ensures LedgerOk(Run(actions))
  {
    if actions == [] {
    } else {
      var before, last := actions[..|actions| - 1], actions[|actions| - 1];
      LedgerInEveryRun(before);
      InvInEveryRun(before);
      TokensInEveryRun(before);
      LedgerKept(Run(before), last);
    }
  }

  /** The slots an input is in. */
  function SlotsOf(s: State, x: Token): set<nat> {
    set i | i in s.storage && s.storage[i] == x
  }

  lemma OneSlot(s: State, x: Token)
    requires TokensOk(s)
    ensures |SlotsOf(s, x)| == if x in s.storage.Values then 1 else 0
  {
    if x in s.storage.Values {
      var i :| i in s.storage && s.storage[i] == x;
      assert SlotsOf(s, x) == {i};
    } else {
      assert SlotsOf(s, x) == {};
    }
  }

  /**
   * In every run each input ever written is in exactly one slot, dropped once or drained once, and in
   * only one of these; an input never written is nowhere. What is written is what the calls in
   * flight have filled so far and everything a returned call was given.
   */
  lemma EachInputOnce(actions: seq<Action>)
    ensures var s := Run(actions);
      forall x: Token :: |SlotsOf(s, x)| + multiset(s.past.dropped)[x] + multiset(s.past.drained)[x] ==
        if x in s.written then 1 else 0
    ensures var s := Run(actions);
      forall call, k: nat :: call in s.returned && k < s.returned[call] ==> Token(call, k) in s.written
    ensures var s := Run(actions);
      forall t, k: nat :: t in s.threads && CallOf(s.threads[t]).Some? ==>
        (Token(CallOf(s.threads[t]).value, k) in s.written <==> k < FilledOf(s.threads[t]))
  {
    var s := Run(actions);
    InvInEveryRun(actions);
    TokensInEveryRun(actions);
    LedgerInEveryRun(actions);
    forall x: Token
      ensures |SlotsOf(s, x)| + multiset(s.past.dropped)[x] + multiset(s.past.drained)[x] == if x in s.written then 1 else 0
    {
      OneSlot(s, x);
      assert Places(s, x) == if x in s.written then 1 else 0;
    }
    forall call, k: nat | call in s.returned && k < s.returned[call]
      ensures Token(call, k) in s.written
    {
      assert AllWritten(s, call, s.returned[call]);
    }
    forall t, k: nat | t in s.threads && CallOf(s.threads[t]).Some? && k < FilledOf(s.threads[t])
      ensures Token(CallOf(s.threads[t]).value, k) in s.written
    {
      FilledIsWritten(s, t, k);
    }
  }

  lemma FilledIsWritten(s: State, t: ThreadId, k: nat)
    requires Inv(s) && Accounted(s) && t in s.threads && k < FilledOf(s.threads[t])
    ensures Token(s.threads[t].call, k) in s.written
  {
    var l := s.threads[t];
    assert ThreadOk(s, l);
    assert l.start <= l.start + k;
    assert s.storage[l.start + k] == Token(l.call, k);
    assert Places(s, Token(l.call, k)) >= 1;
  }

  lemma GoneIsNotLive(s: State, x: Token)
    requires Accounted(s) && (forall i :: 0 <= i < s.published ==> i in s.storage) && Gone(s.past, x)
    ensures x !in View(s).items
  {
    assert Places(s, x) <= 1;
    forall i | 0 <= i < s.published
      ensures View(s).items[i] != x
    {
      assert s.storage[i] in s.storage.Values;
    }
  }

  /**
   * In every run of a shared arena too, each captured input is still in its slot exactly when no take
   * loop since went down to it, and `DivergedPrefix` means "discarded and replaced" exactly when one
   * went below the checkpoint's length.
   */
  lemma DivergedPrefixExact(actions: seq<Action>)
    ensures var s := Run(actions);
      forall c :: c in s.captures ==> PrefixFate(View(s), s.past, c) && DivergedMeans(View(s), s.past, c)
  {
    var s := Run(actions);
    InvInEveryRun(actions);
    LedgerInEveryRun(actions);
    forall x | Gone(s.past, x)
      ensures x !in View(s).items
    {
      GoneIsNotLive(s, x);
    }
    forall c | c in s.captures
      ensures PrefixFate(View(s), s.past, c) && DivergedMeans(View(s), s.past, c)
    {
      CaptureTraced(View(s), s.past, s.issues, s.captures, c);
    }
  }
  // ---- what each exclusive operation does with the values ----

  predicate TakesEffect(s: State, a: Action) {
    && IsExclusive(a)
    && s.threads == map[] && s.birth != 0 && Draw(s.stamps, a.thread).Drawn?
    && (a.ExclusiveRollback? ==> Validate(View(s), a.checkpoint) == Accepted)
  }

  function TargetOf(a: Action): nat {
    if a.ExclusiveRollback? then a.checkpoint.len else 0
  }

  /** The loop went down from the last slot, past no destructor that panicked, and dropped what it took in that order. */
  ghost predicate Dropped(s: State, s': State, target: nat, panics: set<nat>) {
    && LoopRan(s.published, target, panics, s'.published, s'.published < s.published && s'.published in panics)
    && s'.past.dropped == s.past.dropped + Reversed(View(s).items[s'.published..])
    && s'.past.drained == s.past.drained
    && View(s').items == View(s).items[..s'.published]
  }

  /** Every value was handed out, in allocation order, and none dropped. */
  ghost predicate HandedBack(s: State, s': State) {
    s'.past.drained == s.past.drained + View(s).items && s'.past.dropped == s.past.dropped && View(s').items == []
  }

  /** The boundary is the operation's target, under the one stamp it drew, never issued to any arena before. */
  ghost predicate Committed(s: State, s': State, t: ThreadId, target: nat) {
    && DrewFresh(s.stamps, t, s'.current, s'.stamps)
    && s'.history == s.history + [Commit(target, s'.current)] && s'.birth == s.birth
  }

  /**
   * In every run a rollback to an accepted checkpoint and a reset commit and then drop, a drain commits
   * and then hands back; a refused one, or one that finds no stamp, changes nothing.
   */
  lemma ExclusiveIsExact(actions: seq<Action>, a: Action)
    ensures var s, s' := Run(actions), Do(Run(actions), a);
      IsExclusive(a) ==>
        if !TakesEffect(s, a) then s' == s
        else
          && Committed(s, s', a.thread, TargetOf(a)) && s'.reserved == s'.published
          && if a.ExclusiveDrain? then HandedBack(s, s') else Dropped(s, s', TargetOf(a), a.panics)
  {
    var s, s' := Run(actions), Do(Run(actions), a);
    if TakesEffect(s, a) {
      InvInEveryRun(actions);
      DrawIsFresh(s.stamps, a.thread);
      Quiescent(s);
      StepRefinesHistory(s, a);
      if !a.ExclusiveDrain? {
        var target := TargetOf(a);
        LoopStopsAt(s.published, target, a.panics, s'.published, s'.published < s.published && s'.published in a.panics);
      }
    }
  }
  // ---- where every stamp is ----

  /** The thread drew `x` and has yet to offer it as the arena's identity. */
  predicate Offers(s: State, t: ThreadId, x: nat) {
    t in s.threads && s.threads[t].AssignCas? && s.threads[t].mine == x
  }

  ghost predicate Offered(s: State, x: nat) {
    exists t :: Offers(s, t, x)
  }

  /** A stamp that was drawn is the arena's own, or on offer, or will never be the arena's. */
  ghost predicate StampsPlaced(s: State) {
    forall x :: x in s.stamps.issued ==> x in StampsOf(View(s)) || Offered(s, x) || x in s.foreign
  }

  /** Nothing but an event changes the arena's own stamps, and it only adds. */
  lemma OwnStampsGrow(s: State, a: Action)
    requires Inv(s)
    ensures StampsOf(View(s)) <= StampsOf(View(Do(s, a)))
    ensures EventOf(s, a).Some? && EventOf(s, a).value.Cut? ==> EventOf(s, a).value.stamp in StampsOf(View(Do(s, a)))
  {
    StepRefinesHistory(s, a);
    if EventOf(s, a).Some? {
      StampsOfApply(View(s), EventOf(s, a).value);
    }
  }

  /** Only `Stamp::fresh` changes the stamp source, and its caller then has the stamp to offer. */
  lemma StepStamps(s: State, t: ThreadId)
    requires t in s.threads
    ensures var l, s', drawn := s.threads[t], StepThread(s, t), Draw(s.stamps, t);
      if l.AssignFresh? && drawn.Drawn?
      then s'.stamps == drawn.state && s'.threads == s.threads[t := AssignCas(l.task, drawn.stamp)]
      else s'.stamps == s.stamps
  {
    match s.threads[t]
    case LoadCurrent(_, _) =>
    case AssignFresh(_) =>
    case AssignCas(_, _) =>
    case AssignStore(_, _) =>
    case AssignSpin(_) =>
    case Reserve(_, _, _) =>
    case Fill(_, _, _, _, _) =>
    case AdvanceLoad(_, _, _, _) =>
    case AdvanceCheck(_, _, _, _, _) =>
    case AdvanceCas(_, _, _, _, _) =>
    case LoadLen =>
    case LoadTail(_) =>
    case LoadBirth(_, _) =>
  }

  lemma StepKeepsForeign(s: State, t: ThreadId)
    requires t in s.threads
    ensures s.foreign <= StepThread(s, t).foreign
  {
    match s.threads[t]
    case LoadCurrent(_, _) =>
    case AssignFresh(_) =>
    case AssignCas(_, _) =>
    case AssignStore(_, _) =>
    case AssignSpin(_) =>
    case Reserve(_, _, _) =>
    case Fill(_, _, _, _, _) =>
    case AdvanceLoad(_, _, _, _) =>
    case AdvanceCheck(_, _, _, _, _) =>
    case AdvanceCas(_, _, _, _, _) =>
    case LoadLen =>
    case LoadTail(_) =>
    case LoadBirth(_, _) =>
  }

  /** The exchange settles the offer: the stamp becomes the arena's own, or is discarded for good. */
  lemma ExchangeSettles(s: State, t: ThreadId)
    requires Inv(s) && t in s.threads && s.threads[t].AssignCas?
    ensures var s', mine := StepThread(s, t), s.threads[t].mine;
      if s.birth == 0 then s'.birth == mine && mine in StampsOf(View(s')) else mine in s'.foreign
  {
  }

  lemma StampsAfterStep(s: State, t: ThreadId)
    requires Inv(s) && StampsPlaced(s) && t in s.threads
    ensures StampsPlaced(StepThread(s, t))
  {
    var s' := StepThread(s, t);
    OwnStampsGrow(s, Step(t));
    DrawIsFresh(s.stamps, t);
    StepStamps(s, t);
    StepKeepsForeign(s, t);
    StepMovesOnly(s, t);
    forall x | x in s'.stamps.issued
      ensures x in StampsOf(View(s')) || Offered(s', x) || x in s'.foreign
    {
      if x !in s.stamps.issued {
        assert Offers(s', t, x);
      } else if Offered(s, x) {
        var u :| Offers(s, u, x);
        if u == t {
          ExchangeSettles(s, t);
        } else {
          assert Offers(s', u, x);
        }
      }
    }
  }

  lemma StampsAfterExclusive(s: State, a: Action)
    requires Inv(s) && StampsPlaced(s) && IsExclusive(a)
    ensures StampsPlaced(Do(s, a))
  {
    var s' := Do(s, a);
    OwnStampsGrow(s, a);
    DrawIsFresh(s.stamps, a.thread);
    if s' != s {
      assert forall x :: !Offered(s, x);
    }
  }

  lemma OtherActionsKeepOffers(s: State, a: Action, x: nat)
    requires Offered(s, x) && !IsStep(s, a) && !IsExclusive(a)
    ensures Offered(Do(s, a), x)
  {
    var u :| Offers(s, u, x);
    OthersStayInPlace(s, a, u);
    assert Offers(Do(s, a), u, x);
  }

  lemma OthersStayInPlace(s: State, a: Action, u: ThreadId)
    requires u in s.threads && s.threads[u].AssignCas? && !IsStep(s, a) && !IsExclusive(a)
    ensures u in Do(s, a).threads && Do(s, a).threads[u] == s.threads[u]
  {
  }

  lemma StampsAfterOther(s: State, a: Action)
    requires Inv(s) && StampsPlaced(s) && !IsStep(s, a) && !IsExclusive(a)
    ensures StampsPlaced(Do(s, a))
  {
    var s' := Do(s, a);
    OwnStampsGrow(s, a);
    if a.DrawElsewhere? {
      DrawIsFresh(s.stamps, a.thread);
    }
    forall x | x in s'.stamps.issued
      ensures x in StampsOf(View(s')) || Offered(s', x) || x in s'.foreign
    {
      if Offered(s, x) {
        OtherActionsKeepOffers(s, a, x);
      }
    }
  }

  /**
   * In every run every stamp drawn in the process is in exactly one place: it is one of the arena's
   * own, a thread is about to offer it, or it belongs to no generation of this arena ever.
   */
  lemma {:induction false} EachStampOnce(actions: seq<Action>)
    ensures var s := Run(actions);
      forall x :: x in s.stamps.issued ==>
        && (x in StampsOf(View(s)) || Offered(s, x) || x in s.foreign)
        && !(x in StampsOf(View(s)) && x in s.foreign)
        && (Offered(s, x) ==> x !in StampsOf(View(s)) && x !in s.foreign)
  {
    if actions == [] {
    } else {
      var before, last := actions[..|actions| - 1], actions[|actions| - 1];
      EachStampOnce(before);
      InvInEveryRun(before);
      assert StampsPlaced(Run(before));
      if IsStep(Run(before), last) {
        StampsAfterStep(Run(before), last.thread);
      } else if IsExclusive(last) {
        StampsAfterExclusive(Run(before), last);
      } else {
        StampsAfterOther(Run(before), last);
      }
      InvInEveryRun(actions);
      OffersAreApart(Run(actions));
    }
  }

  lemma OffersAreApart(s: State)
    requires Inv(s)
    ensures forall x :: Offered(s, x) ==> x !in StampsOf(View(s)) && x !in s.foreign
  {
    forall x | Offered(s, x)
      ensures x !in StampsOf(View(s)) && x !in s.foreign
    {
      var t :| Offers(s, t, x);
      assert ThreadOk(s, s.threads[t]);
    }
  }

  /** Another arena's draw issues one stamp, new to the process, that this arena will never own. */
  lemma DrawnElsewhereIsForeign(actions: seq<Action>, t: ThreadId)
    ensures var s, s' := Run(actions), Do(Run(actions), DrawElsewhere(t));
      if !Draw(s.stamps, t).Drawn? then s' == s
      else
        var x := Draw(s.stamps, t).stamp;
        DrewFresh(s.stamps, t, x, s'.stamps) && s'.foreign == s.foreign + {x} && x !in StampsOf(View(s')) && View(s') == View(s)
  {
    InvInEveryRun(actions);
    DrawIsFresh(Run(actions).stamps, t);
  }
}
