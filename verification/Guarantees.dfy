// What the concurrent protocol guarantees its callers, in every run.
module Guarantees {
  import opened Options
  import opened Stamps
  import opened History
  import opened Pasts
  import opened Blocks
  import opened Protocol

  lemma RangesAreDisjoint(s: State, t: ThreadId, u: ThreadId, i: nat)
    requires Inv(s) && Covers(s, t, i) && Covers(s, u, i)
    ensures t == u && i < s.reserved
  {
    assert ThreadOk(s, s.threads[t]);
    assert t != u ==> Apart(s.threads[t], s.threads[u]);
  }

  /** A slot between the published and the reserved mark is one call's; if it is empty, that call is still filling. */
  lemma SlotHasOneCall(s: State, i: nat) returns (t: ThreadId)
    requires Inv(s) && s.published <= i < s.reserved
    ensures Covers(s, t, i) && forall u: nat :: Covers(s, u, i) ==> u == t
    ensures i !in s.storage <==> s.threads[t].Fill? && s.threads[t].start + s.threads[t].filled <= i
  {
    assert Covered(s, i);
    t :| Covers(s, t, i);
    forall u: nat | Covers(s, u, i)
      ensures u == t
    {
      RangesAreDisjoint(s, t, u, i);
    }
    assert ThreadOk(s, s.threads[t]);
  }

  /**
   * Only filled slots are published and only reserved ones filled, ranges in flight are disjoint, and
   * every reserved slot not yet published belongs to exactly one of them.
   */
  ghost predicate PublicationSafe(s: State) {
    && s.published <= s.reserved <= USIZE_MAX
    && (forall i :: 0 <= i < s.published ==> i in s.storage)
    && (forall i :: i in s.storage ==> i < s.reserved)
    && (forall t: nat, u: nat, i: nat :: Covers(s, t, i) && Covers(s, u, i) ==> t == u)
    && (forall i: nat :: s.published <= i < s.reserved ==> Covered(s, i))
    && (forall t: nat, i: nat :: Covers(s, t, i) ==> i < s.reserved)
  }

  /** Publication is safe for any number of threads and any interleaving. */
  lemma PublicationIsSafe(actions: seq<Action>)
    ensures PublicationSafe(Run(actions))
  {
    var s := Run(actions);
    InvInEveryRun(actions);
    forall t: nat, u: nat, i: nat | Covers(s, t, i) && Covers(s, u, i)
      ensures t == u && i < s.reserved
    {
      RangesAreDisjoint(s, t, u, i);
    }
  }

  predicate LoadsAgain(s: State, s': State, t: ThreadId) {
    && t in s.threads && t in s'.threads
    && s'.threads[t].AdvanceLoad? && SameRange(s.threads[t], s'.threads[t]) && CallOf(s'.threads[t]) == CallOf(s.threads[t])
  }

  /**
   * A compare-exchange made on an old load publishes nothing, or the next slot and only if that is
   * filled. One that fails spuriously changes nothing. Either way the thread loads again.
   */
  lemma StaleCasIsSafe(actions: seq<Action>, t: ThreadId)
    ensures var s, s' := Run(actions), Do(Run(actions), Step(t));
      t in s.threads && s.threads[t].AdvanceCas? ==>
        && s'.storage == s.storage
        && (s'.published != s.published <==> s.threads[t].seen == s.published)
        && (s'.published != s.published ==> s'.published == s.published + 1 && s.published in s.storage)
        && LoadsAgain(s, s', t)
    ensures var s, s' := Run(actions), Do(Run(actions), FailSpuriously(t));
      t in s.threads && s.threads[t].AdvanceCas? ==> LoadsAgain(s, s', t) && s' == s.(threads := s'.threads)
  {
    var s := Run(actions);
    InvInEveryRun(actions);
    if t in s.threads {
      assert ThreadOk(s, s.threads[t]);
    }
  }

  /** Storage is never asked for the one index it cannot represent, and a slot about to be filled is free. */
  lemma IndicesAreRepresentable(actions: seq<Action>, t: ThreadId)
    ensures var s := Run(actions);
      t in s.threads ==>
        var l := s.threads[t];
        && (l.Fill? ==> l.start + l.filled < USIZE_MAX && l.start + l.filled !in s.storage)
        && (l.AdvanceCheck? ==> l.seen < USIZE_MAX)
  {
    var s := Run(actions);
    InvInEveryRun(actions);
    if t in s.threads {
      assert ThreadOk(s, s.threads[t]);
      if s.threads[t].Fill? {
        ReservedSlotIsFree(s, t);
      }
    }
  }

  // ---- which slots hold a call's inputs ----

  /** A call's inputs are only in its own range, and no input is in two slots. */
  ghost predicate TokensOk(s: State) {
    && (forall t: nat, i: nat :: t in s.threads && i in s.storage && CallOf(s.threads[t]) == Some(s.storage[i].call) ==> Covers(s, t, i))
    && (forall i, j :: i in s.storage && j in s.storage && i != j ==> s.storage[i] != s.storage[j])
  }

  lemma TokensAfterFill(s: State, t: ThreadId)
    requires Inv(s) && TokensOk(s) && t in s.threads && s.threads[t].Fill?
    ensures TokensOk(StepThread(s, t))
  {
    var l, s' := s.threads[t], StepThread(s, t);
    FillAdds(s, t);
    assert ThreadOk(s, l);
    var slot := l.start + l.filled;
    forall u: nat, i: nat | u in s'.threads && i in s'.storage && CallOf(s'.threads[u]) == Some(s'.storage[i].call)
      ensures Covers(s', u, i)
    {
      if u != t {
        assert Apart(l, s.threads[u]);
        assert i != slot && Covers(s, u, i);
      } else if i != slot {
        assert Covers(s, t, i);
      }
    }
    forall i | i in s.storage
      ensures s.storage[i] != s'.storage[slot]
    {
      if s.storage[i].call == l.call {
        assert Covers(s, t, i);
      }
    }
  }

  lemma StepMovesOneThread(s: State, t: ThreadId)
    requires t in s.threads && !s.threads[t].Fill?
    ensures var s' := StepThread(s, t);
      s'.storage == s.storage && s'.threads == if t in s'.threads then s.threads[t := s'.threads[t]] else s.threads - {t}
  {
    match s.threads[t]
    case LoadCurrent(_, _) =>
    case AssignFresh(_) =>
    case AssignCas(_, _) =>
    case AssignStore(_, _) =>
    case AssignSpin(_) =>
    case Reserve(_, _, _) =>
    case AdvanceLoad(_, _, _, _) =>
    case AdvanceCheck(_, _, _, _, _) =>
    case AdvanceCas(_, _, _, _, _) =>
    case LoadLen =>
    case LoadTail(_) =>
    case LoadBirth(_, _) =>
  }

  lemma StepKeepsOwnCall(s: State, t: ThreadId)
    requires t in s.threads && !s.threads[t].Fill?
    ensures var l, s' := s.threads[t], StepThread(s, t);
      t in s'.threads ==> SameRange(l, s'.threads[t]) && (CallOf(s'.threads[t]).Some? ==> CallOf(s'.threads[t]) == CallOf(l))
  {
    match s.threads[t]
    case LoadCurrent(_, _) =>
    case AssignFresh(_) =>
    case AssignCas(_, _) =>
    case AssignStore(_, _) =>
    case AssignSpin(_) =>
    case Reserve(_, _, _) =>
    case AdvanceLoad(_, _, _, _) =>
    case AdvanceCheck(_, _, _, _, _) =>
    case AdvanceCas(_, _, _, _, _) =>
    case LoadLen =>
    case LoadTail(_) =>
    case LoadBirth(_, _) =>
  }

  /** No other step moves a call or its range to another thread, or touches what is stored. */
  lemma StepKeepsCalls(s: State, t: ThreadId)
    requires t in s.threads && !s.threads[t].Fill?
    ensures var l, s' := s.threads[t], StepThread(s, t);
      && s'.storage == s.storage
      && (t in s'.threads ==> SameRange(l, s'.threads[t]) && (CallOf(s'.threads[t]).Some? ==> CallOf(s'.threads[t]) == CallOf(l)))
      && (forall u :: u != t ==> (u in s'.threads <==> u in s.threads) && (u in s.threads ==> s'.threads[u] == s.threads[u]))
  {
    StepMovesOneThread(s, t);
    StepKeepsOwnCall(s, t);
  }

  /** The rest of the threads stay where they are. */
  ghost predicate OthersStay(s: State, s': State, t: ThreadId) {
    forall u :: u != t ==> (u in s'.threads <==> u in s.threads) && (u in s.threads ==> s'.threads[u] == s.threads[u])
  }

  lemma StepMovesOnly(s: State, t: ThreadId)
    requires t in s.threads
    ensures OthersStay(s, StepThread(s, t), t)
  {
    if !s.threads[t].Fill? {
      StepKeepsCalls(s, t);
    }
  }

  lemma TokensTransfer(s: State, s': State)
    requires TokensOk(s) && s'.storage == s.storage
    requires forall u :: u in s'.threads ==>
      if u in s.threads
      then SameRange(s.threads[u], s'.threads[u]) && (CallOf(s'.threads[u]).Some? ==> CallOf(s'.threads[u]) == CallOf(s.threads[u]))
      else forall i :: i in s.storage ==> CallOf(s'.threads[u]) != Some(s.storage[i].call)
    ensures TokensOk(s')
  {
    forall u: nat, i: nat | u in s'.threads && i in s'.storage && CallOf(s'.threads[u]) == Some(s'.storage[i].call)
      ensures Covers(s', u, i)
    {
      assert Covers(s, u, i);
    }
  }

  lemma TokensAfterStep(s: State, t: ThreadId)
    requires Inv(s) && TokensOk(s) && t in s.threads
    ensures TokensOk(StepThread(s, t))
  {
    if s.threads[t].Fill? {
      TokensAfterFill(s, t);
    } else {
      StepKeepsCalls(s, t);
      TokensTransfer(s, StepThread(s, t));
    }
  }

  lemma TokensAfterCut(s: State, s': State)
    requires TokensOk(s) && (s' == s || s'.threads == map[])
    requires forall i :: i in s'.storage ==> i in s.storage && s'.storage[i] == s.storage[i]
    ensures TokensOk(s')
  {
  }

  lemma ExclusiveShrinks(s: State, a: Action)
    requires IsExclusive(a)
    ensures Do(s, a) == s || Do(s, a).threads == map[]
    ensures forall i :: i in Do(s, a).storage ==> i in s.storage && Do(s, a).storage[i] == s.storage[i]
  {
  }

  lemma TokensAfterBegin(s: State, a: Action)
    requires Inv(s) && TokensOk(s) && (a.BeginAlloc? || a.BeginCheckpoint?)
    ensures TokensOk(Do(s, a))
  {
    TokensTransfer(s, Do(s, a));
  }

  lemma TokensKept(s: State, a: Action)
    requires Inv(s) && TokensOk(s)
    ensures TokensOk(Do(s, a))
  {
    match a
    case BeginAlloc(_, _) => TokensAfterBegin(s, a);
    case BeginCheckpoint(_) => TokensAfterBegin(s, a);
    case Step(t) =>
      if t in s.threads {
        TokensAfterStep(s, t);
      }
    case FailSpuriously(_) => TokensTransfer(s, Do(s, a));
    case IterNext(_) => TokensTransfer(s, Do(s, a));
    case DrawElsewhere(_) => TokensTransfer(s, Do(s, a));
    case _ =>
      ExclusiveShrinks(s, a);
      TokensAfterCut(s, Do(s, a));
  }

  lemma {:induction false} TokensInEveryRun(actions: seq<Action>)
    ensures TokensOk(Run(actions))
  {
    if actions == [] {
    } else {
      TokensInEveryRun(actions[..|actions| - 1]);
      InvInEveryRun(actions[..|actions| - 1]);
      TokensKept(Run(actions[..|actions| - 1]), actions[|actions| - 1]);
    }
  }

  /** Once its range is filled, a call's slots are exactly those that hold its inputs. */
  lemma OwnTokens(s: State, t: ThreadId)
    requires Inv(s) && TokensOk(s) && t in s.threads && s.threads[t].AdvanceLoad?
    ensures var l := s.threads[t];
      forall i :: i in s.storage ==> (l.start <= i < l.start + l.len <==> s.storage[i].call == l.call)
  {
    var l := s.threads[t];
    assert ThreadOk(s, l);
    forall i | i in s.storage && s.storage[i].call == l.call
      ensures l.start <= i < l.start + l.len
    {
      assert Covers(s, t, i);
    }
  }

  /**
   * What a returning `alloc` or `alloc_block` has achieved: its range is published, holds its inputs
   * in order and nothing else, its inputs are nowhere else, and the stamp it read before reserving
   * owns the slots, so every handle of the block validates.
   */
  ghost predicate Delivered(s: State, call: nat, len: nat, stamp: Stamp, start: nat) {
    && call in s.returned && s.returned[call] == len
    && start + len <= s.published
    && (forall i :: i in s.storage ==> (start <= i < start + len <==> s.storage[i].call == call))
    && (forall k :: 0 <= k < len ==> HandedOut(s, call, stamp, start, k))
  }

  ghost predicate HandedOut(s: State, call: nat, stamp: Stamp, start: nat, k: nat) {
    var h := Handle(stamp, start + k);
    && h.slot in s.storage && s.storage[h.slot] == Token(call, k)
    && Issue(h, Token(call, k), |s.history|) in s.issues
    && SimpleValid(View(s), h)
  }

  lemma HandleIsHandedOut(s: State, t: ThreadId, k: nat)
    requires Inv(s) && t in s.threads && s.threads[t].AdvanceLoad?
    requires s.published >= s.threads[t].start + s.threads[t].len && k < s.threads[t].len
    ensures var l := s.threads[t]; HandedOut(StepThread(s, t), l.call, l.stamp, l.start, k)
  {
    var l, s' := s.threads[t], StepThread(s, t);
    var h := Handle(l.stamp, l.start + k);
    ReturnedHandles(s, t, k);
    assert Issue(h, Token(l.call, k), |s.history|) in BlockIssues(s, l.call, l.len, l.stamp, l.start);
    assert View(s') == View(s);
    assert SimpleValid(View(s), h);
  }

  lemma StepDelivers(s: State, t: ThreadId)
    requires Inv(s) && TokensOk(s) && t in s.threads && s.threads[t].AdvanceLoad?
    requires s.threads[t].start + s.threads[t].len <= s.published
    ensures var l := s.threads[t]; Delivered(StepThread(s, t), l.call, l.len, l.stamp, l.start)
  {
    var l := s.threads[t];
    OwnTokens(s, t);
    forall k | 0 <= k < l.len
      ensures HandedOut(StepThread(s, t), l.call, l.stamp, l.start, k)
    {
      HandleIsHandedOut(s, t, k);
    }
  }

  // ---- validation ----

  /** `is_valid` as it runs, on the raw current stamp. */
  predicate RawValid(s: State, h: Handle) {
    && h.slot < s.published
    && (|| h.stamp == s.current
        || (h.slot < CurrentStart(s.history) && NonZero(s.birth) && Owner(s.birth, s.history, h.slot) == h.stamp))
  }

  /** The handle validates exactly until a cut reaches its slot, and then its slot holds the input it was issued for. */
  ghost predicate Truthful(s: State, r: Issue<Token>) {
    && (RawValid(s, r.handle) <==> !CutBelow(s.history, r.epoch, r.handle.slot + 1))
    && (RawValid(s, r.handle) <==> SimpleValid(View(s), r.handle))
    && (RawValid(s, r.handle) ==> r.handle.slot in s.storage && s.storage[r.handle.slot] == r.value)
  }

  lemma IssuedIsTruthful(s: State, r: Issue<Token>)
    requires Inv(s) && r in s.issues
    ensures Truthful(s, r)
  {
    HandleExact(View(s), r);
  }

  lemma HandlesAreExact(actions: seq<Action>)
    ensures forall r :: r in Run(actions).issues ==> Truthful(Run(actions), r)
  {
    InvInEveryRun(actions);
    forall r | r in Run(actions).issues
      ensures Truthful(Run(actions), r)
    {
      IssuedIsTruthful(Run(actions), r);
    }
  }

  /**
   * The checkpoint validates exactly until a cut goes below its length, and then its prefix is still
   * there; each error is given exactly for its own reason, and never that of another arena.
   */
  ghost predicate Certifies(s: State, c: Capture<Token>) {
    var verdict, len := Validate(View(s), c.checkpoint), |c.prefix|;
    var cut := CutBelow(s.history, c.epoch, len);
    && c.checkpoint.len == len
    && (verdict == Accepted <==> !cut)
    && (verdict == Accepted ==> forall i :: 0 <= i < len ==> i in s.storage && s.storage[i] == c.prefix[i])
    && (verdict == Rejected(BeyondCurrent(len, s.published)) <==> s.published < len)
    && (verdict == Rejected(DivergedPrefix(len)) <==> cut && len <= s.published)
    && verdict != Rejected(ForeignArena)
  }

  lemma CapturedCertifies(s: State, c: Capture<Token>)
    requires Inv(s) && c in s.captures
    ensures Certifies(s, c)
  {
    CheckpointExact(View(s), c);
    if Validate(View(s), c.checkpoint) == Accepted {
      forall i | 0 <= i < |c.prefix|
        ensures i in s.storage && s.storage[i] == c.prefix[i]
      {
        assert c.prefix[i] == View(s).items[i];
      }
    }
  }

  lemma CheckpointsAreExact(actions: seq<Action>)
    ensures forall c :: c in Run(actions).captures ==> Certifies(Run(actions), c)
  {
    InvInEveryRun(actions);
    forall c | c in Run(actions).captures
      ensures Certifies(Run(actions), c)
    {
      CapturedCertifies(Run(actions), c);
    }
  }

  /** No handle or checkpoint of another arena, and no stamp lost in the race for the identity, ever passes. */
  lemma ForeignCapabilitiesAreRejected(actions: seq<Action>, h: Handle, cp: Checkpoint)
    ensures h.stamp in Run(actions).foreign ==> !RawValid(Run(actions), h)
    ensures cp.owner in Run(actions).foreign ==> Validate(View(Run(actions)), cp) == Rejected(ForeignArena)
  {
    var s := Run(actions);
    InvInEveryRun(actions);
    if h.stamp in s.foreign {
      ForeignHandle(View(s), h);
    }
    if cp.owner in s.foreign && s.birth != 0 {
      StampsOfGenerations(View(s), 0);
    }
  }

  // ---- each step is one event of the flat history, or none ----

  function EventOf(s: State, a: Action): Option<Event<Token>> {
    match a
    case Step(t) =>
      if t !in s.threads then None
      else if s.threads[t].AssignCas? && s.birth == 0 then Some(Assign(s.threads[t].mine))
      else if s.threads[t].AdvanceCas? && s.threads[t].seen == s.published then Some(Push(Slot(s, s.published)))
      else None
    case ExclusiveRollback(t, cp, panics) =>
      if s.threads == map[] && Validate(View(s), cp) == Accepted && Draw(s.stamps, t).Drawn?
      then Some(Cut(cp.len, StopAt(s.published, cp.len, panics), Draw(s.stamps, t).stamp)) else None
    case ExclusiveReset(t, panics) =>
      if s.threads == map[] && s.birth != 0 && Draw(s.stamps, t).Drawn?
      then Some(Cut(0, StopAt(s.published, 0, panics), Draw(s.stamps, t).stamp)) else None
    case ExclusiveDrain(t) =>
      if s.threads == map[] && s.birth != 0 && Draw(s.stamps, t).Drawn?
      then Some(Cut(0, 0, Draw(s.stamps, t).stamp)) else None
    case _ => None
  }

  lemma SameSharedSameView(s: State, s': State)
    requires s'.published == s.published && s'.storage == s.storage && s'.birth == s.birth && s'.history == s.history
    ensures View(s') == View(s)
  {
  }

  lemma StepKeepsShared(s: State, t: ThreadId)
    requires t in s.threads && EventOf(s, Step(t)).None? && !s.threads[t].Fill?
    ensures var s' := StepThread(s, t);
      s'.published == s.published && s'.storage == s.storage && s'.birth == s.birth && s'.history == s.history
  {
    match s.threads[t]
    case LoadCurrent(_, _) =>
    case AssignFresh(_) =>
    case AssignCas(_, _) =>
    case AssignStore(_, _) =>
    case AssignSpin(_) =>
    case Reserve(_, _, _) =>
    case AdvanceLoad(_, _, _, _) =>
    case AdvanceCheck(_, _, _, _, _) =>
    case AdvanceCas(_, _, _, _, _) =>
    case LoadLen =>
    case LoadTail(_) =>
    case LoadBirth(_, _) =>
  }

  /** Apart from the winning exchange on `birth` and the publishing one, no step is observable. */
  lemma OtherStepsKeepView(s: State, t: ThreadId)
    requires Inv(s) && t in s.threads && EventOf(s, Step(t)).None?
    ensures View(StepThread(s, t)) == View(s)
  {
    if s.threads[t].Fill? {
      FillAdds(s, t);
    } else {
      StepKeepsShared(s, t);
      SameSharedSameView(s, StepThread(s, t));
    }
  }

  lemma StepEvent(s: State, t: ThreadId)
    requires Inv(s) && t in s.threads
    ensures match EventOf(s, Step(t))
      case None => View(StepThread(s, t)) == View(s)
      case Some(e) => Enabled(View(s), e) && View(StepThread(s, t)) == Apply(View(s), e)
  {
    assert ThreadOk(s, s.threads[t]);
    if EventOf(s, Step(t)).None? {
      OtherStepsKeepView(s, t);
    } else if s.threads[t].AdvanceCas? {
      PublishKeepsInv(s, t);
    }
  }

  lemma CutEvent(s: State, t: ThreadId, len: nat, keep: nat, past: Past<Token>)
    requires Inv(s) && s.birth != 0 && len <= keep <= s.published && Draw(s.stamps, t).Drawn?
    ensures var Drawn(stamp, stamps) := Draw(s.stamps, t);
      && Enabled(View(s), Cut(len, keep, stamp))
      && View(CutState(s, len, keep, stamp, stamps, past)) == Apply(View(s), Cut(len, keep, stamp))
  {
    DrawKeepsInv(s, t);
  }

  lemma ExclusiveEvent(s: State, t: ThreadId, len: nat, panics: set<nat>)
    requires Inv(s)
    ensures
      if s.threads == map[] && s.birth != 0 && len <= s.published && Draw(s.stamps, t).Drawn? then
        var e := Cut(len, StopAt(s.published, len, panics), Draw(s.stamps, t).stamp);
        Enabled(View(s), e) && View(Exclusive(s, t, len, panics)) == Apply(View(s), e)
      else Exclusive(s, t, len, panics) == s
  {
    if s.threads == map[] && s.birth != 0 && len <= s.published && Draw(s.stamps, t).Drawn? {
      var keep := StopAt(s.published, len, panics);
      CutEvent(s, t, len, keep, AfterDrops(s.past, View(s).items, keep));
    }
  }

  /**
   * Linearisation: every step of the protocol either leaves the observable arena as it is or is one
   * enabled event of the sequential history. Values enter it one by one in slot order.
   */
  lemma StepRefinesHistory(s: State, a: Action)
    requires Inv(s)
    ensures match EventOf(s, a)
      case None => View(Do(s, a)) == View(s)
      case Some(e) => Enabled(View(s), e) && View(Do(s, a)) == Apply(View(s), e)
  {
    match a
    case Step(t) =>
      if t in s.threads {
        StepEvent(s, t);
      }
    case ExclusiveRollback(t, cp, panics) => ExclusiveEvent(s, t, cp.len, panics);
    case ExclusiveReset(t, panics) => ExclusiveEvent(s, t, 0, panics);
    case ExclusiveDrain(t) =>
      if EventOf(s, a).Some? {
        CutEvent(s, t, 0, 0, AfterDrain(s.past, View(s).items));
      }
    case _ =>
  }

  /** No step of a thread that shares the arena, and no draw elsewhere, makes an accepted checkpoint fail. */
  lemma AcceptedUnderConcurrency(s: State, a: Action, cp: Checkpoint)
    requires Inv(s) && !IsExclusive(a) && Validate(View(s), cp) == Accepted
    ensures Validate(View(Do(s, a)), cp) == Accepted
  {
    StepRefinesHistory(s, a);
    match EventOf(s, a)
    case Some(e) => AcceptedStays(View(s), e, cp);
    case None =>
  }

  /**
   * Whenever no allocation is between its reservation and its return, after any cut however
   * interrupted and whatever else is running: counters agree, exactly the published slots are occupied.
   * Birth and current are both assigned or both not, except while the winner is between the two stores.
   */
  lemma SettledBetweenAllocations(actions: seq<Action>)
    ensures var s := Run(actions);
      NoRange(s) ==> s.published == s.reserved && forall i :: i in s.storage <==> 0 <= i < s.published
    ensures var s := Run(actions);
      (forall t :: t in s.threads ==> !s.threads[t].AssignStore?) ==> (s.birth == 0 <==> s.current == 0)
  {
    InvInEveryRun(actions);
    if NoRange(Run(actions)) {
      Quiescent(Run(actions));
    }
  }

  // ---- the lazily assigned identity ----

  /** The thread has obtained the stamp for its allocation. */
  predicate HoldsStamp(l: Local) {
    l.Reserve? || HasRange(l)
  }

  lemma ObtainedStamp(s: State, t: ThreadId)
    requires Inv(s) && t in s.threads && HoldsStamp(s.threads[t])
    ensures var x := s.threads[t].stamp;
      x == s.current && x !in s.foreign && (s.history == [] ==> x == s.birth)
  {
    assert ThreadOk(s, s.threads[t]);
    StampsOfGenerations(View(s), |s.history|);
  }

  /** Both stamps of a checkpoint are the arena's own; until the first commit both are the birth stamp. */
  ghost predicate CaptureStampsAgree(s: State, c: Capture<Token>) {
    && c.checkpoint.owner == s.birth && c.checkpoint.owner !in s.foreign
    && (c.checkpoint.tail.Some? ==>
          c.checkpoint.tail.value !in s.foreign && (s.history == [] ==> c.checkpoint.tail.value == s.birth))
  }

  lemma RecordedStamps(s: State)
    requires Inv(s)
    ensures forall r :: r in s.issues ==> r.handle.stamp !in s.foreign && (s.history == [] ==> r.handle.stamp == s.birth)
    ensures forall c :: c in s.captures ==> CaptureStampsAgree(s, c)
  {
    forall r | r in s.issues
      ensures r.handle.stamp !in s.foreign && (s.history == [] ==> r.handle.stamp == s.birth)
    {
      assert IssueOk(View(s), r);
      IssueStampIsOwn(View(s), r);
    }
    forall c | c in s.captures
      ensures CaptureStampsAgree(s, c)
    {
      assert CaptureOk(View(s), c);
      StampsOfGenerations(View(s), 0);
      if c.checkpoint.tail.Some? {
        CaptureTailIsOwn(View(s), c);
      }
    }
  }

  /**
   * At most one compare-exchange has won; birth and current agree until the first commit; every call
   * in flight has that one stamp, and so have every handle and checkpoint; no loser's or other
   * arena's stamp is in any capability.
   */
  ghost predicate IdentityAgreed(s: State) {
    && s.wins <= 1 && (s.wins == 1 <==> s.birth != 0)
    && (s.history == [] ==> s.current == 0 || s.current == s.birth)
    && (forall t :: t in s.threads && HoldsStamp(s.threads[t]) ==>
          var x := s.threads[t].stamp; x == s.current && x !in s.foreign && (s.history == [] ==> x == s.birth))
    && (forall r :: r in s.issues ==> r.handle.stamp !in s.foreign && (s.history == [] ==> r.handle.stamp == s.birth))
    && (forall c :: c in s.captures ==> CaptureStampsAgree(s, c))
  }

  lemma AgreedByInv(s: State)
    requires Inv(s)
    ensures IdentityAgreed(s)
  {
    RecordedStamps(s);
    forall t | t in s.threads && HoldsStamp(s.threads[t])
      ensures var x := s.threads[t].stamp; x == s.current && x !in s.foreign && (s.history == [] ==> x == s.birth)
    {
      ObtainedStamp(s, t);
    }
    if s.birth != 0 && s.history == [] {
      assert CurrentRaw(View(s)) == s.birth;
    }
  }

  /** However many threads race through `birth` and `current`, they agree on the identity. */
  lemma IdentityIsAgreed(actions: seq<Action>)
    ensures IdentityAgreed(Run(actions))
  {
    InvInEveryRun(actions);
    AgreedByInv(Run(actions));
  }
  lemma BirthStays(s: State, a: Action)
    requires s.birth != 0
    ensures Do(s, a).birth == s.birth
  {
    match a
    case Step(t) =>
      if t in s.threads && !s.threads[t].Fill? {
        StepKeepsBirth(s, t);
      }
    case _ =>
  }

  lemma StepKeepsBirth(s: State, t: ThreadId)
    requires s.birth != 0 && t in s.threads && !s.threads[t].Fill?
    ensures StepThread(s, t).birth == s.birth
  {
    match s.threads[t]
    case LoadCurrent(_, _) =>
    case AssignFresh(_) =>
    case AssignCas(_, _) =>
    case AssignStore(_, _) =>
    case AssignSpin(_) =>
    case Reserve(_, _, _) =>
    case AdvanceLoad(_, _, _, _) =>
    case AdvanceCheck(_, _, _, _, _) =>
    case AdvanceCas(_, _, _, _, _) =>
    case LoadLen =>
    case LoadTail(_) =>
    case LoadBirth(_, _) =>
  }

  /** The birth stamp is permanent: once assigned it is the same after whatever happens next. */
  lemma {:induction false} BirthIsPermanent(actions: seq<Action>, more: seq<Action>)
    ensures Run(actions).birth != 0 ==> Run(actions + more).birth == Run(actions).birth
  {
    if more == [] {
      assert actions + more == actions;
    } else {
      var before, last := more[..|more| - 1], more[|more| - 1];
      BirthIsPermanent(actions, before);
      assert (actions + more)[..|actions + more| - 1] == actions + before;
      if Run(actions).birth != 0 {
        BirthStays(Run(actions + before), last);
      }
    }
  }
}
