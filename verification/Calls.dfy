// What each call on a shared arena was asked for and what it ends with, in every run: how many
// values an allocation was given, how much was published when a checkpoint began.
module Calls {
  import opened Options
  import opened Stamps
  import opened History
  import opened Blocks
  import opened Protocol
  import opened Guarantees
  import opened Conservation

  // ---- what an allocation was asked for ----

  /** The action starts an allocation: its thread is in no other call, and an empty block needs none. */
  predicate BeginsAlloc(s: State, a: Action) {
    a.BeginAlloc? && a.thread !in s.threads && a.len > 0
  }

  /** How many values each allocation was given, in the order in which the calls began. */
  function Asked(actions: seq<Action>): seq<nat> {
    if actions == [] then []
    else
      var before, last := actions[..|actions| - 1], actions[|actions| - 1];
      Asked(before) + if BeginsAlloc(Run(before), last) then [last.len] else []
  }

  /** How many values the thread's allocation has in hand. */
  function LenOf(l: Local): nat {
    match l
    case LoadCurrent(_, len) => len
    case AssignFresh(task) => TaskLen(task)
    case AssignCas(task, _) => TaskLen(task)
    case AssignStore(task, _) => TaskLen(task)
    case AssignSpin(task) => TaskLen(task)
    case Reserve(_, len, _) => len
    case Fill(_, len, _, _, _) => len
    case AdvanceLoad(_, len, _, _) => len
    case AdvanceCheck(_, len, _, _, _) => len
    case AdvanceCas(_, len, _, _, _) => len
    case _ => 0
  }

  function TaskLen(task: Task): nat {
    if task.ForAlloc? then task.len else 0
  }

  /** Calls are numbered as they began, and none loses or gains a value on its way. */
  ghost predicate AskedOk(s: State, asked: seq<nat>) {
    && s.calls == |asked|
    && (forall c :: 0 <= c < |asked| ==> 0 < asked[c])
    && (forall t :: t in s.threads && CallOf(s.threads[t]).Some? ==>
          CallOf(s.threads[t]).value < |asked| && LenOf(s.threads[t]) == asked[CallOf(s.threads[t]).value])
    && (forall call :: call in s.returned ==> call < |asked| && s.returned[call] == asked[call])
  }

  lemma AssigningKeepsLen(s: State, t: ThreadId)
    requires t in s.threads && t in StepThread(s, t).threads && CallOf(StepThread(s, t).threads[t]).Some?
    requires var l := s.threads[t]; l.LoadCurrent? || l.AssignFresh? || l.AssignCas? || l.AssignStore? || l.AssignSpin?
    ensures LenOf(StepThread(s, t).threads[t]) == LenOf(s.threads[t])
  {
    match s.threads[t]
    case LoadCurrent(_, _) =>
    case AssignFresh(_) =>
    case AssignCas(_, _) =>
    case AssignStore(_, _) =>
    case AssignSpin(_) =>
  }

  lemma StepKeepsLen(s: State, t: ThreadId)
    requires t in s.threads && t in StepThread(s, t).threads && CallOf(StepThread(s, t).threads[t]).Some?
    ensures LenOf(StepThread(s, t).threads[t]) == LenOf(s.threads[t])
  {
    match s.threads[t]
    case Reserve(_, _, _) =>
    case Fill(_, _, _, _, _) =>
    case AdvanceLoad(_, _, _, _) =>
    case AdvanceCheck(_, _, _, _, _) =>
    case AdvanceCas(_, _, _, _, _) =>
    case LoadLen =>
    case LoadTail(_) =>
    case LoadBirth(_, _) =>
    case _ => AssigningKeepsLen(s, t);
  }

  lemma FillKeepsCalls(s: State, t: ThreadId)
    requires t in s.threads && s.threads[t].Fill?
    ensures var s' := StepThread(s, t);
      && s'.calls == s.calls && s'.returned == s.returned && s'.published == s.published
      && s'.threads == s.threads[t := s'.threads[t]] && CallOf(s'.threads[t]) == CallOf(s.threads[t])
  {
  }

  lemma AskedAfterStep(s: State, t: ThreadId, asked: seq<nat>)
    requires AskedOk(s, asked) && t in s.threads
    ensures AskedOk(StepThread(s, t), asked)
  {
    var s' := StepThread(s, t);
    if t in s'.threads && CallOf(s'.threads[t]).Some? {
      StepKeepsLen(s, t);
    }
    if s.threads[t].Fill? {
      FillKeepsCalls(s, t);
    } else {
      StepKeepsLedger(s, t);
      StepKeepsCalls(s, t);
    }
  }

  lemma AskedAfterOther(s: State, a: Action, asked: seq<nat>)
    requires AskedOk(s, asked) && !IsStep(s, a) && !BeginsAlloc(s, a)
    ensures AskedOk(Do(s, a), asked)
  {
  }

  lemma AskedAfterBegin(s: State, a: Action, asked: seq<nat>)
    requires AskedOk(s, asked) && BeginsAlloc(s, a)
    ensures AskedOk(Do(s, a), asked + [a.len])
  {
    var s' := Do(s, a);
    assert s'.threads == s.threads[a.thread := LoadCurrent(s.calls, a.len)];
  }

  lemma {:induction false} AskedInEveryRun(actions: seq<Action>)
    ensures AskedOk(Run(actions), Asked(actions))
  {
    if actions == [] {
    } else {
      var before, last := actions[..|actions| - 1], actions[|actions| - 1];
      AskedInEveryRun(before);
      var s := Run(before);
      if BeginsAlloc(s, last) {
        AskedAfterBegin(s, last, Asked(before));
      } else if IsStep(s, last) {
        AskedAfterStep(s, last.thread, Asked(before));
      } else {
        AskedAfterOther(s, last, Asked(before));
      }
    }
  }

  // ---- how an allocation ends ----

  /** The stamp space is exhausted where the call has to draw, or the slot space where it has to reserve. */
  predicate Exhausted(s: State, t: ThreadId)
    requires t in s.threads
  {
    var l := s.threads[t];
    || (l.AssignFresh? && Draw(s.stamps, t).SpaceExhausted?)
    || (l.Reserve? && s.reserved + l.len > USIZE_MAX)
  }

  predicate AllPublished(s: State, t: ThreadId)
    requires t in s.threads
  {
    var l := s.threads[t];
    l.AdvanceLoad? && l.start + l.len <= s.published
  }

  /** No slot, value, handle or return is on record that was not before. */
  ghost predicate NothingAllocated(s: State, s': State) {
    && s'.reserved == s.reserved && s'.published == s.published && s'.storage == s.storage
    && s'.written == s.written && s'.issues == s.issues && s'.returned == s.returned
  }

  /** The only new handles are those of the call's own slots, one for each value it was given. */
  ghost predicate OnlyItsHandles(s: State, s': State, call: nat, len: nat, stamp: Stamp, start: nat) {
    forall r :: r in s'.issues ==>
      || r in s.issues
      || (&& start <= r.handle.slot < start + len
          && r == Issue(Handle(stamp, r.handle.slot), Token(call, r.handle.slot - start), |s.history|))
  }

  lemma StaysOrEnds(s: State, t: ThreadId)
    requires Inv(s) && t in s.threads && CallOf(s.threads[t]).Some?
    ensures var s' := StepThread(s, t);
      && (t !in s'.threads <==> Exhausted(s, t) || AllPublished(s, t))
      && (t in s'.threads ==> CallOf(s'.threads[t]).Some?)
  {
    DrawIsFresh(s.stamps, t);
    match s.threads[t]
    case LoadCurrent(_, _) =>
    case AssignFresh(_) =>
    case AssignCas(_, _) =>
    case AssignStore(_, _) =>
    case AssignSpin(_) =>
    case Reserve(_, _, _) =>
    case Fill(_, _, _, _, _) =>
    case AdvanceLoad(_, _, _, _) =>
    case AdvanceCheck(_, _, _, _, _) =>
    case AdvanceCas(_, _, _, _, _) =>
  }

  lemma RefusalAllocatesNothing(s: State, t: ThreadId)
    requires t in s.threads && Exhausted(s, t)
    ensures NothingAllocated(s, StepThread(s, t))
  {
  }

  /** Nothing but its own steps moves a thread, or ends its call. */
  lemma OthersLeaveItAlone(s: State, a: Action, t: ThreadId)
    requires t in s.threads && a != Step(t)
    ensures var s' := Do(s, a);
      t in s'.threads && (s'.threads[t] == s.threads[t] ||
        (a == FailSpuriously(t) && s.threads[t].AdvanceCas? && s'.threads[t] ==
          AdvanceLoad(s.threads[t].call, s.threads[t].len, s.threads[t].stamp, s.threads[t].start)))
  {
    if IsStep(s, a) {
      if s.threads[a.thread].Fill? {
        FillKeepsCalls(s, a.thread);
      } else {
        StepKeepsCalls(s, a.thread);
      }
    }
  }

  lemma HandlesOfReturn(s: State, t: ThreadId)
    requires t in s.threads && AllPublished(s, t)
    ensures var l := s.threads[t]; OnlyItsHandles(s, StepThread(s, t), l.call, l.len, l.stamp, l.start)
  {
  }

  /** What the thread's next step means for an allocation that was given `len` values. */
  ghost predicate EndsRight(s: State, s': State, t: ThreadId, len: nat)
    requires t in s.threads && CallOf(s.threads[t]).Some?
  {
    var l, call := s.threads[t], CallOf(s.threads[t]).value;
    && (t !in s'.threads <==> Exhausted(s, t) || AllPublished(s, t))
    && (t in s'.threads ==> CallOf(s'.threads[t]) == Some(call))
    && (Exhausted(s, t) ==> NothingAllocated(s, s'))
    && (AllPublished(s, t) ==> Delivered(s', call, len, l.stamp, l.start) && OnlyItsHandles(s, s', call, len, l.stamp, l.start))
  }

  lemma AllocEnds(s: State, t: ThreadId)
    requires Inv(s) && TokensOk(s) && t in s.threads && CallOf(s.threads[t]).Some?
    ensures EndsRight(s, StepThread(s, t), t, LenOf(s.threads[t]))
  {
    StaysOrEnds(s, t);
    if AllPublished(s, t) {
      StepDelivers(s, t);
      HandlesOfReturn(s, t);
    } else if Exhausted(s, t) {
      RefusalAllocatesNothing(s, t);
    } else if s.threads[t].Fill? {
      FillKeepsCalls(s, t);
    } else {
      StepKeepsCalls(s, t);
    }
  }

  /**
   * In every run an allocation ends exactly when all its slots are published, or when it is refused
   * because the stamps or the slots are exhausted. If published, it has delivered every value it was
   * asked for, in order, one handle for each and no other; if refused, nothing was allocated. Until
   * then it stays the call it was.
   */
  lemma AllocResult(actions: seq<Action>, t: ThreadId)
    ensures var s := Run(actions);
      t in s.threads && CallOf(s.threads[t]).Some? ==>
        && CallOf(s.threads[t]).value < |Asked(actions)|
        && EndsRight(s, Do(s, Step(t)), t, Asked(actions)[CallOf(s.threads[t]).value])
  {
    var s := Run(actions);
    if t in s.threads && CallOf(s.threads[t]).Some? {
      InvInEveryRun(actions);
      TokensInEveryRun(actions);
      AskedInEveryRun(actions);
      AllocEnds(s, t);
    }
  }

  // ---- what a checkpoint is of ----

  /** The action starts a checkpoint: its thread is in no other call. */
  predicate BeginsCheckpoint(s: State, a: Action, t: ThreadId) {
    a == BeginCheckpoint(t) && t !in s.threads
  }

  /** How much was published when the thread's latest checkpoint began. */
  function PublishedAtBegin(actions: seq<Action>, t: ThreadId): nat {
    if actions == [] then 0
    else
      var before, last := actions[..|actions| - 1], actions[|actions| - 1];
      if BeginsCheckpoint(Run(before), last, t) then Run(before).published else PublishedAtBegin(before, t)
  }

  predicate InCheckpoint(l: Local) {
    match l
    case AssignFresh(task) => task.ForCheckpoint?
    case AssignCas(task, _) => task.ForCheckpoint?
    case AssignStore(task, _) => task.ForCheckpoint?
    case AssignSpin(task) => task.ForCheckpoint?
    case LoadLen => true
    case LoadTail(_) => true
    case LoadBirth(_, _) => true
    case _ => false
  }

  /** The length the checkpoint has read. */
  function LenRead(l: Local): nat
    requires InCheckpoint(l) && !l.LoadLen?
  {
    if l.LoadTail? || l.LoadBirth? then l.len else l.task.len
  }

  /** The length is what was published at some time since the call began. */
  ghost predicate MarkOk(s: State, l: Local, mark: nat) {
    InCheckpoint(l) ==> if l.LoadLen? then mark <= s.published else mark <= LenRead(l) <= s.published
  }

  lemma StepKeepsIssues(s: State, u: ThreadId)
    requires u in s.threads && !s.threads[u].Fill?
    ensures s.issues <= StepThread(s, u).issues && s.published <= StepThread(s, u).published
  {
    match s.threads[u]
    case LoadCurrent(_, _) =>
    case AssignFresh(_) =>
    case AssignCas(_, _) =>
    case AssignStore(_, _) =>
    case AssignSpin(_) =>
    case Reserve(_, _, _) =>
    case AdvanceLoad(_, _, _, _) =>
    case AdvanceCheck(_, _, _, _, _) =>
    case AdvanceCas(_, _, _, _, _) =>
    case LoadLen =>
    case LoadTail(_) =>
    case LoadBirth(_, _) =>
  }

  /** While any call is in flight, nothing is taken back. */
  lemma PublishedGrows(s: State, a: Action)
    requires s.threads != map[]
    ensures s.published <= Do(s, a).published
  {
    if IsStep(s, a) {
      if s.threads[a.thread].Fill? {
        FillKeepsCalls(s, a.thread);
      } else {
        StepKeepsIssues(s, a.thread);
      }
    }
  }

  lemma MarkAfterOwnStep(s: State, t: ThreadId, mark: nat)
    requires t in s.threads && MarkOk(s, s.threads[t], mark)
    ensures t in StepThread(s, t).threads ==> MarkOk(StepThread(s, t), StepThread(s, t).threads[t], mark)
  {
    match s.threads[t]
    case LoadCurrent(_, _) =>
    case AssignFresh(_) =>
    case AssignCas(_, _) =>
    case AssignStore(_, _) =>
    case AssignSpin(_) =>
    case Reserve(_, _, _) =>
    case Fill(_, _, _, _, _) =>
    case AdvanceLoad(_, _, _, _) =>
    case AdvanceCheck(_, _, _, _, _) =>
    case AdvanceCas(_, _, _, _, _) =>
    case LoadLen =>
    case LoadTail(_) =>
    case LoadBirth(_, _) =>
  }

  lemma MarkKept(s: State, a: Action, t: ThreadId, mark: nat)
    requires t in s.threads && MarkOk(s, s.threads[t], mark) && t in Do(s, a).threads
    ensures MarkOk(Do(s, a), Do(s, a).threads[t], mark)
  {
    if a == Step(t) {
      MarkAfterOwnStep(s, t, mark);
    } else {
      OthersLeaveItAlone(s, a, t);
      PublishedGrows(s, a);
    }
  }

  /** An idle thread comes into a call only by beginning one. */
  lemma NewThread(s: State, a: Action, t: ThreadId)
    requires t !in s.threads && t in Do(s, a).threads
    ensures a == BeginCheckpoint(t) || (BeginsAlloc(s, a) && a.thread == t)
    ensures Do(s, a).threads[t] == if a.BeginCheckpoint? then LoadLen else LoadCurrent(s.calls, a.len)
    ensures Do(s, a).published == s.published
  {
    if IsStep(s, a) {
      if s.threads[a.thread].Fill? {
        FillKeepsCalls(s, a.thread);
      } else {
        StepKeepsCalls(s, a.thread);
      }
      assert false;
    }
  }

  lemma {:induction false} MarksInEveryRun(actions: seq<Action>, t: ThreadId)
    ensures t in Run(actions).threads ==> MarkOk(Run(actions), Run(actions).threads[t], PublishedAtBegin(actions, t))
  {
    if actions == [] {
    } else {
      var before, last := actions[..|actions| - 1], actions[|actions| - 1];
      MarksInEveryRun(before, t);
      var s := Run(before);
      if t in Do(s, last).threads {
        if t in s.threads {
          MarkKept(s, last, t, PublishedAtBegin(before, t));
        } else {
          NewThread(s, last, t);
        }
      }
    }
  }

  /** One checkpoint of the first `len` published values is on record, as of now. */
  ghost predicate Captured(s: State, s': State, len: nat) {
    View(s).birth.Some? && len <= s.published && s'.captures == s.captures + {Snapshot(View(s), len)}
  }

  /** What the thread's next step means for a checkpoint that began with `mark` values published. */
  ghost predicate CheckpointEnds(s: State, s': State, t: ThreadId, mark: nat)
    requires t in s.threads
  {
    if t in s'.threads then InCheckpoint(s'.threads[t]) && s'.captures == s.captures
    else if s.threads[t].AssignFresh? then Draw(s.stamps, t).SpaceExhausted? && s'.captures == s.captures
    else exists len: nat :: mark <= len && Captured(s, s', len)
  }

  lemma CheckpointGoesOn(s: State, t: ThreadId)
    requires Inv(s) && t in s.threads && InCheckpoint(s.threads[t]) && !s.threads[t].LoadBirth? && !s.threads[t].AssignSpin?
    ensures var s' := StepThread(s, t);
      && s'.captures == s.captures
      && if t in s'.threads then InCheckpoint(s'.threads[t]) else s.threads[t].AssignFresh? && Draw(s.stamps, t).SpaceExhausted?
  {
    DrawIsFresh(s.stamps, t);
    match s.threads[t]
    case AssignFresh(_) =>
    case AssignCas(_, _) =>
    case AssignStore(_, _) =>
    case LoadLen =>
    case LoadTail(_) =>
  }

  lemma CheckpointRecorded(s: State, t: ThreadId)
    requires Inv(s) && t in s.threads && InCheckpoint(s.threads[t]) && (s.threads[t].LoadBirth? || s.threads[t].AssignSpin?)
    ensures var l, s' := s.threads[t], StepThread(s, t);
      if t in s'.threads then InCheckpoint(s'.threads[t]) && s'.captures == s.captures else Captured(s, s', LenRead(l))
  {
    assert ThreadOk(s, s.threads[t]);
  }

  lemma CheckpointStep(s: State, t: ThreadId, mark: nat)
    requires Inv(s) && t in s.threads && InCheckpoint(s.threads[t]) && MarkOk(s, s.threads[t], mark)
    ensures CheckpointEnds(s, StepThread(s, t), t, mark)
  {
    if s.threads[t].LoadBirth? || s.threads[t].AssignSpin? {
      CheckpointRecorded(s, t);
    } else {
      CheckpointGoesOn(s, t);
    }
  }

  /**
   * In every run a checkpoint call that ends otherwise than by stamp exhaustion has recorded one
   * checkpoint: of a prefix no shorter than what was published when it began and no longer than what
   * is published now, with that prefix's tail.
   */
  lemma CheckpointResult(actions: seq<Action>, t: ThreadId)
    ensures var s := Run(actions);
      t in s.threads && InCheckpoint(s.threads[t]) ==> CheckpointEnds(s, Do(s, Step(t)), t, PublishedAtBegin(actions, t))
  {
    var s := Run(actions);
    if t in s.threads && InCheckpoint(s.threads[t]) {
      InvInEveryRun(actions);
      MarksInEveryRun(actions, t);
      CheckpointStep(s, t, PublishedAtBegin(actions, t));
    }
  }

  // ---- what an iterator yields ----

  /** In every run, iterating to a published position mints the handle of that slot, for the value it holds. */
  lemma IterationYields(actions: seq<Action>, pos: nat)
    ensures var s, s' := Run(actions), Do(Run(actions), IterNext(pos));
      if pos < s.published
      then
        && pos in s.storage && 0 < s.birth <= U64_MAX
        && s'.issues == s.issues + {Issue(Handle(Owner(s.birth, s.history, pos), pos), s.storage[pos], |s.history|)}
        && RawValid(s', Handle(Owner(s.birth, s.history, pos), pos))
      else s' == s
  {
    var s := Run(actions);
    InvInEveryRun(actions);
    if pos < s.published {
      MintIsOk(View(s), pos);
      DoKeepsInv(s, IterNext(pos));
      IssuedIsTruthful(Do(s, IterNext(pos)), Mint(View(s), pos));
      assert |s.history| == |Do(s, IterNext(pos)).history|;
    }
  }
}
