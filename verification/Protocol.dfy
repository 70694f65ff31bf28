// The concurrent phase of the shared arena: any number of threads allocating and taking checkpoints,
// one atomic access at a time, with exclusive operations in between.
module Protocol {
  import opened Options
  import opened Stamps
  import opened History
  import opened Pasts
  import opened Blocks

  /** What a slot holds: the `offset`-th input of the `call`-th allocation call. */
  datatype Token = Token(call: nat, offset: nat)

  /** What a thread does with the stamp it is waiting for. */
  datatype Task = ForAlloc(call: nat, len: nat) | ForCheckpoint(len: nat, tail: Option<Stamp>)

  /**
   * Where a thread is, and what it has read so far; the next atomic access is the constructor's name.
   * `alloc` is a block of one.
   */
  datatype Local =
    | LoadCurrent(call: nat, len: nat)
    | AssignFresh(task: Task)
    | AssignCas(task: Task, mine: Stamp)
    | AssignStore(task: Task, mine: Stamp)
    | AssignSpin(task: Task)
    | Reserve(call: nat, len: nat, stamp: Stamp)
    | Fill(call: nat, len: nat, stamp: Stamp, start: nat, filled: nat)
    | AdvanceLoad(call: nat, len: nat, stamp: Stamp, start: nat)
    | AdvanceCheck(call: nat, len: nat, stamp: Stamp, start: nat, seen: nat)
    | AdvanceCas(call: nat, len: nat, stamp: Stamp, start: nat, seen: nat)
    | LoadLen
    | LoadTail(len: nat)
    | LoadBirth(len: nat, tail: Option<Stamp>)

  /**
   * `wins` counts successful compare-exchanges on `birth`; `foreign` holds every stamp drawn that this
   * arena will never own: those of the losers and those of other arenas. `written` holds every input
   * that was ever put in a slot, `returned` the length of each call that has returned its handles.
   */
  datatype State = State(
    stamps: StampState,
    birth: nat,
    current: nat,
    history: seq<Commit>,
    storage: map<nat, Token>,
    reserved: nat,
    published: nat,
    threads: map<ThreadId, Local>,
    calls: nat,
    wins: nat,
    foreign: set<nat>,
    issues: set<Issue<Token>>,
    captures: set<Capture<Token>>,
    past: Past<Token>,
    written: set<Token>,
    returned: map<nat, nat>)

  const INITIAL: State :=
    State(NO_STAMPS, 0, 0, [], map[], 0, 0, map[], 0, 0, {}, {}, {}, Past([], [], []), {}, map[])

  function Slot(s: State, i: nat): Token {
    if i in s.storage then s.storage[i] else Token(0, 0)
  }

  function View(s: State): ArenaView<Token> {
    ArenaView(seq(s.published, i requires 0 <= i < s.published => Slot(s, i)),
      if 0 < s.birth <= U64_MAX then Some(s.birth) else None, s.history)
  }

  function Go(s: State, t: ThreadId, l: Local): State {
    s.(threads := s.threads[t := l])
  }

  function Leave(s: State, t: ThreadId): State {
    s.(threads := s.threads - {t})
  }

  function BlockIssues(s: State, call: nat, len: nat, stamp: Stamp, start: nat): set<Issue<Token>> {
    set k | 0 <= k < len :: Issue(Handle(stamp, start + k), Token(call, k), |s.history|)
  }

  function Recorded(s: State, owner: Stamp, len: nat, tail: Option<Stamp>): State {
    var prefix := View(s).items[..if len <= s.published then len else 0];
    s.(captures := s.captures + {Capture(Checkpoint(owner, len, tail), prefix, |s.history|)})
  }

  /** The stamp is known: an allocation goes on to reserve, a checkpoint is complete. */
  function Obtained(s: State, t: ThreadId, task: Task, stamp: Stamp): State {
    match task
    case ForAlloc(call, len) => Go(s, t, Reserve(call, len, stamp))
    case ForCheckpoint(len, tail) => Leave(Recorded(s, stamp, len, tail), t)
  }

  /** `set` on a reserved slot. An occupied one would fail the assertion and keep what it holds. */
  function Filled(s: State, slot: nat, x: Token): State {
    if slot in s.storage then s else s.(storage := s.storage[slot := x], written := s.written + {x})
  }

  /** A non-zero raw value, as `NonZeroU64::new` admits it. */
  predicate NonZero(raw: nat) {
    0 < raw <= U64_MAX
  }

  /** One atomic access of thread `t`. A panic on exhausted stamps or slots ends the call. */
  function StepThread(s: State, t: ThreadId): State {
    if t !in s.threads then s
    else match s.threads[t]
      case LoadCurrent(call, len) =>
        if NonZero(s.current) then Go(s, t, Reserve(call, len, s.current))
        else Go(s, t, AssignFresh(ForAlloc(call, len)))
      case AssignFresh(task) =>
        (match Draw(s.stamps, t)
         case Drawn(stamp, stamps) => Go(s.(stamps := stamps), t, AssignCas(task, stamp))
         case _ => Leave(s, t))
      case AssignCas(task, mine) =>
        if s.birth == 0 then Go(s.(birth := mine, wins := s.wins + 1), t, AssignStore(task, mine))
        else Go(s.(foreign := s.foreign + {mine}), t, AssignSpin(task))
      case AssignStore(task, mine) => Go(s.(current := mine), t, AssignSpin(task))
      case AssignSpin(task) => if NonZero(s.current) then Obtained(s, t, task, s.current) else s
      case Reserve(call, len, stamp) =>
        if s.reserved + len <= USIZE_MAX
        then Go(s.(reserved := s.reserved + len), t, Fill(call, len, stamp, s.reserved, 0))
        else Leave(s, t)
      case Fill(call, len, stamp, start, filled) =>
        Go(Filled(s, start + filled, Token(call, filled)), t,
          if filled + 1 < len then Fill(call, len, stamp, start, filled + 1) else AdvanceLoad(call, len, stamp, start))
      case AdvanceLoad(call, len, stamp, start) =>
        if s.published >= start + len
        then Leave(s.(issues := s.issues + BlockIssues(s, call, len, stamp, start), returned := s.returned[call := len]), t)
        else Go(s, t, AdvanceCheck(call, len, stamp, start, s.published))
      case AdvanceCheck(call, len, stamp, start, seen) =>
        Go(s, t, if seen in s.storage then AdvanceCas(call, len, stamp, start, seen) else AdvanceLoad(call, len, stamp, start))
      case AdvanceCas(call, len, stamp, start, seen) =>
        Go(if s.published == seen then s.(published := seen + 1) else s, t, AdvanceLoad(call, len, stamp, start))
      case LoadLen =>
        Go(s, t, if s.published == 0 then LoadBirth(0, None) else LoadTail(s.published))
      case LoadTail(len) =>
        if len > CurrentStart(s.history) then
          // `current` is assigned whenever something is published
          (if NonZero(s.current) then Go(s, t, LoadBirth(len, Some(s.current))) else s)
        else if len > 0 && NonZero(s.birth) then Go(s, t, LoadBirth(len, Some(Owner(s.birth, s.history, len - 1))))
        else s
      case LoadBirth(len, tail) =>
        if NonZero(s.birth) then Leave(Recorded(s, s.birth, len, tail), t)
        else Go(s, t, AssignFresh(ForCheckpoint(len, tail)))
  }

  /** `compare_exchange_weak` may fail although the value is the expected one. */
  function SpuriousFailure(s: State, t: ThreadId): State {
    if t in s.threads && s.threads[t].AdvanceCas?
    then var l := s.threads[t]; Go(s, t, AdvanceLoad(l.call, l.len, l.stamp, l.start))
    else s
  }

  /** What a commit at `len` that drew `stamp`, and a take loop that left `keep` slots, do to the shared variables. */
  function CutState(s: State, len: nat, keep: nat, stamp: Stamp, stamps: StampState, past: Past<Token>): State {
    s.(stamps := stamps, current := stamp, history := s.history + [Commit(len, stamp)],
       storage := map i | i in s.storage && i < keep :: s.storage[i], reserved := keep, published := keep, past := past)
  }

  /** A commit at `len` and a take loop down to it; nothing is committed while unassigned. */
  function Exclusive(s: State, t: ThreadId, len: nat, panics: set<nat>): State {
    if s.threads != map[] || s.birth == 0 || len > s.published then s
    else match Draw(s.stamps, t)
      case Drawn(stamp, stamps) =>
        var keep := StopAt(s.published, len, panics);
        CutState(s, len, keep, stamp, stamps, AfterDrops(s.past, View(s).items, keep))
      case _ => s
  }

  /** A commit at zero; the take loop collects every value and hands them out in allocation order. */
  function DrainAll(s: State, t: ThreadId): State {
    if s.threads != map[] || s.birth == 0 then s
    else match Draw(s.stamps, t)
      case Drawn(stamp, stamps) => CutState(s, 0, 0, stamp, stamps, AfterDrain(s.past, View(s).items))
      case _ => s
  }

  datatype Action =
    | BeginAlloc(thread: ThreadId, len: nat)
    | BeginCheckpoint(thread: ThreadId)
    | Step(thread: ThreadId)
    | FailSpuriously(thread: ThreadId)
    | IterNext(pos: nat)  // an indexed iterator over the published prefix mints a handle
    | DrawElsewhere(thread: ThreadId)  // another arena of the process draws a stamp
    | ExclusiveRollback(thread: ThreadId, checkpoint: Checkpoint, panics: set<nat>)
    | ExclusiveReset(thread: ThreadId, panics: set<nat>)
    | ExclusiveDrain(thread: ThreadId)

  /** An operation that borrows the arena mutably, so that no thread can be inside another call. */
  predicate IsExclusive(a: Action) {
    a.ExclusiveRollback? || a.ExclusiveReset? || a.ExclusiveDrain?
  }

  function Do(s: State, a: Action): State {
    match a
    case BeginAlloc(t, len) =>
      if t in s.threads || len == 0 then s else Go(s, t, LoadCurrent(s.calls, len)).(calls := s.calls + 1)
    case BeginCheckpoint(t) => if t in s.threads then s else Go(s, t, LoadLen)
    case Step(t) => StepThread(s, t)
    case FailSpuriously(t) => SpuriousFailure(s, t)
    case IterNext(pos) =>
      if pos < s.published && NonZero(s.birth) then s.(issues := s.issues + {Mint(View(s), pos)}) else s
    case DrawElsewhere(t) =>
      (match Draw(s.stamps, t)
       case Drawn(stamp, stamps) => s.(stamps := stamps, foreign := s.foreign + {stamp})
       case _ => s)
    case ExclusiveRollback(t, cp, panics) =>
      if Validate(View(s), cp) == Accepted then Exclusive(s, t, cp.len, panics) else s
    case ExclusiveReset(t, panics) => Exclusive(s, t, 0, panics)
    case ExclusiveDrain(t) => DrainAll(s, t)
  }

  // ---- the invariant ----

  /** The thread has reserved `[start, start + len)` and not returned yet. */
  predicate HasRange(l: Local) {
    l.Fill? || l.AdvanceLoad? || l.AdvanceCheck? || l.AdvanceCas?
  }

  function CallOf(l: Local): Option<nat> {
    if l.LoadCurrent? || l.Reserve? || HasRange(l) then Some(l.call)
    else if (l.AssignFresh? || l.AssignCas? || l.AssignStore? || l.AssignSpin?) && l.task.ForAlloc? then Some(l.task.call)
    else None
  }

  /** A thread waits for an identity only before the first commit, and for a checkpoint only of the empty prefix. */
  predicate TaskOk(s: State, task: Task) {
    && s.history == []
    && match task
      case ForAlloc(call, len) => 0 < len && call < s.calls
      case ForCheckpoint(len, tail) => len == 0 && tail.None?
  }

  /** The whole range is reserved above the last boundary, and its first `filled` slots hold the call's inputs in order. */
  ghost predicate RangeOk(s: State, call: nat, len: nat, stamp: Stamp, start: nat, filled: nat) {
    && 0 < len && call < s.calls
    && stamp == s.current
    && CurrentStart(s.history) <= start && start + len <= s.reserved
    && (forall i :: start <= i < start + filled ==> i in s.storage && s.storage[i] == Token(call, i - start))
    && (forall i :: start + filled <= i < start + len ==> i !in s.storage)
  }

  ghost predicate ThreadOk(s: State, l: Local) {
    match l
    case LoadCurrent(call, len) => 0 < len && call < s.calls
    case AssignFresh(task) => TaskOk(s, task)
    case AssignCas(task, mine) =>
      TaskOk(s, task) && mine in s.stamps.issued && mine !in StampsOf(View(s)) && mine !in s.foreign
    case AssignStore(task, mine) => TaskOk(s, task) && s.birth == mine && s.current == 0
    case AssignSpin(task) => TaskOk(s, task) && s.birth != 0
    case Reserve(call, len, stamp) => 0 < len && call < s.calls && stamp == s.current
    case Fill(call, len, stamp, start, filled) => filled < len && RangeOk(s, call, len, stamp, start, filled)
    case AdvanceLoad(call, len, stamp, start) => RangeOk(s, call, len, stamp, start, len)
    case AdvanceCheck(call, len, stamp, start, seen) =>
      RangeOk(s, call, len, stamp, start, len) && seen <= s.published && seen < start + len
    case AdvanceCas(call, len, stamp, start, seen) =>
      RangeOk(s, call, len, stamp, start, len) && seen <= s.published && seen < start + len && seen in s.storage
    case LoadLen => true
    case LoadTail(len) => 0 < len <= s.published
    case LoadBirth(len, tail) =>
      && len <= s.published
      && if len == 0 then tail.None? else NonZero(s.birth) && tail == Some(Owner(s.birth, s.history, len - 1))
  }

  /** Slot `i` belongs to a call of thread `t` that has not returned. */
  predicate Covers(s: State, t: ThreadId, i: nat) {
    t in s.threads && HasRange(s.threads[t]) && s.threads[t].start <= i < s.threads[t].start + s.threads[t].len
  }

  ghost predicate Covered(s: State, i: nat) {
    exists t :: Covers(s, t, i)
  }

  ghost predicate IdentityOk(s: State) {
    && Sound(s.stamps)
    && s.birth <= U64_MAX && s.current <= U64_MAX
    && (s.birth == 0 ==> s.current == 0 && s.issues == {} && s.captures == {})
    && (s.current == 0 ==> s.history == [] && s.reserved == 0)
    && (s.current != 0 ==> s.current == CurrentRaw(View(s)))
    && WellFormed(View(s))
    && (forall x :: x in StampsOf(View(s)) ==> x in s.stamps.issued && x !in s.foreign)
    && s.foreign <= s.stamps.issued
    && s.wins == if s.birth == 0 then 0 else 1
  }

  /** The published prefix is filled, nothing beyond the reserved slots is, and every slot in between is some call's. */
  ghost predicate SlotsOk(s: State) {
    && s.published <= s.reserved <= USIZE_MAX
    && (forall i :: 0 <= i < s.published ==> i in s.storage)
    && (forall i :: i in s.storage ==> i < s.reserved && s.storage[i].call < s.calls)
    && (forall i: nat :: s.published <= i < s.reserved ==> Covered(s, i))
  }

  ghost predicate Apart(l: Local, m: Local) {
    && (HasRange(l) && HasRange(m) ==> l.start + l.len <= m.start || m.start + m.len <= l.start)
    && (CallOf(l).Some? ==> CallOf(l) != CallOf(m))
    && (l.AssignCas? && m.AssignCas? ==> l.mine != m.mine)
    && !(l.AssignStore? && m.AssignStore?)
  }

  ghost predicate ThreadsOk(s: State) {
    && (forall t :: t in s.threads ==> ThreadOk(s, s.threads[t]))
    && (forall t, u :: t in s.threads && u in s.threads && t != u ==> Apart(s.threads[t], s.threads[u]))
    && (s.birth != 0 && s.current == 0 ==> exists t :: t in s.threads && s.threads[t].AssignStore?)
  }

  ghost predicate RecordsOk(s: State) {
    && (forall r :: r in s.issues ==> IssueOk(View(s), r))
    && (forall c :: c in s.captures ==> CaptureOk(View(s), c))
  }

  ghost predicate Inv(s: State) {
    IdentityOk(s) && SlotsOk(s) && ThreadsOk(s) && RecordsOk(s)
  }

  // ---- how a step affects the other threads ----

  /** Nothing any thread relies on has been taken back. */
  ghost predicate Extends(s: State, s': State) {
    && s.calls <= s'.calls && s.stamps.issued <= s'.stamps.issued
    && s.birth == s'.birth && s.current == s'.current && s.history == s'.history
    && s.reserved <= s'.reserved && s.published <= s'.published
    && (forall i :: i in s.storage ==> i in s'.storage && s'.storage[i] == s.storage[i])
  }

  lemma ThreadStaysOk(s: State, s': State, l: Local)
    requires ThreadOk(s, l) && Extends(s, s')
    requires l.Fill? ==> forall i :: l.start + l.filled <= i < l.start + l.len ==> i !in s'.storage
    requires l.AssignCas? ==> l.mine !in s'.foreign
    ensures ThreadOk(s', l)
  {
  }

  lemma CoveredKept(s: State, s': State)
    requires SlotsOk(s) && s.published <= s'.published && s'.reserved == s.reserved
    requires forall u :: u in s.threads && HasRange(s.threads[u]) && s.threads[u].start + s.threads[u].len > s'.published ==>
      u in s'.threads && SameRange(s.threads[u], s'.threads[u])
    ensures forall i: nat :: s'.published <= i < s'.reserved ==> Covered(s', i)
  {
    forall i: nat | s'.published <= i < s'.reserved
      ensures Covered(s', i)
    {
      assert Covered(s, i);
      var u :| Covers(s, u, i);
      assert Covers(s', u, i);
    }
  }

  predicate SameRange(l: Local, m: Local) {
    HasRange(l) ==> HasRange(m) && m.start == l.start && m.len == l.len
  }

  /** Going from `l` to `m` a thread claims nothing new: no call, range or stamp that it did not have. */
  predicate Inherits(l: Local, m: Local) {
    && (CallOf(m).Some? ==> CallOf(m) == CallOf(l))
    && (HasRange(m) <==> HasRange(l)) && SameRange(l, m)
    && !m.AssignCas? && !m.AssignStore? && !l.AssignStore?
  }

  lemma ApartInherited(l: Local, m: Local, other: Local)
    requires Inherits(l, m) && Apart(l, other) && Apart(other, l)
    ensures Apart(m, other) && Apart(other, m)
  {
  }

  /** A step that changes no shared variable keeps the invariant if the thread's own new place is right. */
  lemma LocalStep(s: State, t: ThreadId, l: Local)
    requires Inv(s) && t in s.threads && Inherits(s.threads[t], l) && ThreadOk(s, l)
    ensures Inv(Go(s, t, l))
  {
    forall u | u in s.threads && u != t
      ensures Apart(l, s.threads[u]) && Apart(s.threads[u], l)
    {
      ApartInherited(s.threads[t], l, s.threads[u]);
    }
    NewPlace(s, t, l);
  }

  lemma NewPlace(s: State, t: ThreadId, l: Local)
    requires Inv(s) && ThreadOk(s, l)
    requires !l.AssignStore? && (t in s.threads ==> !s.threads[t].AssignStore? && SameRange(s.threads[t], l))
    requires forall u :: u in s.threads && u != t ==> Apart(l, s.threads[u]) && Apart(s.threads[u], l)
    ensures Inv(Go(s, t, l))
  {
    var s' := Go(s, t, l);
    assert View(s') == View(s);
    SameViewKept(s, s');
    AddingStep(s, s', t, l);
    CoveredKept(s, s');
  }

  /** What one thread adds to the shared variables leaves every other thread in place. */
  lemma AddingStep(s: State, s': State, t: ThreadId, l: Local)
    requires Inv(s) && Extends(s, s') && s'.threads == s.threads[t := l]
    requires s'.foreign == s.foreign && ThreadOk(s', l)
    requires !l.AssignStore? && (t in s.threads ==> !s.threads[t].AssignStore?)
    requires forall u :: u in s.threads && u != t ==>
      && Apart(l, s.threads[u]) && Apart(s.threads[u], l)
      && (s.threads[u].Fill? ==>
            forall i :: s.threads[u].start + s.threads[u].filled <= i < s.threads[u].start + s.threads[u].len ==> i !in s'.storage)
    ensures ThreadsOk(s')
  {
    forall u | u in s'.threads
      ensures ThreadOk(s', s'.threads[u])
    {
      if u != t {
        ThreadStaysOk(s, s', s.threads[u]);
      }
    }
    assert forall u :: u in s.threads && s.threads[u].AssignStore? ==> s'.threads[u].AssignStore?;
  }

  lemma SameViewKept(s: State, s': State)
    requires IdentityOk(s) && RecordsOk(s) && View(s') == View(s)
    requires s'.stamps == s.stamps && s'.birth == s.birth && s'.current == s.current && s'.wins == s.wins && s'.foreign == s.foreign
    requires s'.issues == s.issues && s'.captures == s.captures && (s.current == 0 ==> s'.reserved == 0)
    ensures IdentityOk(s') && RecordsOk(s')
  {
  }

  lemma LocalLeave(s: State, t: ThreadId)
    requires Inv(s) && t in s.threads && !s.threads[t].AssignStore?
    requires HasRange(s.threads[t]) ==> s.threads[t].start + s.threads[t].len <= s.published
    ensures Inv(Leave(s, t))
  {
    var s' := Leave(s, t);
    assert View(s') == View(s);
    forall u | u in s'.threads
      ensures ThreadOk(s', s'.threads[u])
    {
      ThreadStaysOk(s, s', s'.threads[u]);
    }
    CoveredKept(s, s');
    assert forall u :: u in s.threads && s.threads[u].AssignStore? ==> u in s'.threads;
  }

  /** A stamp drawn now is unlike any this arena holds, has discarded, or is about to offer. */
  lemma DrawKeepsInv(s: State, t: ThreadId)
    requires Inv(s) && Draw(s.stamps, t).Drawn?
    ensures var Drawn(stamp, stamps) := Draw(s.stamps, t);
      && Inv(s.(stamps := stamps)) && stamp !in s.stamps.issued && stamp in stamps.issued
      && stamp !in StampsOf(View(s)) && stamp !in s.foreign
      && forall u :: u in s.threads && s.threads[u].AssignCas? ==> s.threads[u].mine != stamp
  {
    DrawIsFresh(s.stamps, t);
    var Drawn(stamp, stamps) := Draw(s.stamps, t);
    var s' := s.(stamps := stamps);
    assert View(s') == View(s);
    forall u | u in s'.threads
      ensures ThreadOk(s', s'.threads[u])
    {
      ThreadStaysOk(s, s', s'.threads[u]);
    }
    CoveredKept(s, s');
  }

  lemma AssignFreshKeepsInv(s: State, t: ThreadId)
    requires Inv(s) && t in s.threads && s.threads[t].AssignFresh?
    ensures Inv(StepThread(s, t))
  {
    if Draw(s.stamps, t).Drawn? {
      var Drawn(stamp, stamps) := Draw(s.stamps, t);
      DrawKeepsInv(s, t);
      NewPlace(s.(stamps := stamps), t, AssignCas(s.threads[t].task, stamp));
    } else {
      LocalLeave(s, t);
    }
  }

  /** Before the first win every other thread is still looking for an identity. */
  lemma OthersAcrossWin(s: State, t: ThreadId, u: ThreadId)
    requires Inv(s) && t in s.threads && s.threads[t].AssignCas? && s.birth == 0 && u in s.threads && u != t
    requires View(StepThread(s, t)).birth == Some(s.threads[t].mine)
    ensures ThreadOk(StepThread(s, t), s.threads[u])
    ensures !HasRange(s.threads[u]) && !s.threads[u].AssignStore?
  {
    assert Apart(s.threads[t], s.threads[u]);
    assert ThreadOk(s, s.threads[u]);
  }

  /** The one winner installs its stamp as the birth stamp. */
  lemma CasWinKeepsInv(s: State, t: ThreadId)
    requires Inv(s) && t in s.threads && s.threads[t].AssignCas? && s.birth == 0
    ensures Inv(StepThread(s, t))
  {
    var mine := s.threads[t].mine;
    var s' := StepThread(s, t);
    assert ThreadOk(s, s.threads[t]);
    assert View(s) == EmptyView();
    assert View(s') == View(s).(birth := Some(mine));
    assert StampsOf(View(s')) == {mine};
    forall u | u in s.threads && u != t
      ensures ThreadOk(s', s.threads[u])
      ensures Apart(s'.threads[t], s.threads[u]) && Apart(s.threads[u], s'.threads[t])
    {
      assert Apart(s.threads[t], s.threads[u]) && Apart(s.threads[u], s.threads[t]);
      OthersAcrossWin(s, t, u);
    }
    assert s'.threads[t].AssignStore?;
  }

  lemma DiscardKeepsInv(s: State, x: Stamp)
    requires Inv(s) && x in s.stamps.issued && x !in StampsOf(View(s))
    requires forall u :: u in s.threads && s.threads[u].AssignCas? ==> s.threads[u].mine != x
    ensures Inv(s.(foreign := s.foreign + {x}))
  {
    var s' := s.(foreign := s.foreign + {x});
    assert View(s') == View(s);
    forall u | u in s'.threads
      ensures ThreadOk(s', s'.threads[u])
    {
      ThreadStaysOk(s, s', s'.threads[u]);
    }
    CoveredKept(s, s');
  }

  /** A loser's stamp is discarded, and it waits for the winner's. */
  lemma CasLossKeepsInv(s: State, t: ThreadId)
    requires Inv(s) && t in s.threads && s.threads[t].AssignCas? && s.birth != 0
    ensures Inv(StepThread(s, t))
  {
    var l := s.threads[t];
    assert ThreadOk(s, l);
    var s1 := Go(s, t, AssignSpin(l.task));
    LocalStep(s, t, AssignSpin(l.task));
    assert View(s1) == View(s);
    forall u | u in s1.threads && s1.threads[u].AssignCas?
      ensures s1.threads[u].mine != l.mine
    {
      assert Apart(l, s.threads[u]);
    }
    DiscardKeepsInv(s1, l.mine);
  }

  lemma OthersAcrossStore(s: State, t: ThreadId, u: ThreadId)
    requires Inv(s) && t in s.threads && s.threads[t].AssignStore? && u in s.threads && u != t
    requires View(StepThread(s, t)) == View(s)
    ensures ThreadOk(StepThread(s, t), s.threads[u])
    ensures Apart(AssignSpin(s.threads[t].task), s.threads[u]) && Apart(s.threads[u], AssignSpin(s.threads[t].task))
  {
    assert Apart(s.threads[t], s.threads[u]) && Apart(s.threads[u], s.threads[t]);
    assert ThreadOk(s, s.threads[t]) && ThreadOk(s, s.threads[u]);
  }

  /** The winner publishes its stamp as current: nothing was allocated or committed before it. */
  lemma AssignStoreKeepsInv(s: State, t: ThreadId)
    requires Inv(s) && t in s.threads && s.threads[t].AssignStore?
    ensures Inv(StepThread(s, t))
  {
    var s' := StepThread(s, t);
    assert ThreadOk(s, s.threads[t]);
    assert View(s') == View(s);
    forall u | u in s.threads && u != t
      ensures ThreadOk(s', s.threads[u])
      ensures Apart(s'.threads[t], s.threads[u]) && Apart(s.threads[u], s'.threads[t])
    {
      OthersAcrossStore(s, t, u);
    }
    assert ThreadOk(s', s'.threads[t]);
  }

  lemma RecordedKeepsInv(s: State, owner: Stamp, len: nat, tail: Option<Stamp>)
    requires Inv(s) && s.birth == owner && len <= s.published
    requires tail == if len == 0 then None else Some(Owner(owner, s.history, len - 1))
    ensures Inv(Recorded(s, owner, len, tail))
  {
    var s' := Recorded(s, owner, len, tail);
    assert View(s') == View(s);
    SnapshotIsOk(View(s), len);
    assert s'.captures == s.captures + {Snapshot(View(s), len)};
    forall u | u in s'.threads
      ensures ThreadOk(s', s'.threads[u])
    {
      ThreadStaysOk(s, s', s'.threads[u]);
    }
    CoveredKept(s, s');
  }

  lemma AssignSpinKeepsInv(s: State, t: ThreadId)
    requires Inv(s) && t in s.threads && s.threads[t].AssignSpin?
    ensures Inv(StepThread(s, t))
  {
    if s.current != 0 {
      match s.threads[t].task
      case ForAlloc(call, len) => LocalStep(s, t, Reserve(call, len, s.current));
      case ForCheckpoint(len, tail) =>
        RecordedKeepsInv(s, s.current, len, tail);
        LocalLeave(Recorded(s, s.current, len, tail), t);
    }
  }

  /** The reserved range is new: above everything filled and every other range. */
  lemma ReserveKeepsInv(s: State, t: ThreadId)
    requires Inv(s) && t in s.threads && s.threads[t].Reserve?
    ensures Inv(StepThread(s, t))
  {
    var Reserve(call, len, stamp) := s.threads[t];
    if s.reserved + len > USIZE_MAX {
      LocalLeave(s, t);
    } else {
      assert ThreadOk(s, s.threads[t]);
      var s' := StepThread(s, t);
      assert View(s') == View(s);
      SameViewKept(s, s');
      forall u | u in s.threads && u != t
        ensures Apart(s'.threads[t], s.threads[u]) && Apart(s.threads[u], s'.threads[t])
      {
        assert Apart(s.threads[t], s.threads[u]) && Apart(s.threads[u], s.threads[t]) && ThreadOk(s, s.threads[u]);
      }
      AddingStep(s, s', t, s'.threads[t]);
      forall i: nat | s'.published <= i < s'.reserved
        ensures Covered(s', i)
      {
        if i < s.reserved {
          assert Covered(s, i);
          var u :| Covers(s, u, i);
          assert Covers(s', u, i);
        } else {
          assert Covers(s', t, i);
        }
      }
    }
  }

  /** The reserved slot is free: the assertion in `alloc` and `alloc_block` cannot fail. */
  lemma ReservedSlotIsFree(s: State, t: ThreadId)
    requires Inv(s) && t in s.threads && s.threads[t].Fill?
    ensures s.threads[t].start + s.threads[t].filled !in s.storage
    ensures s.threads[t].start + s.threads[t].filled < USIZE_MAX
  {
    var l := s.threads[t];
    assert ThreadOk(s, l);
    assert l.start <= l.start + l.filled < l.start + l.len;
  }

  lemma FillAdvances(s: State, t: ThreadId)
    requires t in s.threads && s.threads[t].Fill? && ThreadOk(s, s.threads[t])
    ensures var s', l := StepThread(s, t), s.threads[t];
      && s'.storage == s.storage[l.start + l.filled := Token(l.call, l.filled)]
      && Extends(s, s') && ThreadOk(s', s'.threads[t]) && Inherits(l, s'.threads[t])
  {
    var l := s.threads[t];
    assert l.start <= l.start + l.filled < l.start + l.len;
  }

  lemma FillAdds(s: State, t: ThreadId)
    requires Inv(s) && t in s.threads && s.threads[t].Fill?
    ensures var s', l := StepThread(s, t), s.threads[t];
      && s'.storage == s.storage[l.start + l.filled := Token(l.call, l.filled)]
      && Extends(s, s') && ThreadOk(s', s'.threads[t]) && Inherits(l, s'.threads[t])
      && SlotsOk(s') && View(s') == View(s)
  {
    ReservedSlotIsFree(s, t);
    assert ThreadOk(s, s.threads[t]);
    FillAdvances(s, t);
    CoveredKept(s, StepThread(s, t));
  }

  lemma FillKeepsInv(s: State, t: ThreadId)
    requires Inv(s) && t in s.threads && s.threads[t].Fill?
    ensures Inv(StepThread(s, t))
  {
    var l, s' := s.threads[t], StepThread(s, t);
    var slot := l.start + l.filled;
    FillAdds(s, t);
    assert ThreadOk(s, l);
    SameViewKept(s, s');
    forall u | u in s.threads && u != t
      ensures Apart(s'.threads[t], s.threads[u]) && Apart(s.threads[u], s'.threads[t])
      ensures HasRange(s.threads[u]) ==> !(s.threads[u].start <= slot < s.threads[u].start + s.threads[u].len)
    {
      assert Apart(l, s.threads[u]) && Apart(s.threads[u], l);
      ApartInherited(l, s'.threads[t], s.threads[u]);
    }
    forall u | u in s.threads && u != t && s.threads[u].Fill?
      ensures forall i :: s.threads[u].start + s.threads[u].filled <= i < s.threads[u].start + s.threads[u].len ==> i !in s'.storage
    {
      assert ThreadOk(s, s.threads[u]);
    }
    AddingStep(s, s', t, s'.threads[t]);
  }

  /** The handles a call returns are what its slots' owner certifies. */
  lemma ReturnedHandles(s: State, t: ThreadId, k: nat)
    requires Inv(s) && t in s.threads && s.threads[t].AdvanceLoad?
    requires s.published >= s.threads[t].start + s.threads[t].len && k < s.threads[t].len
    ensures var l := s.threads[t];
      && View(s).items[l.start + k] == Token(l.call, k)
      && Issue(Handle(l.stamp, l.start + k), Token(l.call, k), |s.history|) == Mint(View(s), l.start + k)
      && IssueOk(View(s), Mint(View(s), l.start + k))
  {
    var l := s.threads[t];
    assert ThreadOk(s, l);
    CurrentOwnsFromStart(s.birth, s.history, l.start + k);
    MintIsOk(View(s), l.start + k);
  }

  lemma BlockIssuesAreOk(s: State, t: ThreadId)
    requires Inv(s) && t in s.threads && s.threads[t].AdvanceLoad?
    requires s.published >= s.threads[t].start + s.threads[t].len
    ensures var AdvanceLoad(call, len, stamp, start) := s.threads[t];
      forall r :: r in BlockIssues(s, call, len, stamp, start) ==> IssueOk(View(s), r)
  {
    var AdvanceLoad(call, len, stamp, start) := s.threads[t];
    forall r | r in BlockIssues(s, call, len, stamp, start)
      ensures IssueOk(View(s), r)
    {
      var k :| 0 <= k < len && r == Issue(Handle(stamp, start + k), Token(call, k), |s.history|);
      ReturnedHandles(s, t, k);
    }
  }

  lemma ReturnKeepsInv(s: State, t: ThreadId)
    requires Inv(s) && t in s.threads && s.threads[t].AdvanceLoad?
    requires s.published >= s.threads[t].start + s.threads[t].len
    ensures Inv(StepThread(s, t))
  {
    var AdvanceLoad(call, len, stamp, start) := s.threads[t];
    assert ThreadOk(s, s.threads[t]);
    BlockIssuesAreOk(s, t);
    LocalLeave(s, t);
    assert View(Leave(s, t)) == View(s);
    IssuesKeepInv(Leave(s, t), BlockIssues(s, call, len, stamp, start), s.returned[call := len]);
  }

  lemma IssuesKeepInv(s: State, minted: set<Issue<Token>>, returned: map<nat, nat>)
    requires Inv(s) && s.birth != 0 && forall r :: r in minted ==> IssueOk(View(s), r)
    ensures Inv(s.(issues := s.issues + minted, returned := returned))
  {
    var s' := s.(issues := s.issues + minted, returned := returned);
    assert View(s') == View(s);
    forall u | u in s'.threads
      ensures ThreadOk(s', s'.threads[u])
    {
      ThreadStaysOk(s, s', s'.threads[u]);
    }
    CoveredKept(s, s');
  }

  /** Publishing moves the prefix over a filled slot, however old the load was that led here. */
  lemma PublishKeepsInv(s: State, t: ThreadId)
    requires Inv(s) && t in s.threads && s.threads[t].AdvanceCas? && s.threads[t].seen == s.published
    ensures s.published in s.storage && s.published < s.reserved
    ensures View(s.(published := s.published + 1)) == Apply(View(s), Push(s.storage[s.published]))
    ensures Inv(s.(published := s.published + 1))
  {
    assert ThreadOk(s, s.threads[t]);
    var s1 := s.(published := s.published + 1);
    var e := Push(s.storage[s.published]);
    assert View(s1) == Apply(View(s), e);
    WellFormedKept(View(s), e);
    StampsOfApply(View(s), e);
    forall r | r in s1.issues
      ensures IssueOk(View(s1), r)
    {
      IssueKept(View(s), e, r);
    }
    forall c | c in s1.captures
      ensures CaptureOk(View(s1), c)
    {
      CaptureKept(View(s), e, c);
    }
    forall u | u in s1.threads
      ensures ThreadOk(s1, s1.threads[u])
    {
      ThreadStaysOk(s, s1, s1.threads[u]);
    }
    CoveredKept(s, s1);
  }

  lemma AdvanceLoadKeepsInv(s: State, t: ThreadId)
    requires Inv(s) && t in s.threads && s.threads[t].AdvanceLoad?
    ensures Inv(StepThread(s, t))
  {
    var AdvanceLoad(call, len, stamp, start) := s.threads[t];
    assert ThreadOk(s, s.threads[t]);
    if s.published >= start + len {
      ReturnKeepsInv(s, t);
    } else {
      LocalStep(s, t, AdvanceCheck(call, len, stamp, start, s.published));
    }
  }

  lemma AdvanceCheckKeepsInv(s: State, t: ThreadId)
    requires Inv(s) && t in s.threads && s.threads[t].AdvanceCheck?
    ensures Inv(StepThread(s, t))
  {
    var AdvanceCheck(call, len, stamp, start, seen) := s.threads[t];
    assert ThreadOk(s, s.threads[t]);
    if seen in s.storage {
      LocalStep(s, t, AdvanceCas(call, len, stamp, start, seen));
    } else {
      LocalStep(s, t, AdvanceLoad(call, len, stamp, start));
    }
  }

  lemma AdvanceCasKeepsInv(s: State, t: ThreadId)
    requires Inv(s) && t in s.threads && s.threads[t].AdvanceCas?
    ensures Inv(StepThread(s, t))
  {
    var AdvanceCas(call, len, stamp, start, seen) := s.threads[t];
    assert ThreadOk(s, s.threads[t]);
    if s.published == seen {
      PublishKeepsInv(s, t);
      var s1 := s.(published := seen + 1);
      assert ThreadOk(s1, s1.threads[t]);
      LocalStep(s1, t, AdvanceLoad(call, len, stamp, start));
    } else {
      LocalStep(s, t, AdvanceLoad(call, len, stamp, start));
    }
  }

  /** The tail is always there to be read, and it is the owner of the last slot. */
  lemma LoadTailReads(s: State, t: ThreadId)
    requires IdentityOk(s) && SlotsOk(s) && t in s.threads && s.threads[t].LoadTail? && ThreadOk(s, s.threads[t])
    ensures NonZero(s.birth)
    ensures StepThread(s, t) == Go(s, t, LoadBirth(s.threads[t].len, Some(Owner(s.birth, s.history, s.threads[t].len - 1))))
  {
    var len := s.threads[t].len;
    if CurrentStart(s.history) < len {
      CurrentOwnsFromStart(s.birth, s.history, len - 1);
    }
  }

  lemma LoadTailKeepsInv(s: State, t: ThreadId)
    requires Inv(s) && t in s.threads && s.threads[t].LoadTail?
    ensures Inv(StepThread(s, t))
  {
    var len := s.threads[t].len;
    assert ThreadOk(s, s.threads[t]);
    LoadTailReads(s, t);
    LocalStep(s, t, LoadBirth(len, Some(Owner(s.birth, s.history, len - 1))));
  }

  lemma LoadBirthKeepsInv(s: State, t: ThreadId)
    requires Inv(s) && t in s.threads && s.threads[t].LoadBirth?
    ensures Inv(StepThread(s, t))
  {
    var LoadBirth(len, tail) := s.threads[t];
    assert ThreadOk(s, s.threads[t]);
    if s.birth != 0 {
      RecordedKeepsInv(s, s.birth, len, tail);
      LocalLeave(Recorded(s, s.birth, len, tail), t);
    } else {
      LocalStep(s, t, AssignFresh(ForCheckpoint(len, tail)));
    }
  }

  lemma StepKeepsInv(s: State, t: ThreadId)
    requires Inv(s)
    ensures Inv(StepThread(s, t))
  {
    if t in s.threads {
      match s.threads[t]
      case LoadCurrent(call, len) =>
        LocalStep(s, t, if s.current != 0 then Reserve(call, len, s.current) else AssignFresh(ForAlloc(call, len)));
      case AssignFresh(_) => AssignFreshKeepsInv(s, t);
      case AssignCas(_, _) => if s.birth == 0 { CasWinKeepsInv(s, t); } else { CasLossKeepsInv(s, t); }
      case AssignStore(_, _) => AssignStoreKeepsInv(s, t);
      case AssignSpin(_) => AssignSpinKeepsInv(s, t);
      case Reserve(_, _, _) => ReserveKeepsInv(s, t);
      case Fill(_, _, _, _, _) => FillKeepsInv(s, t);
      case AdvanceLoad(_, _, _, _) => AdvanceLoadKeepsInv(s, t);
      case AdvanceCheck(_, _, _, _, _) => AdvanceCheckKeepsInv(s, t);
      case AdvanceCas(_, _, _, _, _) => AdvanceCasKeepsInv(s, t);
      case LoadLen => LocalStep(s, t, if s.published == 0 then LoadBirth(0, None) else LoadTail(s.published));
      case LoadTail(_) => LoadTailKeepsInv(s, t);
      case LoadBirth(_, _) => LoadBirthKeepsInv(s, t);
    }
  }

  lemma NewCallIsApart(s: State, l: Local, m: Local)
    requires ThreadOk(s, m) && l.LoadCurrent? && l.call == s.calls
    ensures Apart(l, m) && Apart(m, l)
  {
    assert CallOf(m).Some? ==> CallOf(m).value < s.calls;
  }

  lemma BeginAllocKeepsInv(s: State, t: ThreadId, len: nat)
    requires Inv(s) && t !in s.threads && 0 < len
    ensures Inv(Do(s, BeginAlloc(t, len)))
  {
    var s' := Do(s, BeginAlloc(t, len));
    assert View(s') == View(s);
    SameViewKept(s, s');
    forall u | u in s.threads
      ensures Apart(s'.threads[t], s.threads[u]) && Apart(s.threads[u], s'.threads[t])
    {
      NewCallIsApart(s, s'.threads[t], s.threads[u]);
    }
    AddingStep(s, s', t, s'.threads[t]);
    CoveredKept(s, s');
  }

  /** No allocation is between its reservation and its return; checkpoints and other calls may be running. */
  predicate NoRange(s: State) {
    forall t :: t in s.threads ==> !HasRange(s.threads[t])
  }

  /** Whenever no allocation is in flight, the counters agree and the occupied slots are exactly the published ones. */
  lemma Quiescent(s: State)
    requires Inv(s) && NoRange(s)
    ensures s.published == s.reserved
    ensures forall i :: i in s.storage <==> 0 <= i < s.published
  {
    assert s.published < s.reserved ==> Covered(s, s.published);
  }

  /** An exclusive commit finds the counters agreeing, and every earlier handle and checkpoint survives it. */
  lemma CutKeepsInv(s: State, t: ThreadId, len: nat, keep: nat, past: Past<Token>)
    requires Inv(s) && s.threads == map[] && s.birth != 0 && len <= keep <= s.published && Draw(s.stamps, t).Drawn?
    ensures var Drawn(stamp, stamps) := Draw(s.stamps, t);
      Inv(CutState(s, len, keep, stamp, stamps, past))
  {
    Quiescent(s);
    DrawKeepsInv(s, t);
    var Drawn(stamp, stamps) := Draw(s.stamps, t);
    var s' := CutState(s, len, keep, stamp, stamps, past);
    DrawIsFresh(s.stamps, t);
    var e := Cut(len, keep, stamp);
    assert View(s') == Apply(View(s), e);
    WellFormedKept(View(s), e);
    StampsOfApply(View(s), e);
    forall r | r in s'.issues
      ensures IssueOk(View(s'), r)
    {
      IssueKept(View(s), e, r);
    }
    forall c | c in s'.captures
      ensures CaptureOk(View(s'), c)
    {
      CaptureKept(View(s), e, c);
    }
  }

  lemma ExclusiveKeepsInv(s: State, t: ThreadId, len: nat, panics: set<nat>)
    requires Inv(s)
    ensures Inv(Exclusive(s, t, len, panics))
  {
    if s.threads == map[] && s.birth != 0 && len <= s.published && Draw(s.stamps, t).Drawn? {
      var keep := StopAt(s.published, len, panics);
      CutKeepsInv(s, t, len, keep, AfterDrops(s.past, View(s).items, keep));
    }
  }

  lemma DrainKeepsInv(s: State, t: ThreadId)
    requires Inv(s)
    ensures Inv(DrainAll(s, t))
  {
    if s.threads == map[] && s.birth != 0 && Draw(s.stamps, t).Drawn? {
      CutKeepsInv(s, t, 0, 0, AfterDrain(s.past, View(s).items));
    }
  }

  lemma BeginCheckpointKeepsInv(s: State, t: ThreadId)
    requires Inv(s)
    ensures Inv(Do(s, BeginCheckpoint(t)))
  {
    if t !in s.threads {
      NewPlace(s, t, LoadLen);
    }
  }

  lemma SpuriousFailureKeepsInv(s: State, t: ThreadId)
    requires Inv(s)
    ensures Inv(SpuriousFailure(s, t))
  {
    if t in s.threads && s.threads[t].AdvanceCas? {
      var l := s.threads[t];
      assert ThreadOk(s, l);
      LocalStep(s, t, AdvanceLoad(l.call, l.len, l.stamp, l.start));
    }
  }

  lemma IterNextKeepsInv(s: State, pos: nat)
    requires Inv(s)
    ensures Inv(Do(s, IterNext(pos)))
  {
    if pos < s.published && NonZero(s.birth) {
      MintIsOk(View(s), pos);
      IssuesKeepInv(s, {Mint(View(s), pos)}, s.returned);
    }
  }

  lemma DrawElsewhereKeepsInv(s: State, t: ThreadId)
    requires Inv(s)
    ensures Inv(Do(s, DrawElsewhere(t)))
  {
    if Draw(s.stamps, t).Drawn? {
      DrawKeepsInv(s, t);
      var Drawn(stamp, stamps) := Draw(s.stamps, t);
      assert View(s.(stamps := stamps)) == View(s);
      DiscardKeepsInv(s.(stamps := stamps), stamp);
    }
  }

  lemma DoKeepsInv(s: State, a: Action)
    requires Inv(s)
    ensures Inv(Do(s, a))
  {
    match a
    case BeginAlloc(t, len) =>
      if t !in s.threads && 0 < len {
        BeginAllocKeepsInv(s, t, len);
      }
    case BeginCheckpoint(t) => BeginCheckpointKeepsInv(s, t);
    case Step(t) => StepKeepsInv(s, t);
    case FailSpuriously(t) => SpuriousFailureKeepsInv(s, t);
    case IterNext(pos) => IterNextKeepsInv(s, pos);
    case DrawElsewhere(t) => DrawElsewhereKeepsInv(s, t);
    case ExclusiveRollback(t, cp, panics) => ExclusiveKeepsInv(s, t, cp.len, panics);
    case ExclusiveReset(t, panics) => ExclusiveKeepsInv(s, t, 0, panics);
    case ExclusiveDrain(t) => DrainKeepsInv(s, t);
  }

  lemma InitialInv()
    ensures Inv(INITIAL)
  {
    assert View(INITIAL) == EmptyView();
  }

  /** The state after any interleaving of any number of threads. */
  function Run(actions: seq<Action>): State {
    if actions == [] then INITIAL else Do(Run(actions[..|actions| - 1]), actions[|actions| - 1])
  }

  lemma {:induction false} InvInEveryRun(actions: seq<Action>)
    ensures Inv(Run(actions))
  {
    if actions == [] {
      InitialInv();
    } else {
      InvInEveryRun(actions[..|actions| - 1]);
      DoKeepsInv(Run(actions[..|actions| - 1]), actions[|actions| - 1]);
    }
  }
}
