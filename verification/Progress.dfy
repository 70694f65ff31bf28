// Publication is cooperative, so it may wait; it never waits for nothing. Some schedule always
// completes every call in flight.
module Progress {
  import opened Options
  import opened Stamps
  import opened History
  import opened Blocks
  import opened Protocol
  import opened Guarantees
  import opened Conservation
  import opened Calls

  // ---- no step loses ground ----

  /** Reserved slots still empty, and reserved slots still unpublished. */
  function Unfilled(s: State): int {
    s.reserved - |s.storage|
  }

  function Unpublished(s: State): int {
    s.reserved - s.published
  }

  /**
   * A step that reserves nothing increases neither count; filling a slot lowers the first, and the
   * exchange that publishes lowers the second.
   */
  lemma NoStepLosesGround(s: State, t: ThreadId)
    requires Inv(s) && t in s.threads && !s.threads[t].Reserve?
    ensures var s' := StepThread(s, t);
      && Unfilled(s') == Unfilled(s) - (if s.threads[t].Fill? then 1 else 0)
      && Unpublished(s') == Unpublished(s) - (if EventOf(s, Step(t)).Some? && EventOf(s, Step(t)).value.Push? then 1 else 0)
  {
    if s.threads[t].Fill? {
      FillAdds(s, t);
    } else {
      StepKeepsCounts(s, t);
    }
  }

  lemma StepKeepsCounts(s: State, t: ThreadId)
    requires t in s.threads && !s.threads[t].Reserve? && !s.threads[t].Fill?
    ensures var s' := StepThread(s, t);
      && s'.reserved == s.reserved && s'.storage == s.storage
      && s'.published == if EventOf(s, Step(t)).Some? && EventOf(s, Step(t)).value.Push? then s.published + 1 else s.published
  {
    match s.threads[t]
    case LoadCurrent(_, _) =>
    case AssignFresh(_) =>
    case AssignCas(_, _) =>
    case AssignStore(_, _) =>
    case AssignSpin(_) =>
    case AdvanceLoad(_, _, _, _) =>
    case AdvanceCheck(_, _, _, _, _) =>
    case AdvanceCas(_, _, _, _, _) =>
    case LoadLen =>
    case LoadTail(_) =>
    case LoadBirth(_, _) =>
  }

  /**
   * A thread that waits to be published is held up by one thing only: the slot at the published mark,
   * at or below its own last one, is empty, and another call is about to fill it.
   */
  lemma WaitingIsJustified(s: State, t: ThreadId) returns (u: ThreadId)
    requires Inv(s) && t in s.threads && s.threads[t].AdvanceLoad?
    requires s.published < s.threads[t].start + s.threads[t].len && s.published !in s.storage
    ensures u != t && Covers(s, u, s.published) && s.threads[u].Fill?
    ensures s.threads[u].start + s.threads[u].filled <= s.published
  {
    assert ThreadOk(s, s.threads[t]);
    u := SlotHasOneCall(s, s.published);
  }

  // ---- some schedule completes everything ----

  /** Only steps of the threads in flight: no new call, no exclusive operation, no spurious failure. */
  function Exec(s: State, schedule: seq<ThreadId>): State
    decreases |schedule|
  {
    if schedule == [] then s else Exec(StepThread(s, schedule[0]), schedule[1..])
  }

  lemma ExecStep(s: State, t: ThreadId, rest: seq<ThreadId>)
    ensures Exec(s, [t] + rest) == Exec(StepThread(s, t), rest)
  {
    assert ([t] + rest)[1..] == rest;
  }

  lemma {:induction false} ExecConcat(s: State, a: seq<ThreadId>, b: seq<ThreadId>)
    ensures Exec(s, a + b) == Exec(Exec(s, a), b)
    decreases |a|
  {
    if a == [] {
      assert a + b == b;
    } else {
      var t, rest := a[0], a[1..];
      assert a + b == [t] + (rest + b) && a == [t] + rest;
      ExecStep(s, t, rest + b);
      ExecStep(s, t, rest);
      ExecConcat(StepThread(s, t), rest, b);
    }
  }

  /** All that is left for the thread is to see its range published. */
  predicate Advancing(l: Local) {
    l.AdvanceLoad? || l.AdvanceCheck? || l.AdvanceCas?
  }

  /** Nobody holds an identity half assigned. */
  predicate Ready(s: State) {
    s.birth == 0 || s.current != 0
  }

  /** How far a thread is from advancing: first by phase, then by slots to fill. */
  function Phase(l: Local): nat {
    match l
    case LoadLen => 9
    case LoadTail(_) => 8
    case LoadBirth(_, _) => 7
    case LoadCurrent(_, _) => 7
    case AssignFresh(_) => 6
    case AssignCas(_, _) => 5
    case AssignStore(_, _) => 4
    case AssignSpin(_) => 3
    case Reserve(_, _, _) => 2
    case Fill(_, _, _, _, _) => 1
    case _ => 0
  }

  function ToFill(l: Local): int {
    if l.Fill? then l.len - l.filled else 0
  }

  /** `m` is closer to advancing than `l`. */
  predicate Closer(m: Local, l: Local) {
    Phase(m) < Phase(l) || (Phase(m) == Phase(l) && 0 <= ToFill(m) < ToFill(l))
  }

  predicate Assigning(l: Local) {
    l.AssignFresh? || l.AssignCas? || l.AssignStore? || l.AssignSpin?
  }

  lemma AssigningStepCloser(s: State, t: ThreadId)
    requires t in s.threads && ThreadOk(s, s.threads[t]) && s.birth <= U64_MAX && s.current <= U64_MAX
    requires Assigning(s.threads[t]) && (Ready(s) || s.threads[t].AssignStore?)
    ensures var s' := StepThread(s, t);
      if t in s'.threads then (Ready(s') || s'.threads[t].AssignStore?) && Closer(s'.threads[t], s.threads[t]) else Ready(s')
  {
  }

  /** A thread that nobody else keeps from an identity comes closer to advancing with each step, or is done. */
  lemma OneStepCloser(s: State, t: ThreadId)
    requires IdentityOk(s) && SlotsOk(s) && t in s.threads && ThreadOk(s, s.threads[t])
    requires !Advancing(s.threads[t]) && (Ready(s) || s.threads[t].AssignStore?)
    ensures var s' := StepThread(s, t);
      if t in s'.threads then (Ready(s') || s'.threads[t].AssignStore?) && Closer(s'.threads[t], s.threads[t]) else Ready(s')
  {
    if Assigning(s.threads[t]) {
      AssigningStepCloser(s, t);
    } else {
      match s.threads[t] {
        case LoadCurrent(_, _) =>
        case Reserve(_, _, _) =>
        case Fill(_, _, _, _, _) =>
        case LoadLen =>
        case LoadTail(_) => LoadTailReads(s, t);
        case LoadBirth(_, _) =>
      }
    }
  }

  lemma {:induction false} DriveToAdvancing(s: State, t: ThreadId) returns (schedule: seq<ThreadId>)
    requires Inv(s) && t in s.threads && (Ready(s) || s.threads[t].AssignStore?)
    ensures var s' := Exec(s, schedule);
      Inv(s') && Ready(s') && OthersStay(s, s', t) && (t in s'.threads ==> Advancing(s'.threads[t]))
    decreases Phase(s.threads[t]), ToFill(s.threads[t])
  {
    if Advancing(s.threads[t]) {
      schedule := [];
    } else {
      assert ThreadOk(s, s.threads[t]);
      OneStepCloser(s, t);
      StepMovesOnly(s, t);
      StepKeepsInv(s, t);
      var s1 := StepThread(s, t);
      if t in s1.threads {
        var rest := DriveToAdvancing(s1, t);
        schedule := [t] + rest;
        assert schedule[1..] == rest;
      } else {
        schedule := [t];
        assert Exec(s, schedule) == Exec(s1, []);
      }
    }
  }

  function Early(s: State): set<ThreadId> {
    set t | t in s.threads && !Advancing(s.threads[t])
  }

  lemma OneFewerEarly(s: State, s': State, t: ThreadId)
    requires OthersStay(s, s', t) && t in Early(s) && (t in s'.threads ==> Advancing(s'.threads[t]))
    ensures |Early(s')| < |Early(s)|
  {
    assert Early(s') == Early(s) - {t};
  }

  lemma {:induction false} DriveAllToAdvancing(s: State) returns (schedule: seq<ThreadId>)
    requires Inv(s) && Ready(s)
    ensures Inv(Exec(s, schedule)) && Early(Exec(s, schedule)) == {}
    decreases |Early(s)|
  {
    if Early(s) == {} {
      schedule := [];
    } else {
      var t :| t in Early(s);
      var first := DriveToAdvancing(s, t);
      var s1 := Exec(s, first);
      OneFewerEarly(s, s1, t);
      var rest := DriveAllToAdvancing(s1);
      schedule := first + rest;
      ExecConcat(s, first, rest);
    }
  }

  /** Once all threads advance, every reserved slot is filled. */
  lemma AllFilled(s: State)
    requires Inv(s) && Early(s) == {}
    ensures forall i :: 0 <= i < s.reserved ==> i in s.storage
  {
    forall i: nat | s.published <= i < s.reserved
      ensures i in s.storage
    {
      var u := SlotHasOneCall(s, i);
      assert u !in Early(s);
    }
  }

  /** How many steps an advancing thread is from publishing a slot; an outdated load costs it another turn. */
  function Turn(s: State, l: Local): nat {
    match l
    case AdvanceCheck(_, _, _, _, seen) => if seen == s.published then 1 else 4
    case AdvanceCas(_, _, _, _, seen) => if seen == s.published then 0 else 3
    case _ => 2
  }

  /** With the slot at the published mark filled, an advancing thread returns, publishes it, or is a step nearer to that. */
  lemma AdvancingTurn(s: State, t: ThreadId)
    requires t in s.threads && Advancing(s.threads[t]) && ThreadOk(s, s.threads[t])
    requires s.published < s.reserved ==> s.published in s.storage
    ensures var s' := StepThread(s, t);
      && s'.reserved == s.reserved
      && (t in s'.threads ==>
            && Advancing(s'.threads[t])
            && (s.published < s'.published || (s'.published == s.published && Turn(s', s'.threads[t]) < Turn(s, s.threads[t]))))
  {
  }

  lemma AdvancingStep(s: State, t: ThreadId)
    requires Inv(s) && Early(s) == {} && t in s.threads
    ensures var s' := StepThread(s, t);
      && Inv(s') && OthersStay(s, s', t) && s'.reserved == s.reserved && s'.published <= s'.reserved
      && (t in s'.threads ==>
            && Advancing(s'.threads[t])
            && (s.published < s'.published || (s'.published == s.published && Turn(s', s'.threads[t]) < Turn(s, s.threads[t]))))
  {
    assert t !in Early(s);
    AllFilled(s);
    StepKeepsInv(s, t);
    StepMovesOnly(s, t);
    assert ThreadOk(s, s.threads[t]);
    AdvancingTurn(s, t);
  }

  lemma {:induction false} DriveToReturn(s: State, t: ThreadId) returns (schedule: seq<ThreadId>)
    requires Inv(s) && Early(s) == {} && t in s.threads
    ensures var s' := Exec(s, schedule);
      Inv(s') && Early(s') == {} && s'.threads.Keys == s.threads.Keys - {t}
    decreases s.reserved - s.published, Turn(s, s.threads[t])
  {
    AdvancingStep(s, t);
    var s1 := StepThread(s, t);
    forall u | u in s1.threads
      ensures Advancing(s1.threads[u])
    {
      assert u != t ==> u !in Early(s);
    }
    if t in s1.threads {
      var rest := DriveToReturn(s1, t);
      schedule := [t] + rest;
      assert schedule[1..] == rest;
      assert s1.threads.Keys == s.threads.Keys;
    } else {
      schedule := [t];
      assert Exec(s, schedule) == Exec(s1, []);
      assert s1.threads.Keys == s.threads.Keys - {t};
    }
  }

  lemma {:induction false} DriveAllToReturn(s: State) returns (schedule: seq<ThreadId>)
    requires Inv(s) && Early(s) == {}
    ensures Inv(Exec(s, schedule)) && Exec(s, schedule).threads == map[]
    decreases |s.threads.Keys|
  {
    if s.threads.Keys == {} {
      schedule := [];
    } else {
      var t :| t in s.threads.Keys;
      var first := DriveToReturn(s, t);
      var s1 := Exec(s, first);
      assert |s1.threads.Keys| < |s.threads.Keys|;
      var rest := DriveAllToReturn(s1);
      schedule := first + rest;
      ExecConcat(s, first, rest);
    }
  }

  // ---- completing means delivering ----

  ghost predicate Sane(s: State) {
    Inv(s) && TokensOk(s) && LedgerOk(s)
  }

  lemma StepKeepsSane(s: State, u: ThreadId)
    requires Sane(s)
    ensures Sane(StepThread(s, u))
  {
    DoKeepsInv(s, Step(u));
    TokensKept(s, Step(u));
    LedgerKept(s, Step(u));
  }

  /** A call's inputs are never written again after it returned. */
  lemma ReturnedSlotsStay(s: State, u: ThreadId, call: nat)
    requires Sane(s) && call in s.returned
    ensures var s' := StepThread(s, u);
      && (forall i :: i in s.storage ==> i in s'.storage && s'.storage[i] == s.storage[i])
      && (forall i :: i in s'.storage && i !in s.storage ==> s.published <= i && s'.storage[i].call != call)
      && s.published <= s'.published && s.issues <= s'.issues
      && call in s'.returned && s'.returned[call] == s.returned[call]
  {
    if u in s.threads {
      assert ThreadOk(s, s.threads[u]);
      if s.threads[u].Fill? {
        FillWrites(s, u);
        assert CallOf(s.threads[u]).value !in s.returned;
      } else {
        StepKeepsLedger(s, u);
        StepKeepsCalls(s, u);
        StepKeepsIssues(s, u);
      }
    }
  }

  lemma ValidStays(s: State, u: ThreadId, h: Handle)
    requires Inv(s) && SimpleValid(View(s), h)
    ensures SimpleValid(View(StepThread(s, u)), h) && StepThread(s, u).history == s.history
  {
    StepRefinesHistory(s, Step(u));
    assert View(StepThread(s, u)).history == View(s).history;
  }

  lemma DeliveredStays(s: State, u: ThreadId, call: nat, len: nat, stamp: Stamp, start: nat)
    requires Sane(s) && Delivered(s, call, len, stamp, start)
    ensures Delivered(StepThread(s, u), call, len, stamp, start)
  {
    var s' := StepThread(s, u);
    ReturnedSlotsStay(s, u, call);
    forall k | 0 <= k < len
      ensures HandedOut(s', call, stamp, start, k)
    {
      assert HandedOut(s, call, stamp, start, k);
      ValidStays(s, u, Handle(stamp, start + k));
    }
  }

  /** Thread `t` still holds the range, or its call has delivered. */
  ghost predicate PendingOrDelivered(s: State, t: ThreadId, l: Local)
    requires HasRange(l)
  {
    (t in s.threads && SameClaim(s.threads[t], l)) || Delivered(s, l.call, l.len, l.stamp, l.start)
  }

  predicate SameClaim(m: Local, l: Local)
    requires HasRange(l)
  {
    HasRange(m) && m.call == l.call && m.len == l.len && m.stamp == l.stamp && m.start == l.start
  }

  lemma OwnStepDelivers(s: State, t: ThreadId)
    requires Sane(s) && t in s.threads && HasRange(s.threads[t])
    ensures PendingOrDelivered(StepThread(s, t), t, s.threads[t])
  {
    var l := s.threads[t];
    if l.AdvanceLoad? && l.start + l.len <= s.published {
      StepDelivers(s, t);
    }
  }

  lemma StepKeepsClaim(s: State, u: ThreadId, t: ThreadId, l: Local)
    requires Sane(s) && HasRange(l) && PendingOrDelivered(s, t, l)
    ensures PendingOrDelivered(StepThread(s, u), t, l)
  {
    if Delivered(s, l.call, l.len, l.stamp, l.start) {
      DeliveredStays(s, u, l.call, l.len, l.stamp, l.start);
    } else if u == t {
      OwnStepDelivers(s, t);
    } else if u in s.threads {
      StepMovesOnly(s, u);
    }
  }

  lemma {:induction false} ExecKeepsClaim(s: State, schedule: seq<ThreadId>, t: ThreadId, l: Local)
    requires Sane(s) && HasRange(l) && PendingOrDelivered(s, t, l)
    ensures PendingOrDelivered(Exec(s, schedule), t, l)
    decreases |schedule|
  {
    if schedule == [] {
    } else {
      StepKeepsSane(s, schedule[0]);
      StepKeepsClaim(s, schedule[0], t, l);
      ExecKeepsClaim(StepThread(s, schedule[0]), schedule[1..], t, l);
    }
  }

  /** Some schedule of the threads in flight completes all their calls. */
  lemma Completes(s: State) returns (schedule: seq<ThreadId>)
    requires Inv(s)
    ensures var s' := Exec(s, schedule); s'.threads == map[] && s'.published == s'.reserved
  {
    var first: seq<ThreadId> := [];
    if !Ready(s) {
      var t :| t in s.threads && s.threads[t].AssignStore?;
      first := DriveToAdvancing(s, t);
    }
    var s1 := Exec(s, first);
    var second := DriveAllToAdvancing(s1);
    var s2 := Exec(s1, second);
    var third := DriveAllToReturn(s2);
    schedule := first + (second + third);
    ExecConcat(s, first, second + third);
    ExecConcat(s1, second, third);
    Quiescent(Exec(s2, third));
  }

  // ---- with room left, no call in flight is refused ----

  /** The thread may still have to draw a stamp. */
  predicate MayDraw(l: Local) {
    l.LoadCurrent? || l.AssignFresh? || l.LoadLen? || l.LoadTail? || l.LoadBirth?
  }

  /** The threads that would have to draw from the global counter. */
  function Needy(s: State): set<ThreadId> {
    set t | t in s.threads && MayDraw(s.threads[t]) && PoolOf(s.stamps, t).next == PoolOf(s.stamps, t).end
  }

  /** The counter still has a reservation for each of them. */
  predicate StampsLeft(s: State) {
    s.stamps.nextStamp + LOCAL_RESERVATION_LEN * |Needy(s)| <= U64_MAX
  }

  /** The slots a thread has yet to reserve. */
  function Waiting(threads: map<ThreadId, Local>, t: ThreadId): nat {
    if t in threads && CallOf(threads[t]).Some? && !HasRange(threads[t]) then LenOf(threads[t]) else 0
  }

  /** Those of all threads with a number below `n`. */
  function Wanted(threads: map<ThreadId, Local>, n: nat): nat {
    if n == 0 then 0 else Wanted(threads, n - 1) + Waiting(threads, n - 1)
  }

  /** The slot space still has room for every call in flight. */
  ghost predicate SlotsLeft(s: State) {
    forall n: nat :: s.reserved + Wanted(s.threads, n) <= USIZE_MAX
  }

  ghost predicate Room(s: State) {
    StampsLeft(s) && SlotsLeft(s)
  }

  lemma {:induction false} WantedMonotone(threads: map<ThreadId, Local>, m: nat, n: nat)
    requires m <= n
    ensures Wanted(threads, m) <= Wanted(threads, n)
    decreases n
  {
    if m < n {
      WantedMonotone(threads, m, n - 1);
    }
  }

  lemma {:induction false} WantedAfter(before: map<ThreadId, Local>, after: map<ThreadId, Local>, t: ThreadId, n: nat)
    requires forall u :: u != t ==> Waiting(after, u) == Waiting(before, u)
    ensures Wanted(after, n) + (if t < n then Waiting(before, t) else 0) ==
      Wanted(before, n) + (if t < n then Waiting(after, t) else 0)
  {
    if n > 0 {
      WantedAfter(before, after, t, n - 1);
    }
  }

  lemma StepWaits(s: State, t: ThreadId)
    requires t in s.threads
    ensures var s' := StepThread(s, t);
      && s'.reserved + Waiting(s'.threads, t) <= s.reserved + Waiting(s.threads, t)
      && s.reserved <= s'.reserved
  {
    match s.threads[t]
    case LoadCurrent(_, _) =>
    case AssignFresh(_) =>
    case AssignCas(_, _) =>
    case AssignStore(_, _) =>
    case AssignSpin(_) =>
    case Reserve(_, _, _) =>
    case Fill(_, _, _, _, _) =>
    case AdvanceLoad(_, _, _, _) =>
    case AdvanceCheck(_, _, _, _, _) =>
    case AdvanceCas(_, _, _, _, _) =>
    case LoadLen =>
    case LoadTail(_) =>
    case LoadBirth(_, _) =>
  }

  lemma SlotsStayLeft(s: State, t: ThreadId)
    requires SlotsLeft(s) && t in s.threads
    ensures SlotsLeft(StepThread(s, t))
  {
    var s' := StepThread(s, t);
    StepWaits(s, t);
    StepMovesOnly(s, t);
    forall n: nat
      ensures s'.reserved + Wanted(s'.threads, n) <= USIZE_MAX
    {
      var m := if n <= t then t + 1 else n;
      WantedMonotone(s'.threads, n, m);
      WantedAfter(s.threads, s'.threads, t, m);
      assert s.reserved + Wanted(s.threads, m) <= USIZE_MAX;
    }
  }

  lemma DrawsNoMore(s: State, t: ThreadId)
    requires t in s.threads
    ensures var s' := StepThread(s, t);
      t in s'.threads && MayDraw(s'.threads[t]) ==> MayDraw(s.threads[t])
  {
    match s.threads[t]
    case LoadCurrent(_, _) =>
    case AssignFresh(_) =>
    case AssignCas(_, _) =>
    case AssignStore(_, _) =>
    case AssignSpin(_) =>
    case Reserve(_, _, _) =>
    case Fill(_, _, _, _, _) =>
    case AdvanceLoad(_, _, _, _) =>
    case AdvanceCheck(_, _, _, _, _) =>
    case AdvanceCas(_, _, _, _, _) =>
    case LoadLen =>
    case LoadTail(_) =>
    case LoadBirth(_, _) =>
  }

  lemma SmallerSet(a: set<ThreadId>, b: set<ThreadId>)
    requires a <= b
    ensures |a| <= |b|
  {
    assert b == a + (b - a);
  }

  lemma StampsStayLeft(s: State, t: ThreadId)
    requires StampsLeft(s) && t in s.threads
    ensures StampsLeft(StepThread(s, t))
  {
    var s' := StepThread(s, t);
    DrawsNoMore(s, t);
    StepStamps(s, t);
    StepMovesOnly(s, t);
    if t in Needy(s) && s.threads[t].AssignFresh? && Draw(s.stamps, t).Drawn? {
      assert Needy(s') <= Needy(s) - {t};
      SmallerSet(Needy(s'), Needy(s) - {t});
    } else {
      assert Needy(s') <= Needy(s);
      SmallerSet(Needy(s'), Needy(s));
    }
  }

  lemma NotExhausted(s: State, t: ThreadId)
    requires Inv(s) && Room(s) && t in s.threads
    ensures !Exhausted(s, t)
  {
    DrawIsFresh(s.stamps, t);
    if s.threads[t].AssignFresh? && PoolOf(s.stamps, t).next == PoolOf(s.stamps, t).end {
      assert t in Needy(s);
      SmallerSet({t}, Needy(s));
    }
    assert Wanted(s.threads, t + 1) >= Waiting(s.threads, t);
  }

  ghost predicate HasDelivered(s: State, call: nat, len: nat) {
    exists stamp: Stamp, start: nat :: Delivered(s, call, len, stamp, start)
  }

  /** The call is still the thread's, or has delivered all its values. */
  ghost predicate InFlightOrDelivered(s: State, t: ThreadId, call: nat, len: nat) {
    (t in s.threads && CallOf(s.threads[t]) == Some(call) && LenOf(s.threads[t]) == len) || HasDelivered(s, call, len)
  }

  lemma StepKeepsPromise(s: State, u: ThreadId, t: ThreadId, call: nat, len: nat)
    requires Sane(s) && Room(s) && InFlightOrDelivered(s, t, call, len)
    ensures InFlightOrDelivered(StepThread(s, u), t, call, len)
  {
    if HasDelivered(s, call, len) {
      var stamp: Stamp, start: nat :| Delivered(s, call, len, stamp, start);
      DeliveredStays(s, u, call, len, stamp, start);
    } else if u == t {
      NotExhausted(s, t);
      AllocEnds(s, t);
      if t in StepThread(s, t).threads {
        assert CallOf(StepThread(s, t).threads[t]).Some?;
        StepKeepsLen(s, t);
      }
    } else if u in s.threads {
      StepMovesOnly(s, u);
    }
  }

  lemma {:induction false} ExecKeepsPromise(s: State, schedule: seq<ThreadId>, t: ThreadId, call: nat, len: nat)
    requires Sane(s) && Room(s) && InFlightOrDelivered(s, t, call, len)
    ensures InFlightOrDelivered(Exec(s, schedule), t, call, len)
    decreases |schedule|
  {
    if schedule == [] {
    } else {
      var u := schedule[0];
      StepKeepsSane(s, u);
      StepKeepsPromise(s, u, t, call, len);
      if u in s.threads {
        SlotsStayLeft(s, u);
        StampsStayLeft(s, u);
      }
      ExecKeepsPromise(StepThread(s, u), schedule[1..], t, call, len);
    }
  }

  /** Every call that holds a range in `s` has delivered in `s'`. */
  ghost predicate RangesDelivered(s: State, s': State) {
    forall t :: t in s.threads && HasRange(s.threads[t]) ==>
      var l := s.threads[t]; Delivered(s', l.call, l.len, l.stamp, l.start)
  }

  /** Every allocation in flight in `s` has delivered in `s'` all it was asked for. */
  ghost predicate CallsDelivered(s: State, s': State, asked: seq<nat>) {
    forall t :: t in s.threads && CallOf(s.threads[t]).Some? ==>
      CallOf(s.threads[t]).value < |asked| && HasDelivered(s', CallOf(s.threads[t]).value, asked[CallOf(s.threads[t]).value])
  }

  /**
   * From every reachable state some finite schedule of the threads in flight completes all their
   * calls. Every slot that was reserved is then published, and every call that held a range has
   * delivered: its inputs in order in its own slots, and a valid handle to each. If the stamps and the
   * slots that the calls still ask for are left, every call in flight has delivered all it was asked for.
   */
  lemma CompletionIsReachable(actions: seq<Action>) returns (schedule: seq<ThreadId>)
    ensures var s, s' := Run(actions), Exec(Run(actions), schedule);
      && s'.threads == map[] && s'.published == s'.reserved
      && RangesDelivered(s, s')
      && (Room(s) ==> CallsDelivered(s, s', Asked(actions)))
  {
    var s := Run(actions);
    InvInEveryRun(actions);
    TokensInEveryRun(actions);
    LedgerInEveryRun(actions);
    AskedInEveryRun(actions);
    schedule := Completes(s);
    var s' := Exec(s, schedule);
    forall t | t in s.threads && HasRange(s.threads[t])
      ensures var l := s.threads[t]; Delivered(s', l.call, l.len, l.stamp, l.start)
    {
      ExecKeepsClaim(s, schedule, t, s.threads[t]);
    }
    if Room(s) {
      forall t | t in s.threads && CallOf(s.threads[t]).Some?
        ensures HasDelivered(s', CallOf(s.threads[t]).value, Asked(actions)[CallOf(s.threads[t]).value])
      {
        ExecKeepsPromise(s, schedule, t, CallOf(s.threads[t]).value, LenOf(s.threads[t]));
      }
    }
  }

  // ---- a checkpoint that nothing runs beside ----

  ghost predicate Only(schedule: seq<ThreadId>, t: ThreadId) {
    forall u :: u in schedule ==> u == t
  }

  /** The call is over: everything published is captured, or nothing if a stamp was needed and none was left. */
  ghost predicate CapturedAll(s: State, s': State, t: ThreadId) {
    && t !in s'.threads && View(s').items == View(s).items
    && if s.birth == 0 && Draw(s.stamps, t).SpaceExhausted? then s'.captures == s.captures
       else View(s').birth.Some? && s'.captures == s.captures + {Snapshot(View(s'), s.published)}
  }

  /** From the store of the winning stamp on, two steps finish the checkpoint of an empty arena. */
  lemma FinishAssigned(s: State, t: ThreadId)
    requires Inv(s) && t in s.threads && s.threads[t].AssignStore? && s.threads[t].task.ForCheckpoint?
    requires s.published == 0
    ensures var s' := Exec(s, [t, t]);
      && t !in s'.threads && View(s').items == [] && View(s').birth.Some?
      && s'.captures == s.captures + {Snapshot(View(s'), 0)}
  {
    assert ThreadOk(s, s.threads[t]);
    var s1 := StepThread(s, t);
    var s2 := StepThread(s1, t);
    ExecStep(s, t, [t]);
    ExecStep(s1, t, []);
    assert [t] + [t] == [t, t] && [t] + [] == [t];
  }

  lemma FinishUnassigned(s: State, t: ThreadId) returns (schedule: seq<ThreadId>)
    requires Inv(s) && t in s.threads && s.threads[t].AssignFresh? && s.threads[t].task.ForCheckpoint? && s.birth == 0
    ensures Only(schedule, t) && CapturedAll(s, Exec(s, schedule), t)
  {
    assert ThreadOk(s, s.threads[t]);
    DrawIsFresh(s.stamps, t);
    var s1 := StepThread(s, t);
    if Draw(s.stamps, t).SpaceExhausted? {
      schedule := [t];
      ExecStep(s, t, []);
      assert [t] + [] == [t];
    } else {
      var s2 := StepThread(s1, t);
      StepKeepsInv(s, t);
      StepKeepsInv(s1, t);
      FinishAssigned(s2, t);
      ExecStep(s, t, [t] + [t, t]);
      ExecStep(s1, t, [t, t]);
      schedule := [t] + ([t] + [t, t]);
    }
  }

  lemma FinishBirth(s: State, t: ThreadId) returns (schedule: seq<ThreadId>)
    requires Inv(s) && t in s.threads && s.threads[t].LoadBirth? && s.threads[t].len == s.published
    ensures Only(schedule, t) && CapturedAll(s, Exec(s, schedule), t)
  {
    assert ThreadOk(s, s.threads[t]);
    var s1 := StepThread(s, t);
    if s.birth != 0 {
      assert View(s1) == View(s);
      schedule := [t];
      ExecStep(s, t, []);
      assert [t] + [] == [t];
    } else {
      StepKeepsInv(s, t);
      var rest := FinishUnassigned(s1, t);
      ExecStep(s, t, rest);
      schedule := [t] + rest;
    }
  }

  lemma FinishTail(s: State, t: ThreadId) returns (schedule: seq<ThreadId>)
    requires Inv(s) && t in s.threads && s.threads[t].LoadTail? && s.threads[t].len == s.published
    ensures Only(schedule, t) && CapturedAll(s, Exec(s, schedule), t)
  {
    assert ThreadOk(s, s.threads[t]);
    LoadTailReads(s, t);
    StepKeepsInv(s, t);
    var s1 := StepThread(s, t);
    assert View(s1) == View(s);
    var rest := FinishBirth(s1, t);
    ExecStep(s, t, rest);
    schedule := [t] + rest;
  }

  lemma FinishLen(s: State, t: ThreadId) returns (schedule: seq<ThreadId>)
    requires Inv(s) && t in s.threads && s.threads[t].LoadLen?
    ensures Only(schedule, t) && CapturedAll(s, Exec(s, schedule), t)
  {
    StepKeepsInv(s, t);
    var s1 := StepThread(s, t);
    assert View(s1) == View(s);
    var rest: seq<ThreadId>;
    if s.published == 0 {
      rest := FinishBirth(s1, t);
    } else {
      rest := FinishTail(s1, t);
    }
    ExecStep(s, t, rest);
    schedule := [t] + rest;
  }

  /** In any state of any run, a checkpoint taken while nothing else moves captures all that is published. */
  lemma CheckpointAlone(actions: seq<Action>, t: ThreadId) returns (schedule: seq<ThreadId>)
    ensures var s := Run(actions);
      t !in s.threads ==> Only(schedule, t) && CapturedAll(s, Exec(Do(s, BeginCheckpoint(t)), schedule), t)
  {
    var s := Run(actions);
    schedule := [];
    if t !in s.threads {
      InvInEveryRun(actions);
      DoKeepsInv(s, BeginCheckpoint(t));
      assert View(Do(s, BeginCheckpoint(t))) == View(s);
      schedule := FinishLen(Do(s, BeginCheckpoint(t)), t);
    }
  }
}
