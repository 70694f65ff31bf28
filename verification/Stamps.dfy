// The process-wide stamp allocator: one global counter and one pool of reserved
// values per thread.
module Stamps {
  import opened Options

  const U64_MAX: nat := 0xFFFF_FFFF_FFFF_FFFF
  const LOCAL_RESERVATION_LEN: nat := 256

  /** A non-zero 64-bit value. */
  type Stamp = s: nat | 0 < s <= U64_MAX witness 1

  type ThreadId = nat

  function CheckedAdd(a: nat, b: nat): Option<nat> {
    if a + b <= U64_MAX then Some(a + b) else None
  }

  /** The part [next, end) of a reservation that its thread has not handed out. */
  datatype Pool = Pool(next: nat, end: nat)

  /** `issued` holds every stamp ever returned. */
  datatype StampState = StampState(nextStamp: nat, pools: map<ThreadId, Pool>, issued: set<nat>)

  const NO_STAMPS: StampState := StampState(1, map[], {})

  /** A thread that has not drawn yet has the empty pool. */
  function PoolOf(s: StampState, t: ThreadId): Pool {
    if t in s.pools then s.pools[t] else Pool(0, 0)
  }

  datatype DrawResult =
    | Drawn(stamp: Stamp, state: StampState)
    | SpaceExhausted
    | RangeOverflow  // a failed `expect` on a reservation that succeeded

  /** The reservation a draw hands out from: what is left, or a new one taken from the global counter. */
  function Refill(s: StampState, t: ThreadId): Option<(Pool, nat)> {
    var pool := PoolOf(s, t);
    if pool.next != pool.end then
      Some((pool, s.nextStamp))
    else
      match CheckedAdd(s.nextStamp, LOCAL_RESERVATION_LEN)
      case Some(end) => Some((Pool(s.nextStamp, end), end))
      case None => None
  }

  /** One call of `Stamp::fresh` on thread `t`. */
  function Draw(s: StampState, t: ThreadId): DrawResult {
    match Refill(s, t)
    case None => SpaceExhausted
    case Some((pool, counter)) =>
      match CheckedAdd(pool.next, 1)
      case None => RangeOverflow
      case Some(next) =>
        if pool.next == 0 then RangeOverflow
        else Drawn(pool.next, StampState(counter, s.pools[t := Pool(next, pool.end)], s.issued + {pool.next}))
  }

  /** Between the two states thread `t` drew one stamp, `x`, and it had never been issued. */
  ghost predicate DrewFresh(before: StampState, t: ThreadId, x: nat, after: StampState) {
    && Draw(before, t).Drawn? && Draw(before, t).stamp == x && Draw(before, t).state == after
    && x !in before.issued && after.issued == before.issued + {x}
  }

  predicate Unused(s: StampState, t: ThreadId, x: nat) {
    t in s.pools && s.pools[t].next <= x < s.pools[t].end
  }

  ghost predicate Sound(s: StampState) {
    && 1 <= s.nextStamp <= U64_MAX
    && (forall x :: x in s.issued ==> 0 < x < s.nextStamp)
    && (forall t :: t in s.pools ==> s.pools[t].next <= s.pools[t].end)
    && (forall t: nat, x: nat :: Unused(s, t, x) ==> 0 < x < s.nextStamp && x !in s.issued)
    && (forall t: nat, u: nat, x: nat :: Unused(s, t, x) && Unused(s, u, x) ==> t == u)
  }

  /** Draws of any thread, and threads that end and take their unused values with them. */
  datatype StampOp = Fresh(thread: ThreadId) | ThreadEnds(thread: ThreadId)

  function StampStep(s: StampState, op: StampOp): StampState {
    match op
    case Fresh(t) => var d := Draw(s, t); if d.Drawn? then d.state else s
    case ThreadEnds(t) => s.(pools := s.pools - {t})
  }

  function RunStamps(s: StampState, ops: seq<StampOp>): StampState {
    if ops == [] then s else StampStep(RunStamps(s, ops[..|ops| - 1]), ops[|ops| - 1])
  }

  lemma RefillIsUnused(s: StampState, t: ThreadId)
    requires Sound(s) && Refill(s, t).Some?
    ensures var (pool, counter) := Refill(s, t).value;
      && 0 < pool.next < pool.end <= counter <= U64_MAX && s.nextStamp <= counter
      && (forall x :: pool.next <= x < pool.end ==> x !in s.issued)
      && (forall u: nat, x: nat :: u != t && pool.next <= x < pool.end ==> !Unused(s, u, x))
  {
    var (pool, counter) := Refill(s, t).value;
    if PoolOf(s, t).next != PoolOf(s, t).end {
      assert Unused(s, t, pool.next) && Unused(s, t, pool.end - 1);
      forall x | pool.next <= x < pool.end
        ensures x !in s.issued
      {
        assert Unused(s, t, x);
      }
      forall u: nat, x: nat | u != t && pool.next <= x < pool.end
        ensures !Unused(s, u, x)
      {
        assert Unused(s, t, x);
      }
    }
  }

  /** A draw never returns a value again, never overflows a reservation, and fails only when the counter is spent. */
  lemma DrawIsFresh(s: StampState, t: ThreadId)
    requires Sound(s)
    ensures !Draw(s, t).RangeOverflow?
    ensures Draw(s, t).SpaceExhausted? <==>
      PoolOf(s, t).next == PoolOf(s, t).end && U64_MAX - LOCAL_RESERVATION_LEN < s.nextStamp
    ensures Draw(s, t).Drawn? ==>
      var Drawn(x, s') := Draw(s, t);
      x !in s.issued && s'.issued == s.issued + {x} && Sound(s')
  {
    if Refill(s, t).Some? {
      RefillIsUnused(s, t);
      var (pool, counter) := Refill(s, t).value;
      var Drawn(x, s') := Draw(s, t);
      forall u: nat, y: nat | Unused(s', u, y)
        ensures 0 < y < s'.nextStamp && y !in s'.issued && (u != t ==> Unused(s, u, y))
      {
        assert u != t ==> Unused(s, u, y);
        assert u != t ==> !(pool.next <= y < pool.end);
      }
      forall u: nat, v: nat, y: nat | Unused(s', u, y) && Unused(s', v, y)
        ensures u == v
      {
        assert u != t ==> Unused(s, u, y);
        assert v != t ==> Unused(s, v, y);
      }
    }
  }

  /** The stamps a run hands out, in order. */
  function Handed(s: StampState, ops: seq<StampOp>): seq<nat> {
    if ops == [] then []
    else
      var before := RunStamps(s, ops[..|ops| - 1]);
      var op := ops[|ops| - 1];
      Handed(s, ops[..|ops| - 1]) + if op.Fresh? && Draw(before, op.thread).Drawn? then [Draw(before, op.thread).stamp] else []
  }

  lemma StepIsSound(s: StampState, op: StampOp)
    requires Sound(s)
    ensures Sound(StampStep(s, op))
  {
    match op
    case Fresh(t) => DrawIsFresh(s, t);
    case ThreadEnds(t) =>
      assert forall u: nat, x: nat :: Unused(StampStep(s, op), u, x) ==> Unused(s, u, x);
  }

  /** Reserved but unused values are disjoint from everything issued and between threads, in every run. */
  lemma {:induction false} RunIsSound(ops: seq<StampOp>)
    ensures Sound(RunStamps(NO_STAMPS, ops))
  {
    if ops == [] {
    } else {
      var s := RunStamps(NO_STAMPS, ops[..|ops| - 1]);
      RunIsSound(ops[..|ops| - 1]);
      StepIsSound(s, ops[|ops| - 1]);
    }
  }

  /** One more step of a run hands out at most one stamp, the last in the list. */
  lemma HandedStep(s: StampState, ops: seq<StampOp>, op: StampOp)
    ensures RunStamps(s, ops + [op]) == StampStep(RunStamps(s, ops), op)
    ensures Handed(s, ops + [op]) == Handed(s, ops) +
      if op.Fresh? && Draw(RunStamps(s, ops), op.thread).Drawn? then [Draw(RunStamps(s, ops), op.thread).stamp] else []
  {
    assert (ops + [op])[..|ops|] == ops;
  }

  /** Over every interleaving of draws and thread exits no value is handed out twice, and none is zero or beyond 64 bits. */
  lemma {:induction false} StampsAreUnique(ops: seq<StampOp>)
    ensures forall i, j :: 0 <= i < j < |Handed(NO_STAMPS, ops)| ==> Handed(NO_STAMPS, ops)[i] != Handed(NO_STAMPS, ops)[j]
    ensures forall x :: x in Handed(NO_STAMPS, ops) ==> 0 < x <= U64_MAX && x in RunStamps(NO_STAMPS, ops).issued
  {
    if ops == [] {
    } else {
      var before, op := ops[..|ops| - 1], ops[|ops| - 1];
      StampsAreUnique(before);
      RunIsSound(before);
      assert before + [op] == ops;
      HandedStep(NO_STAMPS, before, op);
      if op.Fresh? {
        DrawIsFresh(RunStamps(NO_STAMPS, before), op.thread);
      }
    }
  }

  /** Reserved once, never handed out, and in no thread's pool any more. */
  ghost predicate Lost(s: StampState, x: nat) {
    0 < x < s.nextStamp && x !in s.issued && forall t: nat :: !Unused(s, t, x)
  }

  lemma LostStays(s: StampState, op: StampOp, x: nat)
    requires Sound(s) && Lost(s, x)
    ensures Lost(StampStep(s, op), x)
  {
    var s' := StampStep(s, op);
    if op.Fresh? && Refill(s, op.thread).Some? {
      RefillIsUnused(s, op.thread);
      var (pool, counter) := Refill(s, op.thread).value;
      assert !Unused(s, op.thread, x);
      assert !(pool.next <= x < pool.end);
    }
    forall t: nat
      ensures !Unused(s', t, x)
    {
      assert !Unused(s, t, x);
    }
  }

  lemma {:induction false} LostForGood(s: StampState, more: seq<StampOp>, x: nat)
    requires Sound(s) && Lost(s, x)
    ensures Sound(RunStamps(s, more)) && Lost(RunStamps(s, more), x)
  {
    if more == [] {
    } else {
      var before, last := more[..|more| - 1], more[|more| - 1];
      LostForGood(s, before, x);
      StepIsSound(RunStamps(s, before), last);
      LostStays(RunStamps(s, before), last, x);
    }
  }

  /** What a thread had reserved and not used when it ended is never handed out, to any thread, whatever happens next. */
  lemma UnusedValuesAreLost(ops: seq<StampOp>, t: ThreadId, x: nat, more: seq<StampOp>)
    ensures var s := RunStamps(NO_STAMPS, ops);
      Unused(s, t, x) ==> x !in RunStamps(StampStep(s, ThreadEnds(t)), more).issued
  {
    var s := RunStamps(NO_STAMPS, ops);
    if Unused(s, t, x) {
      RunIsSound(ops);
      StepIsSound(s, ThreadEnds(t));
      var s' := StampStep(s, ThreadEnds(t));
      forall u: nat
        ensures !Unused(s', u, x)
      {
        assert Unused(s', u, x) ==> Unused(s, u, x);
      }
      LostForGood(s', more, x);
    }
  }

  /** The static counter together with the thread-local pools. */
  class StampSpace {
    var nextStamp: nat
    var pools: map<ThreadId, Pool>
    ghost var issued: set<nat>

    ghost function State(): StampState
      reads this
    {
      StampState(nextStamp, pools, issued)
    }

    ghost predicate Valid()
      reads this
    {
      Sound(State())
    }

    constructor ()
      ensures State() == NO_STAMPS && Valid()
    {
      nextStamp, pools, issued := 1, map[], {};
    }

    /** `fetch_update` with `checked_add`: the counter moves by `len`, or the space is exhausted. */
    method ReserveRaw(len: nat) returns (range: Option<Pool>)
      requires 0 < len
      modifies this`nextStamp
      ensures range == match CheckedAdd(old(nextStamp), len) {
          case Some(end) => Some(Pool(old(nextStamp), end))
          case None => None
        }
      ensures nextStamp == if range.Some? then range.value.end else old(nextStamp)
    {
      var start := nextStamp;
      match CheckedAdd(start, len) {
        case None => return None;
        case Some(end) =>
          nextStamp := end;
          return Some(Pool(start, end));
      }
    }

    method Fresh(t: ThreadId) returns (r: Option<Stamp>)
      requires Valid()
      modifies this
      ensures Valid()
      ensures r.Some? ==> DrewFresh(old(State()), t, r.value, State())
      ensures r.None? ==> Draw(old(State()), t).SpaceExhausted? && unchanged(this)
    {
      DrawIsFresh(State(), t);
      var pool := if t in pools then pools[t] else Pool(0, 0);
      if pool.next == pool.end {
        var range := ReserveRaw(LOCAL_RESERVATION_LEN);
        if range.None? {
          return None;
        }
        pool := range.value;
      }
      var raw := pool.next;
      pools := pools[t := Pool(raw + 1, pool.end)];
      issued := issued + {raw};
      return Some(raw);
    }
  }
}
