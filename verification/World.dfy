// Whole histories: any number of arenas on one stamp source, any sequence of operations, with every
// handle and checkpoint ever issued kept on record.
module Worlds {
  import opened Options
  import opened Stamps
  import opened History
  import opened Pasts

  /**
   * One arena and its past. Allocations are numbered, and `view.items` holds the number of the
   * allocation in each live slot; `past` says what became of the others.
   */
  datatype Tracked = Tracked(
    view: ArenaView<nat>,
    count: nat,
    issues: set<Issue<nat>>,
    captures: set<Capture<nat>>,
    past: Past<nat>)

  datatype World = World(stamps: StampState, arenas: seq<Tracked>)

  const NO_ARENA: Tracked := Tracked(EmptyView(), 0, {}, {}, Past([], [], []))
  const NOTHING: World := World(NO_STAMPS, [])

  /**
   * The public operations. `thread` is the thread the call runs on, whose pool serves any stamp.
   * `panics` names the slots whose values' destructors panic during the call.
   */
  datatype Op =
    | NewArena
    | Alloc(arena: nat, thread: ThreadId)
    | AllocBlock(arena: nat, thread: ThreadId, len: nat)
    | TakeCheckpoint(arena: nat, thread: ThreadId)
    | Rollback(arena: nat, thread: ThreadId, checkpointOf: nat, capture: Capture<nat>, panics: set<nat>)
    | Reset(arena: nat, thread: ThreadId, panics: set<nat>)
    | Drain(arena: nat, thread: ThreadId)
    | IterIndexed(arena: nat)

  function PushOne(a: Tracked): Tracked
    requires a.view.birth.Some?
  {
    var view := Apply(a.view, Push(a.count));
    a.(view := view, count := a.count + 1, issues := a.issues + {Mint(view, |a.view.items|)})
  }

  function PushMany(a: Tracked, len: nat): (r: Tracked)
    requires a.view.birth.Some?
    ensures r.view.birth == a.view.birth
  {
    if len == 0 then a else PushOne(PushMany(a, len - 1))
  }

  function MintAll(a: Tracked): Tracked {
    if a.view.birth.None? then a
    else a.(issues := a.issues + set slot | 0 <= slot < |a.view.items| :: Mint(a.view, slot))
  }

  function Capturing(a: Tracked): Tracked
    requires a.view.birth.Some?
  {
    a.(captures := a.captures + {Snapshot(a.view, |a.view.items|)})
  }

  function CutTo(a: Tracked, len: nat, keep: nat, stamp: Stamp): Tracked
    requires keep <= |a.view.items|
  {
    a.(view := Apply(a.view, Cut(len, keep, stamp)), past := AfterDrops(a.past, a.view.items, keep))
  }

  function DrainAll(a: Tracked, stamp: Stamp): Tracked {
    a.(view := Apply(a.view, Cut(0, 0, stamp)), past := AfterDrain(a.past, a.view.items))
  }

  /** The world once arena `i` has an identity; none if a stamp was needed and the space is exhausted. */
  function WithIdentity(w: World, i: nat, t: ThreadId): Option<World>
    requires i < |w.arenas|
  {
    var a := w.arenas[i];
    if a.view.birth.Some? then Some(w)
    else match Draw(w.stamps, t)
      case Drawn(stamp, stamps) => Some(World(stamps, w.arenas[i := a.(view := Apply(a.view, Assign(stamp)))]))
      case _ => None
  }

  function Update(w: World, i: nat, a: Tracked): World
    requires i < |w.arenas|
  {
    w.(arenas := w.arenas[i := a])
  }

  function TryCut(w: World, i: nat, t: ThreadId, len: nat, keep: nat): World
    requires i < |w.arenas|
  {
    var a := w.arenas[i];
    if a.view.birth.None? || !(len <= keep <= |a.view.items|) then w
    else match Draw(w.stamps, t)
      case Drawn(stamp, stamps) => World(stamps, w.arenas[i := CutTo(a, len, keep, stamp)])
      case _ => w
  }

  /** `len` values allocated in one call; the stamp is drawn, if one is needed, before anything is added. */
  function AllocIn(w: World, i: nat, t: ThreadId, len: nat): World
    requires i < |w.arenas|
  {
    match WithIdentity(w, i, t)
    case Some(w') => Update(w', i, PushMany(w'.arenas[i], len))
    case None => w
  }

  function CheckpointIn(w: World, i: nat, t: ThreadId): World
    requires i < |w.arenas|
  {
    match WithIdentity(w, i, t)
    case Some(w') => Update(w', i, Capturing(w'.arenas[i]))
    case None => w
  }

  /** The checkpoint may come from any arena; one that is not accepted changes nothing. */
  function RollbackIn(w: World, i: nat, t: ThreadId, j: nat, c: Capture<nat>, panics: set<nat>): World
    requires i < |w.arenas|
  {
    if j < |w.arenas| && c in w.arenas[j].captures && Validate(w.arenas[i].view, c.checkpoint) == Accepted
    then TryCut(w, i, t, c.checkpoint.len, StopAt(|w.arenas[i].view.items|, c.checkpoint.len, panics))
    else w
  }

  function DrainIn(w: World, i: nat, t: ThreadId): World
    requires i < |w.arenas|
  {
    if w.arenas[i].view.birth.None? then w
    else match Draw(w.stamps, t)
      case Drawn(stamp, stamps) => World(stamps, w.arenas[i := DrainAll(w.arenas[i], stamp)])
      case _ => w
  }

  /** An operation on an arena that does not exist changes nothing. */
  function Do(w: World, op: Op): World {
    match op
    case NewArena => w.(arenas := w.arenas + [NO_ARENA])
    case Alloc(i, t) => if i < |w.arenas| then AllocIn(w, i, t, 1) else w
    case AllocBlock(i, t, len) => if i < |w.arenas| && len > 0 then AllocIn(w, i, t, len) else w
    case TakeCheckpoint(i, t) => if i < |w.arenas| then CheckpointIn(w, i, t) else w
    case Rollback(i, t, j, c, panics) => if i < |w.arenas| then RollbackIn(w, i, t, j, c, panics) else w
    case Reset(i, t, panics) =>
      if i < |w.arenas| then TryCut(w, i, t, 0, StopAt(|w.arenas[i].view.items|, 0, panics)) else w
    case Drain(i, t) => if i < |w.arenas| then DrainIn(w, i, t) else w
    case IterIndexed(i) => if i < |w.arenas| then Update(w, i, MintAll(w.arenas[i])) else w
  }

  // ---- the invariant ----

  function Numbers(n: nat): (r: seq<nat>)
    ensures |r| == n && forall i :: 0 <= i < n ==> r[i] == i
  {
    seq(n, i requires 0 <= i < n => i)
  }

  /** Every allocation is in exactly one place, exactly once; live ones lie in allocation order. */
  ghost predicate Conserved(a: Tracked) {
    && multiset(a.view.items) + multiset(a.past.dropped) + multiset(a.past.drained) == multiset(Numbers(a.count))
    && (forall i, j :: 0 <= i < j < |a.view.items| ==> a.view.items[i] < a.view.items[j])
    && (forall i :: 0 <= i < |a.view.items| ==> a.view.items[i] < a.count)
  }

  ghost predicate TrackedOk(a: Tracked) {
    && WellFormed(a.view)
    && (forall r :: r in a.issues ==> IssueOk(a.view, r))
    && (forall c :: c in a.captures ==> CaptureOk(a.view, c))
    && Conserved(a)
    && Traced(a.view, a.past, a.issues, a.captures)
  }

  ghost predicate Inv(w: World) {
    && Sound(w.stamps)
    && (forall i :: 0 <= i < |w.arenas| ==> TrackedOk(w.arenas[i]))
    && (forall i, s :: 0 <= i < |w.arenas| && s in StampsOf(w.arenas[i].view) ==> s in w.stamps.issued)
    && (forall i, j :: 0 <= i < j < |w.arenas| ==> StampsOf(w.arenas[i].view) !! StampsOf(w.arenas[j].view))
  }

  lemma EventKeepsRecords(a: Tracked, e: Event<nat>)
    requires TrackedOk(a) && Enabled(a.view, e)
    ensures WellFormed(Apply(a.view, e))
    ensures forall r :: r in a.issues ==> IssueOk(Apply(a.view, e), r)
    ensures forall c :: c in a.captures ==> CaptureOk(Apply(a.view, e), c)
  {
    WellFormedKept(a.view, e);
    forall r | r in a.issues
      ensures IssueOk(Apply(a.view, e), r)
    {
      IssueKept(a.view, e, r);
    }
    forall c | c in a.captures
      ensures CaptureOk(Apply(a.view, e), c)
    {
      CaptureKept(a.view, e, c);
    }
  }

  /** Records of `a` stay traced; the new ones of `b` are of what is live now. */
  lemma TracedAcross(a: Tracked, b: Tracked, keep: nat)
    requires Traced(a.view, a.past, a.issues, a.captures) && |b.past.keeps| == |b.view.history|
    requires Passes(a.view.items, a.past, b.view.items, b.past, keep)
    requires forall r :: r in b.issues ==> r in a.issues || LiveIssue(b.view, r)
    requires forall c :: c in b.captures ==> c in a.captures || LiveCapture(b.view, c)
    ensures Traced(b.view, b.past, b.issues, b.captures)
  {
    TracedKept(a.view, a.past, a.issues, a.captures, b.view, b.past, b.issues, b.captures, keep);
  }

  lemma PushConserves(a: Tracked)
    requires Conserved(a) && a.view.birth.Some?
    ensures Conserved(PushOne(a))
  {
    assert Numbers(a.count + 1) == Numbers(a.count) + [a.count];
  }

  lemma PushOneOk(a: Tracked)
    requires TrackedOk(a) && a.view.birth.Some?
    ensures TrackedOk(PushOne(a)) && StampsOf(PushOne(a).view) == StampsOf(a.view)
  {
    var e := Push(a.count);
    EventKeepsRecords(a, e);
    StampsOfApply(a.view, e);
    MintIsOk(Apply(a.view, e), |a.view.items|);
    TracedAcross(a, PushOne(a), 0);
    PushConserves(a);
  }

  lemma {:induction false} PushManyOk(a: Tracked, len: nat)
    requires TrackedOk(a) && a.view.birth.Some?
    ensures TrackedOk(PushMany(a, len)) && StampsOf(PushMany(a, len).view) == StampsOf(a.view)
  {
    if len == 0 {
    } else {
      PushManyOk(a, len - 1);
      PushOneOk(PushMany(a, len - 1));
    }
  }

  lemma MintAllOk(a: Tracked)
    requires TrackedOk(a)
    ensures TrackedOk(MintAll(a))
  {
    forall slot | 0 <= slot < |a.view.items|
      ensures IssueOk(a.view, Mint(a.view, slot))
    {
      MintIsOk(a.view, slot);
    }
    TracedAcross(a, MintAll(a), 0);
  }

  lemma CutToOk(a: Tracked, len: nat, keep: nat, stamp: Stamp)
    requires TrackedOk(a) && Enabled(a.view, Cut(len, keep, stamp))
    ensures TrackedOk(CutTo(a, len, keep, stamp))
    ensures StampsOf(CutTo(a, len, keep, stamp).view) == StampsOf(a.view) + {stamp}
  {
    EventKeepsRecords(a, Cut(len, keep, stamp));
    StampsOfApply(a.view, Cut(len, keep, stamp));
    PastConserves(a.view.items, a.past, keep);
    DropsPass(a.view.items, a.past, keep);
    TracedAcross(a, CutTo(a, len, keep, stamp), keep);
  }

  lemma DrainAllOk(a: Tracked, stamp: Stamp)
    requires TrackedOk(a) && Enabled(a.view, Cut(0, 0, stamp))
    ensures TrackedOk(DrainAll(a, stamp))
    ensures StampsOf(DrainAll(a, stamp).view) == StampsOf(a.view) + {stamp}
  {
    EventKeepsRecords(a, Cut(0, 0, stamp));
    StampsOfApply(a.view, Cut(0, 0, stamp));
    PastConserves(a.view.items, a.past, 0);
    TracedAcross(a, DrainAll(a, stamp), 0);
  }

  /** Replacing one arena keeps the arenas apart if its only new stamps were not issued before. */
  lemma UpdateKeepsInv(w: World, i: nat, a: Tracked, stamps: StampState)
    requires Inv(w) && i < |w.arenas| && TrackedOk(a) && Sound(stamps)
    requires w.stamps.issued <= stamps.issued
    requires forall s :: s in StampsOf(a.view) ==>
      s in stamps.issued && (s in StampsOf(w.arenas[i].view) || s !in w.stamps.issued)
    ensures Inv(World(stamps, w.arenas[i := a]))
  {
  }

  lemma WithIdentityKeepsInv(w: World, i: nat, t: ThreadId)
    requires Inv(w) && i < |w.arenas| && WithIdentity(w, i, t).Some?
    ensures var w' := WithIdentity(w, i, t).value;
      Inv(w') && |w'.arenas| == |w.arenas| && w'.arenas[i].view.birth.Some?
  {
    var a := w.arenas[i];
    if a.view.birth.None? {
      DrawIsFresh(w.stamps, t);
      var Drawn(stamp, stamps) := Draw(w.stamps, t);
      EventKeepsRecords(a, Assign(stamp));
      StampsOfApply(a.view, Assign(stamp));
      TracedAcross(a, a.(view := Apply(a.view, Assign(stamp))), 0);
      UpdateKeepsInv(w, i, a.(view := Apply(a.view, Assign(stamp))), stamps);
    }
  }

  lemma TryCutKeepsInv(w: World, i: nat, t: ThreadId, len: nat, keep: nat)
    requires Inv(w) && i < |w.arenas|
    ensures Inv(TryCut(w, i, t, len, keep))
  {
    DrawIsFresh(w.stamps, t);
    var a := w.arenas[i];
    if a.view.birth.Some? && len <= keep <= |a.view.items| && Draw(w.stamps, t).Drawn? {
      var Drawn(stamp, stamps) := Draw(w.stamps, t);
      CutToOk(a, len, keep, stamp);
      UpdateKeepsInv(w, i, CutTo(a, len, keep, stamp), stamps);
    }
  }

  lemma CapturingOk(a: Tracked)
    requires TrackedOk(a) && a.view.birth.Some?
    ensures TrackedOk(Capturing(a))
  {
    SnapshotIsOk(a.view, |a.view.items|);
    TracedAcross(a, Capturing(a), 0);
  }

  lemma AllocKeepsInv(w: World, i: nat, t: ThreadId, len: nat)
    requires Inv(w) && i < |w.arenas|
    ensures Inv(AllocIn(w, i, t, len))
  {
    if WithIdentity(w, i, t).Some? {
      WithIdentityKeepsInv(w, i, t);
      var w' := WithIdentity(w, i, t).value;
      PushManyOk(w'.arenas[i], len);
      UpdateKeepsInv(w', i, PushMany(w'.arenas[i], len), w'.stamps);
    }
  }

  lemma CheckpointKeepsInv(w: World, i: nat, t: ThreadId)
    requires Inv(w) && i < |w.arenas|
    ensures Inv(CheckpointIn(w, i, t))
  {
    if WithIdentity(w, i, t).Some? {
      WithIdentityKeepsInv(w, i, t);
      var w' := WithIdentity(w, i, t).value;
      CapturingOk(w'.arenas[i]);
      UpdateKeepsInv(w', i, Capturing(w'.arenas[i]), w'.stamps);
    }
  }

  lemma DrainKeepsInv(w: World, i: nat, t: ThreadId)
    requires Inv(w) && i < |w.arenas|
    ensures Inv(DrainIn(w, i, t))
  {
    DrawIsFresh(w.stamps, t);
    if w.arenas[i].view.birth.Some? && Draw(w.stamps, t).Drawn? {
      var Drawn(stamp, stamps) := Draw(w.stamps, t);
      DrainAllOk(w.arenas[i], stamp);
      UpdateKeepsInv(w, i, DrainAll(w.arenas[i], stamp), stamps);
    }
  }

  lemma IterIndexedKeepsInv(w: World, i: nat)
    requires Inv(w) && i < |w.arenas|
    ensures Inv(Update(w, i, MintAll(w.arenas[i])))
  {
    MintAllOk(w.arenas[i]);
    UpdateKeepsInv(w, i, MintAll(w.arenas[i]), w.stamps);
  }

  lemma NewArenaKeepsInv(w: World)
    requires Inv(w)
    ensures Inv(w.(arenas := w.arenas + [NO_ARENA]))
  {
    assert Numbers(0) == [];
    assert TrackedOk(NO_ARENA) && StampsOf(NO_ARENA.view) == {};
  }

  lemma DoKeepsInv(w: World, op: Op)
    requires Inv(w)
    ensures Inv(Do(w, op))
  {
    if op.NewArena? {
      NewArenaKeepsInv(w);
    } else if op.arena < |w.arenas| {
      match op
      case Alloc(i, t) => AllocKeepsInv(w, i, t, 1);
      case AllocBlock(i, t, len) => AllocKeepsInv(w, i, t, len);
      case TakeCheckpoint(i, t) => CheckpointKeepsInv(w, i, t);
      case Rollback(i, t, _, c, panics) =>
        var len, items := c.checkpoint.len, w.arenas[i].view.items;
        if len <= |items| {
          TryCutKeepsInv(w, i, t, len, StopAt(|items|, len, panics));
        }
      case Reset(i, t, panics) => TryCutKeepsInv(w, i, t, 0, StopAt(|w.arenas[i].view.items|, 0, panics));
      case Drain(i, t) => DrainKeepsInv(w, i, t);
      case IterIndexed(i) => IterIndexedKeepsInv(w, i);
    }
  }

  /** The world after a sequence of operations, from a process with no arena and no stamp drawn. */
  function Run(ops: seq<Op>): World {
    if ops == [] then NOTHING else Do(Run(ops[..|ops| - 1]), ops[|ops| - 1])
  }

  /** In every run arenas share no stamp, every handle and checkpoint issued is truthful, and values are conserved. */
  lemma {:induction false} InvInEveryRun(ops: seq<Op>)
    ensures Inv(Run(ops))
  {
    if ops == [] {
    } else {
      InvInEveryRun(ops[..|ops| - 1]);
      DoKeepsInv(Run(ops[..|ops| - 1]), ops[|ops| - 1]);
    }
  }

  // ---- what every run guarantees ----

  /**
   * No ABA. In every run, a handle issued by arena `i` validates in arena `j` exactly when they are
   * the same arena and no commit has reached its slot since; it then names the allocation it was
   * issued for, and no other live slot holds that allocation.
   */
  lemma NoAba(ops: seq<Op>, i: nat, j: nat, r: Issue<nat>)
    requires i < |Run(ops).arenas| && j < |Run(ops).arenas| && r in Run(ops).arenas[i].issues
    ensures var vi, vj := Run(ops).arenas[i].view, Run(ops).arenas[j].view;
      && (FastValid(vj, r.handle) <==> i == j && !CutBelow(vi.history, r.epoch, r.handle.slot + 1))
      && (FastValid(vj, r.handle) <==> SimpleValid(vj, r.handle))
      && (FastValid(vj, r.handle) ==>
            forall slot :: 0 <= slot < |vj.items| ==> (vj.items[slot] == r.value <==> slot == r.handle.slot))
  {
    var w := Run(ops);
    InvInEveryRun(ops);
    if i == j {
      HandleExact(w.arenas[i].view, r);
    } else {
      IssueStampIsOwn(w.arenas[i].view, r);
      ForeignHandle(w.arenas[j].view, r.handle);
    }
  }

  /**
   * In every run, a checkpoint taken of arena `i` is accepted by arena `j` exactly when they are the
   * same arena and no commit went below its length since; the arena then still holds the very
   * prefix of allocations it was taken of. Each error is given exactly for its own reason.
   */
  lemma CheckpointsAreExact(ops: seq<Op>, i: nat, j: nat, c: Capture<nat>)
    requires i < |Run(ops).arenas| && j < |Run(ops).arenas| && c in Run(ops).arenas[i].captures
    ensures var vi, vj := Run(ops).arenas[i].view, Run(ops).arenas[j].view;
      var cut, len := CutBelow(vi.history, c.epoch, |c.prefix|), |c.prefix|;
      && c.checkpoint.len == len
      && (Validate(vj, c.checkpoint) == Accepted <==> i == j && !cut)
      && (Validate(vj, c.checkpoint) == Accepted ==> c.prefix <= vj.items)
      && (Validate(vj, c.checkpoint) == Rejected(ForeignArena) <==> i != j)
      && (Validate(vj, c.checkpoint) == Rejected(BeyondCurrent(len, |vj.items|)) <==> i == j && |vj.items| < len)
      && (Validate(vj, c.checkpoint) == Rejected(DivergedPrefix(len)) <==> i == j && cut && len <= |vj.items|)
  {
    var w := Run(ops);
    InvInEveryRun(ops);
    if i == j {
      CheckpointExact(w.arenas[i].view, c);
    } else {
      StampsOfGenerations(w.arenas[i].view, 0);
      assert c.checkpoint.owner in StampsOf(w.arenas[i].view);
      if w.arenas[j].view.birth.Some? {
        StampsOfGenerations(w.arenas[j].view, 0);
      }
    }
  }

  /**
   * In every run, each captured allocation is still in its slot exactly when no drop loop since went
   * down to it, and `DivergedPrefix` means "discarded and replaced" exactly when one went below the
   * checkpoint's length.
   */
  lemma DivergedPrefixExact(ops: seq<Op>, i: nat, c: Capture<nat>)
    requires i < |Run(ops).arenas| && c in Run(ops).arenas[i].captures
    ensures var a := Run(ops).arenas[i]; PrefixFate(a.view, a.past, c) && DivergedMeans(a.view, a.past, c)
  {
    InvInEveryRun(ops);
    var a := Run(ops).arenas[i];
    forall id | Gone(a.past, id)
      ensures id !in a.view.items
    {
      GoneIsNotLive(a, id);
    }
    CaptureTraced(a.view, a.past, a.issues, a.captures, c);
  }

  lemma GoneIsNotLive(a: Tracked, id: nat)
    requires Conserved(a) && Gone(a.past, id)
    ensures id !in a.view.items
  {
    CountInNumbers(a.count, id);
    assert multiset(Numbers(a.count))[id] ==
      (multiset(a.view.items) + multiset(a.past.dropped) + multiset(a.past.drained))[id];
    assert multiset(a.past.dropped)[id] + multiset(a.past.drained)[id] > 0;
  }

  lemma RunStep(ops: seq<Op>, op: Op)
    ensures Run(ops + [op]) == Do(Run(ops), op)
  {
    assert (ops + [op])[..|ops|] == ops;
  }

  /**
   * Such a refusal happens: two values, a checkpoint after the first, and a reset whose drop loop was
   * cut short after one destructor. The captured value is live in its slot.
   */
  lemma DivergedPrefixOfAnIntactPrefix() returns (ops: seq<Op>, c: Capture<nat>)
    ensures |Run(ops).arenas| == 1 && c in Run(ops).arenas[0].captures
    ensures var a := Run(ops).arenas[0];
      && Validate(a.view, c.checkpoint) == Rejected(DivergedPrefix(1))
      && c.prefix == a.view.items == [0] && a.past.dropped == [1]
  {
    var one := [NewArena] + [Alloc(0, 0)];
    var two := one + [TakeCheckpoint(0, 0)];
    var three := two + [Alloc(0, 0)];
    ops := three + [Reset(0, 0, {1})];
    RunStep([], NewArena);
    assert [] + [NewArena] == [NewArena];
    RunStep([NewArena], Alloc(0, 0));
    RunStep(one, TakeCheckpoint(0, 0));
    RunStep(two, Alloc(0, 0));
    RunStep(three, Reset(0, 0, {1}));
    assert Run(one).arenas[0].view == ArenaView([0], Some(1), []);
    c := Snapshot(Run(one).arenas[0].view, 1);
    assert Run(two).arenas[0].captures == {c};
    var before := Run(two).arenas[0];
    assert before.view == Run(one).arenas[0].view;
    assert Run(three) == Update(Run(two), 0, PushOne(PushMany(before, 0)));
    assert Run(three).arenas[0].view == ArenaView([0, 1], Some(1), []);
  }

  /** In every run each allocation is live, dropped or drained, and in exactly one of these once. */
  lemma EachValueOnce(ops: seq<Op>, i: nat, id: nat)
    requires i < |Run(ops).arenas|
    ensures var a := Run(ops).arenas[i];
      multiset(a.view.items)[id] + multiset(a.past.dropped)[id] + multiset(a.past.drained)[id] == if id < a.count then 1 else 0
  {
    InvInEveryRun(ops);
    var a := Run(ops).arenas[i];
    CountInNumbers(a.count, id);
    assert multiset(Numbers(a.count))[id] ==
      (multiset(a.view.items) + multiset(a.past.dropped) + multiset(a.past.drained))[id];
  }

  lemma {:induction false} CountInNumbers(n: nat, id: nat)
    ensures multiset(Numbers(n))[id] == if id < n then 1 else 0
  {
    if n == 0 {
    } else {
      CountInNumbers(n - 1, id);
      assert Numbers(n) == Numbers(n - 1) + [n - 1];
    }
  }

  /** Iteration hands out again the handle a live slot already had, unless a commit reached the slot in between. */
  lemma ReMintedHandle(ops: seq<Op>, i: nat, r: Issue<nat>)
    requires i < |Run(ops).arenas| && r in Run(ops).arenas[i].issues
    requires r.handle.slot < |Run(ops).arenas[i].view.items|
    ensures var v := Run(ops).arenas[i].view;
      && v.birth.Some?
      && SimpleValid(v, Mint(v, r.handle.slot).handle)
      && (Mint(v, r.handle.slot).handle == r.handle <==> !CutBelow(v.history, r.epoch, r.handle.slot + 1))
  {
    InvInEveryRun(ops);
    var v := Run(ops).arenas[i].view;
    OwnerExact(v.birth.value, v.history, r.epoch, r.handle.slot);
  }

  // ---- several rollbacks as one ----

  datatype Plan = Plan(arena: nat, thread: ThreadId, capture: Capture<nat>, panics: set<nat>)

  function Perform(w: World, p: Plan): World {
    Do(w, Rollback(p.arena, p.thread, p.arena, p.capture, p.panics))
  }

  predicate Accepts(w: World, p: Plan) {
    p.arena < |w.arenas| && Validate(w.arenas[p.arena].view, p.capture.checkpoint) == Accepted
  }

  /** Each rollback of the batch is accepted when its turn comes. */
  ghost predicate AllAccepted(w: World, plans: seq<Plan>)
    decreases |plans|
  {
    plans == [] || (Accepts(w, plans[0]) && AllAccepted(Perform(w, plans[0]), plans[1..]))
  }

  lemma OthersStayAccepted(w: World, p: Plan, q: Plan)
    requires Inv(w) && Accepts(w, q)
    requires q.arena == p.arena ==> q.capture.checkpoint.len <= p.capture.checkpoint.len
    ensures Accepts(Perform(w, p), q)
  {
    var w' := Perform(w, p);
    if q.arena == p.arena && w' != w {
      DrawIsFresh(w.stamps, p.thread);
      var stamp := Draw(w.stamps, p.thread).stamp;
      var v, len := w.arenas[p.arena].view, p.capture.checkpoint.len;
      AcceptedStays(v, Cut(len, StopAt(|v.items|, len, p.panics), stamp), q.capture.checkpoint);
    }
  }

  ghost predicate AcceptsEach(w: World, plans: seq<Plan>) {
    forall k :: 0 <= k < |plans| ==> Accepts(w, plans[k])
  }

  /** Checkpoints of one and the same arena come longest first. */
  ghost predicate LongestFirst(plans: seq<Plan>) {
    forall k, l :: 0 <= k < l < |plans| && plans[k].arena == plans[l].arena ==>
      plans[l].capture.checkpoint.len <= plans[k].capture.checkpoint.len
  }

  lemma RestStaysAccepted(w: World, plans: seq<Plan>)
    requires Inv(w) && plans != [] && AcceptsEach(w, plans) && LongestFirst(plans)
    ensures AcceptsEach(Perform(w, plans[0]), plans[1..]) && LongestFirst(plans[1..])
  {
    var w' := Perform(w, plans[0]);
    forall k | 0 <= k < |plans[1..]|
      ensures Accepts(w', plans[1..][k])
    {
      OthersStayAccepted(w, plans[0], plans[k + 1]);
    }
  }

  /**
   * Validating one checkpoint for each of several arenas first makes the batch all-or-nothing: no
   * later rollback can be refused, however the earlier drop loops ended. Several checkpoints of one
   * arena may take part, longest first.
   */
  lemma {:induction false} ValidatedBatchNeverFails(w: World, plans: seq<Plan>)
    requires Inv(w) && AcceptsEach(w, plans) && LongestFirst(plans)
    ensures AllAccepted(w, plans)
    decreases |plans|
  {
    if plans == [] {
    } else {
      RestStaysAccepted(w, plans);
      DoKeepsInv(w, Rollback(plans[0].arena, plans[0].thread, plans[0].arena, plans[0].capture, plans[0].panics));
      ValidatedBatchNeverFails(Perform(w, plans[0]), plans[1..]);
    }
  }
}
