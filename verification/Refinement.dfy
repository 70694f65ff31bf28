// The index-level arenas under the whole histories: each operation of any one of several arenas on
// one stamp source is the operation `Worlds` runs, so what is proved of every run holds of them.
module Refinement {
  import opened Options
  import opened Stamps
  import opened History
  import opened Pasts
  import opened Blocks
  import opened Segments
  import opened Arenas
  import W = Worlds

  /** No two arenas share anything but the stamp source. */
  ghost predicate Separate(arenas: seq<Arena<nat>>)
    reads arenas
  {
    forall i, j :: 0 <= i < j < |arenas| ==>
      arenas[i] != arenas[j] && (arenas[i].identity == null || arenas[i].identity != arenas[j].identity)
  }

  ghost function Identities(arenas: seq<Arena<nat>>): set<object?>
    reads arenas
  {
    set i | 0 <= i < |arenas| :: arenas[i].identity
  }

  /** The arena holds its allocations' numbers, looks as the world says, and its stamps are among those issued. */
  ghost predicate Shows(a: Arena<nat>, v: ArenaView<nat>, issued: set<nat>)
    reads a, a.identity
  {
    a.Valid() && a.View() == v && (a.identity != null ==> Spent(a.identity.birth, a.identity.history, issued))
  }

  ghost predicate Matches(w: W.World, arenas: seq<Arena<nat>>, stamps: StampSpace)
    reads stamps, arenas, Identities(arenas)
  {
    && stamps.Valid() && stamps.State() == w.stamps
    && |arenas| == |w.arenas| && Separate(arenas)
    && forall i :: 0 <= i < |arenas| ==> Shows(arenas[i], w.arenas[i].view, w.stamps.issued)
  }

  /** Only arena `i` and the stamp source differ. */
  ghost predicate OnlyOne(w: W.World, w': W.World, i: nat, after: StampState, v: ArenaView<nat>)
    requires i < |w.arenas|
  {
    && w'.stamps == after && w.stamps.issued <= after.issued
    && |w'.arenas| == |w.arenas| && w'.arenas == w.arenas[i := w'.arenas[i]]
    && w'.arenas[i].view == v
  }

  /** An operation on one arena leaves the others as they were; stamps it drew are no stamps of theirs. */
  lemma OneChanged(w: W.World, w': W.World, arenas: seq<Arena<nat>>, i: nat, stamps: StampSpace)
    requires |arenas| == |w.arenas| && i < |arenas| && Separate(arenas)
    requires forall j :: 0 <= j < |arenas| && j != i ==> Shows(arenas[j], w.arenas[j].view, w.stamps.issued)
    requires stamps.Valid() && OnlyOne(w, w', i, stamps.State(), arenas[i].View())
    requires Shows(arenas[i], w'.arenas[i].view, w'.stamps.issued)
    ensures Matches(w', arenas, stamps)
  {
    forall j | 0 <= j < |arenas| && j != i
      ensures Shows(arenas[j], w'.arenas[j].view, w'.stamps.issued)
    {
      assert Shows(arenas[j], w.arenas[j].view, w.stamps.issued);
    }
  }

  // ---- what a block adds ----

  /** Allocation `id` of arena `i` is on record under `h`, issued just now. */
  ghost predicate Recorded(w: W.World, i: nat, h: Handle, id: nat)
    requires i < |w.arenas|
  {
    Issue(h, id, |w.arenas[i].view.history|) in w.arenas[i].issues
  }

  lemma {:induction false} PushManyIs(a: W.Tracked, len: nat)
    requires a.view.birth.Some?
    ensures var b := W.PushMany(a, len);
      && b.view == a.view.(items := a.view.items + seq(len, k requires 0 <= k < len => a.count + k))
      && b.count == a.count + len
      && forall slot :: |a.view.items| <= slot < |b.view.items| ==> Mint(b.view, slot) in b.issues
  {
    if len == 0 {
    } else {
      PushManyIs(a, len - 1);
      var before, b := W.PushMany(a, len - 1), W.PushMany(a, len);
      assert b == W.PushOne(before);
      forall slot | |a.view.items| <= slot < |b.view.items|
        ensures Mint(b.view, slot) in b.issues
      {
        if slot < |before.view.items| {
          assert Mint(before.view, slot) == Mint(b.view, slot);
        }
      }
    }
  }

  // ---- what the world does, in the terms of the arenas' contracts ----

  /** What an allocation adds, once the identity is certain. */
  lemma AllocInAdds(w: W.World, i: nat, t: ThreadId, ids: seq<nat>, stamp: Stamp, after: StampState)
    requires i < |w.arenas|
    requires if w.arenas[i].view.birth.Some? then after == w.stamps else DrewFresh(w.stamps, t, stamp, after)
    ensures var a := w.arenas[i].(view := WithBirth(w.arenas[i].view, stamp));
      a.view.birth.Some? && W.AllocIn(w, i, t, |ids|) == W.World(after, w.arenas[i := W.PushMany(a, |ids|)])
  {
    var a := w.arenas[i].(view := WithBirth(w.arenas[i].view, stamp));
    if w.arenas[i].view.birth.Some? {
      assert w.arenas[i := a] == w.arenas;
    }
    assert w.arenas[i := a][i := W.PushMany(a, |ids|)] == w.arenas[i := W.PushMany(a, |ids|)];
  }

  lemma AllocInIs(w: W.World, i: nat, t: ThreadId, ids: seq<nat>, stamp: Stamp, after: StampState, v: ArenaView<nat>)
    requires i < |w.arenas|
    requires ids == seq(|ids|, k requires 0 <= k < |ids| => w.arenas[i].count + k)
    requires if w.arenas[i].view.birth.Some? then after == w.stamps else DrewFresh(w.stamps, t, stamp, after)
    requires v == WithBirth(w.arenas[i].view, stamp).(items := w.arenas[i].view.items + ids)
    ensures var w', start := W.AllocIn(w, i, t, |ids|), |w.arenas[i].view.items|;
      && OnlyOne(w, w', i, after, v)
      && forall k :: 0 <= k < |ids| ==> Recorded(w', i, Mint(v, start + k).handle, ids[k])
  {
    AllocInAdds(w, i, t, ids, stamp, after);
    var a := w.arenas[i].(view := WithBirth(w.arenas[i].view, stamp));
    PushManyIs(a, |ids|);
    var w', start := W.AllocIn(w, i, t, |ids|), |a.view.items|;
    forall k | 0 <= k < |ids|
      ensures Recorded(w', i, Mint(v, start + k).handle, ids[k])
    {
      assert Mint(v, start + k) in w'.arenas[i].issues;
    }
  }

  lemma TryCutIs(w: W.World, i: nat, t: ThreadId, len: nat, keep: nat, stamp: Stamp, after: StampState)
    requires i < |w.arenas| && Enabled(w.arenas[i].view, Cut(len, keep, stamp)) && DrewFresh(w.stamps, t, stamp, after)
    ensures var w', a := W.TryCut(w, i, t, len, keep), w.arenas[i];
      && OnlyOne(w, w', i, after, Apply(a.view, Cut(len, keep, stamp)))
      && w'.arenas[i].past.dropped == a.past.dropped + Reversed(a.view.items[keep..])
      && w' != w
  {
    assert |W.TryCut(w, i, t, len, keep).arenas[i].view.history| == |w.arenas[i].view.history| + 1;
  }

  ghost predicate BlockRecorded(w: W.World, i: nat, b: Block, ids: seq<nat>)
    requires i < |w.arenas|
  {
    b.len == |ids| && forall k :: 0 <= k < |ids| ==> b.Get(k).Some? && Recorded(w, i, b.Get(k).value, ids[k])
  }

  lemma AllocBlockIs(w: W.World, i: nat, t: ThreadId, ids: seq<nat>, b: Block, after: StampState, v: ArenaView<nat>)
    requires i < |w.arenas| && b.len == |ids| > 0 && b.stamp.Some? && b.start == |w.arenas[i].view.items|
    requires ids == seq(|ids|, k requires 0 <= k < |ids| => w.arenas[i].count + k)
    requires if w.arenas[i].view.birth.Some? then after == w.stamps else DrewFresh(w.stamps, t, b.stamp.value, after)
    requires v == WithBirth(w.arenas[i].view, b.stamp.value).(items := w.arenas[i].view.items + ids)
    requires forall k :: 0 <= k < |ids| ==> b.Get(k) == Some(Mint(v, b.start + k).handle)
    ensures var w' := W.Do(w, W.AllocBlock(i, t, |ids|));
      OnlyOne(w, w', i, after, v) && BlockRecorded(w', i, b, ids)
  {
    AllocInIs(w, i, t, ids, b.stamp.value, after, v);
    forall k | 0 <= k < |ids|
      ensures b.Get(k).Some? && Recorded(W.AllocIn(w, i, t, |ids|), i, b.Get(k).value, ids[k])
    {
      assert b.Get(k) == Some(Mint(v, b.start + k).handle);
    }
  }

  // ---- one arena: each operation is the world's ----

  ghost predicate Fits(w: W.World, i: nat, a: Arena<nat>, stamps: StampSpace)
    reads a, a.identity, stamps
  {
    && stamps.Valid() && stamps.State() == w.stamps
    && i < |w.arenas| && Shows(a, w.arenas[i].view, w.stamps.issued)
  }

  /** The operation took the arena to where it takes arena `i` of the world. */
  ghost predicate Follows(w: W.World, w': W.World, i: nat, a: Arena<nat>, stamps: StampSpace)
    requires i < |w.arenas|
    reads a, a.identity, stamps
  {
    && stamps.Valid() && OnlyOne(w, w', i, stamps.State(), a.View())
    && Shows(a, w'.arenas[i].view, w'.stamps.issued)
  }

  method Alloc(ghost w: W.World, ghost i: nat, a: Arena<nat>, stamps: StampSpace, t: ThreadId, id: nat)
    returns (r: Option<Handle>)
    requires Fits(w, i, a, stamps) && id == w.arenas[i].count
    modifies a, stamps
    ensures a.identity == old(a.identity) || fresh(a.identity)
    ensures Follows(w, W.Do(w, W.Alloc(i, t)), i, a, stamps)
    ensures r.Some? ==> Recorded(W.Do(w, W.Alloc(i, t)), i, r.value, id)
    ensures r.None? ==> W.Do(w, W.Alloc(i, t)) == w
  {
    r := a.Alloc(id, stamps, t);
    if r.Some? {
      AllocInIs(w, i, t, [id], r.value.stamp, stamps.State(), a.View());
    }
  }

  method AllocBlock(ghost w: W.World, ghost i: nat, a: Arena<nat>, stamps: StampSpace, t: ThreadId, ids: seq<nat>)
    returns (r: Option<Block>)
    requires Fits(w, i, a, stamps) && |a.items| + |ids| <= USIZE_MAX
    requires ids == seq(|ids|, k requires 0 <= k < |ids| => w.arenas[i].count + k)
    modifies a, stamps
    ensures a.identity == old(a.identity) || fresh(a.identity)
    ensures Follows(w, W.Do(w, W.AllocBlock(i, t, |ids|)), i, a, stamps)
    ensures r.Some? ==> BlockRecorded(W.Do(w, W.AllocBlock(i, t, |ids|)), i, r.value, ids)
    ensures r.None? ==> W.Do(w, W.AllocBlock(i, t, |ids|)) == w
  {
    r := a.AllocBlock(ids, stamps, t);
    if r.Some? && ids != [] {
      AllocBlockIs(w, i, t, ids, r.value, stamps.State(), a.View());
    }
  }

  method TakeCheckpoint(ghost w: W.World, ghost i: nat, a: Arena<nat>, stamps: StampSpace, t: ThreadId)
    returns (r: Option<Checkpoint>)
    requires Fits(w, i, a, stamps)
    modifies a, stamps
    ensures a.identity == old(a.identity) || fresh(a.identity)
    ensures Follows(w, W.Do(w, W.TakeCheckpoint(i, t)), i, a, stamps)
    ensures r.Some? ==> var b := W.Do(w, W.TakeCheckpoint(i, t)).arenas[i];
      Capture(r.value, b.view.items, |b.view.history|) in b.captures
    ensures r.None? ==> W.Do(w, W.TakeCheckpoint(i, t)) == w
  {
    r := a.TakeCheckpoint(stamps, t);
    assert a.items[..|a.items|] == a.items;
  }

  /** The checkpoint may be any arena's. The drop loop stops where the world's does, and drops what the world's drops. */
  method Rollback(ghost w: W.World, ghost i: nat, a: Arena<nat>, stamps: StampSpace, t: ThreadId,
      ghost j: nat, ghost c: Capture<nat>, cp: Checkpoint, panics: set<nat>)
    returns (outcome: RollbackOutcome, dropped: seq<nat>)
    requires Fits(w, i, a, stamps)
    requires j < |w.arenas| && c in w.arenas[j].captures && cp == c.checkpoint
    modifies a, a.identity, stamps
    ensures a.identity == old(a.identity)
    ensures var w' := W.Do(w, W.Rollback(i, t, j, c, panics));
      && Follows(w, w', i, a, stamps)
      && w'.arenas[i].past.dropped == w.arenas[i].past.dropped + dropped
      && (outcome.Refused? || outcome.StampsExhausted? <==> w' == w)
  {
    outcome, dropped := a.TryRollback(cp, stamps, t, panics);
    if outcome.RolledBack? || outcome.DestructorPanicked? {
      LoopStopsAt(|w.arenas[i].view.items|, cp.len, panics, |a.items|, outcome.DestructorPanicked?);
      TryCutIs(w, i, t, cp.len, |a.items|, a.identity.current, stamps.State());
    }
  }

  method Reset(ghost w: W.World, ghost i: nat, a: Arena<nat>, stamps: StampSpace, t: ThreadId, panics: set<nat>)
    returns (outcome: RollbackOutcome, dropped: seq<nat>)
    requires Fits(w, i, a, stamps)
    modifies a, a.identity, stamps
    ensures a.identity == old(a.identity)
    ensures var w' := W.Do(w, W.Reset(i, t, panics));
      && Follows(w, w', i, a, stamps)
      && w'.arenas[i].past.dropped == w.arenas[i].past.dropped + dropped
  {
    outcome, dropped := a.Reset(stamps, t, panics);
    if a.identity != null && !outcome.StampsExhausted? {
      LoopStopsAt(|w.arenas[i].view.items|, 0, panics, |a.items|, outcome.DestructorPanicked?);
      TryCutIs(w, i, t, 0, |a.items|, a.identity.current, stamps.State());
    }
  }

  method Drain(ghost w: W.World, ghost i: nat, a: Arena<nat>, stamps: StampSpace, t: ThreadId) returns (r: Option<seq<nat>>)
    requires Fits(w, i, a, stamps)
    modifies a, a.identity, stamps
    ensures a.identity == old(a.identity)
    ensures var w' := W.Do(w, W.Drain(i, t));
      && Follows(w, w', i, a, stamps)
      && (r.Some? ==> w'.arenas[i].past.drained == w.arenas[i].past.drained + r.value)
      && (r.None? ==> w' == w)
  {
    r := a.Drain(stamps, t);
  }
  /** Indexed iteration to its end yields every live value's handle, in slot order. */
  method Iterate(ghost w: W.World, ghost i: nat, a: Arena<nat>, stamps: StampSpace) returns (handles: seq<Handle>)
    requires Fits(w, i, a, stamps)
    ensures Follows(w, W.Do(w, W.IterIndexed(i)), i, a, stamps)
    ensures |handles| == |a.items|
    ensures forall k :: 0 <= k < |handles| ==> Recorded(W.Do(w, W.IterIndexed(i)), i, handles[k], a.items[k])
  {
    var it := a.IterIndexed();
    handles := [];
    var next := it.Next();
    while next.Some?
      invariant fresh(it) && it.Valid() && it.identity == a.identity && it.all == a.items
      invariant Fits(w, i, a, stamps)
      invariant next.None? ==> |handles| == |a.items|
      invariant next.Some? ==> it.slot == |handles| + 1 && a.identity != null && |handles| < |a.items|
      invariant next.Some? ==> next.value == (Mint(a.View(), |handles|).handle, a.items[|handles|])
      invariant |handles| <= |a.items| && (|handles| > 0 ==> a.identity != null)
      invariant forall k :: 0 <= k < |handles| ==> handles[k] == Mint(a.View(), k).handle
      decreases |a.items| - |handles|
    {
      handles := handles + [next.value.0];
      next := it.Next();
    }
    forall k | 0 <= k < |handles|
      ensures Recorded(W.Do(w, W.IterIndexed(i)), i, handles[k], a.items[k])
    {
      assert Mint(w.arenas[i].view, k) == Issue(handles[k], a.items[k], |w.arenas[i].view.history|);
    }
  }

  // ---- any number of arenas ----

  method NewArena(ghost w: W.World, arenas: seq<Arena<nat>>, stamps: StampSpace) returns (a: Arena<nat>)
    requires Matches(w, arenas, stamps)
    ensures fresh(a) && a.identity == null && Matches(W.Do(w, W.NewArena), arenas + [a], stamps)
  {
    a := new Arena<nat>();
    assert Shows(a, EmptyView(), {});
  }

  /** Performs one operation of one arena on the real structures; the rest of the arenas stay as they were. */
  method PerformOn(w: W.World, a: Arena<nat>, stamps: StampSpace, op: W.Op)
    requires !op.NewArena? && op.arena < |w.arenas| && Fits(w, op.arena, a, stamps)
    requires op.AllocBlock? ==> |a.items| + op.len <= USIZE_MAX
    modifies a, a.identity, stamps
    ensures a.identity == old(a.identity) || fresh(a.identity)
    ensures Follows(w, W.Do(w, op), op.arena, a, stamps)
  {
    match op {
      case Alloc(i, t) =>
        var handle := Alloc(w, i, a, stamps, t, w.arenas[i].count);
      case AllocBlock(i, t, len) =>
        var block := AllocBlock(w, i, a, stamps, t, seq(len, k requires 0 <= k < len => w.arenas[i].count + k));
      case TakeCheckpoint(i, t) =>
        var checkpoint := TakeCheckpoint(w, i, a, stamps, t);
      case Rollback(i, t, j, c, panics) =>
        if j < |w.arenas| && c in w.arenas[j].captures {
          var outcome, dropped := Rollback(w, i, a, stamps, t, j, c, c.checkpoint, panics);
        }
      case Reset(i, t, panics) =>
        var outcome, dropped := Reset(w, i, a, stamps, t, panics);
      case Drain(i, t) =>
        var values := Drain(w, i, a, stamps, t);
      case IterIndexed(i) =>
        var handles := Iterate(w, i, a, stamps);
    }
  }

  method PerformOne(w: W.World, arenas: seq<Arena<nat>>, stamps: StampSpace, op: W.Op)
    requires Matches(w, arenas, stamps) && !op.NewArena? && op.arena < |arenas|
    requires op.AllocBlock? ==> |arenas[op.arena].items| + op.len <= USIZE_MAX
    modifies arenas[op.arena], arenas[op.arena].identity, stamps
    ensures Matches(W.Do(w, op), arenas, stamps)
    ensures arenas[op.arena].identity == old(arenas[op.arena].identity) || fresh(arenas[op.arena].identity)
  {
    var i := op.arena;
    assert Shows(arenas[i], w.arenas[i].view, w.stamps.issued);
    PerformOn(w, arenas[i], stamps, op);
    OneChanged(w, W.Do(w, op), arenas, i, stamps);
  }

  /** A block that cannot fit a word panics before it changes anything. */
  predicate FitsWord(w: W.World, op: W.Op) {
    op.AllocBlock? && op.arena < |w.arenas| ==> |w.arenas[op.arena].view.items| + op.len <= USIZE_MAX
  }

  /**
   * Any operation on any of several arenas that match the world leaves them matching the world after
   * that operation.
   */
  method Perform(w: W.World, arenas: seq<Arena<nat>>, stamps: StampSpace, op: W.Op) returns (after: seq<Arena<nat>>)
    requires Matches(w, arenas, stamps)
    requires FitsWord(w, op)
    modifies arenas, Identities(arenas), stamps
    ensures Matches(W.Do(w, op), after, stamps)
    ensures forall i :: 0 <= i < |after| ==> (i < |arenas| && after[i] == arenas[i]) || fresh(after[i])
    ensures forall i :: 0 <= i < |after| && after[i].identity != null ==>
      (i < |arenas| && after[i].identity == old(arenas[i].identity)) || fresh(after[i].identity)
  {
    after := arenas;
    if op.NewArena? {
      var a := NewArena(w, arenas, stamps);
      after := arenas + [a];
    } else if op.arena < |arenas| {
      assert Shows(arenas[op.arena], w.arenas[op.arena].view, w.stamps.issued);
      PerformOne(w, arenas, stamps, op);
    }
  }

  /** No block of the run is too long for a word when its turn comes. */
  predicate AllFit(ops: seq<W.Op>) {
    ops == [] || (AllFit(ops[..|ops| - 1]) && FitsWord(W.Run(ops[..|ops| - 1]), ops[|ops| - 1]))
  }

  /** Whatever the sequence of operations, real arenas on a new stamp source end up matching the run. */
  method PerformAll(ops: seq<W.Op>) returns (w: W.World, arenas: seq<Arena<nat>>, stamps: StampSpace)
    requires AllFit(ops)
    ensures w == W.Run(ops) && Matches(w, arenas, stamps)
    ensures fresh(stamps) && forall i :: 0 <= i < |arenas| ==> fresh(arenas[i])
    ensures forall i :: 0 <= i < |arenas| && arenas[i].identity != null ==> fresh(arenas[i].identity)
    decreases |ops|
  {
    if ops == [] {
      stamps := new StampSpace();
      w, arenas := W.NOTHING, [];
    } else {
      var before, last := ops[..|ops| - 1], ops[|ops| - 1];
      w, arenas, stamps := PerformAll(before);
      arenas := Perform(w, arenas, stamps, last);
      w := W.Do(w, last);
    }
  }

  /** So in any arenas that got where they are by such operations, handles mean what `Worlds.NoAba` says. */
  lemma NoAba(ops: seq<W.Op>, arenas: seq<Arena<nat>>, stamps: StampSpace, i: nat, j: nat, r: Issue<nat>)
    requires Matches(W.Run(ops), arenas, stamps) && i < |arenas| && j < |arenas| && r in W.Run(ops).arenas[i].issues
    ensures arenas[j].Valid()
    ensures arenas[j].IsValid(r.handle) <==> i == j && !CutBelow(arenas[i].View().history, r.epoch, r.handle.slot + 1)
    ensures arenas[j].TryGet(r.handle) == if arenas[j].IsValid(r.handle) then Some(r.value) else None
  {
    assert Shows(arenas[i], W.Run(ops).arenas[i].view, W.Run(ops).stamps.issued);
    assert Shows(arenas[j], W.Run(ops).arenas[j].view, W.Run(ops).stamps.issued);
    W.NoAba(ops, i, j, r);
  }
}
