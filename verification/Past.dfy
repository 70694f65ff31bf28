// What has left an arena, and by which drop loop. Commits decide which handles and checkpoints
// validate; drop loops, which may stop early, decide which values are still there.
module Pasts {
  import opened History

  /**
   * A drop loop takes the highest slot first and goes on down to `target`; it stops behind the first
   * value whose destructor panics. `panics` names the slots whose values' destructors do.
   */
  function StopAt(len: nat, target: nat, panics: set<nat>): (keep: nat)
    requires target <= len
    ensures target <= keep <= len
  {
    if len == target then target
    else if len - 1 in panics then len - 1
    else StopAt(len - 1, target, panics)
  }

  /** What a caller sees of such a loop: no destructor but the last one run panicked, and only that ends it early. */
  predicate LoopRan(len: nat, target: nat, panics: set<nat>, keep: nat, panicked: bool) {
    && target <= keep <= len
    && (forall i :: keep < i < len ==> i !in panics)
    && (panicked <==> keep < len && keep in panics)
    && (!panicked ==> keep == target)
  }

  /** There is one place for the loop to stop; with no panic it drops everything from the target up. */
  lemma {:induction false} LoopStopsAt(len: nat, target: nat, panics: set<nat>, keep: nat, panicked: bool)
    requires target <= len
    ensures LoopRan(len, target, panics, keep, panicked) <==>
      keep == StopAt(len, target, panics) && (panicked <==> keep < len && keep in panics)
    ensures var stop := StopAt(len, target, panics);
      stop < len && stop in panics <==> exists i :: target <= i < len && i in panics
    ensures (forall i :: target <= i < len ==> i !in panics) ==> StopAt(len, target, panics) == target
    decreases len
  {
    if len == target {
    } else if len - 1 in panics {
    } else {
      LoopStopsAt(len - 1, target, panics, keep, panicked);
    }
  }

  /** `keeps[j]` items were left when the drop loop of the `j`-th commit stopped. */
  datatype Past<T> = Past(dropped: seq<T>, drained: seq<T>, keeps: seq<nat>)

  /** After a drop loop that stopped with `keep` of the items left: it takes the highest slot first. */
  function AfterDrops<T>(p: Past<T>, items: seq<T>, keep: nat): Past<T>
    requires keep <= |items|
  {
    p.(dropped := p.dropped + Reversed(items[keep..]), keeps := p.keeps + [keep])
  }

  /** After a drain: all items are the caller's, in allocation order. */
  function AfterDrain<T>(p: Past<T>, items: seq<T>): Past<T> {
    p.(drained := p.drained + items, keeps := p.keeps + [0])
  }

  ghost predicate Gone<T>(p: Past<T>, x: T) {
    x in p.dropped || x in p.drained
  }

  /** No drop loop since the `from`-th commit went below `len`. */
  predicate KeptSince(keeps: seq<nat>, from: nat, len: nat) {
    forall j :: from <= j < |keeps| ==> len <= keeps[j]
  }

  lemma KeptSinceStep(keeps: seq<nat>, keep: nat, from: nat, len: nat)
    requires from <= |keeps|
    ensures KeptSince(keeps + [keep], from, len) <==> KeptSince(keeps, from, len) && len <= keep
  {
    assert (keeps + [keep])[|keeps|] == keep;
    if KeptSince(keeps + [keep], from, len) {
      forall j | from <= j < |keeps|
        ensures len <= keeps[j]
      {
        assert (keeps + [keep])[j] == keeps[j];
      }
    }
  }

  /** A value that was in `slot` after `epoch` commits is still there, unless a drop loop since then took it. */
  ghost predicate Fate<T>(items: seq<T>, p: Past<T>, slot: nat, value: T, epoch: nat) {
    && epoch <= |p.keeps|
    && if KeptSince(p.keeps, epoch, slot + 1) then slot < |items| && items[slot] == value else Gone(p, value)
  }

  /** Every handle and checkpoint on record is traced to the values it was issued for. */
  ghost predicate Traced<T>(v: ArenaView<T>, p: Past<T>, issues: set<Issue<T>>, captures: set<Capture<T>>) {
    && |p.keeps| == |v.history|
    && (forall r :: r in issues ==> Fate(v.items, p, r.handle.slot, r.value, r.epoch))
    && (forall c, k :: c in captures && 0 <= k < |c.prefix| ==> Fate(v.items, p, k, c.prefix[k], c.epoch))
  }

  /** Items were added, or a loop took those above `keep` and they are on record. */
  ghost predicate Passes<T>(items: seq<T>, p: Past<T>, items': seq<T>, p': Past<T>, keep: nat) {
    if p' == p then items <= items'
    else
      && p'.keeps == p.keeps + [keep]
      && keep <= |items| && items' == items[..keep]
      && p.dropped <= p'.dropped && p.drained <= p'.drained
      && forall i :: keep <= i < |items| ==> Gone(p', items[i])
  }

  lemma DropsPass<T>(items: seq<T>, p: Past<T>, keep: nat)
    requires keep <= |items|
    ensures Passes(items, p, items[..keep], AfterDrops(p, items, keep), keep)
  {
    var p', gone := AfterDrops(p, items, keep), items[keep..];
    forall i | keep <= i < |items|
      ensures Gone(p', items[i])
    {
      var k := |gone| - 1 - (i - keep);
      assert Reversed(gone)[k] == items[i];
      assert p'.dropped[|p.dropped| + k] == Reversed(gone)[k];
    }
  }

  lemma FateKept<T>(items: seq<T>, p: Past<T>, items': seq<T>, p': Past<T>, keep: nat, slot: nat, value: T, epoch: nat)
    requires Passes(items, p, items', p', keep) && Fate(items, p, slot, value, epoch)
    ensures Fate(items', p', slot, value, epoch)
  {
    if p' != p {
      KeptSinceStep(p.keeps, keep, epoch, slot + 1);
    }
  }

  /** The record is of what is live now. */
  predicate LiveIssue<T(==)>(v: ArenaView<T>, r: Issue<T>) {
    r.epoch == |v.history| && r.handle.slot < |v.items| && v.items[r.handle.slot] == r.value
  }

  predicate LiveCapture<T(==)>(v: ArenaView<T>, c: Capture<T>) {
    c.epoch == |v.history| && c.prefix <= v.items
  }

  lemma TracedKept<T>(v: ArenaView<T>, p: Past<T>, issues: set<Issue<T>>, captures: set<Capture<T>>,
      v': ArenaView<T>, p': Past<T>, issues': set<Issue<T>>, captures': set<Capture<T>>, keep: nat)
    requires Traced(v, p, issues, captures) && Passes(v.items, p, v'.items, p', keep) && |p'.keeps| == |v'.history|
    requires forall r :: r in issues' ==> r in issues || LiveIssue(v', r)
    requires forall c :: c in captures' ==> c in captures || LiveCapture(v', c)
    ensures Traced(v', p', issues', captures')
  {
    forall r | r in issues'
      ensures Fate(v'.items, p', r.handle.slot, r.value, r.epoch)
    {
      if r in issues {
        FateKept(v.items, p, v'.items, p', keep, r.handle.slot, r.value, r.epoch);
      }
    }
    forall c, k | c in captures' && 0 <= k < |c.prefix|
      ensures Fate(v'.items, p', k, c.prefix[k], c.epoch)
    {
      if c in captures {
        FateKept(v.items, p, v'.items, p', keep, k, c.prefix[k], c.epoch);
      }
    }
  }

  /** The captured value `prefix[k]` is in its slot. */
  ghost predicate StillThere<T>(v: ArenaView<T>, c: Capture<T>, k: nat)
    requires k < |c.prefix|
  {
    k < |v.items| && v.items[k] == c.prefix[k]
  }

  /**
   * What became of a captured prefix. Each of its values is still in its slot exactly when no drop
   * loop since went down to that slot; otherwise it was dropped or drained and is in no slot.
   */
  ghost predicate PrefixFate<T>(v: ArenaView<T>, p: Past<T>, c: Capture<T>) {
    && c.epoch <= |p.keeps|
    && forall k :: 0 <= k < |c.prefix| ==>
      && (StillThere(v, c, k) <==> KeptSince(p.keeps, c.epoch, k + 1))
      && (!StillThere(v, c, k) ==> Gone(p, c.prefix[k]) && c.prefix[k] !in v.items)
  }

  /**
   * What `DivergedPrefix` means: the slot below the checkpoint's length was discarded and filled
   * again exactly when some drop loop since went below that length. When none did, the whole prefix
   * is still there and yet the checkpoint is refused.
   */
  ghost predicate DivergedMeans<T>(v: ArenaView<T>, p: Past<T>, c: Capture<T>) {
    var len := |c.prefix|;
    Validate(v, c.checkpoint) == Rejected(DivergedPrefix(len)) ==>
      && 0 < len <= |v.items|
      && (v.items[len - 1] != c.prefix[len - 1] <==> !KeptSince(p.keeps, c.epoch, len))
      && (c.prefix <= v.items <==> KeptSince(p.keeps, c.epoch, len))
  }

  lemma CaptureTraced<T>(v: ArenaView<T>, p: Past<T>, issues: set<Issue<T>>, captures: set<Capture<T>>, c: Capture<T>)
    requires WellFormed(v) && CaptureOk(v, c) && c in captures && Traced(v, p, issues, captures)
    requires forall x :: Gone(p, x) ==> x !in v.items
    ensures PrefixFate(v, p, c) && DivergedMeans(v, p, c)
  {
    CheckpointExact(v, c);
    var len := |c.prefix|;
    forall k | 0 <= k < len
      ensures StillThere(v, c, k) <==> KeptSince(p.keeps, c.epoch, k + 1)
      ensures !StillThere(v, c, k) ==> Gone(p, c.prefix[k]) && c.prefix[k] !in v.items
    {
      assert Fate(v.items, p, k, c.prefix[k], c.epoch);
    }
    if KeptSince(p.keeps, c.epoch, len) {
      forall k | 0 <= k < len
        ensures StillThere(v, c, k)
      {
        assert KeptSince(p.keeps, c.epoch, k + 1);
      }
    }
    if 0 < len <= |v.items| {
      assert StillThere(v, c, len - 1) <==> v.items[len - 1] == c.prefix[len - 1];
    }
  }

  lemma {:induction false} ReversedKeepsMultiset<T>(s: seq<T>)
    ensures multiset(Reversed(s)) == multiset(s)
  {
    if s == [] {
    } else {
      ReversedKeepsMultiset(s[1..]);
      assert Reversed(s) == Reversed(s[1..]) + [s[0]];
      assert s == [s[0]] + s[1..];
    }
  }

  /** Drop loops and drains move values and lose none: what is live and what is gone together stay the same. */
  lemma PastConserves<T>(items: seq<T>, p: Past<T>, keep: nat)
    requires keep <= |items|
    ensures var p' := AfterDrops(p, items, keep);
      multiset(items[..keep]) + multiset(p'.dropped) + multiset(p'.drained) ==
      multiset(items) + multiset(p.dropped) + multiset(p.drained)
    ensures var p' := AfterDrain(p, items);
      multiset(p'.dropped) + multiset(p'.drained) == multiset(items) + multiset(p.dropped) + multiset(p.drained)
  {
    ReversedKeepsMultiset(items[keep..]);
    assert items == items[..keep] + items[keep..];
  }
}
