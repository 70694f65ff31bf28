// The single-thread arena: a vector of items, a lazily assigned identity and an inline mirror of
// its current stamp.
module Arenas {
  import opened Options
  import opened Stamps
  import opened History
  import opened Pasts
  import opened Segments
  import opened Blocks
  import opened Iter

  datatype RollbackOutcome =
    | RolledBack
    | Refused(error: CheckpointError)
    | StampsExhausted
    | DestructorPanicked

  /** Every offset of a block under the current stamp derives the handle that names its slot. */
  lemma BlockNamesItsSlots<T>(v: ArenaView<T>, b: Block)
    requires v.birth.Some? && b.Sound() && b.len > 0 && b.stamp.value == CurrentRaw(v)
    requires CurrentStart(v.history) <= b.start && b.start + b.len <= |v.items|
    ensures forall k :: 0 <= k < b.len ==> b.Get(k) == Some(Mint(v, b.start + k).handle)
  {
    forall k | 0 <= k < b.len
      ensures b.Get(k) == Some(Mint(v, b.start + k).handle)
    {
      CurrentOwnsFromStart(v.birth.value, v.history, b.start + k);
    }
  }

  class Arena<T> {
    var items: seq<T>
    var identity: Identity?
    var current: nat

    ghost predicate Valid()
      reads this, identity
    {
      && (identity == null ==> items == [] && current == 0)
      && (identity != null ==>
            && identity.Valid()
            && current == identity.current
            && identity.currentStart <= |items|)
    }

    ghost function View(): ArenaView<T>
      reads this, identity
    {
      if identity == null then ArenaView(items, None, [])
      else ArenaView(items, Some(identity.birth), identity.history)
    }

    /** Every stamp this arena holds was drawn from `stamps`. */
    ghost predicate DrawnFrom(stamps: StampSpace)
      reads this, identity, stamps
    {
      identity != null ==> Spent(identity.birth, identity.history, stamps.issued)
    }

    lemma ViewIsWellFormed()
      requires Valid()
      ensures WellFormed(View()) && CurrentRaw(View()) == current
    {
    }

    constructor ()
      ensures Valid() && View() == EmptyView() && identity == null
    {
      items, identity, current := [], null, 0;
    }

    /** `OnceLock::get_or_init`: false only when an identity is needed and no stamp is left. */
    method AssignIdentity(stamps: StampSpace, thread: ThreadId) returns (ok: bool)
      requires Valid() && stamps.Valid() && DrawnFrom(stamps)
      modifies this, stamps
      ensures Valid() && stamps.Valid() && DrawnFrom(stamps)
      ensures old(identity) != null ==> ok && unchanged(this) && unchanged(stamps)
      ensures old(identity) == null && ok ==>
        && identity != null && fresh(identity)
        && View() == Apply(old(View()), Assign(identity.birth))
        && DrewFresh(old(stamps.State()), thread, identity.birth, stamps.State())
      ensures !ok ==> old(identity) == null && Draw(old(stamps.State()), thread).SpaceExhausted?
      ensures !ok ==> unchanged(this) && unchanged(stamps)
    {
      if identity != null {
        return true;
      }
      var drawn := stamps.Fresh(thread);
      if drawn.None? {
        return false;
      }
      identity := new Identity(drawn.value);
      current := identity.current;
      return true;
    }

    /** The stamp a new allocation receives: the mirror, or a new identity's. */
    method CurrentStamp(stamps: StampSpace, thread: ThreadId) returns (r: Option<Stamp>)
      requires Valid() && stamps.Valid() && DrawnFrom(stamps)
      modifies this, stamps
      ensures Valid() && stamps.Valid() && DrawnFrom(stamps)
      ensures old(identity) != null ==> r.Some? && identity == old(identity) && unchanged(this) && unchanged(stamps)
      ensures old(identity) == null && r.Some? ==>
        fresh(identity) && DrewFresh(old(stamps.State()), thread, r.value, stamps.State())
      ensures r.Some? ==>
        && identity != null && r.value == CurrentRaw(View())
        && View() == WithBirth(old(View()), r.value)
      ensures r.None? ==> old(identity) == null && Draw(old(stamps.State()), thread).SpaceExhausted?
      ensures r.None? ==> unchanged(this) && unchanged(stamps)
    {
      if current != 0 {
        return Some(current);
      }
      var ok := AssignIdentity(stamps, thread);
      if !ok {
        return None;
      }
      return Some(identity.current);
    }

    method Alloc(value: T, stamps: StampSpace, thread: ThreadId) returns (r: Option<Handle>)
      requires Valid() && stamps.Valid() && DrawnFrom(stamps)
      modifies this, stamps
      ensures Valid() && stamps.Valid() && DrawnFrom(stamps)
      ensures identity == old(identity) || fresh(identity)
      ensures r.Some? ==>
        && View() == Apply(WithBirth(old(View()), r.value.stamp), Push(value))
        && r.value == Mint(View(), |old(items)|).handle
        && (old(identity) != null ==> unchanged(stamps))
        && (old(identity) == null ==> DrewFresh(old(stamps.State()), thread, r.value.stamp, stamps.State()))
      ensures r.None? ==> old(identity) == null && Draw(old(stamps.State()), thread).SpaceExhausted?
      ensures r.None? ==> View() == old(View()) && unchanged(stamps)
    {
      var stamp := CurrentStamp(stamps, thread);
      if stamp.None? {
        return None;
      }
      var slot := |items|;
      items := items + [value];
      return Some(Handle(stamp.value, slot));
    }

    /** The values are already collected, so a failure leaves the arena as it was. */
    method AllocBlock(values: seq<T>, stamps: StampSpace, thread: ThreadId) returns (r: Option<Block>)
      requires Valid() && stamps.Valid() && DrawnFrom(stamps)
      requires |items| + |values| <= USIZE_MAX
      modifies this, stamps
      ensures Valid() && stamps.Valid() && DrawnFrom(stamps)
      ensures identity == old(identity) || fresh(identity)
      ensures values == [] ==> r == Some(EMPTY)
      ensures r.Some? ==> r.value.Sound() && r.value.len == |values|
      ensures r.Some? && values != [] ==>
        && View() == WithBirth(old(View()), r.value.stamp.value).(items := old(items) + values)
        && r.value.start == |old(items)|
        && (forall k :: 0 <= k < |values| ==> r.value.Get(k) == Some(Mint(View(), r.value.start + k).handle))
        && (old(identity) != null ==> unchanged(stamps))
        && (old(identity) == null ==> DrewFresh(old(stamps.State()), thread, r.value.stamp.value, stamps.State()))
      ensures r.None? ==> old(identity) == null && Draw(old(stamps.State()), thread).SpaceExhausted?
      ensures r.None? || values == [] ==> View() == old(View()) && unchanged(stamps)
    {
      var len := |values|;
      if len == 0 {
        return Some(EMPTY);
      }
      var stamp := CurrentStamp(stamps, thread);
      if stamp.None? {
        return None;
      }
      var start := |items|;
      items := items + values;
      r := Some(Block(Some(stamp.value), start, len));
      BlockNamesItsSlots(View(), r.value);
    }

    method TakeCheckpoint(stamps: StampSpace, thread: ThreadId) returns (r: Option<Checkpoint>)
      requires Valid() && stamps.Valid() && DrawnFrom(stamps)
      modifies this, stamps
      ensures Valid() && stamps.Valid() && DrawnFrom(stamps)
      ensures identity == old(identity) || fresh(identity)
      ensures r.Some? ==>
        && View() == WithBirth(old(View()), r.value.owner)
        && r.value == Snapshot(View(), |items|).checkpoint
        && (old(identity) != null ==> unchanged(stamps))
        && (old(identity) == null ==> DrewFresh(old(stamps.State()), thread, r.value.owner, stamps.State()))
      ensures r.None? ==> old(identity) == null && Draw(old(stamps.State()), thread).SpaceExhausted?
      ensures r.None? ==> View() == old(View()) && unchanged(stamps)
    {
      var ok := AssignIdentity(stamps, thread);
      if !ok {
        return None;
      }
      var len := |items|;
      var tail := if len == 0 then None else Some(identity.StampOf(len - 1));
      return Some(Checkpoint(identity.birth, len, tail));
    }

    function ValidateCheckpoint(cp: Checkpoint): (r: Validation)
      requires Valid()
      reads this, identity
      ensures r == Validate(View(), cp)
    {
      if identity == null then Rejected(ForeignArena)
      else if identity.birth != cp.owner then Rejected(ForeignArena)
      else if cp.len > |items| then Rejected(BeyondCurrent(cp.len, |items|))
      else
        var currentTail := if cp.len == 0 then None else Some(identity.StampOf(cp.len - 1));
        if currentTail != cp.tail then Rejected(DivergedPrefix(cp.len)) else Accepted
    }

    /**
     * Pops from the highest slot down. Any destructor may panic, which ends the loop right there:
     * `panics` names the slots whose values' destructors do.
     */
    method DropSuffix(target: nat, panics: set<nat>) returns (panicked: bool, dropped: seq<T>)
      requires target <= |items|
      modifies this`items
      ensures target <= |items| <= |old(items)| && items == old(items)[..|items|]
      ensures dropped == Reversed(old(items)[|items|..])
      ensures LoopRan(|old(items)|, target, panics, |items|, panicked)
    {
      dropped := [];
      while |items| > target
        invariant target <= |items| <= |old(items)| && items == old(items)[..|items|]
        invariant dropped == Reversed(old(items)[|items|..])
        invariant forall i :: |items| <= i < |old(items)| ==> i !in panics
      {
        var value := items[|items| - 1];
        items := items[..|items| - 1];
        dropped := dropped + [value];
        if |items| in panics {
          return true, dropped;
        }
      }
      return false, dropped;
    }

    /** Commits first, so an interrupted drop loop leaves no slot under a stamp that was given out before. */
    method TryRollback(cp: Checkpoint, stamps: StampSpace, thread: ThreadId, panics: set<nat>)
      returns (outcome: RollbackOutcome, dropped: seq<T>)
      requires Valid() && stamps.Valid() && DrawnFrom(stamps)
      modifies this, identity, stamps
      ensures Valid() && stamps.Valid() && DrawnFrom(stamps) && identity == old(identity)
      ensures outcome.Refused? <==> Validate(old(View()), cp).Rejected?
      ensures outcome.Refused? ==> Validate(old(View()), cp) == Rejected(outcome.error)
      ensures outcome.Refused? || outcome.StampsExhausted? ==> View() == old(View()) && unchanged(stamps) && dropped == []
      ensures outcome.RolledBack? || outcome.DestructorPanicked? ==>
        && |items| <= |old(items)| && dropped == Reversed(old(items)[|items|..])
        && identity != null && DrewFresh(old(stamps.State()), thread, identity.current, stamps.State())
        && Enabled(old(View()), Cut(cp.len, |items|, identity.current))
        && View() == Apply(old(View()), Cut(cp.len, |items|, identity.current))
      ensures outcome.RolledBack? || outcome.DestructorPanicked? ==>
        LoopRan(|old(items)|, cp.len, panics, |items|, outcome.DestructorPanicked?)
      ensures outcome.RolledBack? ==> |items| == cp.len
      ensures outcome.StampsExhausted? ==> identity != null && Draw(old(stamps.State()), thread).SpaceExhausted?
    {
      dropped := [];
      var validation := ValidateCheckpoint(cp);
      if validation.Rejected? {
        return Refused(validation.error), dropped;
      }
      var ok := identity.Commit(cp.len, stamps, thread);
      if !ok {
        return StampsExhausted, dropped;
      }
      current := identity.current;
      var panicked;
      panicked, dropped := DropSuffix(cp.len, panics);
      return if panicked then DestructorPanicked else RolledBack, dropped;
    }

    method Reset(stamps: StampSpace, thread: ThreadId, panics: set<nat>)
      returns (outcome: RollbackOutcome, dropped: seq<T>)
      requires Valid() && stamps.Valid() && DrawnFrom(stamps)
      modifies this, identity, stamps
      ensures Valid() && stamps.Valid() && DrawnFrom(stamps) && identity == old(identity)
      ensures !outcome.Refused?
      ensures identity == null || outcome.StampsExhausted? ==> View() == old(View()) && unchanged(stamps) && dropped == []
      ensures identity != null && !outcome.StampsExhausted? ==>
        && |items| <= |old(items)| && dropped == Reversed(old(items)[|items|..])
        && DrewFresh(old(stamps.State()), thread, identity.current, stamps.State())
        && Enabled(old(View()), Cut(0, |items|, identity.current))
        && View() == Apply(old(View()), Cut(0, |items|, identity.current))
      ensures !outcome.StampsExhausted? ==> LoopRan(|old(items)|, 0, panics, |items|, outcome.DestructorPanicked?)
      ensures outcome.RolledBack? ==> items == []
      ensures outcome.StampsExhausted? ==> identity != null && Draw(old(stamps.State()), thread).SpaceExhausted?
    {
      dropped := [];
      if identity != null {
        var ok := identity.Commit(0, stamps, thread);
        if !ok {
          return StampsExhausted, dropped;
        }
        current := identity.current;
      }
      var panicked;
      panicked, dropped := DropSuffix(0, panics);
      return if panicked then DestructorPanicked else RolledBack, dropped;
    }

    /** The arena is empty at once; the values are the caller's, in allocation order. */
    method Drain(stamps: StampSpace, thread: ThreadId) returns (r: Option<seq<T>>)
      requires Valid() && stamps.Valid() && DrawnFrom(stamps)
      modifies this, identity, stamps
      ensures Valid() && stamps.Valid() && DrawnFrom(stamps) && identity == old(identity)
      ensures r.None? ==> identity != null && Draw(old(stamps.State()), thread).SpaceExhausted?
      ensures r.None? ==> View() == old(View()) && unchanged(stamps)
      ensures r.Some? ==> r.value == old(items) && items == []
      ensures r.Some? && identity == null ==> View() == old(View()) && unchanged(stamps)
      ensures r.Some? && identity != null ==>
        && DrewFresh(old(stamps.State()), thread, identity.current, stamps.State())
        && Enabled(old(View()), Cut(0, 0, identity.current))
        && View() == Apply(old(View()), Cut(0, 0, identity.current))
    {
      if identity != null {
        var ok := identity.Commit(0, stamps, thread);
        if !ok {
          return None;
        }
        current := identity.current;
      }
      var drained := items;
      items := [];
      return Some(drained);
    }

    predicate StampMatches(h: Handle)
      requires Valid()
      reads this, identity
    {
      h.stamp == current || (identity != null && identity.MatchesArchived(h.slot, h.stamp))
    }

    predicate IsValid(h: Handle)
      requires Valid()
      reads this, identity
      ensures IsValid(h) <==> FastValid(View(), h)
    {
      h.slot < |items| && StampMatches(h)
    }

    function TryGet(h: Handle): (r: Option<T>)
      requires Valid()
      reads this, identity
      ensures r == if FastValid(View(), h) then Some(items[h.slot]) else None
    {
      if h.slot < |items| then (if StampMatches(h) then Some(items[h.slot]) else None) else None
    }

    /** Writes through the handle exactly when `TryGet` would read through it, and touches no other slot. */
    method TrySet(h: Handle, value: T) returns (ok: bool)
      requires Valid()
      modifies this`items
      ensures Valid() && ok == FastValid(old(View()), h)
      ensures View() == if ok then old(View()).(items := old(items)[h.slot := value]) else old(View())
    {
      if !StampMatches(h) {
        return false;
      }
      if h.slot < |items| {
        items := items[h.slot := value];
        return true;
      }
      return false;
    }

    method IterIndexed() returns (it: Iter.IterIndexed<T>)
      requires Valid()
      ensures fresh(it) && it.Valid() && it.identity == identity && it.all == items && it.slot == 0
    {
      it := new Iter.IterIndexed(identity, items);
    }
  }
}
