// The concurrent arena between its concurrent phases: the operations that hold it exclusively, and
// an allocation no other thread competes with. The concurrent phase itself is in `Protocol`.
module SharedArenas {
  import opened Options
  import opened Stamps
  import opened History
  import opened Pasts
  import opened Segments
  import opened Blocks
  import opened Chunks
  import opened Arenas

  class SharedArena<T> {
    const identity: SharedIdentity
    const storage: ChunkedStorage<T>
    var reserved: nat
    var published: nat
    ghost var contents: seq<T>

    ghost function Repr(): set<object?>
      reads storage.chunks
    {
      {this, identity, storage} + storage.Repr()
    }

    /** The occupied slots are exactly the published ones, and both counters say so. */
    ghost predicate Settled()
      reads this, storage, storage.Repr()
    {
      && storage.Valid() && {this, identity} !! storage.Repr()
      && published == reserved == |contents| <= USIZE_MAX
      && (forall i :: i in storage.flat <==> 0 <= i < |contents|)
      && (forall i :: 0 <= i < |contents| ==> storage.flat[i] == contents[i])
    }

    ghost predicate IdentityFits()
      reads this, identity
    {
      && identity.Valid()
      && (identity.birth == 0 ==> contents == [])
      && identity.currentStart <= |contents|
    }

    ghost predicate Valid()
      reads Repr()
    {
      Settled() && IdentityFits()
    }

    ghost function View(): ArenaView<T>
      requires IdentityFits()
      reads this, identity
    {
      ArenaView(contents, if identity.birth == 0 then None else Some(identity.birth), identity.history)
    }

    ghost predicate DrawnFrom(stamps: StampSpace)
      reads identity, stamps
    {
      identity.DrawnFrom(stamps)
    }

    constructor ()
      ensures Valid() && View() == EmptyView() && fresh(Repr() - {null})
    {
      identity := new SharedIdentity();
      storage := new ChunkedStorage();
      reserved, published, contents := 0, 0, [];
    }

    /** Unpublishes and takes the last slot; `take` finds a value there. */
    method TakeLast() returns (value: T)
      requires Settled() && published > 0
      modifies this, storage, storage.Repr()
      ensures Settled() && published == old(published) - 1 && storage.Repr() == old(storage.Repr())
      ensures contents == old(contents)[..published] && value == old(contents)[published]
    {
      var slot := published - 1;
      published := slot;
      reserved := slot;
      var taken := storage.Take(slot);
      value := taken.value;
      contents := contents[..slot];
    }

    /**
     * Takes and drops from the highest slot down; a destructor that panics ends the loop right there:
     * `panics` names the slots whose values' destructors do.
     */
    method DropSuffix(target: nat, panics: set<nat>) returns (panicked: bool, dropped: seq<T>)
      requires Settled() && target <= published
      modifies this, storage, storage.Repr()
      ensures Settled() && storage.Repr() == old(storage.Repr())
      ensures target <= published <= old(published) && contents == old(contents)[..published]
      ensures dropped == Reversed(old(contents)[published..])
      ensures LoopRan(old(published), target, panics, published, panicked)
    {
      dropped := [];
      while published > target
        invariant Settled() && storage.Repr() == old(storage.Repr())
        invariant target <= published <= old(published) && contents == old(contents)[..published]
        invariant dropped == Reversed(old(contents)[published..])
        invariant forall i :: published <= i < old(published) ==> i !in panics
      {
        var value := TakeLast();
        dropped := dropped + [value];
        if published in panics {
          return true, dropped;
        }
      }
      return false, dropped;
    }

    /** The take loop of `drain`: last slot first. */
    method TakeAll() returns (values: seq<T>)
      requires Settled()
      modifies this, storage, storage.Repr()
      ensures Settled() && storage.Repr() == old(storage.Repr())
      ensures contents == [] && values == Reversed(old(contents))
    {
      values := [];
      while published > 0
        invariant Settled() && storage.Repr() == old(storage.Repr())
        invariant published <= |old(contents)| && contents == old(contents)[..published]
        invariant values == Reversed(old(contents)[published..])
      {
        var value := TakeLast();
        values := values + [value];
      }
    }

    /** Commits the boundary first, then drops: the common tail of rollback and reset. */
    method CutBack(target: nat, stamps: StampSpace, thread: ThreadId, panics: set<nat>)
      returns (outcome: RollbackOutcome, dropped: seq<T>)
      requires Valid() && stamps.Valid() && DrawnFrom(stamps) && target <= published
      modifies Repr(), stamps
      ensures Valid() && stamps.Valid() && DrawnFrom(stamps) && identity.birth == old(identity.birth)
      ensures !outcome.Refused?
      ensures outcome.StampsExhausted? || !identity.Assigned() ==>
        View() == old(View()) && unchanged(stamps) && dropped == []
      ensures identity.Assigned() && !outcome.StampsExhausted? ==>
        && published <= old(published)
        && dropped == Reversed(old(contents)[published..])
        && DrewFresh(old(stamps.State()), thread, identity.current, stamps.State())
        && Enabled(old(View()), Cut(target, published, identity.current))
        && View() == Apply(old(View()), Cut(target, published, identity.current))
      ensures !outcome.StampsExhausted? ==> LoopRan(old(published), target, panics, published, outcome.DestructorPanicked?)
      ensures outcome.RolledBack? ==> published == target
      ensures outcome.StampsExhausted? ==> identity.Assigned() && Draw(old(stamps.State()), thread).SpaceExhausted?
    {
      dropped := [];
      var ok := identity.Commit(target, stamps, thread);
      if !ok {
        return StampsExhausted, dropped;
      }
      var panicked;
      panicked, dropped := DropSuffix(target, panics);
      if identity.Assigned() {
        NewStampEnablesCut(old(View()), target, published, identity.current, old(stamps.issued));
      }
      return if panicked then DestructorPanicked else RolledBack, dropped;
    }

    method TryRollback(cp: Checkpoint, stamps: StampSpace, thread: ThreadId, panics: set<nat>)
      returns (outcome: RollbackOutcome, dropped: seq<T>)
      requires Valid() && stamps.Valid() && DrawnFrom(stamps)
      modifies Repr(), stamps
      ensures Valid() && stamps.Valid() && DrawnFrom(stamps)
      ensures outcome.Refused? <==> Validate(old(View()), cp).Rejected?
      ensures outcome.Refused? ==> Validate(old(View()), cp) == Rejected(outcome.error)
      ensures outcome.Refused? || outcome.StampsExhausted? ==> View() == old(View()) && unchanged(stamps) && dropped == []
      ensures outcome.RolledBack? || outcome.DestructorPanicked? ==>
        && identity.Assigned() && published <= old(published)
        && dropped == Reversed(old(contents)[published..])
        && DrewFresh(old(stamps.State()), thread, identity.current, stamps.State())
        && Enabled(old(View()), Cut(cp.len, published, identity.current))
        && View() == Apply(old(View()), Cut(cp.len, published, identity.current))
      ensures outcome.RolledBack? || outcome.DestructorPanicked? ==>
        LoopRan(old(published), cp.len, panics, published, outcome.DestructorPanicked?)
      ensures outcome.RolledBack? ==> published == cp.len
      ensures outcome.StampsExhausted? ==> identity.Assigned() && Draw(old(stamps.State()), thread).SpaceExhausted?
    {
      dropped := [];
      var validation := ValidateCheckpoint(cp);
      if validation.Rejected? {
        return Refused(validation.error), dropped;
      }
      outcome, dropped := CutBack(cp.len, stamps, thread, panics);
    }

    method Reset(stamps: StampSpace, thread: ThreadId, panics: set<nat>)
      returns (outcome: RollbackOutcome, dropped: seq<T>)
      requires Valid() && stamps.Valid() && DrawnFrom(stamps)
      modifies Repr(), stamps
      ensures Valid() && stamps.Valid() && DrawnFrom(stamps)
      ensures !outcome.Refused?
      ensures outcome.StampsExhausted? || !identity.Assigned() ==>
        View() == old(View()) && unchanged(stamps) && dropped == []
      ensures identity.Assigned() && !outcome.StampsExhausted? ==>
        && published <= old(published)
        && dropped == Reversed(old(contents)[published..])
        && DrewFresh(old(stamps.State()), thread, identity.current, stamps.State())
        && Enabled(old(View()), Cut(0, published, identity.current))
        && View() == Apply(old(View()), Cut(0, published, identity.current))
      ensures !outcome.StampsExhausted? ==> LoopRan(old(published), 0, panics, published, outcome.DestructorPanicked?)
      ensures outcome.RolledBack? ==> published == 0
      ensures outcome.StampsExhausted? ==> identity.Assigned() && Draw(old(stamps.State()), thread).SpaceExhausted?
    {
      outcome, dropped := CutBack(0, stamps, thread, panics);
    }

    /** Takes from the last slot to the first, then hands the values out in allocation order. */
    method Drain(stamps: StampSpace, thread: ThreadId) returns (r: Option<seq<T>>)
      requires Valid() && stamps.Valid() && DrawnFrom(stamps)
      modifies Repr(), stamps
      ensures Valid() && stamps.Valid() && DrawnFrom(stamps)
      ensures r.None? ==> identity.Assigned() && Draw(old(stamps.State()), thread).SpaceExhausted?
      ensures r.None? ==> View() == old(View()) && unchanged(stamps)
      ensures r.Some? ==> r.value == old(contents) && published == 0
      ensures r.Some? && !identity.Assigned() ==> View() == old(View()) && unchanged(stamps)
      ensures r.Some? && identity.Assigned() ==>
        && DrewFresh(old(stamps.State()), thread, identity.current, stamps.State())
        && Enabled(old(View()), Cut(0, 0, identity.current))
        && View() == Apply(old(View()), Cut(0, 0, identity.current))
    {
      var ok := identity.Commit(0, stamps, thread);
      if !ok {
        return None;
      }
      var values := TakeAll();
      if identity.Assigned() {
        NewStampEnablesCut(old(View()), 0, 0, identity.current, old(stamps.issued));
      }
      return Some(Reversed(values));
    }

    /** A whole range at once, or a refusal when the slot space is exhausted. */
    method ReserveRange(len: nat) returns (start: Option<nat>)
      requires 0 < len
      modifies this`reserved
      ensures start == if old(reserved) + len <= USIZE_MAX then Some(old(reserved)) else None
      ensures reserved == if start.Some? then old(reserved) + len else old(reserved)
    {
      if reserved + len > USIZE_MAX {
        return None;
      }
      start := Some(reserved);
      reserved := reserved + len;
    }

    /** With every slot up to `lastSlot` filled, the loop never waits and never asks for slot `usize::MAX`. */
    method AdvancePublished(lastSlot: nat)
      requires storage.Valid() && published <= lastSlot + 1 <= USIZE_MAX
      requires forall i :: published <= i <= lastSlot ==> i in storage.flat
      modifies this`published
      ensures published == lastSlot + 1
    {
      while published <= lastSlot
        invariant published <= lastSlot + 1
        invariant forall i :: published <= i <= lastSlot ==> i in storage.flat
        decreases lastSlot + 1 - published
      {
        var set_ := storage.Get(published);
        assert set_.Some?;
        published := published + 1;
      }
    }

    /** `identity.current()` seen from the arena. */
    method CurrentStamp(stamps: StampSpace, thread: ThreadId) returns (r: Option<Stamp>)
      requires Valid() && stamps.Valid() && DrawnFrom(stamps)
      modifies identity, stamps
      ensures Valid() && stamps.Valid() && DrawnFrom(stamps)
      ensures identity.history == old(identity.history)
      ensures r.Some? ==> r.value == CurrentRaw(View()) && View() == WithBirth(old(View()), r.value)
      ensures old(identity.Assigned()) ==> r.Some? && unchanged(stamps)
      ensures r.Some? && !old(identity.Assigned()) ==> DrewFresh(old(stamps.State()), thread, r.value, stamps.State())
      ensures r.None? ==> Draw(old(stamps.State()), thread).SpaceExhausted? && View() == old(View()) && unchanged(stamps)
    {
      r := identity.Current(stamps, thread);
    }

    /** Fills the one reserved slot and publishes it. */
    method Publish(slot: nat, value: T)
      requires storage.Valid() && {this, identity} !! storage.Repr()
      requires published == slot == |contents| < USIZE_MAX && reserved == slot + 1
      requires forall i :: i in storage.flat <==> 0 <= i < |contents|
      requires forall i :: 0 <= i < |contents| ==> storage.flat[i] == contents[i]
      modifies this, storage, storage.Repr()
      ensures Settled() && contents == old(contents) + [value]
      ensures fresh(storage.Repr() - old(storage.Repr()) - {null})
    {
      var inserted := storage.Set(slot, value);
      assert inserted;
      AdvancePublished(slot);
      contents := contents + [value];
    }

    /** Absent when the stamp space or the slot space is exhausted. The reserved slot is never occupied. */
    method Alloc(value: T, stamps: StampSpace, thread: ThreadId) returns (r: Option<Handle>)
      requires Valid() && stamps.Valid() && DrawnFrom(stamps)
      modifies Repr(), stamps
      ensures Valid() && stamps.Valid() && DrawnFrom(stamps)
      ensures r.Some? ==>
        && View() == Apply(WithBirth(old(View()), r.value.stamp), Push(value))
        && r.value == Mint(View(), old(published)).handle
        && (old(identity.Assigned()) ==> unchanged(stamps))
        && (!old(identity.Assigned()) ==> DrewFresh(old(stamps.State()), thread, r.value.stamp, stamps.State()))
      ensures r.None? ==> View() == old(View()) && unchanged(stamps)
      ensures r.None? ==>
        || (!identity.Assigned() && Draw(stamps.State(), thread).SpaceExhausted?)
        || published == USIZE_MAX
    {
      var stamp := CurrentStamp(stamps, thread);
      if stamp.None? {
        return None;
      }
      var start := ReserveRange(1);
      if start.None? {
        return None;
      }
      Publish(start.value, value);
      CurrentOwnsFromStart(identity.birth, identity.history, start.value);
      return Some(Handle(stamp.value, start.value));
    }

    /** Fills a whole reserved range, in order; `set` finds every slot of it free. */
    method FillRange(start: nat, values: seq<T>)
      requires storage.Valid() && {this, identity} !! storage.Repr() && start + |values| <= USIZE_MAX
      requires forall i :: start <= i < start + |values| ==> i !in storage.flat
      modifies storage, storage.Repr()
      ensures storage.Valid() && fresh(storage.Repr() - old(storage.Repr()) - {null})
      ensures forall i :: i in storage.flat <==> i in old(storage.flat) || start <= i < start + |values|
      ensures forall i :: i in old(storage.flat) ==> i in storage.flat && storage.flat[i] == old(storage.flat)[i]
      ensures forall i :: start <= i < start + |values| ==> storage.flat[i] == values[i - start]
    {
      for offset := 0 to |values|
        invariant storage.Valid() && fresh(storage.Repr() - old(storage.Repr()) - {null})
        invariant forall i :: i in storage.flat <==> i in old(storage.flat) || start <= i < start + offset
        invariant forall i :: i in old(storage.flat) ==> storage.flat[i] == old(storage.flat)[i]
        invariant forall i :: start <= i < start + offset ==> storage.flat[i] == values[i - start]
      {
        var inserted := storage.Set(start + offset, values[offset]);
        assert inserted;
      }
    }

    /** Fills the reserved range and publishes it. */
    method PublishBlock(start: nat, values: seq<T>)
      requires storage.Valid() && {this, identity} !! storage.Repr() && values != []
      requires published == start == |contents| && reserved == start + |values| <= USIZE_MAX
      requires forall i :: i in storage.flat <==> 0 <= i < |contents|
      requires forall i :: 0 <= i < |contents| ==> storage.flat[i] == contents[i]
      modifies this, storage, storage.Repr()
      ensures Settled() && contents == old(contents) + values
      ensures fresh(storage.Repr() - old(storage.Repr()) - {null})
    {
      FillRange(start, values);
      AdvancePublished(start + |values| - 1);
      contents := contents + values;
    }

    /** The block of the range just published derives the handle of each of its slots. */
    method NameBlock(stamp: Stamp, start: nat, len: nat) returns (block: Block)
      requires Valid() && identity.Assigned() && stamp == identity.current
      requires len > 0 && identity.currentStart <= start && start + len <= |contents|
      ensures block == Block(Some(stamp), start, len) && block.Sound()
      ensures forall k :: 0 <= k < len ==> block.Get(k) == Some(Mint(View(), start + k).handle)
    {
      block := Block(Some(stamp), start, len);
      BlockNamesItsSlots(View(), block);
    }

    /** With the stamp known: a whole range or a refusal that changes nothing. */
    method AllocRange(stamp: Stamp, values: seq<T>) returns (r: Option<Block>)
      requires Valid() && identity.Assigned() && stamp == identity.current && values != []
      modifies this, storage, storage.Repr()
      ensures Valid()
      ensures r.None? <==> old(published) + |values| > USIZE_MAX
      ensures r.None? ==> View() == old(View())
      ensures r.Some? ==>
        && r.value == Block(Some(stamp), old(published), |values|) && r.value.Sound()
        && View() == old(View()).(items := old(contents) + values)
        && forall k :: 0 <= k < |values| ==> r.value.Get(k) == Some(Mint(View(), r.value.start + k).handle)
    {
      var start := ReserveRange(|values|);
      if start.None? {
        return None;
      }
      PublishBlock(start.value, values);
      var block := NameBlock(stamp, start.value, |values|);
      return Some(block);
    }

    /** The values are already collected. Absent when the stamp space or the slot space is exhausted. */
    method AllocBlock(values: seq<T>, stamps: StampSpace, thread: ThreadId) returns (r: Option<Block>)
      requires Valid() && stamps.Valid() && DrawnFrom(stamps)
      modifies Repr(), stamps
      ensures Valid() && stamps.Valid() && DrawnFrom(stamps)
      ensures values == [] ==> r == Some(EMPTY)
      ensures r.Some? ==> r.value.Sound() && r.value.len == |values|
      ensures r.Some? && values != [] ==>
        && View() == WithBirth(old(View()), r.value.stamp.value).(items := old(contents) + values)
        && r.value.start == old(published)
        && (forall k :: 0 <= k < |values| ==> r.value.Get(k) == Some(Mint(View(), r.value.start + k).handle))
        && (old(identity.Assigned()) ==> unchanged(stamps))
        && (!old(identity.Assigned()) ==> DrewFresh(old(stamps.State()), thread, r.value.stamp.value, stamps.State()))
      ensures r.Some? && values == [] ==> View() == old(View()) && unchanged(stamps)
      ensures r.None? ==>
        if identity.Assigned()
        then published + |values| > USIZE_MAX && View() == WithBirth(old(View()), identity.birth)
        else Draw(stamps.State(), thread).SpaceExhausted? && unchanged(stamps) && View() == old(View())
    {
      if values == [] {
        return Some(EMPTY);
      }
      var stamp := CurrentStamp(stamps, thread);
      if stamp.None? {
        return None;
      }
      r := AllocRange(stamp.value, values);
    }

    /** The owner of the last published slot; an identity is assigned by then, so nothing changes. */
    method TailStamp() returns (tail: Option<Stamp>)
      requires Valid()
      ensures tail == if published == 0 then None else Some(Owner(identity.birth, identity.history, published - 1))
    {
      tail := if published == 0 then None else Some(identity.OwnerOf(published - 1));
    }

    /** `identity.birth()` seen from the arena. */
    method BirthStamp(stamps: StampSpace, thread: ThreadId) returns (r: Option<Stamp>)
      requires Valid() && stamps.Valid() && DrawnFrom(stamps)
      modifies identity, stamps
      ensures Valid() && stamps.Valid() && DrawnFrom(stamps)
      ensures r.Some? ==> View().birth == r && View() == WithBirth(old(View()), r.value)
      ensures old(identity.Assigned()) ==> r.Some? && unchanged(stamps)
      ensures r.Some? && !old(identity.Assigned()) ==> DrewFresh(old(stamps.State()), thread, r.value, stamps.State())
      ensures r.None? ==> !identity.Assigned() && Draw(stamps.State(), thread).SpaceExhausted?
      ensures r.None? ==> View() == old(View()) && unchanged(stamps)
    {
      r := identity.Birth(stamps, thread);
    }

    /** A checkpoint that no allocation runs beside. */
    method TakeCheckpoint(stamps: StampSpace, thread: ThreadId) returns (r: Option<Checkpoint>)
      requires Valid() && stamps.Valid() && DrawnFrom(stamps)
      modifies identity, stamps
      ensures Valid() && stamps.Valid() && DrawnFrom(stamps)
      ensures r.Some? ==>
        && View() == WithBirth(old(View()), r.value.owner)
        && r.value == Snapshot(View(), published).checkpoint
        && (old(identity.Assigned()) ==> unchanged(stamps))
        && (!old(identity.Assigned()) ==> DrewFresh(old(stamps.State()), thread, r.value.owner, stamps.State()))
      ensures r.None? ==> !identity.Assigned() && Draw(stamps.State(), thread).SpaceExhausted?
      ensures r.None? ==> View() == old(View()) && unchanged(stamps)
    {
      var len := published;
      var tail := TailStamp();
      var birth := BirthStamp(stamps, thread);
      return if birth.None? then None else Some(Checkpoint(birth.value, len, tail));
    }

    function ValidateCheckpoint(cp: Checkpoint): (r: Validation)
      requires Valid()
      reads Repr()
      ensures r == Validate(View(), cp)
    {
      if identity.birth != cp.owner then Rejected(ForeignArena)
      else if cp.len > published then Rejected(BeyondCurrent(cp.len, published))
      else
        var currentTail := if cp.len == 0 then None else Some(identity.OwnerOf(cp.len - 1));
        if currentTail != cp.tail then Rejected(DivergedPrefix(cp.len)) else Accepted
    }

    predicate IsValid(h: Handle)
      requires Valid()
      reads Repr()
      ensures IsValid(h) <==> FastValid(View(), h)
    {
      h.slot < published && identity.Matches(h.slot, h.stamp)
    }
  }
}
