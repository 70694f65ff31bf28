// The compressed index behind an arena's identity: the current segment inline, one cached stamp
// below it, and a sorted table of archived segments. `History.Owner` says what it stands for.
module Segments {
  import opened Options
  import opened Stamps
  import opened History

  /** An archived segment: `stamp` took over every slot from `start` on. */
  datatype Entry = Entry(start: nat, stamp: Stamp)

  ghost predicate Ascending(table: seq<Entry>) {
    forall i, j :: 0 <= i < j < |table| ==> table[i].start < table[j].start
  }

  /** `partition_point(|(start, _)| start < bound)` of a sorted table. */
  function PartitionPoint(table: seq<Entry>, bound: nat): (k: nat)
    requires Ascending(table)
    ensures k <= |table|
    ensures forall i :: 0 <= i < k ==> table[i].start < bound
    ensures forall i :: k <= i < |table| ==> bound <= table[i].start
  {
    if table == [] || bound <= table[0].start then 0 else 1 + PartitionPoint(table[1..], bound)
  }

  lemma PartitionPointIs(table: seq<Entry>, bound: nat, k: nat)
    requires Ascending(table) && k <= |table|
    requires k > 0 ==> table[k - 1].start < bound
    requires k < |table| ==> bound <= table[k].start
    ensures PartitionPoint(table, bound) == k
  {
  }

  lemma PartitionPointMonotone(table: seq<Entry>, low: nat, high: nat)
    requires Ascending(table) && low <= high
    ensures PartitionPoint(table, low) <= PartitionPoint(table, high)
  {
    var p := PartitionPoint(table, high);
    if p < |table| {
      assert high <= table[p].start;
    }
  }

  /** The rightmost archived segment that starts at or below `slot`; failing that, the birth segment. */
  function ColdLookup(birth: Stamp, table: seq<Entry>, slot: nat): Stamp
    requires Ascending(table)
  {
    var covering := PartitionPoint(table, slot + 1);
    if covering == 0 then birth else table[covering - 1].stamp
  }

  /** Drops the entries the new one supersedes, then appends it. */
  function Archive(table: seq<Entry>, start: nat, stamp: Stamp): (r: seq<Entry>)
    requires Ascending(table)
    ensures Ascending(r)
    ensures |r| == PartitionPoint(table, start) + 1
  {
    table[..PartitionPoint(table, start)] + [Entry(start, stamp)]
  }

  /** Archiving overrides exactly the slots from `start` on; compaction loses nothing. */
  lemma ArchiveLookup(birth: Stamp, table: seq<Entry>, start: nat, stamp: Stamp, slot: nat)
    requires Ascending(table)
    ensures ColdLookup(birth, Archive(table, start, stamp), slot) ==
      if start <= slot then stamp else ColdLookup(birth, table, slot)
  {
    var r := Archive(table, start, stamp);
    if start <= slot {
      PartitionPointIs(r, slot + 1, |r|);
    } else {
      PartitionPointMonotone(table, slot + 1, start);
      PartitionPointIs(r, slot + 1, PartitionPoint(table, slot + 1));
    }
  }

  /** Entries that can still be the owner of a slot: those below the current segment. */
  function LiveEntries(table: seq<Entry>, currentStart: nat): nat
    requires Ascending(table)
  {
    PartitionPoint(table, currentStart)
  }

  /** The fields of an identity, as one value. */
  datatype Index = Index(birth: Stamp, current: Stamp, currentStart: nat, prefixTail: Stamp, table: seq<Entry>)

  /** `x` stands for the flat history `h`. Entries at or above `currentStart` may linger; nothing reads them. */
  ghost predicate Represents(x: Index, h: seq<Commit>) {
    && Ascending(x.table)
    && Distinct(x.birth, h)
    && x.current == StampAt(x.birth, h, |h|)
    && x.currentStart == CurrentStart(h)
    && (h == [] ==> x.table == [])
    && (forall slot :: 0 <= slot < x.currentStart ==> ColdLookup(x.birth, x.table, slot) == Owner(x.birth, h, slot))
    && (x.currentStart > 0 ==> x.prefixTail == Owner(x.birth, h, x.currentStart - 1))
    && |x.table| <= |h|
    && (h != [] ==> LiveEntries(x.table, x.currentStart) <= |h| - 1)
  }

  /** The segment being left is archived, unless it is the birth segment. */
  function ArchiveCurrent(x: Index): (table: seq<Entry>)
    requires Ascending(x.table)
    ensures Ascending(table)
  {
    if x.current == x.birth then x.table else Archive(x.table, x.currentStart, x.current)
  }

  /** The four ways the cached stamp below the new segment is found. */
  function NextTail(x: Index, newLen: nat): Stamp
    requires Ascending(x.table)
  {
    if newLen == 0 then x.prefixTail
    else if x.current == x.birth then x.birth
    else if newLen > x.currentStart then x.current
    else ColdLookup(x.birth, ArchiveCurrent(x), newLen - 1)
  }

  /** A new identity: one segment, from slot 0 on. */
  function Born(stamp: Stamp): Index {
    Index(stamp, stamp, 0, stamp, [])
  }

  /** The index after a commit at `newLen` that drew `stamp`. */
  function Committed(x: Index, newLen: nat, stamp: Stamp): Index
    requires Ascending(x.table)
  {
    Index(x.birth, stamp, newLen, NextTail(x, newLen), ArchiveCurrent(x))
  }

  lemma CurrentIsBirth(x: Index, h: seq<Commit>)
    requires Represents(x, h)
    ensures x.current == x.birth <==> h == []
  {
    assert h != [] ==> StampAt(x.birth, h, 0) != StampAt(x.birth, h, |h|);
  }

  /** After archiving, the table alone owns every slot, current segment included. */
  lemma ArchivedTableOwnsAll(x: Index, h: seq<Commit>, slot: nat)
    requires Represents(x, h)
    ensures ColdLookup(x.birth, ArchiveCurrent(x), slot) == Owner(x.birth, h, slot)
  {
    CurrentIsBirth(x, h);
    if h != [] {
      ArchiveLookup(x.birth, x.table, x.currentStart, x.current, slot);
    }
  }

  /** A commit that stops after archiving, because no stamp could be drawn, changes no answer. */
  lemma FailedCommitRepresents(x: Index, h: seq<Commit>)
    requires Represents(x, h)
    ensures Represents(x.(table := ArchiveCurrent(x)), h)
  {
    CurrentIsBirth(x, h);
    forall slot | 0 <= slot < x.currentStart
      ensures ColdLookup(x.birth, ArchiveCurrent(x), slot) == Owner(x.birth, h, slot)
    {
      ArchivedTableOwnsAll(x, h, slot);
    }
    if h != [] {
      PartitionPointIs(ArchiveCurrent(x), x.currentStart, LiveEntries(x.table, x.currentStart));
    }
  }

  lemma ArchiveTwice(table: seq<Entry>, start: nat, stamp: Stamp)
    requires Ascending(table)
    ensures Archive(Archive(table, start, stamp), start, stamp) == Archive(table, start, stamp)
  {
    var r, k := Archive(table, start, stamp), PartitionPoint(table, start);
    PartitionPointIs(r, start, k);
    assert r[..k] == table[..k];
  }

  /** A commit after a failed one removes the boundary that one left behind: the index is as if only the last had been made. */
  lemma RetriedCommit(x: Index, newLen: nat, stamp: Stamp)
    requires Ascending(x.table)
    ensures Committed(x.(table := ArchiveCurrent(x)), newLen, stamp) == Committed(x, newLen, stamp)
  {
    ArchiveTwice(x.table, x.currentStart, x.current);
    assert ArchiveCurrent(x.(table := ArchiveCurrent(x))) == ArchiveCurrent(x);
  }

  /** Every stamp of the history was drawn, so no later draw repeats one. */
  ghost predicate Spent(birth: Stamp, h: seq<Commit>, issued: set<nat>) {
    birth in issued && forall c :: c in h ==> c.stamp in issued
  }

  lemma SpentGrows(birth: Stamp, h: seq<Commit>, c: Commit, issued: set<nat>)
    requires Spent(birth, h, issued)
    ensures Spent(birth, h + [c], issued + {c.stamp})
  {
  }

  /** A stamp drawn now can start a new segment. */
  lemma NewStampEnablesCut<T>(v: ArenaView<T>, len: nat, keep: nat, stamp: Stamp, issued: set<nat>)
    requires v.birth.Some? && Spent(v.birth.value, v.history, issued) && stamp !in issued
    requires len <= keep <= |v.items|
    ensures Enabled(v, Cut(len, keep, stamp))
  {
  }

  lemma DistinctGrows(birth: Stamp, h: seq<Commit>, c: Commit)
    requires Distinct(birth, h) && c.stamp != birth && forall d :: d in h ==> d.stamp != c.stamp
    ensures Distinct(birth, h + [c])
  {
    var h' := h + [c];
    forall i, j | 0 <= i < j <= |h'|
      ensures StampAt(birth, h', i) != StampAt(birth, h', j)
    {
      assert StampAt(birth, h', i) == StampAt(birth, h, i);
      assert i > 0 ==> h[i - 1] in h;
      if j <= |h| {
        assert StampAt(birth, h', j) == StampAt(birth, h, j);
      }
    }
  }

  /** A commit re-stamps exactly the slots at or above `newLen`, whichever way the cache is refilled. */
  lemma CommitRepresents(x: Index, h: seq<Commit>, newLen: nat, stamp: Stamp, issued: set<nat>)
    requires Represents(x, h) && Spent(x.birth, h, issued) && stamp !in issued
    ensures Represents(Committed(x, newLen, stamp), h + [Commit(newLen, stamp)])
    ensures Spent(x.birth, h + [Commit(newLen, stamp)], issued + {stamp})
    ensures |ArchiveCurrent(x)| <= |h|
  {
    var c := Commit(newLen, stamp);
    var h' := h + [c];
    CurrentIsBirth(x, h);
    DistinctGrows(x.birth, h, c);
    SpentGrows(x.birth, h, c, issued);
    forall slot | 0 <= slot < newLen
      ensures ColdLookup(x.birth, ArchiveCurrent(x), slot) == Owner(x.birth, h', slot)
    {
      ArchivedTableOwnsAll(x, h, slot);
      OwnerAfterCommit(x.birth, h, c, slot);
    }
    if newLen > 0 {
      ArchivedTableOwnsAll(x, h, newLen - 1);
      OwnerAfterCommit(x.birth, h, c, newLen - 1);
      if x.current != x.birth && newLen > x.currentStart {
        ArchiveLookup(x.birth, x.table, x.currentStart, x.current, newLen - 1);
      }
    }
  }

  /** Live entries grow by at most one, and only when the new boundary lies past the segment being left. */
  lemma LiveEntriesAfterCommit(x: Index, h: seq<Commit>, newLen: nat)
    requires Represents(x, h)
    ensures LiveEntries(ArchiveCurrent(x), newLen) ==
      if h == [] then 0
      else if newLen > x.currentStart then LiveEntries(x.table, x.currentStart) + 1
      else PartitionPoint(x.table, newLen)
    ensures newLen <= x.currentStart ==> LiveEntries(ArchiveCurrent(x), newLen) <= LiveEntries(x.table, x.currentStart)
    ensures newLen == x.currentStart ==> |ArchiveCurrent(x)| <= LiveEntries(ArchiveCurrent(x), newLen) + 1
  {
    CurrentIsBirth(x, h);
    var table := ArchiveCurrent(x);
    if h != [] {
      if newLen > x.currentStart {
        PartitionPointIs(table, newLen, |table|);
      } else {
        var k := PartitionPoint(x.table, newLen);
        PartitionPointMonotone(x.table, newLen, x.currentStart);
        PartitionPointIs(table, newLen, k);
      }
    }
  }

  /**
   * The table as stored grows exactly when there is a segment to archive and no superseded entry to
   * drop, wherever the new boundary lies.
   */
  lemma StoredTableGrows(x: Index, h: seq<Commit>)
    requires Represents(x, h)
    ensures |ArchiveCurrent(x)| > |x.table| <==> h != [] && LiveEntries(x.table, x.currentStart) == |x.table|
  {
    CurrentIsBirth(x, h);
  }

  /**
   * So a commit that reaches back past the segment it archives can make the stored table longer: the
   * second commit of any identity does.
   */
  lemma StoredTableGrowsWhileReachingBack(birth: Stamp, far: nat, first: Stamp, near: nat, second: Stamp)
    requires birth != first && near <= far
    ensures var x := Committed(Born(birth), far, first);
      && Represents(x, [Commit(far, first)])
      && near <= x.currentStart
      && |x.table| == 0 && |Committed(x, near, second).table| == 1
  {
    assert Represents(Born(birth), []);
    CommitRepresents(Born(birth), [], far, first, {birth});
    assert [] + [Commit(far, first)] == [Commit(far, first)];
  }

  /** The identity of a single-thread arena. */
  class Identity {
    const birth: Stamp
    var current: Stamp
    var currentStart: nat
    var prefixTail: Stamp
    var table: seq<Entry>
    ghost var history: seq<Commit>

    ghost function Fields(): Index
      reads this
    {
      Index(birth, current, currentStart, prefixTail, table)
    }

    ghost predicate Valid()
      reads this
    {
      Represents(Fields(), history)
    }

    constructor (stamp: Stamp)
      ensures Valid() && Fields() == Born(stamp) && history == []
    {
      birth, current, currentStart, prefixTail, table := stamp, stamp, 0, stamp, [];
      history := [];
    }

    function StampOf(slot: nat): (r: Stamp)
      requires Valid()
      reads this
      ensures r == Owner(birth, history, slot)
    {
      if slot >= currentStart then current
      else if slot + 1 == currentStart then prefixTail
      else StampOfCold(slot)
    }

    function StampOfCold(slot: nat): (r: Stamp)
      requires Valid()
      reads this
      ensures slot < currentStart ==> r == Owner(birth, history, slot)
    {
      ColdLookup(birth, table, slot)
    }

    predicate MatchesArchived(slot: nat, stamp: Stamp)
      requires Valid()
      reads this
      ensures MatchesArchived(slot, stamp) <==> slot < currentStart && Owner(birth, history, slot) == stamp
    {
      slot < currentStart && StampOfCold(slot) == stamp
    }

    /** Archives the segment being left, unless it is the birth segment; compaction truncates, then pushes. */
    method ArchiveSegment() returns (oldCurrent: Option<Stamp>)
      requires Valid()
      modifies this`table
      ensures Valid()
      ensures Fields() == old(Fields()).(table := ArchiveCurrent(old(Fields())))
      ensures oldCurrent == if current != birth then Some(current) else None
    {
      oldCurrent := if current != birth then Some(current) else None;
      FailedCommitRepresents(Fields(), history);
      if oldCurrent.Some? {
        var deadFrom := PartitionPoint(table, currentStart);
        table := table[..deadFrom];
        table := table + [Entry(currentStart, oldCurrent.value)];
      }
    }

    /** Makes `stamp` the current segment, from `newLen` on. */
    method EnterSegment(newLen: nat, stamp: Stamp, tail: Stamp)
      modifies this
      ensures Fields() == Index(birth, stamp, newLen, tail, old(table))
      ensures history == old(history) + [History.Commit(newLen, stamp)]
    {
      current, currentStart, prefixTail := stamp, newLen, tail;
      history := history + [History.Commit(newLen, stamp)];
    }

    /** False when no stamp could be drawn: then nothing has been re-stamped. */
    method Commit(newLen: nat, stamps: StampSpace, thread: ThreadId) returns (ok: bool)
      requires Valid() && stamps.Valid() && Spent(birth, history, stamps.issued)
      modifies this, stamps
      ensures Valid() && stamps.Valid() && Spent(birth, history, stamps.issued)
      ensures ok ==> history == old(history) + [History.Commit(newLen, current)] && |table| < |history|
      ensures ok ==> Fields() == Committed(old(Fields()), newLen, current)
      ensures ok ==> DrewFresh(old(stamps.State()), thread, current, stamps.State())
      ensures !ok ==> history == old(history) && Fields() == old(Fields()).(table := table)
      ensures !ok ==> Draw(old(stamps.State()), thread).SpaceExhausted? && unchanged(stamps)
    {
      ghost var before := Fields();
      var oldStart := currentStart;
      var oldCurrent := ArchiveSegment();
      var drawn := stamps.Fresh(thread);
      if drawn.None? {
        return false;
      }
      CommitRepresents(before, history, newLen, drawn.value, old(stamps.issued));
      var tail :=
        if newLen == 0 then prefixTail
        else match oldCurrent {
          case Some(archived) => if newLen > oldStart then archived else ColdLookup(birth, table, newLen - 1)
          case None => birth
        };
      assert tail == NextTail(before, newLen);
      EnterSegment(newLen, drawn.value, tail);
      return true;
    }
  }

  /** The identity of a concurrent arena, with raw 0 standing for "not yet assigned". */
  class SharedIdentity {
    var birth: nat
    var current: nat
    var currentStart: nat
    var prefixTail: Stamp
    var table: Option<seq<Entry>>
    ghost var history: seq<Commit>

    predicate Assigned()
      reads this
    {
      0 < birth <= U64_MAX && 0 < current <= U64_MAX
    }

    function TableOrEmpty(): seq<Entry>
      reads this
    {
      if table.Some? then table.value else []
    }

    ghost function Fields(): Index
      requires Assigned()
      reads this
    {
      Index(birth, current, currentStart, prefixTail, TableOrEmpty())
    }

    /** Holds whenever no thread is inside `assign`: birth and current are assigned together. */
    ghost predicate Valid()
      reads this
    {
      if birth == 0 then current == 0 && currentStart == 0 && table == None && history == []
      else Assigned() && Represents(Fields(), history)
    }

    constructor ()
      ensures Valid() && birth == 0
    {
      birth, current, currentStart, prefixTail, table := 0, 0, 0, 1, None;
      history := [];
    }

    /** `assign` run without a competitor; the race itself is the subject of `Protocol`. */
    method Assign(stamps: StampSpace, thread: ThreadId) returns (r: Option<Stamp>)
      requires Valid() && birth == 0 && stamps.Valid()
      modifies this, stamps
      ensures Valid() && stamps.Valid()
      ensures currentStart == 0 && history == []
      ensures r.Some? ==> birth == current == r.value && DrewFresh(old(stamps.State()), thread, r.value, stamps.State())
      ensures r.None? ==> birth == 0 && Draw(old(stamps.State()), thread).SpaceExhausted? && unchanged(stamps)
    {
      r := stamps.Fresh(thread);
      if r.Some? {
        birth := r.value;
        current := r.value;
      }
    }

    /** Every stamp of this identity was drawn from `stamps`. */
    ghost predicate DrawnFrom(stamps: StampSpace)
      reads this, stamps
    {
      Assigned() ==> Spent(birth, history, stamps.issued)
    }

    /** The stamp a new allocation receives, assigning one (together with `birth`) on the first call. */
    method Current(stamps: StampSpace, thread: ThreadId) returns (r: Option<Stamp>)
      requires Valid() && stamps.Valid() && DrawnFrom(stamps)
      modifies this, stamps
      ensures Valid() && stamps.Valid() && DrawnFrom(stamps) && history == old(history)
      ensures currentStart == old(currentStart)
      ensures old(Assigned()) ==> r == Some(current) && unchanged(this) && unchanged(stamps)
      ensures !old(Assigned()) && r.Some? ==>
        birth == current == r.value && DrewFresh(old(stamps.State()), thread, r.value, stamps.State())
      ensures r.None? ==> !old(Assigned()) && !Assigned() && unchanged(stamps)
      ensures r.None? ==> Draw(old(stamps.State()), thread).SpaceExhausted?
    {
      if current != 0 {
        return Some(current);
      }
      r := Assign(stamps, thread);
    }

    /** The permanent identity, assigned on the first call. */
    method Birth(stamps: StampSpace, thread: ThreadId) returns (r: Option<Stamp>)
      requires Valid() && stamps.Valid() && DrawnFrom(stamps)
      modifies this, stamps
      ensures Valid() && stamps.Valid() && DrawnFrom(stamps) && history == old(history)
      ensures old(Assigned()) ==> r == Some(birth) && unchanged(this) && unchanged(stamps)
      ensures !old(Assigned()) && r.Some? ==>
        birth == current == r.value && DrewFresh(old(stamps.State()), thread, r.value, stamps.State())
      ensures r.None? ==> !old(Assigned()) && !Assigned() && unchanged(stamps)
      ensures r.None? ==> Draw(old(stamps.State()), thread).SpaceExhausted?
    {
      if birth != 0 {
        return Some(birth);
      }
      r := Assign(stamps, thread);
    }

    /** The stamp that covers `slot`. Asked of an unassigned identity it assigns one, and every slot is its. */
    method StampOf(slot: nat, stamps: StampSpace, thread: ThreadId) returns (r: Option<Stamp>)
      requires Valid() && stamps.Valid() && DrawnFrom(stamps)
      modifies this, stamps
      ensures Valid() && stamps.Valid() && DrawnFrom(stamps) && history == old(history)
      ensures r.Some? ==> Assigned() && r.value == Owner(birth, history, slot)
      ensures old(Assigned()) ==> r.Some? && unchanged(this) && unchanged(stamps)
      ensures !old(Assigned()) && r.Some? ==> DrewFresh(old(stamps.State()), thread, birth, stamps.State())
      ensures r.None? ==> !old(Assigned()) && !Assigned() && unchanged(stamps)
      ensures r.None? ==> Draw(old(stamps.State()), thread).SpaceExhausted?
    {
      if slot >= currentStart {
        r := Current(stamps, thread);
      } else if slot + 1 == currentStart {
        r := Some(prefixTail);
      } else {
        r := StampOfCold(slot, stamps, thread);
      }
    }

    /** The search below the current segment; without a table the owner is `birth()`, which may have to be assigned. */
    method StampOfCold(slot: nat, stamps: StampSpace, thread: ThreadId) returns (r: Option<Stamp>)
      requires Valid() && stamps.Valid() && DrawnFrom(stamps)
      modifies this, stamps
      ensures Valid() && stamps.Valid() && DrawnFrom(stamps) && history == old(history)
      ensures r.Some? ==> Assigned() && (slot < currentStart || history == [] ==> r.value == Owner(birth, history, slot))
      ensures old(Assigned()) ==> r.Some? && unchanged(this) && unchanged(stamps)
      ensures !old(Assigned()) && r.Some? ==> DrewFresh(old(stamps.State()), thread, birth, stamps.State())
      ensures r.None? ==> !old(Assigned()) && !Assigned() && unchanged(stamps)
      ensures r.None? ==> Draw(old(stamps.State()), thread).SpaceExhausted?
    {
      if table.None? {
        r := Birth(stamps, thread);
      } else {
        var covering := PartitionPoint(table.value, slot + 1);
        if covering == 0 {
          r := Birth(stamps, thread);
        } else {
          r := Some(table.value[covering - 1].stamp);
        }
      }
    }

    /** `stamp_of` where an identity is known to be assigned: nothing is drawn. */
    function OwnerOf(slot: nat): (r: Stamp)
      requires Valid() && Assigned()
      reads this
      ensures r == Owner(birth, history, slot)
    {
      if slot >= currentStart then current
      else if slot + 1 == currentStart then prefixTail
      else ColdLookup(birth, TableOrEmpty(), slot)
    }

    predicate Matches(slot: nat, stamp: Stamp)
      requires Valid()
      reads this
      ensures Matches(slot, stamp) <==>
        stamp == current || (Assigned() && slot < currentStart && Owner(birth, history, slot) == stamp)
    {
      stamp == current || (slot < currentStart && ColdLookup(birth, TableOrEmpty(), slot) == stamp)
    }

    method ArchiveSegment() returns (oldCurrent: Option<Stamp>)
      requires Valid() && Assigned()
      modifies this`table
      ensures Valid()
      ensures Fields() == old(Fields()).(table := ArchiveCurrent(old(Fields())))
      ensures oldCurrent == if current != birth then Some(current) else None
    {
      oldCurrent := if current != birth then Some(current) else None;
      FailedCommitRepresents(Fields(), history);
      if oldCurrent.Some? {
        var entries := TableOrEmpty();
        var deadFrom := PartitionPoint(entries, currentStart);
        table := Some(entries[..deadFrom] + [Entry(currentStart, oldCurrent.value)]);
      }
    }

    /** Makes `stamp` the current segment, from `newLen` on. */
    method EnterSegment(newLen: nat, stamp: Stamp, tail: Stamp)
      requires Assigned()
      modifies this
      ensures Assigned() && Fields() == Index(old(birth), stamp, newLen, tail, old(TableOrEmpty()))
      ensures history == old(history) + [History.Commit(newLen, stamp)]
    {
      current, currentStart, prefixTail := stamp, newLen, tail;
      history := history + [History.Commit(newLen, stamp)];
    }

    /** Does nothing while unassigned: no capability exists that could go stale. */
    method Commit(newLen: nat, stamps: StampSpace, thread: ThreadId) returns (ok: bool)
      requires Valid() && stamps.Valid() && DrawnFrom(stamps)
      modifies this, stamps
      ensures Valid() && stamps.Valid() && DrawnFrom(stamps) && birth == old(birth) && Assigned() == old(Assigned())
      ensures !Assigned() ==> ok && unchanged(this) && unchanged(stamps)
      ensures ok && Assigned() ==> history == old(history) + [History.Commit(newLen, current)] && |TableOrEmpty()| < |history|
      ensures ok && Assigned() ==> Fields() == Committed(old(Fields()), newLen, current)
      ensures ok && Assigned() ==> DrewFresh(old(stamps.State()), thread, current, stamps.State())
      ensures !ok ==> Assigned() && history == old(history) && Fields() == old(Fields()).(table := TableOrEmpty())
      ensures !ok ==> Draw(old(stamps.State()), thread).SpaceExhausted? && unchanged(stamps)
    {
      if birth == 0 {
        return true;
      }
      ok := CommitAssigned(newLen, stamps, thread);
    }

    method CommitAssigned(newLen: nat, stamps: StampSpace, thread: ThreadId) returns (ok: bool)
      requires Valid() && Assigned() && stamps.Valid() && Spent(birth, history, stamps.issued)
      modifies this, stamps
      ensures Valid() && Assigned() && stamps.Valid() && birth == old(birth)
      ensures Spent(birth, history, stamps.issued)
      ensures ok ==> history == old(history) + [History.Commit(newLen, current)] && |TableOrEmpty()| < |history|
      ensures ok ==> Fields() == Committed(old(Fields()), newLen, current)
      ensures ok ==> DrewFresh(old(stamps.State()), thread, current, stamps.State())
      ensures !ok ==> history == old(history) && Fields() == old(Fields()).(table := TableOrEmpty())
      ensures !ok ==> Draw(old(stamps.State()), thread).SpaceExhausted? && unchanged(stamps)
    {
      ghost var before := Fields();
      var oldStart := currentStart;
      var oldCurrent := ArchiveSegment();
      var drawn := stamps.Fresh(thread);
      if drawn.None? {
        return false;
      }
      CommitRepresents(before, history, newLen, drawn.value, old(stamps.issued));
      var tail :=
        if newLen == 0 then prefixTail
        else match oldCurrent {
          case Some(archived) => if newLen > oldStart then archived else ColdLookup(birth, TableOrEmpty(), newLen - 1)
          case None => birth
        };
      assert tail == NextTail(before, newLen);
      EnterSegment(newLen, drawn.value, tail);
      return true;
    }
  }
}
