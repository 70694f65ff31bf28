// What an arena's capabilities mean, without any index structure: one stamp per slot, a list of
// the commits that re-stamped slots, and the live items. Both arena types are proved against it.
module History {
  import opened Options
  import opened Stamps

  /** `commit(boundary)`: from here on every slot at or above `boundary` belongs to `stamp`. */
  datatype Commit = Commit(boundary: nat, stamp: Stamp)

  /** The stamp of a slot: that of the last commit that reached it, or the birth stamp. */
  function Owner(birth: Stamp, h: seq<Commit>, slot: nat): Stamp {
    if h == [] then birth
    else if h[|h| - 1].boundary <= slot then h[|h| - 1].stamp
    else Owner(birth, h[..|h| - 1], slot)
  }

  /** Some commit since the `from`-th had its boundary below `len`, so it re-stamped slot `len - 1`. */
  predicate CutBelow(h: seq<Commit>, from: nat, len: nat) {
    exists j :: from <= j < |h| && h[j].boundary < len
  }

  /** Generations are numbered by commit, 0 being birth: stamp values themselves are not ordered. */
  function StampAt(birth: Stamp, h: seq<Commit>, generation: nat): Stamp
    requires generation <= |h|
  {
    if generation == 0 then birth else h[generation - 1].stamp
  }

  ghost predicate Distinct(birth: Stamp, h: seq<Commit>) {
    forall i, j :: 0 <= i < j <= |h| ==> StampAt(birth, h, i) != StampAt(birth, h, j)
  }

  /** The generation that owns a slot. */
  function Generation(h: seq<Commit>, slot: nat): (g: nat)
    ensures g <= |h|
    ensures g > 0 ==> h[g - 1].boundary <= slot
    ensures forall j :: g <= j < |h| ==> slot < h[j].boundary
  {
    if h == [] then 0
    else if h[|h| - 1].boundary <= slot then |h|
    else Generation(h[..|h| - 1], slot)
  }

  lemma {:induction false} OwnerIsGeneration(birth: Stamp, h: seq<Commit>, slot: nat)
    ensures Owner(birth, h, slot) == StampAt(birth, h, Generation(h, slot))
  {
    if h != [] && slot < h[|h| - 1].boundary {
      OwnerIsGeneration(birth, h[..|h| - 1], slot);
    }
  }

  /** A slot keeps its stamp exactly as long as no commit reaches it. */
  lemma OwnerExact(birth: Stamp, h: seq<Commit>, from: nat, slot: nat)
    requires from <= |h| && Distinct(birth, h)
    ensures Owner(birth, h, slot) == Owner(birth, h[..from], slot) <==> !CutBelow(h, from, slot + 1)
  {
    OwnerIsGeneration(birth, h, slot);
    OwnerIsGeneration(birth, h[..from], slot);
    var g, g0 := Generation(h, slot), Generation(h[..from], slot);
    assert StampAt(birth, h[..from], g0) == StampAt(birth, h, g0);
    if CutBelow(h, from, slot + 1) {
      assert from < g;
    } else {
      assert g == g0;
    }
  }

  lemma OwnerAfterCommit(birth: Stamp, h: seq<Commit>, c: Commit, slot: nat)
    ensures Owner(birth, h + [c], slot) == if c.boundary <= slot then c.stamp else Owner(birth, h, slot)
  {
    assert (h + [c])[..|h|] == h;
  }

  lemma CurrentOwnsFromStart(birth: Stamp, h: seq<Commit>, slot: nat)
    requires CurrentStart(h) <= slot
    ensures Owner(birth, h, slot) == StampAt(birth, h, |h|)
  {
  }

  /** What can be observed of an arena. `birth` is absent until the first capability is issued. */
  datatype ArenaView<T> = ArenaView(items: seq<T>, birth: Option<Stamp>, history: seq<Commit>)

  function EmptyView<T>(): ArenaView<T> {
    ArenaView([], None, [])
  }

  /** The raw current stamp, 0 while unassigned. */
  function CurrentRaw(v: ArenaView): nat {
    if v.birth.None? then 0 else StampAt(v.birth.value, v.history, |v.history|)
  }

  /** The first slot of the current segment. */
  function CurrentStart(h: seq<Commit>): nat {
    if h == [] then 0 else h[|h| - 1].boundary
  }

  function StampOf(v: ArenaView, slot: nat): Stamp
    requires v.birth.Some?
  {
    Owner(v.birth.value, v.history, slot)
  }

  function StampsOf(v: ArenaView): set<Stamp> {
    (if v.birth.None? then {} else {v.birth.value}) + set c | c in v.history :: c.stamp
  }

  ghost predicate WellFormed(v: ArenaView) {
    && (v.birth.None? ==> v.items == [] && v.history == [])
    && (v.birth.Some? ==> Distinct(v.birth.value, v.history))
    && CurrentStart(v.history) <= |v.items|
  }

  /**
   * `Cut(len, keep, stamp)` is a commit at `len` followed by a drop loop that stopped with `keep`
   * items left: `keep == len` when it ran to the end, more when a destructor panicked.
   */
  datatype Event<T> = Assign(stamp: Stamp) | Push(value: T) | Cut(len: nat, keep: nat, stamp: Stamp)

  ghost predicate Enabled<T>(v: ArenaView<T>, e: Event<T>) {
    match e
    case Assign(_) => v.birth.None?
    case Push(_) => v.birth.Some?
    case Cut(len, keep, stamp) => v.birth.Some? && len <= keep <= |v.items| && stamp !in StampsOf(v)
  }

  function Apply<T>(v: ArenaView<T>, e: Event<T>): ArenaView<T>
    requires e.Cut? ==> e.keep <= |v.items|
  {
    match e
    case Assign(stamp) => v.(birth := Some(stamp))
    case Push(x) => v.(items := v.items + [x])
    case Cut(len, keep, stamp) => v.(items := v.items[..keep], history := v.history + [Commit(len, stamp)])
  }

  /** The view once an identity is certainly assigned; `stamp` is used only if none was. */
  function WithBirth<T>(v: ArenaView<T>, stamp: Stamp): ArenaView<T> {
    if v.birth.None? then Apply(v, Assign(stamp)) else v
  }

  /** Drop loops go from the highest slot down. */
  function Reversed<T>(s: seq<T>): (r: seq<T>)
    ensures |r| == |s|
    ensures forall i :: 0 <= i < |s| ==> r[i] == s[|s| - 1 - i]
  {
    seq(|s|, i requires 0 <= i < |s| => s[|s| - 1 - i])
  }

  lemma StampsOfGenerations(v: ArenaView, g: nat)
    requires v.birth.Some? && g <= |v.history|
    ensures StampAt(v.birth.value, v.history, g) in StampsOf(v)
  {
  }

  lemma StampsOfApply<T>(v: ArenaView<T>, e: Event<T>)
    requires Enabled(v, e)
    ensures StampsOf(Apply(v, e)) == StampsOf(v) + if e.Push? then {} else {e.stamp}
  {
    if e.Cut? {
      var v' := Apply(v, e);
      assert v'.history[|v.history|] in v'.history;
      forall c | c in v.history
        ensures c in v'.history
      {
      }
    }
  }

  lemma WellFormedKept<T>(v: ArenaView<T>, e: Event<T>)
    requires WellFormed(v) && Enabled(v, e)
    ensures WellFormed(Apply(v, e))
  {
    if e.Cut? {
      var v' := Apply(v, e);
      forall i, j | 0 <= i < j <= |v'.history|
        ensures StampAt(v'.birth.value, v'.history, i) != StampAt(v'.birth.value, v'.history, j)
      {
        StampsOfGenerations(v, i);
        assert StampAt(v'.birth.value, v'.history, i) == StampAt(v.birth.value, v.history, i);
        if j <= |v.history| {
          assert StampAt(v'.birth.value, v'.history, j) == StampAt(v.birth.value, v.history, j);
        }
      }
    }
  }

  // ---- handles ----

  /** `Idx`: a stamp and a slot, nothing else. */
  datatype Handle = Handle(stamp: Stamp, slot: nat)

  /** What a handle should mean: its slot is live and still owned by its stamp. */
  predicate SimpleValid(v: ArenaView, h: Handle) {
    v.birth.Some? && h.slot < |v.items| && StampOf(v, h.slot) == h.stamp
  }

  /** What the arenas test: the current stamp first, the archived owner only below the current segment. */
  predicate FastValid(v: ArenaView, h: Handle) {
    && h.slot < |v.items|
    && (|| h.stamp == CurrentRaw(v)
        || (v.birth.Some? && h.slot < CurrentStart(v.history) && StampOf(v, h.slot) == h.stamp))
  }

  /** A handle given out for `value` when `epoch` commits had happened. */
  datatype Issue<T> = Issue(handle: Handle, value: T, epoch: nat)

  ghost predicate IssueOk<T>(v: ArenaView<T>, r: Issue<T>) {
    && v.birth.Some?
    && r.epoch <= |v.history|
    && r.handle.stamp == Owner(v.birth.value, v.history[..r.epoch], r.handle.slot)
    && (!CutBelow(v.history, r.epoch, r.handle.slot + 1) ==>
          r.handle.slot < |v.items| && v.items[r.handle.slot] == r.value)
  }

  /** The handle that names a live slot right now. */
  function Mint<T>(v: ArenaView<T>, slot: nat): Issue<T>
    requires v.birth.Some? && slot < |v.items|
  {
    Issue(Handle(StampOf(v, slot), slot), v.items[slot], |v.history|)
  }

  lemma MintIsOk<T>(v: ArenaView<T>, slot: nat)
    requires v.birth.Some? && slot < |v.items|
    ensures IssueOk(v, Mint(v, slot))
  {
    assert v.history[..|v.history|] == v.history;
  }

  lemma CutBelowKept(h: seq<Commit>, c: Commit, from: nat, len: nat)
    requires from <= |h|
    ensures CutBelow(h + [c], from, len) <==> CutBelow(h, from, len) || c.boundary < len
  {
    if c.boundary < len {
      assert (h + [c])[|h|] == c;
    } else if CutBelow(h, from, len) {
      var j :| from <= j < |h| && h[j].boundary < len;
      assert (h + [c])[j] == h[j];
    }
  }

  /** No event makes a handle lie. */
  lemma IssueKept<T>(v: ArenaView<T>, e: Event<T>, r: Issue<T>)
    requires Enabled(v, e) && IssueOk(v, r)
    ensures IssueOk(Apply(v, e), r)
  {
    if e.Cut? {
      var v' := Apply(v, e);
      assert v'.history[..r.epoch] == v.history[..r.epoch];
      CutBelowKept(v.history, Commit(e.len, e.stamp), r.epoch, r.handle.slot + 1);
    }
  }

  /**
   * A handle validates exactly until a commit reaches its slot, and then names the value it was
   * issued for; the reordered test decides the same as the simple one.
   */
  lemma HandleExact<T>(v: ArenaView<T>, r: Issue<T>)
    requires WellFormed(v) && IssueOk(v, r)
    ensures FastValid(v, r.handle) <==> SimpleValid(v, r.handle)
    ensures SimpleValid(v, r.handle) <==> !CutBelow(v.history, r.epoch, r.handle.slot + 1)
    ensures SimpleValid(v, r.handle) ==> v.items[r.handle.slot] == r.value
  {
    var birth, h, slot := v.birth.value, v.history, r.handle.slot;
    OwnerExact(birth, h, r.epoch, slot);
    OwnerIsGeneration(birth, h[..r.epoch], slot);
    var g := Generation(h[..r.epoch], slot);
    assert r.handle.stamp == StampAt(birth, h, g);
    if r.handle.stamp == CurrentRaw(v) {
      assert g == |h| == r.epoch;
    }
    if CurrentStart(v.history) <= slot {
      assert StampOf(v, slot) == CurrentRaw(v);
    }
  }

  /** A stamp of another arena never matches. */
  lemma ForeignHandle(v: ArenaView, h: Handle)
    requires h.stamp !in StampsOf(v)
    ensures !FastValid(v, h) && !SimpleValid(v, h)
  {
    if v.birth.Some? {
      StampsOfGenerations(v, |v.history|);
      OwnerIsGeneration(v.birth.value, v.history, h.slot);
      StampsOfGenerations(v, Generation(v.history, h.slot));
    }
  }

  lemma IssueStampIsOwn<T>(v: ArenaView<T>, r: Issue<T>)
    requires IssueOk(v, r)
    ensures r.handle.stamp in StampsOf(v)
  {
    OwnerIsGeneration(v.birth.value, v.history[..r.epoch], r.handle.slot);
    var g := Generation(v.history[..r.epoch], r.handle.slot);
    assert StampAt(v.birth.value, v.history[..r.epoch], g) == StampAt(v.birth.value, v.history, g);
    StampsOfGenerations(v, g);
  }

  // ---- checkpoints ----

  datatype Checkpoint = Checkpoint(owner: Stamp, len: nat, tail: Option<Stamp>)

  datatype CheckpointError =
    | ForeignArena
    | BeyondCurrent(checkpointLen: nat, currentLen: nat)
    | DivergedPrefix(checkpointLen: nat)

  datatype Validation = Accepted | Rejected(error: CheckpointError)

  function TailOf(v: ArenaView, len: nat): Option<Stamp>
    requires v.birth.Some?
  {
    if len == 0 then None else Some(StampOf(v, len - 1))
  }

  function Validate(v: ArenaView, cp: Checkpoint): Validation {
    if v.birth != Some(cp.owner) then Rejected(ForeignArena)
    else if cp.len > |v.items| then Rejected(BeyondCurrent(cp.len, |v.items|))
    else if TailOf(v, cp.len) != cp.tail then Rejected(DivergedPrefix(cp.len))
    else Accepted
  }

  /** A checkpoint taken of `prefix` when `epoch` commits had happened. */
  datatype Capture<T> = Capture(checkpoint: Checkpoint, prefix: seq<T>, epoch: nat)

  ghost predicate CaptureOk<T>(v: ArenaView<T>, c: Capture<T>) {
    && v.birth == Some(c.checkpoint.owner)
    && c.epoch <= |v.history|
    && c.checkpoint.len == |c.prefix|
    && c.checkpoint.tail == TailOf(v.(history := v.history[..c.epoch]), |c.prefix|)
    && (!CutBelow(v.history, c.epoch, |c.prefix|) ==> c.prefix <= v.items)
  }

  function Snapshot<T>(v: ArenaView<T>, len: nat): Capture<T>
    requires v.birth.Some? && len <= |v.items|
  {
    Capture(Checkpoint(v.birth.value, len, TailOf(v, len)), v.items[..len], |v.history|)
  }

  lemma SnapshotIsOk<T>(v: ArenaView<T>, len: nat)
    requires v.birth.Some? && len <= |v.items|
    ensures CaptureOk(v, Snapshot(v, len))
  {
    assert v.history[..|v.history|] == v.history;
  }

  lemma CaptureKept<T>(v: ArenaView<T>, e: Event<T>, c: Capture<T>)
    requires Enabled(v, e) && CaptureOk(v, c)
    ensures CaptureOk(Apply(v, e), c)
  {
    if e.Cut? {
      var v' := Apply(v, e);
      assert v'.history[..c.epoch] == v.history[..c.epoch];
      CutBelowKept(v.history, Commit(e.len, e.stamp), c.epoch, |c.prefix|);
    }
  }

  lemma CaptureTailIsOwn<T>(v: ArenaView<T>, c: Capture<T>)
    requires CaptureOk(v, c) && c.checkpoint.tail.Some?
    ensures c.checkpoint.tail.value in StampsOf(v)
    ensures v.history == [] ==> c.checkpoint.tail == v.birth
  {
    var g := Generation(v.history[..c.epoch], |c.prefix| - 1);
    OwnerIsGeneration(v.birth.value, v.history[..c.epoch], |c.prefix| - 1);
    assert StampAt(v.birth.value, v.history[..c.epoch], g) == StampAt(v.birth.value, v.history, g);
    StampsOfGenerations(v, g);
  }

  /**
   * The one tail stamp certifies the whole prefix: an arena's own checkpoint is accepted exactly when
   * no commit went below its length, and each error says exactly why it is not.
   */
  lemma CheckpointExact<T>(v: ArenaView<T>, c: Capture<T>)
    requires WellFormed(v) && CaptureOk(v, c)
    ensures Validate(v, c.checkpoint) == Accepted <==> !CutBelow(v.history, c.epoch, |c.prefix|)
    ensures Validate(v, c.checkpoint) == Accepted ==> c.prefix <= v.items
    ensures Validate(v, c.checkpoint) == Rejected(BeyondCurrent(|c.prefix|, |v.items|)) <==>
      |v.items| < |c.prefix|
    ensures Validate(v, c.checkpoint) == Rejected(DivergedPrefix(|c.prefix|)) <==>
      CutBelow(v.history, c.epoch, |c.prefix|) && |c.prefix| <= |v.items|
    ensures Validate(v, c.checkpoint) != Rejected(ForeignArena)
  {
    if |c.prefix| > 0 {
      OwnerExact(v.birth.value, v.history, c.epoch, |c.prefix| - 1);
    }
  }

  /** A checkpoint that is accepted stays accepted unless a later commit goes below its length. */
  lemma AcceptedStays<T>(v: ArenaView<T>, e: Event<T>, cp: Checkpoint)
    requires Enabled(v, e) && Validate(v, cp) == Accepted
    requires e.Cut? ==> cp.len <= e.len
    ensures Validate(Apply(v, e), cp) == Accepted
  {
    if e.Cut? && cp.len > 0 {
      OwnerAfterCommit(v.birth.value, v.history, Commit(e.len, e.stamp), cp.len - 1);
    }
  }

  /**
   * A rollback whose drop loop was cut short can be retried with the same checkpoint: it is still
   * accepted, whatever was allocated meanwhile, and finishing it leaves exactly the prefix.
   */
  lemma RetryFinishes<T>(v: ArenaView<T>, cp: Checkpoint, keep: nat, stamp: Stamp, pushed: seq<T>, again: Stamp)
    requires Validate(v, cp) == Accepted && Enabled(v, Cut(cp.len, keep, stamp))
    requires again != stamp && again !in StampsOf(v)
    ensures var v1 := Apply(v, Cut(cp.len, keep, stamp));
      var v2 := v1.(items := v1.items + pushed);
      && Validate(v2, cp) == Accepted
      && Enabled(v2, Cut(cp.len, cp.len, again))
      && Apply(v2, Cut(cp.len, cp.len, again)).items == v.items[..cp.len]
  {
    var e := Cut(cp.len, keep, stamp);
    AcceptedStays(v, e, cp);
    StampsOfApply(v, e);
  }
}
