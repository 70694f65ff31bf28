// Storage in chunks of doubling size that stands for one flat array of write-once slots.
module Chunks {
  import opened Options
  import opened Blocks

  const BITS: nat := 64

  function Pow2(k: nat): (p: nat)
    ensures p > 0
  {
    if k == 0 then 1 else 2 * Pow2(k - 1)
  }

  lemma {:induction false} Pow2Grows(j: nat, k: nat)
    requires j < k
    ensures 2 * Pow2(j) <= Pow2(k)
  {
    if j + 1 < k {
      Pow2Grows(j, k - 1);
    }
  }

  /** The position of the highest set bit: `BITS - leading_zeros - 1`. */
  function HighestBit(n: nat): (k: nat)
    requires n > 0
    ensures Pow2(k) <= n < 2 * Pow2(k)
  {
    if n == 1 then 0 else 1 + HighestBit(n / 2)
  }

  lemma HighestBitIs(n: nat, k: nat)
    requires Pow2(k) <= n < 2 * Pow2(k)
    ensures n > 0 && HighestBit(n) == k
  {
    var h := HighestBit(n);
    if h < k {
      Pow2Grows(h, k);
    } else if k < h {
      Pow2Grows(k, h);
    }
  }

  lemma WordSize()
    ensures Pow2(BITS) == USIZE_MAX + 1
  {
    assert Pow2(4) == 0x10;
    assert Pow2(8) == 0x100 by { Pow2Adds(4, 4); }
    assert Pow2(16) == 0x1_0000 by { Pow2Adds(8, 8); }
    assert Pow2(32) == 0x1_0000_0000 by { Pow2Adds(16, 16); }
    Pow2Adds(32, 32);
  }

  lemma {:induction false} Pow2Adds(j: nat, k: nat)
    ensures Pow2(j + k) == Pow2(j) * Pow2(k)
  {
    if k == 0 {
    } else {
      Pow2Adds(j, k - 1);
      assert Pow2(j + k) == 2 * (Pow2(j) * Pow2(k - 1));
    }
  }

  /** A chunk number and an offset inside that chunk. */
  datatype Place = Place(chunk: nat, offset: nat)

  predicate InRange(p: Place) {
    p.chunk < BITS && p.offset < Pow2(p.chunk)
  }

  function IndexOf(p: Place): nat {
    Pow2(p.chunk) - 1 + p.offset
  }

  lemma HighestBitInWord(n: nat)
    requires 0 < n <= USIZE_MAX
    ensures HighestBit(n) < BITS
  {
    WordSize();
    if BITS < HighestBit(n) {
      Pow2Grows(BITS, HighestBit(n));
    }
  }

  /** Splits an index; the largest word value has no place. */
  function SplitIndex(index: nat): (r: Option<Place>)
    ensures index < USIZE_MAX ==> r.Some? && InRange(r.value) && IndexOf(r.value) == index
  {
    if index >= USIZE_MAX then None
    else
      var n := index + 1;
      var chunk := HighestBit(n);
      HighestBitInWord(n);
      Some(Place(chunk, n - Pow2(chunk)))
  }

  lemma PlaceIsSplit(p: Place)
    requires InRange(p)
    ensures IndexOf(p) < USIZE_MAX && SplitIndex(IndexOf(p)) == Some(p)
  {
    WordSize();
    Pow2Grows(p.chunk, BITS);
    HighestBitIs(IndexOf(p) + 1, p.chunk);
  }

  /** Splitting is a bijection between the representable indices and the places. */
  lemma SplitIsBijective(index: nat, p: Place)
    ensures index < USIZE_MAX && InRange(p) ==> (SplitIndex(index) == Some(p) <==> index == IndexOf(p))
    ensures index < USIZE_MAX ==> SplitIndex(index).Some? && InRange(SplitIndex(index).value)
    ensures InRange(p) ==> IndexOf(p) < USIZE_MAX
  {
    if InRange(p) {
      PlaceIsSplit(p);
    }
  }

  function Lookup<T>(m: map<nat, T>, i: nat): Option<T> {
    if i in m then Some(m[i]) else None
  }

  /** A chunk is absent until the first write into it; a slot is empty until it is written. */
  class ChunkedStorage<T> {
    const chunks: array<array?<Option<T>>>

    ghost function Repr(): set<object?>
      reads chunks
    {
      {chunks} + set k | 0 <= k < chunks.Length :: chunks[k] as object?
    }

    /** The flat array this stands for: the occupied slots and what they hold. */
    ghost var flat: map<nat, T>

    ghost predicate ChunksOk()
      reads Repr()
    {
      && chunks.Length == BITS
      && (forall k :: 0 <= k < BITS && chunks[k] != null ==> chunks[k].Length == Pow2(k))
      && (forall j, k :: 0 <= j < k < BITS && chunks[j] != null ==> chunks[j] != chunks[k])
    }

    ghost predicate Valid()
      reads this, Repr()
    {
      && ChunksOk()
      && this !in Repr()
      && (forall i :: i in flat ==> i < USIZE_MAX)
      && (forall p :: InRange(p) ==> At(p) == Lookup(flat, IndexOf(p)))
    }

    ghost function At(p: Place): Option<T>
      requires ChunksOk() && InRange(p)
      reads Repr()
    {
      if chunks[p.chunk] == null then None else chunks[p.chunk][p.offset]
    }

    constructor ()
      ensures Valid() && flat == map[] && fresh(Repr() - {null})
    {
      chunks := new array?<Option<T>>[BITS](_ => null);
      flat := map[];
    }

    /** `alloc_chunk` behind `get_or_init`: a new chunk is all empty, so no slot changes its content. */
    method EnsureChunk(k: nat)
      requires Valid() && k < BITS
      modifies chunks
      ensures Valid() && chunks[k] != null && fresh(Repr() - old(Repr()) - {null})
      ensures chunks[k] in old(Repr()) || fresh(chunks[k])
    {
      if chunks[k] == null {
        var chunk := new Option<T>[Pow2(k)](_ => None);
        label Before:
        chunks[k] := chunk;
        assert forall p :: InRange(p) ==> At(p) == old@Before(At(p));
      }
    }

    /** False when the slot was already occupied, and then its content stays. */
    method Set(index: nat, value: T) returns (written: bool)
      requires Valid() && index < USIZE_MAX
      modifies this`flat, Repr()
      ensures Valid() && fresh(Repr() - old(Repr()) - {null})
      ensures written <==> index !in old(flat)
      ensures flat == if written then old(flat)[index := value] else old(flat)
    {
      var p := SplitIndex(index).value;
      EnsureChunk(p.chunk);
      if chunks[p.chunk][p.offset].Some? {
        return false;
      }
      label Before:
      chunks[p.chunk][p.offset] := Some(value);
      flat := flat[index := value];
      forall q | InRange(q)
        ensures At(q) == Lookup(flat, IndexOf(q))
      {
        PlaceIsSplit(q);
        assert q != p ==> At(q) == old@Before(At(q));
      }
      return true;
    }

    /** What `get` and `is_set` read; `get` panics when it is absent. */
    function Get(index: nat): (r: Option<T>)
      requires Valid() && index < USIZE_MAX
      reads this, Repr()
      ensures r == Lookup(flat, index)
    {
      var p := SplitIndex(index).value;
      if chunks[p.chunk] == null then None else chunks[p.chunk][p.offset]
    }

    method Take(index: nat) returns (r: Option<T>)
      requires Valid() && index < USIZE_MAX
      modifies this`flat, Repr()
      ensures Valid() && Repr() == old(Repr())
      ensures r == Lookup(old(flat), index) && flat == old(flat) - {index}
    {
      var p := SplitIndex(index).value;
      if chunks[p.chunk] == null {
        assert At(p).None?;
        assert flat == flat - {index};
        return None;
      }
      r := chunks[p.chunk][p.offset];
      assert r == At(p);
      label Before:
      chunks[p.chunk][p.offset] := None;
      flat := flat - {index};
      forall q | InRange(q)
        ensures At(q) == Lookup(flat, IndexOf(q))
      {
        PlaceIsSplit(q);
        assert q != p ==> At(q) == old@Before(At(q));
      }
    }
  }
}
