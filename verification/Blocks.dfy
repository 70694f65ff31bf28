// The capability for one contiguous batch, and the iterator over its handles.
module Blocks {
  import opened Options
  import opened Stamps
  import opened History

  const USIZE_MAX: nat := 0xFFFF_FFFF_FFFF_FFFF

  datatype Block = Block(stamp: Option<Stamp>, start: nat, len: nat) {

    /** What `Block::empty` and `Block::new` establish. */
    predicate Sound() {
      if len == 0 then stamp.None? else stamp.Some? && start + len - 1 <= USIZE_MAX
    }

    function Get(offset: nat): Option<Handle> {
      if offset >= len then None
      else match stamp
        case None => None
        case Some(s) => if start + offset > USIZE_MAX then None else Some(Handle(s, start + offset))
    }

    function First(): Option<Handle> {
      match stamp
      case Some(s) => Some(Handle(s, start))
      case None => None
    }

    function Last(): Option<Handle> {
      Get(if len == 0 then 0 else len - 1)
    }

    predicate Contains(h: Handle) {
      stamp.Some? && h.stamp == stamp.value && h.slot >= start && h.slot - start < len
    }

    /** The handles of the block, in increasing slot order. */
    function Handles(): seq<Handle>
      requires Sound()
    {
      seq(len, offset requires 0 <= offset < len => Handle(stamp.value, start + offset))
    }

    /** Deriving and recognising a handle agree, and a sound block derives one handle for each offset. */
    lemma DerivesExactlyItsHandles(h: Handle)
      requires Sound()
      ensures Contains(h) <==> exists offset :: 0 <= offset < len && Get(offset) == Some(h)
      ensures Contains(h) <==> h in Handles()
      ensures forall i, j :: 0 <= i < len && 0 <= j < len && Get(i) == Get(j) ==> i == j
      ensures forall offset :: 0 <= offset < len ==> Get(offset) == Some(Handles()[offset])
      ensures forall offset :: len <= offset ==> Get(offset).None?
      ensures if len == 0 then First().None? && Last().None? else First() == Get(0) && Last() == Get(len - 1)
    {
      if Contains(h) {
        assert Get(h.slot - start) == Some(h);
        assert Handles()[h.slot - start] == h;
      }
    }
  }

  const EMPTY: Block := Block(None, 0, 0)

  /** The two ends of a double-ended iteration meet; whatever the interleaving, nothing is lost or repeated. */
  class BlockIndices {
    const block: Block
    var front: nat
    var back: nat
    ghost var fromFront: seq<Handle>
    ghost var fromBack: seq<Handle>

    ghost predicate Valid()
      reads this
    {
      && block.Sound()
      && front <= back <= block.len
      && fromFront == block.Handles()[..front]
      && Reversed(fromBack) == block.Handles()[back..]
    }

    constructor (b: Block)
      requires b.Sound()
      ensures Valid() && block == b && fromFront == [] && fromBack == [] && front == 0 && back == b.len
    {
      block, front, back, fromFront, fromBack := b, 0, b.len, [], [];
    }

    method Next() returns (r: Option<Handle>)
      requires Valid()
      modifies this
      ensures Valid() && back == old(back) && fromBack == old(fromBack)
      ensures r.None? <==> old(front == back)
      ensures fromFront == old(fromFront) + if r.Some? then [r.value] else []
    {
      if front == back {
        return None;
      }
      var offset := front;
      front := front + 1;
      block.DerivesExactlyItsHandles(block.Handles()[offset]);
      r := block.Get(offset);
      fromFront := fromFront + [r.value];
    }

    method NextBack() returns (r: Option<Handle>)
      requires Valid()
      modifies this
      ensures Valid() && front == old(front) && fromFront == old(fromFront)
      ensures r.None? <==> old(front == back)
      ensures fromBack == old(fromBack) + if r.Some? then [r.value] else []
    {
      if front == back {
        return None;
      }
      back := back - 1;
      block.DerivesExactlyItsHandles(block.Handles()[back]);
      r := block.Get(back);
      fromBack := fromBack + [r.value];
    }

    /** When it is exhausted, the front and back halves together are the block's handles, each once. */
    lemma ExhaustedYieldsAll()
      requires Valid() && front == back
      ensures fromFront + Reversed(fromBack) == block.Handles()
    {
    }
  }
}
