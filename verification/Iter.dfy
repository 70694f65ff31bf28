// Iteration that mints a handle for each live value from the arena's identity.
module Iter {
  import opened Options
  import opened History
  import opened Segments

  class IterIndexed<T> {
    const identity: Identity?
    var values: seq<T>
    var slot: nat
    ghost const all: seq<T>

    ghost predicate Valid()
      reads this, identity
    {
      && (identity == null ==> all == [])
      && (identity != null ==> identity.Valid())
      && slot <= |all|
      && values == all[slot..]
    }

    constructor (id: Identity?, items: seq<T>)
      requires id == null ==> items == []
      requires id != null ==> id.Valid()
      ensures Valid() && identity == id && all == items && slot == 0
    {
      identity, values, slot, all := id, items, 0, items;
    }

    method Next() returns (r: Option<(Handle, T)>)
      requires Valid()
      modifies this
      ensures Valid()
      ensures old(slot) < |all| ==>
        && slot == old(slot) + 1 && identity != null
        && r == Some((Handle(Owner(identity.birth, identity.history, old(slot)), old(slot)), all[old(slot)]))
      ensures old(slot) == |all| ==> r.None? && slot == old(slot)
    {
      if values == [] {
        return None;
      }
      var value := values[0];
      values := values[1..];
      var idx := Handle(identity.StampOf(slot), slot);
      slot := slot + 1;
      return Some((idx, value));
    }
  }
}
