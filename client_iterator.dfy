/**
 * The older C-facing list of ed247_client_iterator.h: one object that can
 * be re-pointed at a vector of shared pointers (wrapped, or copied and
 * owned), with the same looping cursor as ed247_client_list.h.
 */
module ClientIterators {
  import opened Cursors

  /** A heap `std::vector` of shared pointers; `live` turns false when it is deleted. */
  class Vector<T> {
    const items: seq<T>
    var live: bool

    constructor(items: seq<T>)
      ensures this.items == items && live
    {
      this.items := items;
      live := true;
    }
  }

  class ClientListContainer<T> {
    /** Null for an invalid list and once freed. */
    var container: Vector?<T>
    /** The cursor; `|container.items|` is `end`. */
    var cursor: nat
    /** Whether the container is a copy this list deletes. */
    var owner: bool
    /** The `get_next` calls since the cursor was last put on `end`. */
    ghost var steps: nat

    ghost predicate Valid()
      reads this
    {
      container != null ==> cursor == Walk(steps, |container.items|)
    }

    /** The invalid list: no container, not an owner. */
    constructor()
      ensures Valid() && container == null && !owner
    {
      container := null;
      cursor := 0;
      owner := false;
      steps := 0;
    }

    /** `free`: the container is deleted only when owned, and is forgotten either way; ownership is left as it was. */
    method Free()
      modifies this, container
      ensures container == null && owner == old(owner)
      ensures old(container) != null && owner ==> !old(container).live
      ensures old(container) != null && !owner ==> old(container).live == old(container.live)
      ensures Valid()
    {
      if container != null && owner {
        container.live := false;
      }
      container := null;
    }

    /** `wrap`: the previous container is freed, then `c` itself is walked from `end`, not owned. */
    method Wrap(c: Vector<T>)
      modifies this, container
      ensures old(container) != null && old(owner) ==> !old(container).live
      ensures old(container) != null && !old(owner) ==> old(container).live == old(container.live)
      ensures c != old(container) ==> c.live == old(c.live)
      ensures Valid() && container == c && !owner
      ensures cursor == |c.items| && steps == 0
    {
      Free();
      container := c;
      cursor := |c.items|;
      owner := false;
      steps := 0;
    }

    /** `copy`: the previous container is freed, then a fresh copy of `c` is walked from `end`, owned. */
    method Copy(c: Vector<T>)
      modifies this, container
      ensures old(container) != null && old(owner) ==> !old(container).live
      ensures old(container) != null && !old(owner) ==> old(container).live == old(container.live)
      ensures Valid() && container != null && fresh(container) && container.live && container.items == c.items
      ensures owner && cursor == |c.items| && steps == 0
    {
      Free();
      var copy := new Vector(c.items);
      container := copy;
      cursor := |c.items|;
      owner := true;
      steps := 0;
    }

    /** `size`: the number of elements, as a 32-bit value. */
    method Size() returns (n: nat)
      requires container != null
      ensures n == |container.items| % 0x1_0000_0000
    {
      n := |container.items| % 0x1_0000_0000;
    }

    /** `reset_iterator`: back to `end`. */
    method ResetIterator()
      requires container != null
      modifies this
      ensures Valid() && container == old(container) && owner == old(owner)
      ensures cursor == |container.items| && steps == 0
    {
      cursor := |container.items|;
      steps := 0;
    }

    /** `get_current`: null at `end`, otherwise the element under the cursor. */
    method GetCurrent() returns (p: Pointer<T>)
      requires container != null && Valid()
      ensures p == At(container.items, cursor)
    {
      if cursor == |container.items| {
        return Null;
      }
      p := Ptr(container.items[cursor]);
    }

    /** `get_next`: one step of the looping cursor, then the current element. */
    method GetNext() returns (p: Pointer<T>)
      requires container != null && Valid()
      modifies this
      ensures Valid() && container == old(container) && owner == old(owner)
      ensures steps == old(steps) + 1 && p == At(container.items, Walk(steps, |container.items|))
    {
      if cursor == |container.items| {
        cursor := 0;
      } else {
        cursor := cursor + 1;
      }
      steps := steps + 1;
      p := GetCurrent();
    }
  }
}
