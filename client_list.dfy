/**
 * The C-facing list of ed247_client_list.h: a `client_list_container`
 * either wraps a container of the context or owns a copy of one, and
 * walks it with a looping cursor. Containers hold shared pointers, or
 * pairs whose second member is one (maps).
 */
module ClientLists {
  import opened Cursors

  /** One entry of the underlying container: a shared pointer, or a map pair. */
  datatype Entry<T> = Element(ptr: T) | Pair(key: string, second: T)

  /** `iterator_shared_get`: the pointer itself for a sequence, `.second` for a map. */
  function SharedGet<T>(e: Entry<T>): (r: T)
    ensures e.Element? ==> r == e.ptr
    ensures e.Pair? ==> r == e.second
  {
    match e
    case Element(p) => p
    case Pair(_, p) => p
  }

  /** What the client sees of a container: its entries through `iterator_shared_get`, in order. */
  function Visible<T>(entries: seq<Entry<T>>): (r: seq<T>)
    ensures |r| == |entries| && forall i | 0 <= i < |r| :: r[i] == SharedGet(entries[i])
  {
    seq(|entries|, i requires 0 <= i < |entries| => SharedGet(entries[i]))
  }

  /** A heap container; `live` turns false when it is deleted. */
  class Container<T> {
    const entries: seq<Entry<T>>
    var live: bool

    constructor(entries: seq<Entry<T>>)
      ensures this.entries == entries && live
    {
      this.entries := entries;
      live := true;
    }
  }

  class ClientListContainer<T> {
    /** Null once freed. */
    var container: Container?<T>
    /** The cursor; `|container.entries|` is `end`. */
    var cursor: nat
    /** Whether the container is a copy this list deletes. */
    const owner: bool
    /** The `ContextOwned` template argument. */
    const contextOwned: bool
    /** The `get_next` calls since the cursor was last put on `end`. */
    ghost var steps: nat

    ghost predicate Valid()
      reads this
    {
      container != null ==> cursor == Walk(steps, |container.entries|)
    }

    /** `wrap`: the container itself, not owned, with the cursor on `end`. */
    constructor Wrap(c: Container<T>, contextOwned: bool)
      ensures Valid() && container == c && !owner && this.contextOwned == contextOwned
      ensures cursor == |c.entries| && steps == 0
    {
      container := c;
      cursor := |c.entries|;
      owner := false;
      this.contextOwned := contextOwned;
      steps := 0;
    }

    /** `copy`: a fresh container with the same entries, owned, with the cursor on `end`. */
    constructor Copy(c: Container<T>, contextOwned: bool)
      ensures Valid() && container != null && fresh(container) && container.live && container.entries == c.entries
      ensures owner && this.contextOwned == contextOwned && cursor == |c.entries| && steps == 0
    {
      var copy := new Container(c.entries);
      container := copy;
      cursor := |c.entries|;
      owner := true;
      this.contextOwned := contextOwned;
      steps := 0;
    }

    /** `size`: the number of entries, as a 32-bit value. */
    method Size() returns (n: nat)
      requires container != null
      ensures n == |container.entries| % 0x1_0000_0000
    {
      n := |container.entries| % 0x1_0000_0000;
    }

    /** `free`: the container is deleted only when owned, and is forgotten either way. */
    method Free()
      modifies this, container
      ensures container == null
      ensures old(container) != null && owner ==> !old(container).live
      ensures old(container) != null && !owner ==> old(container).live == old(container.live)
    {
      if container != null && owner {
        container.live := false;
      }
      container := null;
    }

    /** `reset_iterator`: back to `end`. */
    method ResetIterator()
      requires container != null
      modifies this
      ensures Valid() && container == old(container) && cursor == |container.entries| && steps == 0
    {
      cursor := |container.entries|;
      steps := 0;
    }

    /** `get_current`: null without a container or at `end`, otherwise the entry under the cursor. */
    method GetCurrent() returns (p: Pointer<T>)
      requires Valid()
      ensures container == null ==> p == Null
      ensures container != null ==> p == At(Visible(container.entries), cursor)
    {
      if container == null || cursor == |container.entries| {
        return Null;
      }
      p := Ptr(SharedGet(container.entries[cursor]));
    }

    /**
     * `get_next`: one step of the looping cursor, then the current entry:
     * the `k`-th call after the cursor was put on `end` gives what
     * `Walk(k)` designates.
     */
    method GetNext() returns (p: Pointer<T>)
      requires Valid()
      modifies this
      ensures Valid() && container == old(container)
      ensures container == null ==> p == Null && cursor == old(cursor)
      ensures container != null ==> steps == old(steps) + 1 && p == At(Visible(container.entries), Walk(steps, |container.entries|))
    {
      if container == null {
        return Null;
      }
      if cursor == |container.entries| {
        cursor := 0;
      } else {
        cursor := cursor + 1;
      }
      steps := steps + 1;
      p := GetCurrent();
    }
  }
}
