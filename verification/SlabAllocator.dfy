/**
 The slab allocator as an object: a fixed pool of nodes and a free list threaded through an array
 of links. A call here is one uninterrupted call whose compare-and-swap succeeds; `SlabProtocol`
 has the interleavings, the retries and the tag, and `SlabRuns` shows that its steps, taken by one
 thread in a row, do to the words what a call here does.
 */
module SlabAllocator {
  import opened Types
  import opened Seqs
  import opened FreeChain

  class SlabAllocator {
    const capacity: nat
    const pool: array<CacheNode>
    const freeNext: array<nat>
    var head: nat
    var tag: nat
    var freeCount: nat

    /** The free slots, next to be handed out first. */
    ghost var free: seq<nat>

    ghost predicate Valid()
      reads this, freeNext
    {
      && pool.Length == freeNext.Length == capacity <= INVALID_INDEX
      && tag < WORD32
      && Chain(freeNext[..], head, free)
      && freeCount == |free|
    }

    /** The words as the protocol sees them. */
    ghost function Words(): FreeList
      reads this, freeNext
    {
      FreeList(freeNext[..], head, tag, freeCount)
    }

    constructor (capacity: nat)
      requires 0 < capacity <= INVALID_INDEX
      ensures Valid() && fresh(pool) && fresh(freeNext) && this.capacity == capacity
      ensures free == seq(capacity, i => i)
      ensures forall i :: 0 <= i < capacity ==> pool[i] == EMPTY_NODE
    {
      this.capacity := capacity;
      pool := new CacheNode[capacity](_ => EMPTY_NODE);
      var links := new nat[capacity](_ => 0);
      freeNext := links;
      head, tag, freeCount := 0, 0, capacity;
      free := seq(capacity, i => i);
      new;
      for i := 0 to capacity - 1
        modifies freeNext
        invariant forall j :: 0 <= j < i ==> freeNext[j] == j + 1
      {
        freeNext[i] := i + 1;
      }
      freeNext[capacity - 1] := INVALID_INDEX;
      assert freeNext[..] == InitialLinks(capacity);
      InitialChain(capacity);
    }

    /** The factory view of construction: a zero capacity is refused, as the constructor's exception does. */
    static method Create(capacity: nat) returns (r: SlabAllocator?)
      requires capacity <= INVALID_INDEX
      ensures r == null <==> capacity == 0
      ensures r != null ==> fresh(r) && r.Valid() && r.capacity == capacity && r.free == seq(capacity, i => i)
    {
      if capacity == 0 {
        return null;
      }
      r := new SlabAllocator(capacity);
    }

    /** Hands out the most recently freed slot, cleared, or `INVALID_INDEX` when none is free. */
    method Allocate() returns (index: nat)
      requires Valid()
      modifies this, pool
      ensures Valid() && Words() == TakeSlot(old(Words()))
      ensures old(free) == [] ==> index == INVALID_INDEX && free == [] && pool[..] == old(pool[..])
      ensures old(free) != [] ==>
        index < capacity && index == old(free)[0] && free == old(free)[1..] && index !in free &&
        pool[..] == old(pool[..])[index := EMPTY_NODE]
    {
      ChainFits(freeNext[..], head, free);
      if head == INVALID_INDEX {
        assert free != [] ==> LinkOk(freeNext[..], free, 0);
        return INVALID_INDEX;
      }
      index := head;
      PopChain(freeNext[..], head, free);
      head := freeNext[index];
      tag := (tag + 1) % WORD32;
      free := free[1..];
      pool[index] := EMPTY_NODE;
      freeCount := freeCount - 1;
    }

    /** Clears the slot and puts it in front of the free list. */
    method Deallocate(index: nat)
      requires Valid() && index < capacity && index !in free
      modifies this, pool, freeNext
      ensures Valid() && free == [index] + old(free) && Words() == GiveSlot(old(Words()), index)
      ensures pool[..] == old(pool[..])[index := EMPTY_NODE]
    {
      ChainFits(freeNext[..], head, free);
      pool[index] := EMPTY_NODE;
      ChainIgnores(freeNext[..], head, free, index, head);
      ghost var links := freeNext[..][index := head];
      freeNext[index] := head;
      assert freeNext[..] == links;
      PushChain(links, head, free, index);
      ChainFits(links, index, [index] + free);
      head := index;
      tag := (tag + 1) % WORD32;
      free := [index] + free;
      freeCount := freeCount + 1;
    }
  }
}
