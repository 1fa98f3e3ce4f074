/** A singly linked free list laid out in an array of links, and its stack operations. */
module FreeChain {
  import opened Types
  import opened Seqs

  function LinkAt(c: seq<nat>, i: nat): nat
    requires i < |c|
  {
    if i == |c| - 1 then INVALID_INDEX else c[i + 1]
  }

  ghost predicate LinkOk(next: seq<nat>, c: seq<nat>, i: nat)
    requires i < |c|
  {
    c[i] < |next| && next[c[i]] == LinkAt(c, i)
  }

  /** `c` lists the slots reachable from `head` through `next`: finite, hence acyclic, and without repeats. */
  ghost predicate Chain(next: seq<nat>, head: nat, c: seq<nat>) {
    && |next| <= INVALID_INDEX
    && Distinct(c)
    && head == (if c == [] then INVALID_INDEX else c[0])
    && forall i :: 0 <= i < |c| ==> LinkOk(next, c, i)
  }

  /** The links the allocator starts with: every slot points to the one after it. */
  function InitialLinks(n: nat): seq<nat> {
    seq(n, i => if i == n - 1 then INVALID_INDEX else i + 1)
  }

  /** The words the allocator keeps: the links, the two halves of the head word, and the free counter. */
  datatype FreeList = FreeList(next: seq<nat>, head: nat, tag: nat, count: nat)

  /** What one uninterrupted `allocate` does to the words. */
  function TakeSlot(f: FreeList): FreeList {
    if f.head < |f.next| then
      f.(head := f.next[f.head], tag := (f.tag + 1) % WORD32, count := (f.count + WORD32 - 1) % WORD32)
    else f
  }

  /** What one uninterrupted `deallocate` does to the words. */
  function GiveSlot(f: FreeList, slot: nat): FreeList
    requires slot < |f.next|
  {
    FreeList(f.next[slot := f.head], slot, (f.tag + 1) % WORD32, (f.count + 1) % WORD32)
  }

  lemma InitialChain(n: nat)
    requires 0 < n <= INVALID_INDEX
    ensures Chain(InitialLinks(n), 0, seq(n, i => i))
  {
    var c: seq<nat> := seq(n, i => i);
    forall i | 0 <= i < |c| ensures LinkOk(InitialLinks(n), c, i) {
    }
  }

  lemma PopChain(next: seq<nat>, head: nat, c: seq<nat>)
    requires Chain(next, head, c) && c != []
    ensures head < |next| && head == c[0] && next[head] == LinkAt(c, 0)
    ensures Chain(next, next[head], c[1..]) && head !in c[1..]
  {
    assert LinkOk(next, c, 0);
    forall k | 0 <= k < |c[1..]| ensures LinkOk(next, c[1..], k) {
      assert LinkOk(next, c, k + 1);
    }
  }

  lemma PushChain(next: seq<nat>, head: nat, c: seq<nat>, slot: nat)
    requires Chain(next, head, c) && slot !in c && slot < |next| && next[slot] == head
    ensures Chain(next, slot, [slot] + c)
  {
    var d := [slot] + c;
    forall k | 0 <= k < |d| ensures LinkOk(next, d, k) {
      if k > 0 {
        assert LinkOk(next, c, k - 1);
      }
    }
  }

  /** Writing the link of a slot that is not on the chain leaves the chain alone. */
  lemma ChainIgnores(next: seq<nat>, head: nat, c: seq<nat>, slot: nat, link: nat)
    requires Chain(next, head, c) && slot !in c && slot < |next|
    ensures Chain(next[slot := link], head, c)
  {
    var next' := next[slot := link];
    forall k | 0 <= k < |c| ensures LinkOk(next', c, k) {
      assert LinkOk(next, c, k);
      assert c[k] in c;
    }
  }

  lemma ChainFits(next: seq<nat>, head: nat, c: seq<nat>)
    requires Chain(next, head, c)
    ensures |c| <= |next| && forall x :: x in c ==> x < |next|
  {
    forall i | 0 <= i < |c| ensures c[i] < |next| {
      assert LinkOk(next, c, i);
    }
    DistinctBounded(c, |next|);
  }
}
