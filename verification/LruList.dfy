/**
 The intrusive doubly linked list whose nodes live in the shared slab. `Linked` relates the links
 stored in the pool to the sequence of slots the list stands for; the class methods are shown to
 perform the matching sequence operations and to leave every other node alone.
 */
module LruList {
  import opened Types
  import opened Seqs
  import Slab = SlabAllocator

  function PrevOf(s: seq<nat>, i: nat): nat
    requires i < |s|
  {
    if i == 0 then INVALID_INDEX else s[i - 1]
  }

  function NextOf(s: seq<nat>, i: nat): nat
    requires i < |s|
  {
    if i == |s| - 1 then INVALID_INDEX else s[i + 1]
  }

  ghost predicate NodeAt(pool: seq<CacheNode>, s: seq<nat>, i: nat)
    requires i < |s|
  {
    s[i] < |pool| && pool[s[i]].prev == PrevOf(s, i) && pool[s[i]].next == NextOf(s, i)
  }

  /** Head, tail and both link directions agree with the duplicate-free sequence `s`. */
  ghost predicate Linked(pool: seq<CacheNode>, head: nat, tail: nat, s: seq<nat>) {
    && |pool| <= INVALID_INDEX
    && Distinct(s)
    && head == (if s == [] then INVALID_INDEX else s[0])
    && tail == (if s == [] then INVALID_INDEX else s[|s| - 1])
    && forall i :: 0 <= i < |s| ==> NodeAt(pool, s, i)
  }

  /** The two pools agree outside the slots of `s`. */
  ghost predicate SameOutside(a: seq<CacheNode>, b: seq<CacheNode>, s: seq<nat>) {
    |a| == |b| && forall j: nat :: j < |a| && j !in s ==> a[j] == b[j]
  }

  function Relink(pool: seq<CacheNode>, x: nat, prev: nat, next: nat): (r: seq<CacheNode>)
    requires x < |pool|
    ensures |r| == |pool|
  {
    pool[x := pool[x].(prev := prev, next := next)]
  }

  /** The pool after `push_front` has relinked it. */
  function PushedPool(pool: seq<CacheNode>, head: nat, x: nat): (r: seq<CacheNode>)
    requires x < |pool| && (head < |pool| || head == INVALID_INDEX)
    ensures |r| == |pool|
  {
    var p := Relink(pool, x, INVALID_INDEX, head);
    if head != INVALID_INDEX && head < |pool| then Relink(p, head, x, p[head].next) else p
  }

  function SetNext(pool: seq<CacheNode>, x: nat, next: nat): (r: seq<CacheNode>)
    ensures |r| == |pool|
  {
    if x < |pool| then Relink(pool, x, pool[x].prev, next) else pool
  }

  function SetPrev(pool: seq<CacheNode>, x: nat, prev: nat): (r: seq<CacheNode>)
    ensures |r| == |pool|
  {
    if x < |pool| then Relink(pool, x, prev, pool[x].next) else pool
  }

  /** The pool after `remove` has unlinked `x`. */
  function UnlinkedPool(pool: seq<CacheNode>, x: nat): (r: seq<CacheNode>)
    requires x < |pool|
    ensures |r| == |pool|
  {
    var n := pool[x];
    Relink(SetPrev(SetNext(pool, n.prev, n.next), n.next, n.prev), x, INVALID_INDEX, INVALID_INDEX)
  }

  lemma LinkedBounds(pool: seq<CacheNode>, head: nat, tail: nat, s: seq<nat>)
    requires Linked(pool, head, tail, s)
    ensures forall x :: x in s ==> x < |pool|
    ensures s != [] ==> head < |pool| && tail < |pool|
    ensures s == [] <==> head == INVALID_INDEX
    ensures s == [] <==> tail == INVALID_INDEX
  {
    forall x | x in s ensures x < |pool| {
      var i :| 0 <= i < |s| && s[i] == x;
      assert NodeAt(pool, s, i);
    }
    if s != [] {
      assert s[0] in s && s[|s| - 1] in s;
    }
  }

  /** A list only depends on its own nodes. */
  lemma LinkedFrame(pool: seq<CacheNode>, pool': seq<CacheNode>, head: nat, tail: nat, s: seq<nat>)
    requires Linked(pool, head, tail, s) && |pool'| == |pool|
    requires forall x :: x in s && x < |pool| ==> pool'[x] == pool[x]
    ensures Linked(pool', head, tail, s)
  {
    forall i | 0 <= i < |s| ensures NodeAt(pool', s, i) {
      assert NodeAt(pool, s, i);
      assert s[i] in s;
    }
  }

  /** A list does not depend on the payload of its nodes. */
  lemma LinkedPayload(pool: seq<CacheNode>, pool': seq<CacheNode>, head: nat, tail: nat, s: seq<nat>)
    requires Linked(pool, head, tail, s) && |pool'| == |pool|
    requires forall x: nat :: x < |pool| ==> pool'[x].prev == pool[x].prev && pool'[x].next == pool[x].next
    ensures Linked(pool', head, tail, s)
  {
    forall i | 0 <= i < |s| ensures NodeAt(pool', s, i) {
      assert NodeAt(pool, s, i);
    }
  }

  lemma PushLinks(pool: seq<CacheNode>, head: nat, tail: nat, s: seq<nat>, x: nat)
    requires Linked(pool, head, tail, s) && x < |pool| && x !in s
    ensures head < |pool| || head == INVALID_INDEX
    ensures Linked(PushedPool(pool, head, x), x, if head == INVALID_INDEX then x else tail, [x] + s)
    ensures Payloads(PushedPool(pool, head, x)) == Payloads(pool)
    ensures SameOutside(pool, PushedPool(pool, head, x), [x] + s)
  {
    LinkedBounds(pool, head, tail, s);
    var t := [x] + s;
    var q := PushedPool(pool, head, x);
    forall i | 0 <= i < |t| ensures NodeAt(q, t, i) {
      if i > 0 {
        assert NodeAt(pool, s, i - 1);
        assert t[i] == s[i - 1];
      }
    }
  }

  /** What unlinking does to the node at position `i` of the old list. */
  lemma UnlinkNode(pool: seq<CacheNode>, s: seq<nat>, p: nat, i: nat)
    requires |pool| <= INVALID_INDEX && Distinct(s) && p < |s| && i < |s| && i != p
    requires forall k :: 0 <= k < |s| ==> NodeAt(pool, s, k)
    ensures s[p] < |pool| && s[i] < |pool|
    ensures UnlinkedPool(pool, s[p])[s[i]].next == (if i + 1 == p then NextOf(s, p) else NextOf(s, i))
    ensures UnlinkedPool(pool, s[p])[s[i]].prev == (if i == p + 1 then PrevOf(s, p) else PrevOf(s, i))
  {
    assert NodeAt(pool, s, p);
    assert NodeAt(pool, s, i);
    if p > 0 { assert NodeAt(pool, s, p - 1); }
    if p + 1 < |s| { assert NodeAt(pool, s, p + 1); }
  }

  lemma UnlinkFrame(pool: seq<CacheNode>, s: seq<nat>, p: nat)
    requires p < |s|
    requires forall k :: 0 <= k < |s| ==> NodeAt(pool, s, k)
    ensures s[p] < |pool|
    ensures Payloads(UnlinkedPool(pool, s[p])) == Payloads(pool)
    ensures |pool| <= INVALID_INDEX ==> SameOutside(pool, UnlinkedPool(pool, s[p]), s)
  {
    assert NodeAt(pool, s, p);
    if p > 0 { assert s[p - 1] in s; }
    if p + 1 < |s| { assert s[p + 1] in s; }
  }

  lemma UnlinkLinks(pool: seq<CacheNode>, head: nat, tail: nat, s: seq<nat>, p: nat)
    requires Linked(pool, head, tail, s) && p < |s|
    ensures s[p] < |pool|
    ensures var n := pool[s[p]];
      Linked(UnlinkedPool(pool, s[p]), if n.prev != INVALID_INDEX then head else n.next,
             if n.next != INVALID_INDEX then tail else n.prev, RemoveAt(s, p))
  {
    assert NodeAt(pool, s, p);
    var t := RemoveAt(s, p);
    var q := UnlinkedPool(pool, s[p]);
    RemoveAtElements(s, p);
    forall i | 0 <= i < |t| ensures NodeAt(q, t, i) {
      UnlinkNode(pool, s, p, if i < p then i else i + 1);
    }
    if p > 0 { assert NodeAt(pool, s, p - 1); }
    if p + 1 < |s| { assert NodeAt(pool, s, p + 1); }
  }

  class IntrusiveLRU {
    const slab: Slab.SlabAllocator
    var head: nat
    var tail: nat
    var size: nat

    /** The slots of the list, front first. */
    ghost var items: seq<nat>

    ghost predicate Valid()
      reads this, slab.pool
    {
      Linked(slab.pool[..], head, tail, items) && size == |items|
    }

    constructor (slab: Slab.SlabAllocator)
      requires slab.pool.Length <= INVALID_INDEX
      ensures Valid() && items == [] && this.slab == slab
    {
      this.slab := slab;
      head, tail, size := INVALID_INDEX, INVALID_INDEX, 0;
      items := [];
    }

    /** The pointer writes of `push_front`. */
    method LinkFront(index: nat)
      requires index < slab.pool.Length <= INVALID_INDEX && (head < slab.pool.Length || head == INVALID_INDEX)
      modifies this, slab.pool
      ensures slab.pool[..] == PushedPool(old(slab.pool[..]), old(head), index)
      ensures head == index && tail == (if old(head) == INVALID_INDEX then index else old(tail))
      ensures size == old(size) + 1 && items == [index] + old(items)
    {
      slab.pool[index] := slab.pool[index].(prev := INVALID_INDEX, next := head);
      if head != INVALID_INDEX {
        slab.pool[head] := slab.pool[head].(prev := index);
      } else {
        tail := index;
      }
      head := index;
      size := size + 1;
      items := [index] + items;
    }

    method PushFront(index: nat)
      requires Valid() && index < slab.pool.Length && index !in items
      modifies this, slab.pool
      ensures Valid() && items == [index] + old(items)
      ensures Payloads(slab.pool[..]) == Payloads(old(slab.pool[..]))
      ensures SameOutside(old(slab.pool[..]), slab.pool[..], [index] + old(items))
    {
      PushLinks(slab.pool[..], head, tail, items, index);
      LinkFront(index);
    }

    /** The pointer writes of `remove`. */
    method Unlink(index: nat, ghost p: nat)
      requires index < slab.pool.Length <= INVALID_INDEX && size > 0 && p < |items|
      requires var n := slab.pool[index];
        (n.prev < slab.pool.Length || n.prev == INVALID_INDEX) && (n.next < slab.pool.Length || n.next == INVALID_INDEX)
      modifies this, slab.pool
      ensures slab.pool[..] == UnlinkedPool(old(slab.pool[..]), index)
      ensures var n := old(slab.pool[index]);
        head == (if n.prev != INVALID_INDEX then old(head) else n.next)
          && tail == (if n.next != INVALID_INDEX then old(tail) else n.prev)
      ensures size == old(size) - 1 && items == RemoveAt(old(items), p)
    {
      var node := slab.pool[index];
      if node.prev != INVALID_INDEX {
        slab.pool[node.prev] := slab.pool[node.prev].(next := node.next);
      } else {
        head := node.next;
      }
      if node.next != INVALID_INDEX {
        slab.pool[node.next] := slab.pool[node.next].(prev := node.prev);
      } else {
        tail := node.prev;
      }
      slab.pool[index] := slab.pool[index].(prev := INVALID_INDEX, next := INVALID_INDEX);
      size := size - 1;
      items := RemoveAt(items, p);
    }

    /** Removes the node at ghost position `p`, wherever that is. */
    method Remove(index: nat, ghost p: nat)
      requires Valid() && p < |items| && items[p] == index
      modifies this, slab.pool
      ensures Valid() && items == RemoveAt(old(items), p)
      ensures Payloads(slab.pool[..]) == Payloads(old(slab.pool[..]))
      ensures SameOutside(old(slab.pool[..]), slab.pool[..], old(items))
    {
      NeighboursInPool(slab.pool[..], head, tail, items, p);
      UnlinkLinks(slab.pool[..], head, tail, items, p);
      UnlinkFrame(slab.pool[..], items, p);
      Unlink(index, p);
    }

    /** Removes and returns the last node, or returns `INVALID_INDEX`. */
    method PopBack() returns (victim: nat)
      requires Valid()
      modifies this, slab.pool
      ensures Valid()
      ensures old(items) == [] ==> victim == INVALID_INDEX && items == [] && slab.pool[..] == old(slab.pool[..])
      ensures old(items) != [] ==>
        victim == old(items)[|old(items)| - 1] && victim < slab.pool.Length && items == old(items)[..|old(items)| - 1]
      ensures Payloads(slab.pool[..]) == Payloads(old(slab.pool[..]))
      ensures SameOutside(old(slab.pool[..]), slab.pool[..], old(items))
    {
      LinkedBounds(slab.pool[..], head, tail, items);
      if tail == INVALID_INDEX {
        return INVALID_INDEX;
      }
      victim := tail;
      ghost var n := |items| - 1;
      assert RemoveAt(items, n) == items[..n];
      Remove(victim, n);
    }

    /** `peek_back()` */
    method PeekBack() returns (index: nat)
      requires Valid()
      ensures index == if items == [] then INVALID_INDEX else items[|items| - 1]
    {
      index := tail;
    }

    method MoveToFront(index: nat, ghost p: nat)
      requires Valid() && p < |items| && items[p] == index
      modifies this, slab.pool
      ensures Valid() && items == ToFront(old(items), p)
      ensures Payloads(slab.pool[..]) == Payloads(old(slab.pool[..]))
      ensures SameOutside(old(slab.pool[..]), slab.pool[..], old(items))
    {
      LinkedBounds(slab.pool[..], head, tail, items);
      if index == head {
        assert p == 0;
        return;
      }
      RemoveAtElements(items, p);
      assert items[p] in items;
      Remove(index, p);
      PushFront(index);
    }
  }

  lemma NeighboursInPool(pool: seq<CacheNode>, head: nat, tail: nat, s: seq<nat>, p: nat)
    requires Linked(pool, head, tail, s) && p < |s|
    ensures s[p] < |pool|
    ensures pool[s[p]].prev < |pool| || pool[s[p]].prev == INVALID_INDEX
    ensures pool[s[p]].next < |pool| || pool[s[p]].next == INVALID_INDEX
  {
    assert NodeAt(pool, s, p);
    if p > 0 { assert NodeAt(pool, s, p - 1); }
    if p + 1 < |s| { assert NodeAt(pool, s, p + 1); }
  }
}
