/** The cache stripe object: linked lists in the shared slab, key index, sketch and demotion queue. */
module CacheStripe {
  import opened Types
  import opened Seqs
  import opened StripePolicy
  import opened StripeLayout
  import opened LruList
  import FreeChain
  import Slab = SlabAllocator
  import Cms = CountMinSketch
  import Queue = DemotionQueue

  class CacheStripe {
    const slab: Slab.SlabAllocator
    const window: IntrusiveLRU
    const probation: IntrusiveLRU
    const protected: IntrusiveLRU
    const cms: Cms.CountMinSketch
    const cfg: Config
    var queue: Queue.DemotionQueue?
    var index: map<string, nat>
    var opsSinceDecay: nat
    var hits: nat
    var misses: nat
    var evictions: nat
    var admissions: nat
    var rejections: nat

    ghost predicate Wired() {
      && window != probation && window != protected && probation != protected
      && window.slab == slab && probation.slab == slab && protected.slab == slab
      && cms.counters != slab.freeNext
    }

    ghost predicate QueueReady()
      reads this`queue, queue, if queue == null then {} else {queue.buffer}
    {
      queue != null ==> queue.Valid()
    }

    /** The lists and the free list are well formed and share no slot. */
    ghost predicate ListsReady()
      reads window, probation, protected, slab, slab.pool, slab.freeNext
    {
      && Wired() && slab.Valid()
      && window.Valid() && probation.Valid() && protected.Valid()
      && Apart(window.items, probation.items, protected.items, slab.free)
    }

    /** The slot is in transit: on no list and not free. */
    ghost predicate Loose(x: nat)
      reads window, probation, protected, slab
    {
      x < slab.pool.Length
        && x !in Elements(window.items) + Elements(probation.items) + Elements(protected.items) + Elements(slab.free)
    }

    ghost predicate Valid()
      reads this`index, this`queue, window, probation, protected, slab, slab.pool, slab.freeNext, cms, cms.counters
      reads queue, if queue == null then {} else {queue.buffer}
    {
      && ListsReady() && cms.Valid() && QueueReady()
      && Indexed(Payloads(slab.pool[..]), index, window.items, probation.items, protected.items)
    }

    ghost function Listed(list: IntrusiveLRU): seq<Entry>
      reads list, slab.pool
    {
      Entries(Payloads(slab.pool[..]), list.items)
    }

    /** The slots of the lists and of the free list. */
    ghost function Slots(): set<nat>
      reads window, probation, protected, slab
    {
      Elements(window.items) + Elements(probation.items) + Elements(protected.items) + Elements(slab.free)
    }

    /**
     The stripe keeps to the slots `mine`. An operation fixes `mine` to its own and the free slots
     when it starts, and every step inside it stays there.
     */
    ghost predicate Within(mine: set<nat>)
      reads window, probation, protected, slab
    {
      Slots() <= mine
    }

    /** No slot outside `mine` has changed. */
    twostate predicate Untouched(mine: set<nat>)
      reads slab.pool
    {
      forall x: nat :: x < slab.pool.Length && x !in mine ==> slab.pool[x] == old(slab.pool[x])
    }

    /** The stripe this object stands for. */
    ghost function View(): Stripe
      reads this, window, probation, protected, slab.pool, cms, cms.counters
    {
      Stripe(cfg, Listed(window), Listed(probation), Listed(protected),
             cms.View(), opsSinceDecay, hits, misses, evictions, admissions, rejections)
    }

    constructor (slab: Slab.SlabAllocator, capacity: nat, windowPct: real, probationPct: real,
                 hash: (string, nat) -> nat)
      requires slab.Valid() && capacity >= 3 && windowPct >= 0.0 && 0.0 <= probationPct < 1.0
      ensures Valid() && this.slab == slab && queue == null
      ensures fresh(window) && fresh(probation) && fresh(protected) && fresh(cms) && fresh(cms.counters)
      ensures View() == Empty(MakeConfig(capacity, windowPct, probationPct), hash)
    {
      this.slab := slab;
      var w := new IntrusiveLRU(slab);
      var p := new IntrusiveLRU(slab);
      var q := new IntrusiveLRU(slab);
      var c := new Cms.CountMinSketch(4, 512, hash);
      window, probation, protected, cms := w, p, q, c;
      cfg := MakeConfig(capacity, windowPct, probationPct);
      queue := null;
      index := map[];
      opsSinceDecay, hits, misses, evictions, admissions, rejections := 0, 0, 0, 0, 0, 0;
    }

    lemma ListsDistinct()
      requires ListsReady()
      ensures Distinct(window.items) && Distinct(probation.items) && Distinct(protected.items)
    {
    }

    // ----- Moves on one list, with the other lists and the free list left alone

    ghost predicate IsMine(list: IntrusiveLRU) {
      list == window || list == probation || list == protected
    }

    method PushOnto(list: IntrusiveLRU, x: nat, ghost mine: set<nat>)
      requires Within(mine) && x in mine
      requires ListsReady() && IsMine(list) && Loose(x)
      modifies list, slab.pool
      ensures ListsReady() && list.items == [x] + old(list.items)
      ensures Payloads(slab.pool[..]) == Payloads(old(slab.pool[..]))
      ensures Within(mine) && Untouched(mine)
    {
      ghost var pool := slab.pool[..];
      ElementsPush(x, list.items);
      InElements(x, list.items);
      list.PushFront(x);
      ghost var touched := [x] + old(list.items);
      if list != window { OtherList(pool, slab.pool[..], touched, window.head, window.tail, window.items); }
      if list != probation { OtherList(pool, slab.pool[..], touched, probation.head, probation.tail, probation.items); }
      if list != protected { OtherList(pool, slab.pool[..], touched, protected.head, protected.tail, protected.items); }
    }

    method Detach(list: IntrusiveLRU, x: nat, ghost i: nat, ghost mine: set<nat>)
      requires Within(mine)
      requires ListsReady() && IsMine(list) && i < |list.items| && list.items[i] == x
      modifies list, slab.pool
      ensures ListsReady() && list.items == RemoveAt(old(list.items), i) && Loose(x)
      ensures Payloads(slab.pool[..]) == Payloads(old(slab.pool[..]))
      ensures Within(mine) && Untouched(mine) && x in mine
    {
      ghost var pool := slab.pool[..];
      ghost var touched := list.items;
      ElementsRemoveAt(list.items, i);
      LinkedBounds(pool, list.head, list.tail, list.items);
      list.Remove(x, i);
      if list != window { OtherList(pool, slab.pool[..], touched, window.head, window.tail, window.items); }
      if list != probation { OtherList(pool, slab.pool[..], touched, probation.head, probation.tail, probation.items); }
      if list != protected { OtherList(pool, slab.pool[..], touched, protected.head, protected.tail, protected.items); }
    }

    method PopFrom(list: IntrusiveLRU, ghost mine: set<nat>) returns (x: nat)
      requires Within(mine)
      requires ListsReady() && IsMine(list)
      modifies list, slab.pool
      ensures ListsReady()
      ensures old(list.items) == [] ==> x == INVALID_INDEX && list.items == []
      ensures old(list.items) != [] ==>
        x != INVALID_INDEX && x == Last(old(list.items)) && list.items == Front(old(list.items)) && Loose(x)
      ensures Payloads(slab.pool[..]) == Payloads(old(slab.pool[..]))
      ensures Within(mine) && Untouched(mine) && (old(list.items) != [] ==> x in mine)
    {
      ghost var pool := slab.pool[..];
      ghost var touched := list.items;
      if list.items != [] {
        ElementsFront(list.items);
      }
      LinkedBounds(pool, list.head, list.tail, list.items);
      x := list.PopBack();
      if list != window { OtherList(pool, slab.pool[..], touched, window.head, window.tail, window.items); }
      if list != probation { OtherList(pool, slab.pool[..], touched, probation.head, probation.tail, probation.items); }
      if list != protected { OtherList(pool, slab.pool[..], touched, protected.head, protected.tail, protected.items); }
    }

    method BringToFront(list: IntrusiveLRU, x: nat, ghost i: nat, ghost mine: set<nat>)
      requires Within(mine)
      requires ListsReady() && IsMine(list) && i < |list.items| && list.items[i] == x
      modifies list, slab.pool
      ensures ListsReady() && list.items == ToFront(old(list.items), i)
      ensures Payloads(slab.pool[..]) == Payloads(old(slab.pool[..]))
      ensures Within(mine) && Untouched(mine)
    {
      ghost var pool := slab.pool[..];
      ghost var touched := list.items;
      ElementsRemoveAt(list.items, i);
      list.MoveToFront(x, i);
      if list != window { OtherList(pool, slab.pool[..], touched, window.head, window.tail, window.items); }
      if list != probation { OtherList(pool, slab.pool[..], touched, probation.head, probation.tail, probation.items); }
      if list != protected { OtherList(pool, slab.pool[..], touched, protected.head, protected.tail, protected.items); }
    }

    /** Overwrites key, value and tag of a slot. */
    method Write(x: nat, d: Payload, ghost mine: set<nat>)
      requires Within(mine) && x in mine
      requires ListsReady() && x < slab.pool.Length
      modifies slab.pool
      ensures ListsReady() && Payloads(slab.pool[..]) == Payloads(old(slab.pool[..]))[x := d]
      ensures Within(mine) && Untouched(mine)
    {
      ghost var pool := slab.pool[..];
      slab.pool[x] := slab.pool[x].(key := d.key, value := d.value, segment := d.segment);
      LinkedPayload(pool, slab.pool[..], window.head, window.tail, window.items);
      LinkedPayload(pool, slab.pool[..], probation.head, probation.tail, probation.items);
      LinkedPayload(pool, slab.pool[..], protected.head, protected.tail, protected.items);
    }

    method SetSegment(x: nat, tag: Segment, ghost mine: set<nat>)
      requires Within(mine) && x in mine
      requires ListsReady() && x < slab.pool.Length
      modifies slab.pool
      ensures ListsReady() && Payloads(slab.pool[..]) == Retag(Payloads(old(slab.pool[..])), x, tag)
      ensures Within(mine) && Untouched(mine)
    {
      Write(x, PayloadOf(slab.pool[x]).(segment := tag), mine);
    }

    /** Gives a slot in transit back to the slab. */
    method Release(x: nat, ghost mine: set<nat>)
      requires Within(mine) && x in mine
      requires ListsReady() && Loose(x)
      modifies slab, slab.pool, slab.freeNext
      ensures ListsReady() && slab.free == [x] + old(slab.free)
      ensures Payloads(slab.pool[..]) == Payloads(old(slab.pool[..]))[x := EMPTY_PAYLOAD]
      ensures Within(mine) && Untouched(mine)
    {
      ghost var pool := slab.pool[..];
      ElementsPush(x, slab.free);
      InElements(x, slab.free);
      slab.Deallocate(x);
      OtherList(pool, slab.pool[..], [x], window.head, window.tail, window.items);
      OtherList(pool, slab.pool[..], [x], probation.head, probation.tail, probation.items);
      OtherList(pool, slab.pool[..], [x], protected.head, protected.tail, protected.items);
    }

    /** Takes a slot from the slab. */
    method Acquire(ghost mine: set<nat>) returns (x: nat)
      requires Within(mine)
      requires ListsReady()
      modifies slab, slab.pool
      ensures ListsReady()
      ensures old(slab.free) == [] ==> x == INVALID_INDEX && slab.free == [] && slab.pool[..] == old(slab.pool[..])
      ensures old(slab.free) != [] ==>
        x != INVALID_INDEX && Loose(x) && slab.free == old(slab.free)[1..] && x == old(slab.free)[0]
      ensures old(slab.free) != [] ==> Payloads(slab.pool[..]) == Payloads(old(slab.pool[..]))[x := EMPTY_PAYLOAD]
      ensures Within(mine) && Untouched(mine) && (x != INVALID_INDEX ==> x in mine)
    {
      ghost var pool := slab.pool[..];
      x := slab.Allocate();
      if x != INVALID_INDEX {
        assert x in Elements(old(slab.free));
        FreeTaken(old(slab.free), slab.free);
        OtherList(pool, slab.pool[..], [x], window.head, window.tail, window.items);
        OtherList(pool, slab.pool[..], [x], probation.head, probation.tail, probation.items);
        OtherList(pool, slab.pool[..], [x], protected.head, protected.tail, protected.items);
      }
    }

    lemma FreeTaken(before: seq<nat>, after: seq<nat>)
      requires before != [] && after == before[1..]
      ensures Elements(after) <= Elements(before)
      ensures before[0] !in after ==> before[0] !in Elements(after)
    {
    }

    // ----- The operations

    /** The moves of `promote_to_protected`, on slots. */
    method MoveToProtected(x: nat, ghost i: nat, ghost mine: set<nat>)
      requires Within(mine)
      requires ListsReady() && i < |probation.items| && probation.items[i] == x
      modifies probation, protected, slab.pool
      ensures ListsReady()
      ensures var d := Payloads(old(slab.pool[..])); var p := old(probation.items); var q := old(protected.items);
        if |q| >= cfg.protectedCap && q != [] then
          Payloads(slab.pool[..]) == Retag(Retag(d, Last(q), Probation), x, Protected) &&
          probation.items == [Last(q)] + RemoveAt(p, i) && protected.items == [x] + Front(q)
        else
          Payloads(slab.pool[..]) == Retag(d, x, Protected) && probation.items == RemoveAt(p, i)
            && protected.items == [x] + q
      ensures Within(mine) && Untouched(mine)
    {
      Detach(probation, x, i, mine);
      if protected.size >= cfg.protectedCap {
        GiveBackLast(x, mine);
      }
      SetSegment(x, Protected, mine);
      PushOnto(protected, x, mine);
    }

    /** Moves the last protected node, if there is one, to the front of Probation, while `x` is in transit. */
    method GiveBackLast(ghost x: nat, ghost mine: set<nat>)
      requires Within(mine) && x in mine
      requires ListsReady() && Loose(x)
      modifies probation, protected, slab.pool
      ensures ListsReady() && Loose(x)
      ensures var d := Payloads(old(slab.pool[..])); var p := old(probation.items); var q := old(protected.items);
        if q != [] then
          Payloads(slab.pool[..]) == Retag(d, Last(q), Probation) && probation.items == [Last(q)] + p
            && protected.items == Front(q)
        else
          Payloads(slab.pool[..]) == d && probation.items == p && protected.items == q
      ensures Within(mine) && Untouched(mine)
    {
      ghost var q := protected.items;
      var y := PopFrom(protected, mine);
      if y != INVALID_INDEX {
        assert y in Elements(q);
        SetSegment(y, Probation, mine);
        PushOnto(probation, y, mine);
      }
    }

    method PromoteToProtected(x: nat, ghost i: nat, ghost mine: set<nat>)
      requires Within(mine)
      requires Valid() && i < |probation.items| && probation.items[i] == x
      modifies probation, protected, slab.pool
      ensures Valid() && View() == Promote(old(View()), i)
      ensures Values(Payloads(slab.pool[..])) == Values(Payloads(old(slab.pool[..])))
      ensures Within(mine) && Untouched(mine)
    {
      hide Within;
      ghost var d := Payloads(slab.pool[..]);
      ghost var w, p, q := window.items, probation.items, protected.items;
      MoveToProtected(x, i, mine);
      if |q| >= cfg.protectedCap && q != [] {
        RetagValues(d, Last(q), Probation);
        RetagValues(Retag(d, Last(q), Probation), x, Protected);
        PromoteFullLayout(d, index, w, p, q, i);
        PromoteFullEntries(d, w, p, q, i);
      } else {
        RetagValues(d, x, Protected);
        PromoteLayout(d, index, w, p, q, i);
        PromoteEntries(d, w, p, q, i);
      }
    }

    method HitInWindow(x: nat, ghost i: nat, ghost mine: set<nat>)
      requires Within(mine)
      requires Valid() && i < |window.items| && window.items[i] == x && x < slab.pool.Length
      modifies window, slab.pool
      ensures Valid() && View() == Touch(old(View()), old(slab.pool[x].key))
      ensures Values(Payloads(slab.pool[..])) == Values(Payloads(old(slab.pool[..])))
      ensures Within(mine) && Untouched(mine)
    {
      hide FreeChain.Chain;
      WindowHit(View(), Payloads(slab.pool[..]), index, window.items, probation.items, protected.items, i);
      BringToFront(window, x, i, mine);
    }

    method HitInProtected(x: nat, ghost i: nat, ghost mine: set<nat>)
      requires Within(mine)
      requires Valid() && i < |protected.items| && protected.items[i] == x && x < slab.pool.Length
      requires !HasKey(View().window, slab.pool[x].key) && !HasKey(View().probation, slab.pool[x].key)
      modifies protected, slab.pool
      ensures Valid() && View() == Touch(old(View()), old(slab.pool[x].key))
      ensures Values(Payloads(slab.pool[..])) == Values(Payloads(old(slab.pool[..])))
      ensures Within(mine) && Untouched(mine)
    {
      ProtectedHit(View(), Payloads(slab.pool[..]), index, window.items, probation.items, protected.items, i);
      BringToFront(protected, x, i, mine);
    }

    method HitInProbation(x: nat, ghost i: nat, ghost mine: set<nat>)
      requires Within(mine)
      requires Valid() && i < |probation.items| && probation.items[i] == x && x < slab.pool.Length
      requires !HasKey(View().window, slab.pool[x].key)
      modifies probation, protected, slab.pool
      ensures Valid() && View() == Touch(old(View()), old(slab.pool[x].key))
      ensures Values(Payloads(slab.pool[..])) == Values(Payloads(old(slab.pool[..])))
      ensures Within(mine) && Untouched(mine)
    {
      ProbationHit(View(), Payloads(slab.pool[..]), index, window.items, probation.items, protected.items, i);
      PromoteToProtected(x, i, mine);
    }

    /** What a hit does to the lists: the switch on the segment tag. */
    method RecordHit(key: string, ghost mine: set<nat>)
      requires Within(mine)
      requires Valid() && key in index
      modifies window, probation, protected, slab.pool
      ensures Valid() && View() == Touch(old(View()), key)
      ensures Values(Payloads(slab.pool[..])) == Values(Payloads(old(slab.pool[..])))
      ensures Within(mine) && Untouched(mine)
    {
      var x := index[key];
      TagNamesList(View(), Payloads(slab.pool[..]), index, window.items, probation.items, protected.items, key);
      match slab.pool[x].segment
      case Window =>
        ghost var i :| 0 <= i < |window.items| && window.items[i] == x;
        HitInWindow(x, i, mine);
      case Probation =>
        ghost var i :| 0 <= i < |probation.items| && probation.items[i] == x;
        HitInProbation(x, i, mine);
      case Protected =>
        ghost var i :| 0 <= i < |protected.items| && protected.items[i] == x;
        HitInProtected(x, i, mine);
    }

    method CountAccess(key: string)
      requires Valid()
      modifies cms, cms.counters
      ensures Valid() && View() == old(View()).(sketch := Cms.Increment(old(View()).sketch, key))
      ensures slab.pool[..] == old(slab.pool[..])
    {
      cms.IncrementKey(key);
    }

    /** `index_map_.find(key)`: the index knows exactly the resident keys, and leads to their values. */
    method Known(key: string) returns (b: bool)
      requires Valid()
      ensures b <==> key in index
      ensures b <==> Has(View(), key)
      ensures b ==> index[key] < slab.pool.Length && Lookup(View(), key) == Some(slab.pool[index[key]].value)
    {
      b := key in index;
      IndexLookup(View(), Payloads(slab.pool[..]), index, window.items, probation.items, protected.items, key);
    }

    method CountHit(key: string, ghost mine: set<nat>)
      requires Within(mine)
      requires Valid() && key in index && index[key] < slab.pool.Length
      modifies this`hits, window, probation, protected, slab.pool, cms, cms.counters
      ensures Valid() && index == old(index)
      ensures View() ==
        Touch(old(View()).(sketch := Cms.Increment(old(View()).sketch, key)), key).(hits := old(hits) + 1)
      ensures slab.pool[index[key]].value == old(slab.pool[index[key]].value)
      ensures Within(mine) && Untouched(mine)
    {
      hide Within;
      hide LruList.Linked, StripeLayout.Indexed, StripeLayout.Apart, FreeChain.Chain, StripePolicy.Touch;
      var x := index[key];
      ghost var values := Values(Payloads(slab.pool[..]));
      assert values[x] == slab.pool[x].value;
      CountAccess(key);
      RecordHit(key, mine);
      hits := hits + 1;
      assert values[x] == Values(Payloads(slab.pool[..]))[x];
    }

    method Get(key: string) returns (r: Option<string>)
      requires Valid()
      modifies this`hits, this`misses, window, probation, protected, slab.pool, cms, cms.counters
      ensures Valid() && View() == StripePolicy.Get(old(View()), key).stripe
      ensures r == StripePolicy.Get(old(View()), key).value
      ensures KeptToItself()
    {
      ghost var mine := Slots();
      hide LruList.Linked, StripeLayout.Indexed, StripeLayout.Apart, FreeChain.Chain, StripePolicy.Touch;
      var known := Known(key);
      if !known {
        misses := misses + 1;
        return None;
      }
      CountHit(key, mine);
      return Some(slab.pool[index[key]].value);
    }

    // ----- Admission

    /** A popped candidate enters Probation. */
    method AdmitCandidate(x: nat, ghost mine: set<nat>)
      requires Within(mine) && x in mine
      requires ListsReady() && Loose(x)
      modifies this`admissions, probation, slab.pool
      ensures ListsReady() && probation.items == [x] + old(probation.items) && admissions == old(admissions) + 1
      ensures Payloads(slab.pool[..]) == Retag(Payloads(old(slab.pool[..])), x, Probation)
      ensures Within(mine) && Untouched(mine)
    {
      hide LruList.Linked, FreeChain.Chain;
      SetSegment(x, Probation, mine);
      PushOnto(probation, x, mine);
      admissions := admissions + 1;
    }

    /** Erases the key of a slot in transit from the index and frees the slot. */
    method Forget(x: nat, ghost mine: set<nat>)
      requires Within(mine) && x in mine
      requires ListsReady() && Loose(x)
      modifies this`index, slab, slab.pool, slab.freeNext
      ensures ListsReady() && slab.free == [x] + old(slab.free)
      ensures index == old(index) - {old(slab.pool[x].key)}
      ensures Payloads(slab.pool[..]) == Payloads(old(slab.pool[..]))[x := EMPTY_PAYLOAD]
      ensures Within(mine) && Untouched(mine)
    {
      hide LruList.Linked, FreeChain.Chain;
      index := index - {slab.pool[x].key};
      Release(x, mine);
    }

    method RejectCandidate(x: nat, ghost mine: set<nat>)
      requires Within(mine) && x in mine
      requires ListsReady() && Loose(x)
      modifies this`index, this`rejections, slab, slab.pool, slab.freeNext
      ensures ListsReady() && slab.free == [x] + old(slab.free)
      ensures index == old(index) - {old(slab.pool[x].key)} && rejections == old(rejections) + 1
      ensures Payloads(slab.pool[..]) == Payloads(old(slab.pool[..]))[x := EMPTY_PAYLOAD]
      ensures Within(mine) && Untouched(mine)
    {
      hide LruList.Linked, FreeChain.Chain;
      Forget(x, mine);
      rejections := rejections + 1;
    }

    /** `demote_victim`: the victim leaves index and slab, and is offered to the demotion queue if there is one. */
    method DemoteVictim(x: nat, ghost mine: set<nat>)
      requires Within(mine) && x in mine
      requires ListsReady() && Loose(x) && cms.Valid() && QueueReady()
      modifies this`index, this`evictions, slab, slab.pool, slab.freeNext, queue
      modifies if queue == null then {} else {queue.buffer}
      ensures ListsReady() && slab.free == [x] + old(slab.free) && cms.Valid() && QueueReady()
      ensures index == old(index) - {old(slab.pool[x].key)} && evictions == old(evictions) + 1
      ensures Payloads(slab.pool[..]) == Payloads(old(slab.pool[..]))[x := EMPTY_PAYLOAD]
      ensures queue != null ==>
        var n := old(slab.pool[x]);
        queue.View() == Queue.Push(old(queue.View()),
          DemotionItem(n.key, n.value, Cms.Estimate(old(cms.View()), n.key)))
      ensures Within(mine) && Untouched(mine)
    {
      hide LruList.Linked, FreeChain.Chain, Queue.Holds;
      if queue != null {
        var frequency := cms.EstimateKey(slab.pool[x].key);
        var item := DemotionItem(slab.pool[x].key, slab.pool[x].value, frequency);
        Forget(x, mine);
        var _ := queue.TryPushItem(item);
      } else {
        Forget(x, mine);
      }
      evictions := evictions + 1;
    }

    /** `c` has just been popped from a window that read `w`, with `d` in the slots. */
    ghost predicate Popped(d: seq<Payload>, w: seq<nat>, c: nat)
      reads this`index, this`queue, window, probation, protected, slab, slab.pool, slab.freeNext, cms, cms.counters
      reads queue, if queue == null then {} else {queue.buffer}
    {
      && ListsReady() && cms.Valid() && QueueReady() && Loose(c)
      && w != [] && c == Last(w) && window.items == Front(w) && Distinct(w)
      && Payloads(slab.pool[..]) == d
      && Indexed(d, index, w, probation.items, protected.items) && Apart(w, probation.items, protected.items, [])
    }

    method PopCandidate(ghost mine: set<nat>) returns (c: nat)
      requires Within(mine)
      requires Valid() && window.items != []
      modifies window, slab.pool
      ensures Popped(Payloads(old(slab.pool[..])), old(window.items), c)
      ensures Within(mine) && Untouched(mine) && c in mine
    {
      c := PopFrom(window, mine);
    }

    method AdmitPopped(c: nat, ghost d: seq<Payload>, ghost w: seq<nat>, ghost mine: set<nat>)
      requires Within(mine) && c in mine
      requires Popped(d, w, c)
      modifies this`admissions, probation, slab.pool
      ensures Valid() && admissions == old(admissions) + 1
      ensures Listed(window) == Front(Entries(d, w))
      ensures Listed(probation) == [Last(Entries(d, w))] + Entries(d, old(probation.items))
      ensures Listed(protected) == Entries(d, protected.items)
      ensures Within(mine) && Untouched(mine)
    {
      hide LruList.Linked, FreeChain.Chain;
      AdmitLayout(d, index, w, probation.items, protected.items);
      AdmitCandidate(c, mine);
    }

    method RejectPopped(c: nat, ghost d: seq<Payload>, ghost w: seq<nat>, ghost mine: set<nat>)
      requires Within(mine) && c in mine
      requires Popped(d, w, c)
      modifies this`index, this`rejections, slab, slab.pool, slab.freeNext
      ensures Valid() && rejections == old(rejections) + 1 && |slab.free| == old(|slab.free|) + 1
      ensures Listed(window) == Front(Entries(d, w))
      ensures Listed(probation) == Entries(d, probation.items)
      ensures Listed(protected) == Entries(d, protected.items)
      ensures Within(mine) && Untouched(mine)
    {
      hide LruList.Linked, FreeChain.Chain;
      RejectLayout(d, index, w, probation.items, protected.items);
      RejectCandidate(c, mine);
    }

    /** With the candidate `c` in transit, `v` has just been popped from a Probation that read `p`. */
    ghost predicate Evicting(d: seq<Payload>, w: seq<nat>, p: seq<nat>, c: nat, v: nat)
      reads this`index, this`queue, window, probation, protected, slab, slab.pool, slab.freeNext, cms, cms.counters
      reads queue, if queue == null then {} else {queue.buffer}
    {
      && ListsReady() && cms.Valid() && QueueReady() && Loose(c) && Loose(v) && c != v
      && w != [] && c == Last(w) && window.items == Front(w) && Distinct(w)
      && p != [] && v == Last(p) && probation.items == Front(p) && Distinct(p)
      && Payloads(slab.pool[..]) == d
      && Indexed(d, index, w, p, protected.items) && Apart(w, p, protected.items, [])
    }

    method PopVictim(c: nat, ghost d: seq<Payload>, ghost w: seq<nat>, ghost mine: set<nat>) returns (v: nat)
      requires Within(mine) && c in mine
      requires Popped(d, w, c) && probation.items != []
      modifies probation, slab.pool
      ensures Evicting(d, w, old(probation.items), c, v) && v == Last(old(probation.items))
        && probation.items == Front(old(probation.items))
      ensures Within(mine) && Untouched(mine) && v in mine
    {
      hide LruList.Linked, FreeChain.Chain, StripeLayout.Indexed;
      ListsDistinct();
      LastDiffers(w, probation.items, protected.items);
      v := PopFrom(probation, mine);
    }

    static lemma LastDiffers(w: seq<nat>, p: seq<nat>, q: seq<nat>)
      requires Apart(w, p, q, []) && w != [] && p != []
      ensures Last(w) != Last(p)
    {
      assert Last(w) in Elements(w) && Last(p) in Elements(p);
    }

    method DropVictim(c: nat, v: nat, ghost d: seq<Payload>, ghost w: seq<nat>, ghost p: seq<nat>, ghost mine: set<nat>)
      requires Within(mine) && v in mine
      requires Evicting(d, w, p, c, v) && v < |d|
      requires Indexed(d[v := EMPTY_PAYLOAD], index - {d[v].key}, w, Front(p), protected.items)
        && Apart(w, Front(p), protected.items, [])
      modifies this`index, this`evictions, slab, slab.pool, slab.freeNext, queue
      modifies if queue == null then {} else {queue.buffer}
      ensures Popped(d[v := EMPTY_PAYLOAD], w, c) && evictions == old(evictions) + 1
        && |slab.free| == old(|slab.free|) + 1
      ensures queue != null ==>
        queue.View() == Queue.Push(old(queue.View()),
          DemotionItem(d[v].key, d[v].value, Cms.Estimate(cms.View(), d[v].key)))
      ensures Within(mine) && Untouched(mine)
    {
      hide Within, LruList.Linked, FreeChain.Chain, StripeLayout.Indexed, StripeLayout.Apart, Cms.Estimate, Queue.Push;
      hide Slots, Cms.ValidSketch, Seqs.Distinct;
      assert PayloadOf(slab.pool[v]) == d[v];
      DemoteVictim(v, mine);
    }

    /** Takes the last probation node out and demotes it, while the candidate waits. */
    method EvictVictim(c: nat, ghost d: seq<Payload>, ghost w: seq<nat>, ghost mine: set<nat>)
      requires Within(mine) && c in mine
      requires Popped(d, w, c) && probation.items != []
      modifies this`index, this`evictions, probation, slab, slab.pool, slab.freeNext, queue
      modifies if queue == null then {} else {queue.buffer}
      ensures var p := old(probation.items); var v := Last(p);
        && v < |d| && Popped(d[v := EMPTY_PAYLOAD], w, c) && probation.items == Front(p)
        && (queue != null ==>
              queue.View() == Queue.Push(old(queue.View()),
                DemotionItem(d[v].key, d[v].value, Cms.Estimate(cms.View(), d[v].key))))
      ensures evictions == old(evictions) + 1 && |slab.free| == old(|slab.free|) + 1
      ensures Within(mine) && Untouched(mine)
    {
      hide Within, StripeLayout.Indexed, StripeLayout.Apart, Cms.Estimate, Queue.Push, Evicting, Popped;
      ghost var p := probation.items;
      EvictFacts(c, d, w);
      var v := PopVictim(c, d, w, mine);
      DropVictim(c, v, d, w, p, mine);
    }

    lemma EvictFacts(c: nat, d: seq<Payload>, w: seq<nat>)
      requires Popped(d, w, c) && probation.items != []
      ensures var p := probation.items; var v := Last(p);
        && Wired() && v < |d|
        && Indexed(d[v := EMPTY_PAYLOAD], index - {d[v].key}, w, Front(p), protected.items)
        && Apart(w, Front(p), protected.items, [])
    {
      ListsDistinct();
      EvictWaiting(d, index, w, probation.items, protected.items);
    }

    /** The candidate has beaten the last probation entry and takes its place. */
    method ReplaceVictim(c: nat, ghost d: seq<Payload>, ghost w: seq<nat>, ghost mine: set<nat>)
      requires Within(mine) && c in mine
      requires Popped(d, w, c) && probation.items != []
      modifies this`index, this`evictions, this`admissions, probation, slab, slab.pool, slab.freeNext, queue
      modifies if queue == null then {} else {queue.buffer}
      ensures Valid() && admissions == old(admissions) + 1 && evictions == old(evictions) + 1
        && |slab.free| == old(|slab.free|) + 1
      ensures Listed(window) == Front(Entries(d, w))
      ensures Listed(probation) == [Last(Entries(d, w))] + Front(Entries(d, old(probation.items)))
      ensures Listed(protected) == Entries(d, protected.items)
      ensures queue != null ==>
        var e := Last(Entries(d, old(probation.items)));
        queue.View() == Queue.Push(old(queue.View()), DemotionItem(e.key, e.value, Cms.Estimate(cms.View(), e.key)))
      ensures Within(mine) && Untouched(mine)
    {
      hide Within;
      hide LruList.Linked, FreeChain.Chain, StripeLayout.Indexed, StripeLayout.Apart, Cms.Estimate, Queue.Push;
      hide Loose, QueueReady, StripeLayout.Entries, Seqs.Distinct;
      ghost var v := Last(probation.items);
      ListsDistinct();
      EvictWaiting(d, index, w, probation.items, protected.items);
      EvictVictim(c, d, w, mine);
      AdmitPopped(c, d[v := EMPTY_PAYLOAD], w, mine);
    }

    /** Does the popped candidate beat the last probation entry? */
    method Duel(c: nat, ghost d: seq<Payload>, ghost w: seq<nat>) returns (won: bool)
      requires Popped(d, w, c) && probation.items != []
      ensures won <==>
        var candidate, victim := Last(Entries(d, w)), Last(Entries(d, probation.items));
        Cms.Estimate(cms.View(), candidate.key) > Cms.Estimate(cms.View(), victim.key)
    {
      hide FreeChain.Chain, StripeLayout.Indexed, Cms.Estimate;
      var victim := probation.PeekBack();
      LinkedBounds(slab.pool[..], probation.head, probation.tail, probation.items);
      var candidateFrequency := cms.EstimateKey(slab.pool[c].key);
      var victimFrequency := cms.EstimateKey(slab.pool[victim].key);
      assert PayloadOf(slab.pool[c]) == d[c] && PayloadOf(slab.pool[victim]) == d[victim];
      won := candidateFrequency > victimFrequency;
    }

    /** The popped candidate came from `s`, and nothing else has changed since. */
    ghost predicate PoppedFrom(s: Stripe, d: seq<Payload>, w: seq<nat>, c: nat)
      reads this, window, probation, protected, slab, slab.pool, slab.freeNext, cms, cms.counters
      reads queue, if queue == null then {} else {queue.buffer}
    {
      && Popped(d, w, c) && s.window == Entries(d, w) && s.probation == Entries(d, probation.items)
      && View() == s.(window := Front(s.window))
    }

    method PopCandidateFrom(ghost s: Stripe, ghost d: seq<Payload>, ghost mine: set<nat>) returns (c: nat)
      requires Within(mine)
      requires Valid() && window.items != [] && s == View() && d == Payloads(slab.pool[..])
      modifies window, slab.pool
      ensures PoppedFrom(s, d, old(window.items), c)
      ensures Within(mine) && Untouched(mine) && c in mine
    {
      hide LruList.Linked, FreeChain.Chain, StripeLayout.Indexed, StripeLayout.Apart, Loose, QueueReady;
      c := PopCandidate(mine);
    }

    method Win(c: nat, ghost d: seq<Payload>, ghost w: seq<nat>, ghost s: Stripe, ghost mine: set<nat>)
      requires Within(mine) && c in mine
      requires PoppedFrom(s, d, w, c) && probation.items != []
      modifies this`index, this`evictions, this`admissions, probation, slab, slab.pool, slab.freeNext, queue
      modifies if queue == null then {} else {queue.buffer}
      ensures Valid() && |slab.free| == old(|slab.free|) + 1
      ensures s.probation != [] && s.window != []
      ensures View() == s.(window := Front(s.window), probation := [Last(s.window)] + Front(s.probation),
                           evictions := s.evictions + 1, admissions := s.admissions + 1)
      ensures queue != null ==>
        var e := Last(s.probation);
        queue.View() == Queue.Push(old(queue.View()), DemotionItem(e.key, e.value, Cms.Estimate(s.sketch, e.key)))
      ensures Within(mine) && Untouched(mine)
    {
      hide Within;
      hide LruList.Linked, FreeChain.Chain, StripeLayout.Indexed, StripeLayout.Apart, Cms.Estimate, Queue.Push, Loose,
        QueueReady;
      ReplaceVictim(c, d, w, mine);
    }

    method Lose(c: nat, ghost d: seq<Payload>, ghost w: seq<nat>, ghost s: Stripe, ghost mine: set<nat>)
      requires Within(mine) && c in mine
      requires PoppedFrom(s, d, w, c)
      modifies this`index, this`rejections, slab, slab.pool, slab.freeNext
      ensures Valid() && |slab.free| == old(|slab.free|) + 1
      ensures s.window != [] && View() == s.(window := Front(s.window), rejections := s.rejections + 1)
      ensures Within(mine) && Untouched(mine)
    {
      hide Within;
      hide LruList.Linked, FreeChain.Chain, StripeLayout.Indexed, StripeLayout.Apart, Cms.Estimate, Queue.Push, Loose,
        QueueReady;
      RejectPopped(c, d, w, mine);
    }

    /** The admission gate: the candidate is admitted if its estimate is strictly greater than the victim's. */
    method Contest(c: nat, ghost d: seq<Payload>, ghost w: seq<nat>, ghost s: Stripe, ghost mine: set<nat>)
      requires Within(mine) && c in mine
      requires PoppedFrom(s, d, w, c) && probation.items != [] && SketchReady(s)
      requires s.window != [] && s.probation != [] && |s.probation| + |s.protected| >= s.cfg.mainCap
      modifies this`index, this`evictions, this`admissions, this`rejections, probation, slab, slab.pool, slab.freeNext,
        queue
      modifies if queue == null then {} else {queue.buffer}
      ensures Valid() && View() == TryAdmit(s).stripe && |slab.free| == old(|slab.free|) + 1
      ensures queue != null ==> queue.View() == PushSome(old(queue.View()), TryAdmit(s).demoted)
      ensures Within(mine) && Untouched(mine)
    {
      hide Within;
      hide LruList.Linked, FreeChain.Chain, StripeLayout.Indexed, StripeLayout.Apart, Cms.Estimate, Queue.Push, Popped,
        Loose, QueueReady;
      hide StripePolicy.TryAdmit;
      ContestMeans(s);
      assert Popped(d, w, c);
      var won := Duel(c, d, w);
      if won {
        Win(c, d, w, s, mine);
      } else {
        Lose(c, d, w, s, mine);
      }
    }

    /** Main has room. */
    method AdmitFreely(ghost mine: set<nat>)
      requires Within(mine)
      requires Valid() && window.items != [] && |probation.items| + |protected.items| < cfg.mainCap
      modifies this`admissions, window, probation, slab.pool
      ensures Valid() && View() == TryAdmit(old(View())).stripe && TryAdmit(old(View())).demoted == []
      ensures |window.items| == |old(window.items)| - 1 && Size(View()) == old(Size(View()))
      ensures Within(mine) && Untouched(mine)
    {
      hide Within;
      hide LruList.Linked, FreeChain.Chain, StripeLayout.Indexed, StripeLayout.Apart, Cms.Estimate, Queue.Push;
      ghost var d := Payloads(slab.pool[..]);
      ghost var w := window.items;
      var c := PopCandidate(mine);
      AdmitPopped(c, d, w, mine);
    }

    /** Main is full and Probation empty. */
    method RejectLast(ghost mine: set<nat>)
      requires Within(mine)
      requires Valid() && window.items != [] && |probation.items| + |protected.items| >= cfg.mainCap
        && probation.items == []
      modifies this`index, this`rejections, window, slab, slab.pool, slab.freeNext
      ensures Valid() && View() == TryAdmit(old(View())).stripe && TryAdmit(old(View())).demoted == []
      ensures |window.items| == |old(window.items)| - 1 && |slab.free| == old(|slab.free|) + 1
        && Size(View()) == old(Size(View())) - 1
      ensures Within(mine) && Untouched(mine)
    {
      hide Within;
      hide LruList.Linked, FreeChain.Chain, StripeLayout.Indexed, StripeLayout.Apart, Cms.Estimate, Queue.Push;
      ghost var d := Payloads(slab.pool[..]);
      ghost var w := window.items;
      var c := PopCandidate(mine);
      RejectPopped(c, d, w, mine);
    }

    /** Main is full and Probation has a victim. */
    method ContestLast(ghost mine: set<nat>)
      requires Within(mine)
      requires Valid() && window.items != [] && |probation.items| + |protected.items| >= cfg.mainCap
        && probation.items != []
      modifies this`index, this`evictions, this`admissions, this`rejections, window, probation, slab, slab.pool,
        slab.freeNext, queue
      modifies if queue == null then {} else {queue.buffer}
      ensures Valid() && View() == TryAdmit(old(View())).stripe
      ensures |window.items| == |old(window.items)| - 1 && |slab.free| == old(|slab.free|) + 1
      ensures queue != null ==> queue.View() == PushSome(old(queue.View()), TryAdmit(old(View())).demoted)
      ensures Within(mine) && Untouched(mine)
    {
      hide Within;
      hide LruList.Linked, FreeChain.Chain, StripeLayout.Indexed, StripeLayout.Apart, Cms.Estimate, Queue.Push,
        PoppedFrom, Loose, QueueReady;
      hide StripePolicy.TryAdmit;
      ghost var s := View();
      ghost var d := Payloads(slab.pool[..]);
      ghost var w := window.items;
      ContestMeans(s);
      var c := PopCandidateFrom(s, d, mine);
      Contest(c, d, w, s, mine);
    }

    static lemma ContestMeans(s: Stripe)
      requires SketchReady(s) && s.window != [] && |s.probation| + |s.protected| >= s.cfg.mainCap && s.probation != []
      ensures var x := Last(s.window); var v := Last(s.probation);
        if Cms.Estimate(s.sketch, x.key) > Cms.Estimate(s.sketch, v.key) then
          TryAdmit(s) == Outcome(s.(window := Front(s.window), probation := [x] + Front(s.probation),
                                    evictions := s.evictions + 1, admissions := s.admissions + 1),
                                 [DemotionItem(v.key, v.value, Cms.Estimate(s.sketch, v.key))])
        else
          TryAdmit(s) == Outcome(s.(window := Front(s.window), rejections := s.rejections + 1), [])
      ensures Size(TryAdmit(s).stripe) == Size(s) - 1
    {
    }

    static ghost function PushSome(f: Queue.Fifo, xs: seq<DemotionItem>): Queue.Fifo {
      if |xs| == 0 then f else Queue.Push(f, xs[0])
    }

    static lemma PushSomeIsAll(f: Queue.Fifo, s: Stripe)
      requires SketchReady(s)
      ensures PushSome(f, TryAdmit(s).demoted) == Queue.PushAll(f, TryAdmit(s).demoted)
    {
      var xs := TryAdmit(s).demoted;
      assert |xs| <= 1;
      if xs != [] {
        assert Queue.PushAll(f, xs) == Queue.PushAll(Queue.Push(f, xs[0]), xs[1..]);
      }
    }

    static lemma NothingToAdmit(f: Queue.Fifo, s: Stripe)
      requires SketchReady(s) && s.window == []
      ensures TryAdmit(s) == Outcome(s, []) && Queue.PushAll(f, []) == f
    {
    }

    method TryAdmitFromWindow(ghost mine: set<nat>)
      requires Within(mine)
      requires Valid()
      modifies this`index, this`evictions, this`admissions, this`rejections, window, probation, slab, slab.pool,
        slab.freeNext, queue
      modifies if queue == null then {} else {queue.buffer}
      ensures Valid() && View() == TryAdmit(old(View())).stripe
      ensures old(window.items) != [] ==> |window.items| == |old(window.items)| - 1
      ensures |slab.free| + Size(View()) == old(|slab.free| + Size(View()))
      ensures queue != null ==> queue.View() == Queue.PushAll(old(queue.View()), TryAdmit(old(View())).demoted)
      ensures Within(mine) && Untouched(mine)
    {
      hide Within;
      hide LruList.Linked, FreeChain.Chain, StripeLayout.Indexed, StripeLayout.Apart, Cms.Estimate, Queue.Push,
        StripePolicy.TryAdmit, Queue.PushAll;
      if window.size == 0 {
        NothingToAdmit(if queue == null then Queue.Fifo(0, [], 0) else queue.View(), View());
        return;
      }
      if queue != null {
        PushSomeIsAll(queue.View(), View());
      }
      if probation.size + protected.size < cfg.mainCap {
        AdmitFreely(mine);
      } else if probation.size == 0 {
        RejectLast(mine);
      } else {
        ContestMeans(View());
        ContestLast(mine);
      }
    }

    // ----- Put

    method MaybeDecayCms()
      requires Valid()
      modifies this`opsSinceDecay, cms, cms.counters
      ensures Valid() && View() == MaybeDecay(old(View()))
    {
      hide LruList.Linked, FreeChain.Chain, StripeLayout.Indexed, StripeLayout.Apart;
      opsSinceDecay := opsSinceDecay + 1;
      if opsSinceDecay >= cfg.decayInterval {
        cms.DecayAll();
        opsSinceDecay := 0;
      }
    }

    method CountPut(key: string)
      requires Valid()
      modifies this`opsSinceDecay, cms, cms.counters
      ensures Valid() && View() == Count(old(View()), key)
    {
      hide LruList.Linked, FreeChain.Chain, StripeLayout.Indexed, StripeLayout.Apart, StripePolicy.MaybeDecay;
      CountAccess(key);
      MaybeDecayCms();
    }

    method SetNodeValue(key: string, value: string, ghost mine: set<nat>)
      requires Within(mine)
      requires Valid() && key in index
      modifies slab.pool
      ensures Valid() && View() == SetValue(old(View()), key, value)
      ensures Within(mine) && Untouched(mine)
    {
      hide FreeChain.Chain, StripePolicy.SetValue;
      var x := index[key];
      ghost var d := Payloads(slab.pool[..]);
      ValueLayout(View(), d, index, window.items, probation.items, protected.items, key, value);
      Write(x, PayloadOf(slab.pool[x]).(value := value), mine);
    }

    method PutHit(key: string, value: string, ghost mine: set<nat>)
      requires Within(mine)
      requires Valid() && key in index
      modifies window, probation, protected, slab.pool
      ensures Valid() && View() == Touch(SetValue(old(View()), key, value), key)
      ensures Within(mine) && Untouched(mine)
    {
      hide LruList.Linked, FreeChain.Chain, StripeLayout.Indexed, StripeLayout.Apart, StripePolicy.Touch,
        StripePolicy.SetValue;
      SetNodeValue(key, value, mine);
      RecordHit(key, mine);
    }

    /** Takes a slot and puts the new entry at the front of the window; fails, changing nothing, if no slot is free. */
    method InsertEntry(key: string, value: string, ghost mine: set<nat>) returns (ok: bool)
      requires Within(mine)
      requires Valid() && key !in index
      modifies this`index, window, slab, slab.pool
      ensures Valid() && (ok <==> old(slab.free) != []) && |slab.free| == old(|slab.free|) - (if ok then 1 else 0)
      ensures View() == if ok then old(View()).(window := [Entry(key, value)] + old(View()).window) else old(View())
      ensures ok ==> window.items != []
      ensures Within(mine) && Untouched(mine)
    {
      hide LruList.Linked, FreeChain.Chain;
      ghost var d := Payloads(slab.pool[..]);
      var x := Acquire(mine);
      if x == INVALID_INDEX {
        return false;
      }
      ClearLayout(d, index, window.items, probation.items, protected.items, x);
      FillSlot(x, key, value, mine);
      return true;
    }

    /** Fills a slot in transit and links it in. */
    method FillSlot(x: nat, key: string, value: string, ghost mine: set<nat>)
      requires Within(mine) && x in mine
      requires ListsReady() && Loose(x) && cms.Valid() && QueueReady() && key !in index
      requires Indexed(Payloads(slab.pool[..]), index, window.items, probation.items, protected.items)
      modifies this`index, window, slab.pool
      ensures Valid()
      ensures View() == old(View()).(window := [Entry(key, value)] + old(View()).window) && window.items != []
      ensures Within(mine) && Untouched(mine)
    {
      hide LruList.Linked, FreeChain.Chain;
      InsertLayout(Payloads(slab.pool[..]), index, window.items, probation.items, protected.items, x, key, value);
      Write(x, Payload(key, value, Window), mine);
      index := index[key := x];
      PushOnto(window, x, mine);
    }

    static lemma PushAllConcat(f: Queue.Fifo, a: seq<DemotionItem>, b: seq<DemotionItem>)
      ensures Queue.PushAll(f, a + b) == Queue.PushAll(Queue.PushAll(f, a), b)
      decreases |a|
    {
      if a == [] {
        assert a + b == b;
      } else {
        assert (a + b)[1..] == a[1..] + b;
        PushAllConcat(Queue.Push(f, a[0]), a[1..], b);
      }
    }

    static lemma AdmitAllStep(s: Stripe)
      requires SketchReady(s) && |s.window| > s.cfg.windowCap
      ensures var o := TryAdmit(s); var r := AdmitAll(o.stripe);
        AdmitAll(s).stripe == r.stripe && AdmitAll(s).demoted == o.demoted + r.demoted
    {
    }

    static lemma AdmitAllDone(s: Stripe, f: Queue.Fifo)
      requires SketchReady(s) && |s.window| <= s.cfg.windowCap
      ensures AdmitAll(s).stripe == s && Queue.PushAll(f, AdmitAll(s).demoted) == f
    {
    }

    /** The overflow loop. */
    method AdmitOverflow(ghost mine: set<nat>)
      requires Within(mine)
      requires Valid()
      modifies this`index, this`evictions, this`admissions, this`rejections, window, probation, slab, slab.pool,
        slab.freeNext, queue
      modifies if queue == null then {} else {queue.buffer}
      ensures Valid() && View() == AdmitAll(old(View())).stripe
      ensures |slab.free| + Size(View()) == old(|slab.free| + Size(View()))
      ensures queue != null ==> queue.View() == Queue.PushAll(old(queue.View()), AdmitAll(old(View())).demoted)
      ensures Within(mine) && Untouched(mine)
    {
      hide Within;
      hide LruList.Linked, FreeChain.Chain, StripeLayout.Indexed, StripeLayout.Apart, StripePolicy.TryAdmit,
        StripePolicy.AdmitAll, Queue.PushAll;
      ghost var all := AdmitAll(View());
      ghost var target := if queue == null then Queue.Fifo(0, [], 0) else Queue.PushAll(queue.View(), all.demoted);
      while window.size > cfg.windowCap
        invariant Valid() && queue == old(queue) && Within(mine) && Untouched(mine)
        invariant AdmitAll(View()).stripe == all.stripe
        invariant |slab.free| + Size(View()) == old(|slab.free| + Size(View()))
        invariant queue != null ==> Queue.PushAll(queue.View(), AdmitAll(View()).demoted) == target
        decreases |window.items|
      {
        AdmitAllStep(View());
        if queue != null {
          PushAllConcat(queue.View(), TryAdmit(View()).demoted, AdmitAll(TryAdmit(View()).stripe).demoted);
        }
        TryAdmitFromWindow(mine);
      }
      AdmitAllDone(View(), if queue == null then target else queue.View());
    }

    method Put(key: string, value: string) returns (inserted: bool)
      requires Valid()
      modifies this`opsSinceDecay, this`index, this`evictions, this`admissions, this`rejections
      modifies window, probation, protected, slab, slab.pool, slab.freeNext, cms, cms.counters, queue
      modifies if queue == null then {} else {queue.buffer}
      ensures var r := StripePolicy.Put(old(View()), key, value, old(slab.free) != []);
        && Valid() && View() == r.stripe && inserted == r.inserted
        && (queue != null ==> queue.View() == Queue.PushAll(old(queue.View()), r.demoted))
      ensures |slab.free| + Size(View()) == old(|slab.free| + Size(View()))
      ensures KeptToItself()
    {
      ghost var mine := Slots();
      hide LruList.Linked, FreeChain.Chain, StripeLayout.Indexed, StripeLayout.Apart, StripePolicy.Touch,
        StripePolicy.SetValue, StripePolicy.AdmitAll,
        StripePolicy.Count, StripePolicy.Has;
      CountKeeps(View(), key);
      CountPut(key);
      inserted := PutCounted(key, value, mine);
    }

    /** What `put` does once the access is counted. */
    method PutCounted(key: string, value: string, ghost mine: set<nat>) returns (inserted: bool)
      requires Within(mine)
      requires Valid()
      modifies this`index, this`evictions, this`admissions, this`rejections
      modifies window, probation, protected, slab, slab.pool, slab.freeNext, queue
      modifies if queue == null then {} else {queue.buffer}
      ensures var t := old(View()); var o := Inserted(t, key, value, old(slab.free) != []);
        && Valid() && View() == (if Has(t, key) then Touch(SetValue(t, key, value), key) else o.stripe)
        && inserted == (!Has(t, key) && old(slab.free) != [])
        && (queue != null ==>
              queue.View() ==
              if Has(t, key) then old(queue.View()) else Queue.PushAll(old(queue.View()), o.demoted))
      ensures |slab.free| + Size(View()) == old(|slab.free| + Size(View()))
      ensures Within(mine) && Untouched(mine)
    {
      hide Within;
      hide LruList.Linked, FreeChain.Chain, StripeLayout.Indexed, StripeLayout.Apart, StripePolicy.Touch,
        StripePolicy.SetValue, StripePolicy.AdmitAll, Inserted;
      var known := Known(key);
      if known {
        HitKeepsSize(View(), key, value);
        PutHit(key, value, mine);
        return false;
      }
      inserted := PutMiss(key, value, mine);
    }

    static lemma HitKeepsSize(s: Stripe, key: string, value: string)
      ensures Size(Touch(SetValue(s, key, value), key)) == Size(s)
    {
    }

    static function Inserted(t: Stripe, key: string, value: string, slot: bool): Outcome
      requires SketchReady(t)
    {
      if slot then AdmitAll(t.(window := [Entry(key, value)] + t.window)) else Outcome(t, [])
    }

    method PutMiss(key: string, value: string, ghost mine: set<nat>) returns (inserted: bool)
      requires Within(mine)
      requires Valid() && key !in index
      modifies this`index, this`evictions, this`admissions, this`rejections, window, probation, slab, slab.pool,
        slab.freeNext, queue
      modifies if queue == null then {} else {queue.buffer}
      ensures Valid() && inserted == (old(slab.free) != [])
      ensures View() == Inserted(old(View()), key, value, inserted).stripe
      ensures queue != null ==>
        queue.View() == Queue.PushAll(old(queue.View()), Inserted(old(View()), key, value, inserted).demoted)
      ensures |slab.free| + Size(View()) == old(|slab.free| + Size(View()))
      ensures Within(mine) && Untouched(mine)
    {
      hide Within;
      hide LruList.Linked, FreeChain.Chain, StripeLayout.Indexed, StripeLayout.Apart, StripePolicy.AdmitAll;
      inserted := InsertEntry(key, value, mine);
      if inserted {
        AdmitOverflow(mine);
      }
    }

    static lemma CountKeeps(s: Stripe, key: string)
      requires SketchReady(s)
      ensures Has(Count(s, key), key) == Has(s, key) && Size(Count(s, key)) == Size(s)
    {
    }

    // ----- Remove

    method Drop(list: IntrusiveLRU, x: nat, ghost i: nat, ghost mine: set<nat>)
      requires Within(mine)
      requires ListsReady() && IsMine(list) && i < |list.items| && list.items[i] == x
      modifies this`index, list, slab, slab.pool, slab.freeNext
      ensures ListsReady() && list.items == RemoveAt(old(list.items), i) && slab.free == [x] + old(slab.free)
      ensures x < slab.pool.Length && index == old(index) - {old(slab.pool[x].key)}
      ensures Payloads(slab.pool[..]) == Payloads(old(slab.pool[..]))[x := EMPTY_PAYLOAD]
      ensures Within(mine) && Untouched(mine)
    {
      hide LruList.Linked, FreeChain.Chain;
      ghost var d := Payloads(slab.pool[..]);
      Detach(list, x, i, mine);
      assert PayloadOf(slab.pool[x]) == d[x];
      Forget(x, mine);
    }

    method RemoveFromWindow(key: string, x: nat, ghost i: nat, ghost mine: set<nat>)
      requires Within(mine)
      requires Valid() && key in index && x == index[key] && i < |window.items| && window.items[i] == x
      modifies this`index, window, slab, slab.pool, slab.freeNext
      ensures Valid() && View() == StripePolicy.Remove(old(View()), key).stripe && |slab.free| == old(|slab.free|) + 1
      ensures Within(mine) && Untouched(mine)
    {
      hide LruList.Linked, FreeChain.Chain, StripeLayout.Indexed;
      ghost var d := Payloads(slab.pool[..]);
      ListsDistinct();
      KeyAt(key);
      IndexFindsWindow(i);
      ElementsRemoveAt(window.items, i);
      EntriesMove(d, window.items, i);
      RemoveLayout(d, index, window.items, probation.items, protected.items, x, RemoveAt(window.items, i),
        probation.items, protected.items);
      Drop(window, x, i, mine);
    }

    lemma IndexFindsWindow(i: nat)
      requires Valid() && i < |window.items|
      ensures window.items[i] < slab.pool.Length && Find(View().window, slab.pool[window.items[i]].key) == i
      ensures HasKey(View().window, slab.pool[window.items[i]].key)
    {
      IndexFinds(Payloads(slab.pool[..]), index, window.items, i);
    }

    method RemoveFromProbation(key: string, x: nat, ghost i: nat, ghost mine: set<nat>)
      requires Within(mine)
      requires Valid() && key in index && x == index[key] && i < |probation.items| && probation.items[i] == x
        && !HasKey(View().window, key)
      modifies this`index, probation, slab, slab.pool, slab.freeNext
      ensures Valid() && View() == StripePolicy.Remove(old(View()), key).stripe && |slab.free| == old(|slab.free|) + 1
      ensures Within(mine) && Untouched(mine)
    {
      hide LruList.Linked, FreeChain.Chain, StripeLayout.Indexed;
      ghost var d := Payloads(slab.pool[..]);
      ListsDistinct();
      KeyAt(key);
      IndexFindsProbation(i);
      ElementsRemoveAt(probation.items, i);
      EntriesMove(d, probation.items, i);
      RemoveLayout(d, index, window.items, probation.items, protected.items, x, window.items,
        RemoveAt(probation.items, i), protected.items);
      Drop(probation, x, i, mine);
    }

    lemma IndexFindsProbation(i: nat)
      requires Valid() && i < |probation.items|
      ensures probation.items[i] < slab.pool.Length && Find(View().probation, slab.pool[probation.items[i]].key) == i
      ensures HasKey(View().probation, slab.pool[probation.items[i]].key)
    {
      IndexFinds(Payloads(slab.pool[..]), index, probation.items, i);
    }

    method RemoveFromProtected(key: string, x: nat, ghost i: nat, ghost mine: set<nat>)
      requires Within(mine)
      requires Valid() && key in index && x == index[key] && i < |protected.items| && protected.items[i] == x
        && !HasKey(View().window, key) && !HasKey(View().probation, key)
      modifies this`index, protected, slab, slab.pool, slab.freeNext
      ensures Valid() && View() == StripePolicy.Remove(old(View()), key).stripe && |slab.free| == old(|slab.free|) + 1
      ensures Within(mine) && Untouched(mine)
    {
      hide LruList.Linked, FreeChain.Chain, StripeLayout.Indexed;
      ghost var d := Payloads(slab.pool[..]);
      ListsDistinct();
      KeyAt(key);
      IndexFindsProtected(i);
      ElementsRemoveAt(protected.items, i);
      EntriesMove(d, protected.items, i);
      RemoveLayout(d, index, window.items, probation.items, protected.items, x, window.items, probation.items,
        RemoveAt(protected.items, i));
      Drop(protected, x, i, mine);
    }

    lemma IndexFindsProtected(i: nat)
      requires Valid() && i < |protected.items|
      ensures protected.items[i] < slab.pool.Length && Find(View().protected, slab.pool[protected.items[i]].key) == i
      ensures HasKey(View().protected, slab.pool[protected.items[i]].key)
    {
      IndexFinds(Payloads(slab.pool[..]), index, protected.items, i);
    }

    lemma KeyAt(key: string)
      requires Valid() && key in index
      ensures index[key] < slab.pool.Length && slab.pool[index[key]].key == key && index[key] in index.Values
    {
    }

    method RemoveKey(key: string) returns (removed: bool)
      requires Valid()
      modifies this`index, window, probation, protected, slab, slab.pool, slab.freeNext
      ensures Valid() && View() == StripePolicy.Remove(old(View()), key).stripe
      ensures removed == StripePolicy.Remove(old(View()), key).removed
      ensures |slab.free| == old(|slab.free|) + if removed then 1 else 0
      ensures KeptToItself()
    {
      ghost var mine := Slots();
      hide LruList.Linked, FreeChain.Chain, StripeLayout.Indexed, StripeLayout.Apart;
      removed := Known(key);
      if !removed {
        return;
      }
      var x := index[key];
      TagOf(key);
      match slab.pool[x].segment
      case Window =>
        ghost var i :| 0 <= i < |window.items| && window.items[i] == x;
        RemoveFromWindow(key, x, i, mine);
      case Probation =>
        ghost var i :| 0 <= i < |probation.items| && probation.items[i] == x;
        RemoveFromProbation(key, x, i, mine);
      case Protected =>
        ghost var i :| 0 <= i < |protected.items| && protected.items[i] == x;
        RemoveFromProtected(key, x, i, mine);
    }

    lemma TagOf(key: string)
      requires Valid() && key in index
      ensures index[key] < slab.pool.Length
      ensures var x := index[key]; var s := View();
        && (slab.pool[x].segment == Window ==> x in window.items)
        && (slab.pool[x].segment == Probation ==> x in probation.items && !HasKey(s.window, key))
        && (slab.pool[x].segment == Protected ==>
           x in protected.items && !HasKey(s.window, key) && !HasKey(s.probation, key))
        && slab.pool[x].segment != Free
    {
      TagNamesList(View(), Payloads(slab.pool[..]), index, window.items, probation.items, protected.items, key);
    }

    // ----- Other stripes over the same slab

    /** The slots on the lists. */
    ghost function ListSlots(): set<nat>
      reads window, probation, protected
    {
      Elements(window.items) + Elements(probation.items) + Elements(protected.items)
    }

    /** Nothing that only this stripe may change has changed. */
    twostate predicate Idle()
      reads this, window, probation, protected, cms, cms.counters
    {
      unchanged(this, window, probation, protected, cms, cms.counters)
    }

    /** The stripe has kept to its own slots and the free ones. */
    twostate predicate KeptToItself()
      reads window, probation, protected, slab, slab.pool
    {
      Slots() <= old(Slots()) && Untouched(old(Slots()))
    }

    /** While the slots `mine` change, a stripe that has none of them stays as it is. */
    twostate lemma Undisturbed(mine: set<nat>)
      requires old(Valid()) && old(ListSlots()) !! mine
      requires slab.Valid() && Elements(slab.free) <= mine && QueueReady()
      requires Untouched(mine) && Idle()
      ensures Valid() && View() == old(View()) && ListSlots() == old(ListSlots())
    {
      var pool, pool' := old(slab.pool[..]), slab.pool[..];
      LinkedElsewhere(pool, pool', mine, window.head, window.tail, window.items);
      LinkedElsewhere(pool, pool', mine, probation.head, probation.tail, probation.items);
      LinkedElsewhere(pool, pool', mine, protected.head, protected.tail, protected.items);
      LayoutElsewhere(Payloads(pool), Payloads(pool'), mine, index, window.items, probation.items, protected.items);
    }

    /** What others do to the ring does not concern the stripe. */
    twostate lemma RingMoved()
      requires old(Valid()) && QueueReady()
      requires Idle() && unchanged(slab, slab.pool, slab.freeNext)
      ensures Valid() && View() == old(View())
    {
    }
  }
}
