/**
 The two-tier engine over a write-through backend: L1 is the striped cache, evicted entries travel
 through the demotion queue and the drainer's batch into the sixteen L2 stripes.
 */
module CacheEngine {
  import opened Types
  import opened Seqs
  import opened StripePolicy
  import L1 = StripedCache
  import Queue = DemotionQueue

  const NUM_L2_STRIPES: nat := 16

  // ----- One L2 stripe: an LRU list, most recent first

  datatype Taken = Taken(list: seq<Entry>, value: Option<string>)

  /** A hit moves the value out. */
  function Take(l: seq<Entry>, key: string): Taken {
    var i := Find(l, key);
    if i < |l| then Taken(RemoveAt(l, i), Some(l[i].value)) else Taken(l, None)
  }

  /** `l2_put_batch` for one item: refresh in place, or evict the last entry of a full list and insert in front. */
  function Store(l: seq<Entry>, capacity: nat, e: Entry): seq<Entry> {
    var i := Find(l, e.key);
    if i < |l| then [e] + RemoveAt(l, i)
    else if |l| >= capacity && l != [] then [e] + Front(l)
    else [e] + l
  }

  // ----- The engine

  /** `flying` is the rest of the batch that the drainer has popped but not stored yet. */
  datatype Engine = Engine(
    l1: L1.Cache, backend: map<string, string>, queue: Queue.Fifo, flying: seq<DemotionItem>,
    l2: seq<seq<Entry>>, l2Capacity: nat, l2Hash: string -> nat)

  ghost predicate Ready(e: Engine) {
    L1.Ready(e.l1) && L1.Placed(e.l1) && |e.l2| == NUM_L2_STRIPES && e.l2Capacity > 0
  }

  function L2Route(e: Engine, key: string): (i: nat)
    ensures i < NUM_L2_STRIPES
  {
    e.l2Hash(key) % NUM_L2_STRIPES
  }

  function L2Capacity(total: nat): (c: nat)
    ensures c >= 1
    ensures total >= 16 ==> 16 * c <= total < 16 * (c + 1)
    ensures total < 16 ==> c == 1
  {
    Max(1, total / NUM_L2_STRIPES)
  }

  function Start(l1Total: nat, windowPct: real, probationPct: real, l2Total: nat, queueSize: nat,
                 route: string -> nat, sketchHash: (string, nat) -> nat, l2Hash: string -> nat): (e: Engine)
    requires windowPct >= 0.0 && 0.0 <= probationPct < 1.0
  {
    Engine(L1.StartCache(l1Total, windowPct, probationPct, route, sketchHash), map[],
           Queue.Fifo(queueSize, [], 0), [], seq(NUM_L2_STRIPES, _ => []), L2Capacity(l2Total), l2Hash)
  }

  /** `l1_.put`, with the evicted entry offered to the queue; `slot` says whether the slab has a slot for it. */
  function PutL1Slot(e: Engine, key: string, value: string, slot: bool): Engine
    requires Ready(e) && (slot ==> e.l1.free > 0)
  {
    var p := L1.PutSlot(e.l1, key, value, slot);
    e.(l1 := p.cache, queue := Queue.PushAll(e.queue, p.demoted))
  }

  /** `l1_.put` while no other put holds a slot. */
  function PutL1(e: Engine, key: string, value: string): Engine
    requires Ready(e)
  {
    PutL1Slot(e, key, value, e.l1.free > 0)
  }

  datatype Answer = Answer(engine: Engine, value: Option<string>)

  function BackendGet(e: Engine, key: string): Option<string> {
    if key in e.backend then Some(e.backend[key]) else None
  }

  /** `l1_.get` */
  function LookL1(e: Engine, key: string): Answer
    requires Ready(e)
  {
    var g := L1.GetKey(e.l1, key);
    Answer(e.(l1 := g.cache), g.value)
  }

  /** `l2_get` */
  function LookL2(e: Engine, key: string): Answer
    requires |e.l2| == NUM_L2_STRIPES
  {
    var i := L2Route(e, key);
    var t := Take(e.l2[i], key);
    Answer(e.(l2 := e.l2[i := t.list]), t.value)
  }

  function DropL1(e: Engine, key: string): Engine
    requires Ready(e)
  {
    e.(l1 := L1.RemoveKey(e.l1, key).cache)
  }

  function DropL2(e: Engine, key: string): Engine
    requires |e.l2| == NUM_L2_STRIPES
  {
    LookL2(e, key).engine
  }

  function StoreBackend(e: Engine, key: string, value: string): Engine {
    e.(backend := e.backend[key := value])
  }

  function DropBackend(e: Engine, key: string): Engine {
    e.(backend := e.backend - {key})
  }

  /** The drainer pops its next batch. */
  function PopBatch(e: Engine): Engine {
    var p := Queue.PopBatch(e.queue, Queue.BATCH);
    e.(queue := p.fifo, flying := e.flying + p.out)
  }

  /** The drainer stores the next item of its batch in L2. */
  function StoreOne(e: Engine): Engine
    requires e.flying != [] && |e.l2| == NUM_L2_STRIPES
  {
    var d := e.flying[0];
    var i := L2Route(e, d.key);
    e.(flying := e.flying[1..], l2 := e.l2[i := Store(e.l2[i], e.l2Capacity, Entry(d.key, d.value))])
  }

  // ----- What the engine holds

  ghost predicate InItems(items: seq<DemotionItem>, x: Entry) {
    exists d :: d in items && d.key == x.key && d.value == x.value
  }

  ghost predicate InL2(e: Engine, x: Entry) {
    exists i :: 0 <= i < |e.l2| && x in e.l2[i]
  }

  /** A copy outside L1. */
  ghost predicate Beyond(e: Engine, x: Entry) {
    InItems(e.queue.items, x) || InItems(e.flying, x) || InL2(e, x)
  }

  ghost predicate Copy(e: Engine, x: Entry)
    requires Ready(e)
  {
    L1.Holds(e.l1, x) || Beyond(e, x)
  }

  // ----- The primitives, seen through their copies

  lemma RemoveAtMembers<T>(l: seq<T>, i: nat)
    requires i < |l|
    ensures forall x :: x in RemoveAt(l, i) ==> x in l
    ensures forall x :: x in l ==> x in RemoveAt(l, i) || x == l[i]
  {
    var r := RemoveAt(l, i);
    forall x | x in l ensures x in r || x == l[i] {
      var j :| 0 <= j < |l| && l[j] == x;
      assert j < i ==> r[j] == x;
      assert j > i ==> r[j - 1] == x;
    }
  }

  /** Storing never brings in anything but the item. */
  lemma StoreMembers(l: seq<Entry>, capacity: nat, e: Entry)
    ensures forall x :: x in Store(l, capacity, e) ==> x == e || x in l
    ensures e in Store(l, capacity, e)
  {
    var i := Find(l, e.key);
    if i < |l| {
      RemoveAtMembers(l, i);
    }
    assert Store(l, capacity, e)[0] == e;
  }

  /** A take leaves no entry of the key, and nothing new. */
  lemma TakeMembers(l: seq<Entry>, key: string)
    requires UniqueKeys(l)
    ensures var t := Take(l, key);
      && UniqueKeys(t.list)
      && (forall x :: x in t.list <==> x in l && x.key != key)
      && (t.value.Some? ==> Entry(key, t.value.value) in l)
  {
    var i := Find(l, key);
    if i < |l| {
      RemoveAtMembers(l, i);
      var r := RemoveAt(l, i);
      forall j | 0 <= j < |r| ensures r[j].key != key && r[j] == l[if j < i then j else j + 1] {
      }
      assert l[i] == Entry(key, l[i].value);
    } else {
      forall x | x in l ensures x.key != key {
      }
    }
  }

  /** L2 stays within its capacity with unique keys. */
  lemma StoreKeepsUnique(l: seq<Entry>, capacity: nat, e: Entry)
    requires UniqueKeys(l) && |l| <= capacity && capacity > 0
    ensures UniqueKeys(Store(l, capacity, e)) && |Store(l, capacity, e)| <= capacity
  {
    var i := Find(l, e.key);
    if i < |l| {
      var r := RemoveAt(l, i);
      forall j | 0 <= j < |r| ensures r[j].key != e.key && r[j] == l[if j < i then j else j + 1] {
      }
    }
  }

  ghost predicate L2Ready(e: Engine) {
    forall i :: 0 <= i < |e.l2| ==> L2StripeReady(e, i)
  }

  ghost predicate L2StripeReady(e: Engine, i: nat)
    requires i < |e.l2|
  {
    UniqueKeys(e.l2[i]) && |e.l2[i]| <= e.l2Capacity && forall x :: x in e.l2[i] ==> L2Route(e, x.key) == i
  }

  /** Everything that holds in every reachable state. */
  ghost predicate Inv(e: Engine) {
    Ready(e) && L2Ready(e) && Queue.ValidFifo(e.queue)
  }

  lemma SameL2(e: Engine, f: Engine)
    requires f.l2 == e.l2 && f.l2Capacity == e.l2Capacity && f.l2Hash == e.l2Hash
    ensures L2Ready(f) <==> L2Ready(e)
    ensures forall x :: InL2(f, x) <==> InL2(e, x)
  {
    assert forall i :: 0 <= i < |e.l2| ==> L2StripeReady(f, i) == L2StripeReady(e, i);
  }

  lemma PutL1SlotEffect(e: Engine, key: string, value: string, slot: bool)
    requires Inv(e) && (slot ==> e.l1.free > 0)
    ensures var f := PutL1Slot(e, key, value, slot);
      && Inv(f) && f == e.(l1 := f.l1, queue := f.queue)
      && (forall x :: Copy(f, x) ==> x == Entry(key, value) || (L1.Holds(e.l1, x) && x.key != key) || Beyond(e, x))
      && (forall x :: Beyond(e, x) ==> Beyond(f, x))
  {
    hide L1.Holds, L1.Placed, L1.PutSlot;
    L1.PutSlotHolds(e.l1, key, value, slot);
    var p := L1.PutSlot(e.l1, key, value, slot);
    Queue.PushAllMeans(e.queue, p.demoted);
    var f := PutL1Slot(e, key, value, slot);
    SameL2(e, f);
    forall x | Copy(f, x) ensures x == Entry(key, value) || (L1.Holds(e.l1, x) && x.key != key) || Beyond(e, x) {
      if InItems(f.queue.items, x) {
        var d :| d in f.queue.items && d.key == x.key && d.value == x.value;
        if d in p.demoted {
          assert Entry(d.key, d.value) == x;
        }
      }
    }
    forall x | Beyond(e, x) ensures Beyond(f, x) {
      if InItems(e.queue.items, x) {
        var d :| d in e.queue.items && d.key == x.key && d.value == x.value;
        assert d in f.queue.items[..|e.queue.items|];
      }
    }
  }

  lemma PutL1Effect(e: Engine, key: string, value: string)
    requires Inv(e)
    ensures var f := PutL1(e, key, value);
      && Inv(f) && f == e.(l1 := f.l1, queue := f.queue)
      && (forall x :: Copy(f, x) ==> x == Entry(key, value) || (L1.Holds(e.l1, x) && x.key != key) || Beyond(e, x))
      && (forall x :: Beyond(e, x) ==> Beyond(f, x))
  {
    hide PutL1Slot, L1.Holds, L1.Placed, L1.Ready, L2Ready;
    PutL1SlotEffect(e, key, value, e.l1.free > 0);
  }

  lemma LookL1Effect(e: Engine, key: string)
    requires Inv(e)
    ensures var a := LookL1(e, key);
      && Inv(a.engine) && a.engine == e.(l1 := a.engine.l1)
      && (forall x :: Copy(a.engine, x) <==> Copy(e, x))
      && (forall x :: L1.Holds(a.engine.l1, x) <==> L1.Holds(e.l1, x))
      && (forall v :: a.value == Some(v) <==> L1.Holds(e.l1, Entry(key, v)))
  {
    hide L1.Ready, L1.Holds, L1.Placed, L1.GetKey;
    L1.GetKeyHolds(e.l1, key);
    SameL2(e, LookL1(e, key).engine);
  }

  lemma LookL2Effect(e: Engine, key: string)
    requires Inv(e)
    ensures var a := LookL2(e, key);
      && Inv(a.engine) && a.engine == e.(l2 := a.engine.l2)
      && (forall x :: InL2(a.engine, x) <==> InL2(e, x) && x.key != key)
      && (a.value.Some? ==> InL2(e, Entry(key, a.value.value)))
  {
    var i := L2Route(e, key);
    var f := LookL2(e, key).engine;
    assert L2StripeReady(e, i);
    TakeMembers(e.l2[i], key);
    forall j | 0 <= j < |f.l2| ensures L2StripeReady(f, j) {
      assert L2StripeReady(e, j);
    }
    forall x ensures InL2(f, x) <==> InL2(e, x) && x.key != key {
      if InL2(f, x) {
        var j :| 0 <= j < |f.l2| && x in f.l2[j];
        assert x in e.l2[j];
        assert L2StripeReady(e, j);
      }
      if InL2(e, x) && x.key != key {
        var j :| 0 <= j < |e.l2| && x in e.l2[j];
        assert x in f.l2[j];
      }
    }
  }

  lemma StoreOneEffect(e: Engine)
    requires Inv(e) && e.flying != []
    ensures var f := StoreOne(e);
      && Inv(f) && f == e.(flying := f.flying, l2 := f.l2)
      && (forall x :: Copy(f, x) ==> Copy(e, x))
      && InL2(f, Entry(e.flying[0].key, e.flying[0].value))
  {
    var f := StoreOne(e);
    var d := e.flying[0];
    var item := Entry(d.key, d.value);
    var i := L2Route(e, d.key);
    assert L2StripeReady(e, i);
    StoreMembers(e.l2[i], e.l2Capacity, item);
    StoreKeepsUnique(e.l2[i], e.l2Capacity, item);
    forall j | 0 <= j < |f.l2| ensures L2StripeReady(f, j) {
      assert L2StripeReady(e, j);
    }
    assert item in f.l2[i];
    assert InItems(e.flying, item);
    forall x | Copy(f, x) ensures Copy(e, x) {
      if InL2(f, x) {
        var j :| 0 <= j < |f.l2| && x in f.l2[j];
        assert x == item || x in e.l2[j];
      } else if InItems(f.flying, x) {
        var y :| y in f.flying && y.key == x.key && y.value == x.value;
        assert y in e.flying;
      }
    }
  }

  lemma PopBatchEffect(e: Engine)
    requires Inv(e)
    ensures Inv(PopBatch(e))
    ensures forall x :: Copy(PopBatch(e), x) <==> Copy(e, x)
    ensures forall x :: Beyond(PopBatch(e), x) <==> Beyond(e, x)
  {
    var f := PopBatch(e);
    SameL2(e, f);
    var k := Queue.Least(Queue.BATCH, |e.queue.items|);
    forall x
      ensures InItems(f.queue.items, x) || InItems(f.flying, x) <==> InItems(e.queue.items, x) || InItems(e.flying, x)
    {
      ItemsSplit(e.queue.items, k, x);
      ItemsConcat(e.flying, e.queue.items[..k], x);
    }
  }

  lemma ItemsSplit(items: seq<DemotionItem>, k: nat, x: Entry)
    requires k <= |items|
    ensures InItems(items, x) <==> InItems(items[..k], x) || InItems(items[k..], x)
  {
    assert items == items[..k] + items[k..];
    ItemsConcat(items[..k], items[k..], x);
  }

  lemma ItemsConcat(a: seq<DemotionItem>, b: seq<DemotionItem>, x: Entry)
    ensures InItems(a + b, x) <==> InItems(a, x) || InItems(b, x)
  {
    assert forall d :: d in a + b <==> d in a || d in b;
  }

  lemma DropL1Effect(e: Engine, key: string)
    requires Inv(e)
    ensures var f := DropL1(e, key);
      && Inv(f) && f == e.(l1 := f.l1)
      && (forall x :: L1.Holds(f.l1, x) <==> L1.Holds(e.l1, x) && x.key != key)
  {
    hide L1.Ready, L1.Holds, L1.Placed, L1.RemoveKey;
    L1.RemoveKeyHolds(e.l1, key);
    SameL2(e, DropL1(e, key));
  }
}
