/**
 The engine as the object a client calls, over the objects of its tiers: the striped cache with its
 slab, the demotion ring, the L2 stripes and the backend map.
 */
module EngineObject {
  import opened Types
  import StripedObject
  import L1 = StripedCache
  import Queue = DemotionQueue
  import L2 = L2Stripe
  import Tiers = CacheEngine
  import Coherence = EngineCoherence

  /** The drainer stores a whole batch, one item after the other. */
  function StoreAll(e: Tiers.Engine): (f: Tiers.Engine)
    requires |e.l2| == Tiers.NUM_L2_STRIPES
    decreases |e.flying|
  {
    if e.flying == [] then e else StoreAll(Tiers.StoreOne(e))
  }

  class CacheEngine {
    const l1: StripedObject.StripedCache
    const ring: Queue.DemotionQueue
    const l2: L2.L2Tier
    var backend: map<string, string>

    /** The tiers share nothing but the ring. */
    ghost predicate Apart() {
      && l1.repr !! l2.repr && l1.SlabParts() !! l2.repr && l1.QueueParts() !! l2.repr
      && l1.repr !! l1.QueueParts() && l1.SlabParts() !! l1.QueueParts()
      && this !in l1.repr && this !in l2.repr && ring !in l2.repr && ring.buffer !in l2.repr
    }

    ghost predicate PartsValid()
      reads l1.repr, l1.SlabParts(), l1.QueueParts(), ring, ring.buffer, l2.repr
    {
      Apart() && l1.queue == ring && l1.Wired() && l1.Valid() && ring.Valid() && l2.Valid()
    }

    /** Between two calls the drainer holds no batch. */
    ghost function View(): Tiers.Engine
      requires PartsValid()
      reads this, l1.repr, l1.SlabParts(), l1.QueueParts(), ring, ring.buffer, l2.repr
    {
      Tiers.Engine(l1.View(), backend, ring.View(), [], l2.View(), l2.capacity, l2.hash)
    }

    ghost predicate Valid()
      reads this, l1.repr, l1.SlabParts(), l1.QueueParts(), ring, ring.buffer, l2.repr
    {
      PartsValid() && Tiers.Inv(View())
    }

    constructor (l1Total: nat, windowPct: real, probationPct: real, l2Total: nat, ringRequest: nat,
                 route: string -> nat, sketchHash: (string, nat) -> nat, l2Hash: string -> nat)
      requires windowPct >= 0.0 && 0.0 <= probationPct < 1.0
      requires l1Total < WORD32 && L1.SlabSlots(l1Total) > 0 && ringRequest < WORD32
      ensures Valid() && Coherence.Coherent(View())
      ensures View() == Tiers.Start(l1Total, windowPct, probationPct, l2Total, ring.capacity, route, sketchHash, l2Hash)
      ensures 1 <= ringRequest <= 0x8000_0000 ==> Queue.LeastPowerAtLeast(ringRequest, ring.capacity)
    {
      hide StripedObject.StripedCache.Valid, StripedObject.StripedCache.View, Queue.DemotionQueue.Valid;
      hide Coherence.Coherent, Tiers.Inv, L1.StartCache, Queue.LeastPowerAtLeast;
      var tier := new L2.L2Tier(l2Total, l2Hash);
      var queue := new Queue.DemotionQueue(ringRequest);
      var cache := new StripedObject.StripedCache(l1Total, windowPct, probationPct, route, sketchHash, queue);
      l1, ring, l2, backend := cache, queue, tier, map[];
      label Built:
      new;
      assert unchanged@Built(l1.repr) && unchanged@Built(l1.SlabParts()) && unchanged@Built(l1.QueueParts());
      l1.RingValid();
      assert Apart();
      Coherence.StartCoherent(l1Total, windowPct, probationPct, l2Total, ring.capacity, route, sketchHash, l2Hash);
    }

    /** `l1_.get` */
    method L1Get(key: string) returns (r: Option<string>)
      requires Valid()
      modifies l1.repr, l1.slab.pool
      ensures Valid() && View() == Tiers.LookL1(old(View()), key).engine && r == Tiers.LookL1(old(View()), key).value
    {
      hide StripedObject.StripedCache.Valid, StripedObject.StripedCache.View, Queue.DemotionQueue.Valid,
        L2.L2Tier.Valid, L2.L2Tier.View;
      hide L1.Ready, L1.Placed, L1.GetKey, L1.Holds, Tiers.L2Ready, Tiers.Copy;
      Tiers.LookL1Effect(View(), key);
      r := l1.Get(key);
    }

    /** `l1_.put` */
    method PutL1(key: string, value: string) returns (inserted: bool)
      requires Valid()
      modifies l1.repr, l1.SlabParts(), l1.QueueParts()
      ensures Valid() && View() == Tiers.PutL1(old(View()), key, value)
      ensures inserted == L1.PutKey(old(l1.View()), key, value).inserted
    {
      hide StripedObject.StripedCache.Valid, StripedObject.StripedCache.View, Queue.DemotionQueue.Valid,
        L2.L2Tier.Valid, L2.L2Tier.View;
      hide L1.Ready, L1.Placed, L1.PutSlot, L1.Holds, Tiers.L2Ready, Tiers.Copy, Tiers.Beyond, Queue.PushAll;
      Tiers.PutL1Effect(View(), key, value);
      inserted := l1.Put(key, value);
      l1.RingValid();
    }

    method L2Get(key: string) returns (r: Option<string>)
      requires Valid()
      modifies l2.repr
      ensures Valid() && View() == Tiers.LookL2(old(View()), key).engine && r == Tiers.LookL2(old(View()), key).value
    {
      hide StripedObject.StripedCache.Valid, StripedObject.StripedCache.View, Queue.DemotionQueue.Valid,
        L2.L2Tier.Valid, L2.L2Tier.View;
      hide L1.Ready, L1.Placed, L1.Holds, Tiers.L2Ready, Tiers.Copy, Tiers.Beyond, Tiers.InL2, Tiers.Take,
        Queue.ValidFifo;
      Tiers.LookL2Effect(View(), key);
      r := l2.Take(key);
    }

    /** The L2 part of `remove`. */
    method L2Drop(key: string)
      requires Valid()
      modifies l2.repr
      ensures Valid() && View() == Tiers.DropL2(old(View()), key)
    {
      hide StripedObject.StripedCache.Valid, StripedObject.StripedCache.View, Queue.DemotionQueue.Valid,
        L2.L2Tier.Valid, L2.L2Tier.View;
      hide L1.Ready, L1.Placed, L1.Holds, Tiers.L2Ready, Tiers.Copy, Tiers.Beyond, Tiers.InL2, Tiers.Take,
        Queue.ValidFifo;
      Tiers.LookL2Effect(View(), key);
      l2.Drop(key);
    }

    /** L1, then L2, then the backend; what is found below L1 is put back into L1. */
    method Get(key: string) returns (r: Option<string>)
      requires Valid()
      modifies this, l1.repr, l1.SlabParts(), l1.QueueParts(), l2.repr
      ensures Valid() && View() == Coherence.Get(old(View()), key).engine
      ensures r == Coherence.Get(old(View()), key).value
      ensures Coherence.Coherent(old(View())) ==> Coherence.Coherent(View()) && r == Tiers.BackendGet(old(View()), key)
    {
      hide PartsValid, L1.Ready, L1.Placed, Tiers.L2Ready, Tiers.PutL1, Tiers.LookL1, Tiers.LookL2, L1.GetKey,
        Coherence.Coherent;
      if Coherence.Coherent(View()) {
        Coherence.GetIsTransparent(View(), key);
      }
      r := L1Get(key);
      if r.Some? {
        return;
      }
      r := L2Get(key);
      if r.None? && key in backend {
        r := Some(backend[key]);
      }
      if r.Some? {
        var _ := PutL1(key, r.value);
      }
    }

    method Put(key: string, value: string) returns (inserted: bool)
      requires Valid()
      modifies this, l1.repr, l1.SlabParts(), l1.QueueParts(), l2.repr
      ensures Valid() && View() == Coherence.Put(old(View()), key, value)
      ensures inserted == L1.PutKey(old(l1.View()), key, value).inserted
      ensures Coherence.Coherent(old(View())) ==>
        (Coherence.Coherent(View()) <==>
          Tiers.BackendGet(old(View()), key) == Some(value) || !Coherence.KeyBeyond(old(View()), key))
    {
      hide StripedObject.StripedCache.Valid, StripedObject.StripedCache.View, Queue.DemotionQueue.Valid,
        L2.L2Tier.Valid, L2.L2Tier.View;
      hide Tiers.PutL1;
      hide L1.Ready, L1.Placed, Tiers.L2Ready, Coherence.Coherent, Coherence.KeyBeyond, L1.PutSlot;
      if Coherence.Coherent(View()) {
        Coherence.PutCoherence(View(), key, value);
      }
      Coherence.StoredInv(View(), key, value);
      backend := backend[key := value];
      inserted := PutL1(key, value);
    }

    /** True if the key was in L1 or in the backend; a copy that was only in L2 does not count. */
    method Remove(key: string) returns (removed: bool)
      requires Valid()
      modifies this, l1.repr, l1.SlabParts(), l1.QueueParts(), l2.repr
      ensures Valid() && View() == Coherence.Remove(old(View()), key)
      ensures removed <==> (exists v :: L1.Holds(old(l1.View()), Entry(key, v))) || key in old(backend)
      ensures Coherence.Coherent(old(View())) ==>
        (Coherence.Coherent(View()) <==> !Coherence.KeyWaiting(old(View()), key))
    {
      hide StripedObject.StripedCache.Valid, StripedObject.StripedCache.View, Queue.DemotionQueue.Valid,
        L2.L2Tier.Valid, L2.L2Tier.View;
      hide L1.Ready, L1.Placed, Tiers.L2Ready, Tiers.LookL2, L1.RemoveKey, L1.Holds, Coherence.Coherent;
      if Coherence.Coherent(View()) {
        Coherence.RemoveCoherence(View(), key);
      }
      L1.RemovedIfHeld(l1.View(), key);
      Tiers.DropL1Effect(View(), key);
      removed := l1.Remove(key);
      L2Drop(key);
      removed := removed || key in backend;
      backend := backend - {key};
      assert View() == Coherence.Remove(old(View()), key);
    }

    /** One round of the drainer: pop a batch and store every item of it, in order. */
    method DrainOnce() returns (count: nat)
      requires Valid()
      modifies ring, l2.repr
      ensures Valid() && View() == StoreAll(Tiers.PopBatch(old(View())))
      ensures count == Queue.Least(64, |old(ring.items)|) && ring.items == old(ring.items)[count..]
    {
      hide StripedObject.StripedCache.Valid, StripedObject.StripedCache.View, Queue.DemotionQueue.Valid,
        L2.L2Tier.Valid, L2.L2Tier.View;
      Tiers.PopBatchEffect(View());
      ghost var target := Tiers.PopBatch(View());
      var batch;
      batch, count := ring.TryPopMany([], Queue.BATCH);
      assert [] + batch == batch;
      l1.RingMoved();
      FlyingInv(target, []);
      assert View() == target.(flying := []);
      L2PutBatch(batch);
    }

    method L2PutBatch(batch: seq<DemotionItem>)
      requires Valid()
      modifies l2.repr
      ensures Valid() && View() == StoreAll(old(View()).(flying := batch))
    {
      hide StoreAll, Tiers.StoreOne, Tiers.Inv;
      ghost var start := View().(flying := batch);
      FlyingInv(View(), batch);
      for n := 0 to |batch|
        invariant PartsValid() && Tiers.Inv(View().(flying := batch[n..]))
        invariant StoreAll(View().(flying := batch[n..])) == StoreAll(start)
      {
        assert batch[n..] == [batch[n]] + batch[n + 1..];
        StoreStep(View().(flying := batch[n..]));
        StoreNext(batch[n], batch[n + 1..]);
      }
      assert batch[|batch|..] == [];
      StoreDone(View());
    }

    static lemma StoreStep(e: Tiers.Engine)
      requires Tiers.Inv(e) && e.flying != []
      ensures StoreAll(Tiers.StoreOne(e)) == StoreAll(e) && Tiers.Inv(Tiers.StoreOne(e))
    {
      Tiers.StoreOneEffect(e);
    }

    static lemma StoreDone(e: Tiers.Engine)
      requires |e.l2| == Tiers.NUM_L2_STRIPES && e.flying == []
      ensures StoreAll(e) == e
    {
    }

    /** The loop body of `l2_put_batch`. */
    method StoreNext(item: DemotionItem, ghost rest: seq<DemotionItem>)
      requires PartsValid() && Tiers.Inv(View().(flying := [item] + rest))
      modifies l2.repr
      ensures PartsValid() && View().(flying := rest) == Tiers.StoreOne(old(View()).(flying := [item] + rest))
    {
      hide StripedObject.StripedCache.Valid, StripedObject.StripedCache.View, Queue.DemotionQueue.Valid,
        L2.L2Tier.Valid, L2.L2Tier.View;
      hide L1.Ready, L1.Placed, Tiers.L2Ready;
      ghost var e := View().(flying := [item] + rest);
      assert e.flying[1..] == rest && Tiers.L2Route(e, item.key) == l2.Route(item.key);
      l2.Store(item.key, item.value);
    }

    static lemma FlyingInv(e: Tiers.Engine, batch: seq<DemotionItem>)
      requires Tiers.Inv(e)
      ensures Tiers.Inv(e.(flying := batch))
    {
      Tiers.SameL2(e, e.(flying := batch));
    }
  }
}
