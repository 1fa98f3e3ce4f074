/** The striped cache as an object: sixty-four stripe objects over one slab, and the demotion ring they push to. */
module StripedObject {
  import opened Types
  import opened Seqs
  import StripePolicy
  import StripeTheorems
  import CacheStripe
  import Slab = SlabAllocator
  import Queue = DemotionQueue
  import L1 = StripedCache

  /** Everything that only this stripe may change. */
  ghost function Own(s: CacheStripe.CacheStripe): set<object> {
    {s, s.window, s.probation, s.protected, s.cms, s.cms.counters}
  }

  /** Two stripes of one slab: no object and no slot in common, except what they share on purpose. */
  ghost predicate Separate(a: CacheStripe.CacheStripe, b: CacheStripe.CacheStripe)
    reads a.window, a.probation, a.protected, b.window, b.probation, b.protected
  {
    a.slab == b.slab && Own(a) !! Own(b) && a.ListSlots() !! b.ListSlots()
  }

  ghost predicate AllSeparate(stripes: seq<CacheStripe.CacheStripe>)
    reads set i | 0 <= i < |stripes| :: stripes[i].window, set i | 0 <= i < |stripes| :: stripes[i].probation,
          set i | 0 <= i < |stripes| :: stripes[i].protected
  {
    forall i, j :: 0 <= i < |stripes| && 0 <= j < |stripes| && i != j ==> Separate(stripes[i], stripes[j])
  }

  class StripedCache {
    const slab: Slab.SlabAllocator
    const stripes: seq<CacheStripe.CacheStripe>
    const queue: Queue.DemotionQueue?
    const hash: string -> nat

    /** What belongs to the stripes alone. */
    ghost const repr: set<object>

    ghost function QueueParts(): set<object> {
      if queue == null then {} else {queue, queue.buffer}
    }

    ghost function SlabParts(): set<object> {
      {slab, slab.pool, slab.freeNext}
    }

    /** Every stripe is over this slab. */
    ghost predicate Wired() {
      |stripes| == L1.NUM_STRIPES && forall i :: 0 <= i < |stripes| ==>
        stripes[i].slab == slab && Own(stripes[i]) <= repr
    }

    ghost predicate StripeValid(i: nat)
      requires Wired() && i < |stripes|
      reads repr, SlabParts(), QueueParts()
    {
      stripes[i].queue == queue && stripes[i].Valid()
    }

    /** All stripes are well formed and separate from one another. */
    ghost predicate StripesValid()
      reads repr, SlabParts(), QueueParts()
    {
      && Wired()
      && (forall i :: 0 <= i < |stripes| ==> StripeValid(i))
      && AllSeparate(stripes)
    }

    ghost function StripeView(i: nat): StripePolicy.Stripe
      requires Wired() && i < |stripes|
      reads repr, SlabParts()
    {
      stripes[i].View()
    }

    /** The cache this object stands for. */
    ghost function View(): (c: L1.Cache)
      requires Wired()
      reads repr, SlabParts()
      ensures c.hash == hash && c.free == |slab.free| && |c.stripes| == |stripes|
      ensures forall i :: 0 <= i < |stripes| ==> c.stripes[i] == StripeView(i)
    {
      L1.Cache(seq(|stripes|, i requires 0 <= i < |stripes| reads repr, SlabParts() => StripeView(i)), |slab.free|,
        hash)
    }

    ghost predicate Valid()
      reads repr, SlabParts(), QueueParts()
    {
      Wired() && StripesValid() && L1.Ready(View())
    }

    constructor (total: nat, windowPct: real, probationPct: real, route: string -> nat,
                 sketchHash: (string, nat) -> nat, queue: Queue.DemotionQueue?)
      requires total < WORD32 && L1.SlabSlots(total) > 0 && windowPct >= 0.0 && 0.0 <= probationPct < 1.0
      requires queue != null ==> queue.Valid()
      ensures Valid() && Wired() && this.queue == queue && fresh(SlabParts()) && fresh(repr)
      ensures View() == L1.StartCache(total, windowPct, probationPct, route, sketchHash)
    {
      hide L1.StartCache, Wired, StripesValid, IsNew, AllSeparate, Valid, View, Slab.SlabAllocator.Valid,
        Queue.DemotionQueue.Valid;
      var slab := new Slab.SlabAllocator(L1.SlabSlots(total));
      var stripes, repr := NewStripes(slab, total, windowPct, probationPct, sketchHash, queue);
      this.slab, this.stripes, this.queue, hash := slab, stripes, queue, route;
      this.repr := repr;
      new;
      Started(total, windowPct, probationPct, sketchHash);
    }

    /**
     The factory view of construction: the slab's constructor refuses a capacity whose sum with 64 wraps around to
     zero, and no other.
     */
    static method Create(total: nat, windowPct: real, probationPct: real, route: string -> nat,
                         sketchHash: (string, nat) -> nat, queue: Queue.DemotionQueue?) returns (cache: StripedCache?)
      requires total < WORD32 && windowPct >= 0.0 && 0.0 <= probationPct < 1.0 && (queue != null ==> queue.Valid())
      ensures cache == null <==> total == WORD32 - L1.NUM_STRIPES
      ensures cache != null ==>
        && fresh(cache) && cache.Valid() && cache.Wired() && cache.queue == queue
        && cache.View() == L1.StartCache(total, windowPct, probationPct, route, sketchHash)
    {
      if (total + L1.NUM_STRIPES) % WORD32 == 0 {
        return null;
      }
      cache := new StripedCache(total, windowPct, probationPct, route, sketchHash, queue);
    }

    /** Sixty-four new stripes make a cache with every slot free. */
    lemma Started(total: nat, windowPct: real, probationPct: real, sketchHash: (string, nat) -> nat)
      requires forall i :: 0 <= i < |stripes| ==> Own(stripes[i]) <= repr
      requires windowPct >= 0.0 && 0.0 <= probationPct < 1.0
      requires |stripes| == L1.NUM_STRIPES && AllSeparate(stripes) && |slab.free| == L1.SlabSlots(total)
      requires forall i :: 0 <= i < |stripes| ==>
        IsNew(stripes[i], slab, total, windowPct, probationPct, sketchHash, queue)
      ensures Valid() && Wired()
      ensures View() == L1.StartCache(total, windowPct, probationPct, hash, sketchHash)
    {
      hide CacheStripe.CacheStripe.Valid, CacheStripe.CacheStripe.View, CacheStripe.CacheStripe.ListSlots,
        L1.StartStripe, Separate, StripeTheorems.Inv,
        Own, Slab.SlabAllocator.Valid, Queue.DemotionQueue.Valid;
      StartInv(total, windowPct, probationPct, sketchHash);
      assert Wired();
      assert forall i :: 0 <= i < |stripes| ==>
        StripeValid(i) && StripeView(i) == L1.StartStripe(total, windowPct, probationPct, sketchHash);
      assert View().stripes == seq(L1.NUM_STRIPES, _ => L1.StartStripe(total, windowPct, probationPct, sketchHash));
    }

    static lemma StartInv(total: nat, windowPct: real, probationPct: real, sketchHash: (string, nat) -> nat)
      requires windowPct >= 0.0 && 0.0 <= probationPct < 1.0
      ensures StripeTheorems.Inv(L1.StartStripe(total, windowPct, probationPct, sketchHash))
    {
      StripeTheorems.EmptyInv(StripePolicy.MakeConfig(L1.PerStripe(total), windowPct, probationPct), sketchHash);
    }

    static method NewStripes(slab: Slab.SlabAllocator, total: nat, windowPct: real, probationPct: real,
                             sketchHash: (string, nat) -> nat, queue: Queue.DemotionQueue?)
      returns (stripes: seq<CacheStripe.CacheStripe>, ghost repr: set<object>)
      requires slab.Valid() && windowPct >= 0.0 && 0.0 <= probationPct < 1.0
      requires queue != null ==> queue.Valid()
      ensures |stripes| == L1.NUM_STRIPES && AllSeparate(stripes) && fresh(repr)
      ensures forall i :: 0 <= i < |stripes| ==>
        IsNew(stripes[i], slab, total, windowPct, probationPct, sketchHash, queue) && Own(stripes[i]) <= repr
    {
      hide IsNew, AllSeparate;
      stripes, repr := [], {};
      NoneSeparate();
      while |stripes| < L1.NUM_STRIPES
        invariant |stripes| <= L1.NUM_STRIPES && AllSeparate(stripes) && fresh(repr)
        invariant forall i :: 0 <= i < |stripes| ==>
          IsNew(stripes[i], slab, total, windowPct, probationPct, sketchHash, queue) && Own(stripes[i]) <= repr
      {
        var stripe := NewStripe(slab, total, windowPct, probationPct, sketchHash, queue);
        NewIsEmpty(stripe, slab, total, windowPct, probationPct, sketchHash, queue);
        forall i | 0 <= i < |stripes| ensures stripes[i].slab == slab {
          NewIsEmpty(stripes[i], slab, total, windowPct, probationPct, sketchHash, queue);
        }
        AppendSeparate(stripes, stripe);
        stripes, repr := stripes + [stripe], repr + Own(stripe);
      }
    }

    static lemma NoneSeparate()
      ensures AllSeparate([])
    {
    }

    static lemma AppendSeparate(stripes: seq<CacheStripe.CacheStripe>, s: CacheStripe.CacheStripe)
      requires AllSeparate(stripes) && s.ListSlots() == {}
      requires forall i :: 0 <= i < |stripes| ==> stripes[i].slab == s.slab && Own(stripes[i]) !! Own(s)
      ensures AllSeparate(stripes + [s])
    {
    }

    ghost static predicate IsNew(s: CacheStripe.CacheStripe, slab: Slab.SlabAllocator, total: nat, windowPct: real,
                                 probationPct: real, sketchHash: (string, nat) -> nat, queue: Queue.DemotionQueue?)
      requires windowPct >= 0.0 && 0.0 <= probationPct < 1.0
      reads Own(s), slab, slab.pool, slab.freeNext, queue, if queue == null then {} else {queue.buffer}
    {
      && s.slab == slab && s.queue == queue && s.Valid()
      && s.View() == L1.StartStripe(total, windowPct, probationPct, sketchHash) && s.ListSlots() == {}
    }

    static lemma NewIsEmpty(s: CacheStripe.CacheStripe, slab: Slab.SlabAllocator, total: nat, windowPct: real,
                            probationPct: real, sketchHash: (string, nat) -> nat, queue: Queue.DemotionQueue?)
      requires windowPct >= 0.0 && 0.0 <= probationPct < 1.0
        && IsNew(s, slab, total, windowPct, probationPct, sketchHash, queue)
      ensures s.slab == slab && s.ListSlots() == {}
    {
    }

    static method NewStripe(slab: Slab.SlabAllocator, total: nat, windowPct: real, probationPct: real,
                            sketchHash: (string, nat) -> nat,
                            queue: Queue.DemotionQueue?) returns (stripe: CacheStripe.CacheStripe)
      requires slab.Valid() && windowPct >= 0.0 && 0.0 <= probationPct < 1.0
      requires queue != null ==> queue.Valid()
      ensures IsNew(stripe, slab, total, windowPct, probationPct, sketchHash, queue) && fresh(Own(stripe))
    {
      stripe := new CacheStripe.CacheStripe(slab, L1.PerStripe(total), windowPct, probationPct, sketchHash);
      assert stripe.View().window == [] && stripe.View().probation == [] && stripe.View().protected == [];
      stripe.queue := queue;
    }

    // ----- One stripe at work

    /** `stripes_[i]->get(key)` */
    method GetFrom(i: nat, key: string) returns (value: Option<string>)
      requires Valid() && i < |stripes|
      modifies Own(stripes[i]), slab.pool
      ensures Valid()
      ensures var g := StripePolicy.Get(old(View()).stripes[i], key);
        && View() == old(View()).(stripes := old(View()).stripes[i := g.stripe])
        && value == g.value
    {
      hide Slab.SlabAllocator.Valid, Queue.DemotionQueue.Valid, Queue.PushAll;
      hide CacheStripe.CacheStripe.Valid, CacheStripe.CacheStripe.View, StripePolicy.Get, StripeTheorems.Inv;
      StripeTheorems.GetKeepsInv(View().stripes[i], key);
      OthersApart(i);
      hide AllSeparate, StripesValid;
      value := stripes[i].Get(key);
      OthersStay(i);
    }

    /** What stripe `i` may change belongs to no other stripe. */
    lemma OthersApart(i: nat)
      requires StripesValid() && i < |stripes|
      ensures StripeValid(i)
      ensures forall j :: 0 <= j < |stripes| && j != i ==> Own(stripes[i]) !! Own(stripes[j])
      ensures forall j :: 0 <= j < |stripes| ==> stripes[j].cms.counters != slab.freeNext
    {
      forall j | 0 <= j < |stripes| ensures stripes[j].cms.counters != slab.freeNext {
        assert StripeValid(j);
      }
      forall j | 0 <= j < |stripes| && j != i ensures Own(stripes[i]) !! Own(stripes[j]) {
        assert Separate(stripes[i], stripes[j]);
      }
    }

    /** `stripes_[i]->put(key, value)` */
    method PutTo(i: nat, key: string, value: string) returns (inserted: bool)
      requires Valid() && i < |stripes|
      modifies Own(stripes[i]), SlabParts(), QueueParts()
      ensures Valid() && View().hash == old(View()).hash
      ensures var s := old(View()).stripes[i]; var p := StripePolicy.Put(s, key, value, old(View()).free > 0);
        && View().stripes == old(View()).stripes[i := p.stripe] && inserted == p.inserted
        && View().free + StripePolicy.Size(p.stripe) == old(View()).free + StripePolicy.Size(s)
        && (queue != null ==> queue.View() == Queue.PushAll(old(queue.View()), p.demoted))
    {
      hide Slab.SlabAllocator.Valid, Queue.DemotionQueue.Valid, Queue.PushAll;
      hide CacheStripe.CacheStripe.Valid, CacheStripe.CacheStripe.View, StripePolicy.Put, StripePolicy.Size,
        StripeTheorems.Inv;
      L1.PutKeepsInv(View().stripes[i], key, value, View().free > 0);
      OthersApart(i);
      hide AllSeparate, StripesValid;
      inserted := stripes[i].Put(key, value);
      OthersStay(i);
    }

    /** `stripes_[i]->remove(key)` */
    method RemoveFrom(i: nat, key: string) returns (removed: bool)
      requires Valid() && i < |stripes|
      modifies Own(stripes[i]), SlabParts()
      ensures Valid() && View().hash == old(View()).hash
      ensures var s := old(View()).stripes[i]; var p := StripePolicy.Remove(s, key);
        && View().stripes == old(View()).stripes[i := p.stripe] && removed == p.removed
        && View().free + StripePolicy.Size(p.stripe) == old(View()).free + StripePolicy.Size(s)
    {
      hide Slab.SlabAllocator.Valid, Queue.DemotionQueue.Valid, Queue.PushAll;
      hide CacheStripe.CacheStripe.Valid, CacheStripe.CacheStripe.View, StripePolicy.Remove, StripePolicy.Size,
        StripeTheorems.Inv;
      StripeTheorems.RemoveKeepsInv(View().stripes[i], key);
      StripeTheorems.RemoveBag(View().stripes[i], key);
      OthersApart(i);
      hide AllSeparate, StripesValid;
      removed := stripes[i].RemoveKey(key);
      OthersStay(i);
    }

    lemma RingValid()
      requires Valid()
      ensures queue != null ==> queue.Valid()
    {
      assert StripeValid(0);
    }

    // ----- The operations

    function Route(key: string): (i: nat)
      ensures i < L1.NUM_STRIPES
    {
      hash(key) % L1.NUM_STRIPES
    }

    method Get(key: string) returns (value: Option<string>)
      requires Valid()
      modifies repr, slab.pool
      ensures Valid() && View() == L1.GetKey(old(View()), key).cache && value == L1.GetKey(old(View()), key).value
    {
      hide StripesValid, StripePolicy.Get;
      value := GetFrom(Route(key), key);
    }

    method Put(key: string, value: string) returns (inserted: bool)
      requires Valid()
      modifies repr, SlabParts(), QueueParts()
      ensures var p := L1.PutKey(old(View()), key, value);
        && Valid() && View() == p.cache && inserted == p.inserted
        && (queue != null ==> queue.View() == Queue.PushAll(old(queue.View()), p.demoted))
    {
      hide StripesValid, StripePolicy.Put, StripePolicy.Size;
      inserted := PutTo(Route(key), key, value);
    }

    method Remove(key: string) returns (removed: bool)
      requires Valid()
      modifies repr, SlabParts()
      ensures Valid() && View() == L1.RemoveKey(old(View()), key).cache
        && removed == L1.RemoveKey(old(View()), key).removed
    {
      hide StripesValid, StripePolicy.Remove, StripePolicy.Size;
      removed := RemoveFrom(Route(key), key);
    }

    /** Groups the positions by stripe, then serves one stripe after the other. */
    method BatchGet(keys: seq<string>) returns (results: seq<Option<string>>)
      requires Valid()
      modifies repr, slab.pool
      ensures Valid() && View() == L1.GetAll(old(View()), keys).cache
      ensures results == L1.GetAll(old(View()), keys).values
    {
      hide StripesValid, View, L1.After, L1.Found, L1.GetAll, L1.Group, StripeView;
      ghost var c := View();
      results := seq(|keys|, _ => None);
      var groups := GroupKeys(keys);
      for s := 0 to L1.NUM_STRIPES
        invariant Valid() && |results| == |keys| && View().hash == c.hash && View().free == c.free
        invariant forall t :: 0 <= t < s ==> View().stripes[t] == L1.After(c, keys, |keys|, t)
        invariant forall t :: s <= t < L1.NUM_STRIPES ==> View().stripes[t] == c.stripes[t]
        invariant forall i :: 0 <= i < |keys| && L1.Route(c, keys[i]) < s ==> results[i] == L1.Found(c, keys, i)
      {
        results := ServeStripe(c, keys, groups[s], s, results);
      }
      L1.GetAllByStripe(c, keys);
      assert View().stripes == L1.GetAll(c, keys).cache.stripes;
    }

    method GroupKeys(keys: seq<string>) returns (groups: seq<seq<nat>>)
      requires Valid()
      ensures Valid() && View() == old(View()) && |groups| == L1.NUM_STRIPES
      ensures forall s :: 0 <= s < L1.NUM_STRIPES ==> groups[s] == L1.Group(View(), keys, |keys|, s)
    {
      hide StripesValid;
      groups := seq(L1.NUM_STRIPES, _ => []);
      for i := 0 to |keys|
        invariant |groups| == L1.NUM_STRIPES
        invariant forall s :: 0 <= s < L1.NUM_STRIPES ==> groups[s] == L1.Group(View(), keys, i, s)
      {
        var r := Route(keys[i]);
        groups := groups[r := groups[r] + [i]];
      }
    }

    method ServeStripe(ghost c: L1.Cache, keys: seq<string>, group: seq<nat>, s: nat, results0: seq<Option<string>>)
      returns (results: seq<Option<string>>)
      requires Valid() && L1.Ready(c) && s < L1.NUM_STRIPES && |results0| == |keys|
      requires View().hash == c.hash && group == L1.Group(c, keys, |keys|, s) && View().stripes[s] == c.stripes[s]
      modifies repr, slab.pool
      ensures Valid() && |results| == |keys|
      ensures View() == old(View()).(stripes := old(View()).stripes[s := L1.After(c, keys, |keys|, s)])
      ensures forall i :: 0 <= i < |keys| ==>
        results[i] == if L1.Route(c, keys[i]) == s then L1.Found(c, keys, i) else results0[i]
    {
      hide StripesValid, StripePolicy.Get, StripeTheorems.Inv, L1.After, L1.Group, View;
      results := results0;
      L1.FirstTurn(c, keys, s);
      for j := 0 to |group|
        invariant Valid() && |results| == |keys| && L1.Turn(group, j, |keys|) <= |keys|
        invariant View().hash == old(View()).hash && View().free == old(View()).free
        invariant View().stripes == old(View()).stripes[s := L1.After(c, keys, L1.Turn(group, j, |keys|), s)]
        invariant forall i :: 0 <= i < |keys| ==>
          results[i] == if L1.Route(c, keys[i]) == s && i < L1.Turn(group, j, |keys|) then L1.Found(c, keys, i)
            else results0[i]
      {
        L1.NextTurn(c, keys, s, j);
        var value := GetFrom(s, keys[group[j]]);
        results := results[group[j] := value];
      }
    }

    /** What others do to the ring does not concern the stripes. */
    twostate lemma RingMoved()
      requires old(Valid()) && (queue != null ==> queue.Valid())
      requires unchanged(slab, slab.pool, slab.freeNext) && forall i :: 0 <= i < |stripes| ==> stripes[i].Idle()
      ensures Valid() && View() == old(View())
    {
      hide CacheStripe.CacheStripe.Valid, CacheStripe.CacheStripe.View, Queue.DemotionQueue.Valid,
        Slab.SlabAllocator.Valid;
      forall i | 0 <= i < |stripes| ensures StripeValid(i) && StripeView(i) == old(StripeView(i)) {
        assert old(StripeValid(i));
        stripes[i].RingMoved();
      }
      SeparateSame();
      assert View().stripes == old(View()).stripes;
    }

    twostate lemma SeparateSame()
      requires old(StripesValid()) && forall i :: 0 <= i < |stripes| ==> stripes[i].Idle() && StripeValid(i)
      ensures StripesValid()
    {
      forall j, k | 0 <= j < |stripes| && 0 <= k < |stripes| && j != k ensures Separate(stripes[j], stripes[k]) {
        assert old(Separate(stripes[j], stripes[k]));
      }
    }

    /** After stripe `i` has worked, the cache differs in that stripe only. */
    twostate lemma OthersStay(i: nat)
      requires old(StripesValid()) && i < |stripes| && StripeValid(i)
      requires stripes[i].KeptToItself() && forall j :: 0 <= j < |stripes| && j != i ==> stripes[j].Idle()
      ensures StripesValid()
      ensures View().stripes == old(View()).stripes[i := StripeView(i)]
    {
      var mine := old(stripes[i].Slots());
      forall j | 0 <= j < |stripes| && j != i
        ensures StripeValid(j) && StripeView(j) == old(StripeView(j)) && Separate(stripes[i], stripes[j])
      {
        assert old(StripeValid(i)) && old(StripeValid(j)) && old(Separate(stripes[i], stripes[j]));
        stripes[j].Undisturbed(mine);
      }
      SeparateStill(i);
    }

    twostate lemma SeparateStill(i: nat)
      requires old(StripesValid()) && i < |stripes| && StripeValid(i)
      requires forall j :: 0 <= j < |stripes| && j != i ==>
        stripes[j].Idle() && StripeValid(j) && Separate(stripes[i], stripes[j])
      ensures StripesValid()
    {
      forall j, k | 0 <= j < |stripes| && 0 <= k < |stripes| && j != k ensures Separate(stripes[j], stripes[k]) {
        assert old(Separate(stripes[j], stripes[k]));
      }
    }
  }
}
