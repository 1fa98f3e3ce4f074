/**
 Sixty-four stripes over one slab, as a value: a stripe is what a `CacheStripe` stands for, the slab
 its number of free slots. Gets on different stripes are shown to commute, which is what
 `batch_get` relies on when it regroups its keys. `StripedObject` has the objects.
 */
module StripedCache {
  import opened Types
  import opened StripePolicy
  import opened StripeTheorems

  const NUM_STRIPES: nat := 64

  /** How the constructor divides the capacity. */
  function PerStripe(total: nat): (c: nat)
    ensures c >= 3
    ensures total >= 192 ==> 64 * c <= total < 64 * (c + 1)
    ensures total < 192 ==> c == 3
  {
    if total / NUM_STRIPES < 3 then 3 else total / NUM_STRIPES
  }

  /** The slab gets one slot per stripe on top of the configured capacity. */
  function SlabSlots(total: nat): nat {
    (total + NUM_STRIPES) % WORD32
  }

  /** The sum fits in 32 bits. */
  predicate SlotsFit(total: nat) {
    total + NUM_STRIPES < WORD32
  }

  datatype Cache = Cache(stripes: seq<Stripe>, free: nat, hash: string -> nat)

  function StartStripe(total: nat, windowPct: real, probationPct: real, sketchHash: (string, nat) -> nat): Stripe
    requires windowPct >= 0.0 && 0.0 <= probationPct < 1.0
  {
    Empty(MakeConfig(PerStripe(total), windowPct, probationPct), sketchHash)
  }

  /** What the constructor builds. */
  function StartCache(total: nat, windowPct: real, probationPct: real, route: string -> nat,
                      sketchHash: (string, nat) -> nat): Cache
    requires windowPct >= 0.0 && 0.0 <= probationPct < 1.0
  {
    Cache(seq(NUM_STRIPES, _ => StartStripe(total, windowPct, probationPct, sketchHash)), SlabSlots(total), route)
  }

  ghost predicate Ready(c: Cache) {
    |c.stripes| == NUM_STRIPES && forall i :: 0 <= i < NUM_STRIPES ==> Inv(c.stripes[i])
  }

  function Route(c: Cache, key: string): (i: nat)
    ensures i < NUM_STRIPES
  {
    c.hash(key) % NUM_STRIPES
  }

  function StripeOf(c: Cache, key: string): Stripe
    requires |c.stripes| == NUM_STRIPES
  {
    c.stripes[Route(c, key)]
  }

  function WithStripe(c: Cache, key: string, s: Stripe): Cache
    requires |c.stripes| == NUM_STRIPES
  {
    c.(stripes := c.stripes[Route(c, key) := s])
  }

  datatype CacheGet = CacheGet(cache: Cache, value: Option<string>)

  function GetKey(c: Cache, key: string): (r: CacheGet)
    requires Ready(c)
    ensures Ready(r.cache)
  {
    GetKeepsInv(StripeOf(c, key), key);
    var g := Get(StripeOf(c, key), key);
    CacheGet(WithStripe(c, key, g.stripe), g.value)
  }

  datatype CachePut = CachePut(cache: Cache, inserted: bool, demoted: seq<DemotionItem>)

  /** A put for which the slab has a slot or has none. */
  function PutSlot(c: Cache, key: string, value: string, slot: bool): (r: CachePut)
    requires Ready(c) && (slot ==> c.free > 0)
    ensures Ready(r.cache)
  {
    var s := StripeOf(c, key);
    PutKeepsInv(s, key, value, slot);
    var p := Put(s, key, value, slot);
    CachePut(WithStripe(c, key, p.stripe).(free := c.free + Size(s) - Size(p.stripe)), p.inserted, p.demoted)
  }

  /** A put while no other put holds a slot: it gets one exactly if one is free. */
  function PutKey(c: Cache, key: string, value: string): (r: CachePut)
    requires Ready(c)
    ensures Ready(r.cache)
  {
    PutSlot(c, key, value, c.free > 0)
  }

  datatype CacheRemove = CacheRemove(cache: Cache, removed: bool)

  function RemoveKey(c: Cache, key: string): (r: CacheRemove)
    requires Ready(c)
    ensures Ready(r.cache)
  {
    var s := StripeOf(c, key);
    RemoveKeepsInv(s, key);
    var p := Remove(s, key);
    CacheRemove(WithStripe(c, key, p.stripe).(free := c.free + Size(s) - Size(p.stripe)), p.removed)
  }

  /** One lemma for the three kinds of put. */
  lemma PutKeepsInv(s: Stripe, key: string, value: string, slot: bool)
    requires Inv(s)
    ensures Inv(Put(s, key, value, slot).stripe)
    ensures Size(Put(s, key, value, slot).stripe) <= Size(s) + (if slot then 1 else 0)
    ensures Put(s, key, value, slot).stripe.cfg == s.cfg
  {
    if Has(s, key) { PutHitKeepsInv(s, key, value, slot); }
    else if slot { PutMissKeepsInv(s, key, value); }
    else { PutNoSlotKeepsInv(s, key, value); }
  }

  // ----- What the cache holds

  ghost predicate Holds(c: Cache, e: Entry)
    requires |c.stripes| == NUM_STRIPES
  {
    exists i :: 0 <= i < NUM_STRIPES && e in Bag(c.stripes[i])
  }

  /** Every entry lives in the stripe its key routes to. */
  ghost predicate Placed(c: Cache)
    requires |c.stripes| == NUM_STRIPES
  {
    forall i, e :: 0 <= i < NUM_STRIPES && e in Bag(c.stripes[i]) ==> Route(c, e.key) == i
  }

  lemma HoldsAt(c: Cache, e: Entry)
    requires |c.stripes| == NUM_STRIPES && Placed(c)
    ensures Holds(c, e) <==> e in Bag(StripeOf(c, e.key))
  {
  }

  /** A get returns what is held and changes nothing that is held. */
  lemma GetKeyHolds(c: Cache, key: string)
    requires Ready(c) && Placed(c)
    ensures var r := GetKey(c, key);
      && Placed(r.cache) && r.cache.hash == c.hash && r.cache.free == c.free
      && (forall e :: Holds(r.cache, e) <==> Holds(c, e))
      && (forall v :: r.value == Some(v) <==> Holds(c, Entry(key, v)))
  {
    var r := GetKey(c, key);
    var s := StripeOf(c, key);
    GetKeepsInv(s, key);
    forall i | 0 <= i < NUM_STRIPES ensures Bag(r.cache.stripes[i]) == Bag(c.stripes[i]) {
    }
    forall e ensures Holds(r.cache, e) <==> Holds(c, e) {
      HoldsAt(c, e);
      HoldsAt(r.cache, e);
    }
    forall v ensures r.value == Some(v) <==> Holds(c, Entry(key, v)) {
      HoldsAt(c, Entry(key, v));
      LookupMeans(s, key, v);
    }
  }

  lemma ReplacedMembers(b: multiset<Entry>, gone: Entry, replacement: Entry)
    requires Unique(b) && gone in b && gone.key == replacement.key
    ensures forall e :: e in b - multiset{gone} + multiset{replacement} ==>
      e == replacement || (e in b && e.key != replacement.key)
  {
  }

  lemma PutHitHolds(s: Stripe, key: string, value: string, slot: bool)
    requires Inv(s) && Has(s, key)
    ensures forall e :: e in Bag(Put(s, key, value, slot).stripe) ==>
      e == Entry(key, value) || (e in Bag(s) && e.key != key)
  {
    PutHitKeepsInv(s, key, value, slot);
    hide StripePolicy.Put, StripeTheorems.Inv, StripePolicy.Has, StripePolicy.Lookup;
    var gone := Entry(key, Lookup(s, key).value);
    LookupMeans(s, key, gone.value);
    ReplacedMembers(Bag(s), gone, Entry(key, value));
  }

  lemma PutMissHolds(s: Stripe, key: string, value: string)
    requires Inv(s) && !Has(s, key)
    ensures var p := Put(s, key, value, true);
      && (forall e :: e in Bag(p.stripe) ==> e == Entry(key, value) || (e in Bag(s) && e.key != key))
      && (forall d :: d in p.demoted ==> Entry(d.key, d.value) in Bag(s) && d.key != key)
  {
    hide StripePolicy.Put, StripePolicy.Has, StripePolicy.Lookup, StripeTheorems.PutLoss;
    PutMissEntries(s, key, value);
    DemotedResident(s, key, value);
    LookupMeans(s, key, "");
    SubBag(Bag(Put(s, key, value, true).stripe), multiset(PutLoss(s, key, value)), Bag(s), Entry(key, value));
  }

  lemma SubBag(b: multiset<Entry>, lost: multiset<Entry>, before: multiset<Entry>, e: Entry)
    requires b + lost == before + multiset{e}
    ensures forall x :: x in b ==> x == e || x in before
  {
    forall x | x in b ensures x == e || x in before {
      assert x in b + lost;
    }
  }

  /** What one stripe holds after a put: the new value for the key, and otherwise only what it held before. */
  lemma PutHolds(s: Stripe, key: string, value: string, slot: bool)
    requires Inv(s)
    ensures var p := Put(s, key, value, slot);
      && Inv(p.stripe)
      && (forall e :: e in Bag(p.stripe) ==> e == Entry(key, value) || (e in Bag(s) && e.key != key))
      && (forall d :: d in p.demoted ==> Entry(d.key, d.value) in Bag(s) && d.key != key)
  {
    PutKeepsInv(s, key, value, slot);
    if Has(s, key) {
      PutHitKeepsInv(s, key, value, slot);
      PutHitHolds(s, key, value, slot);
    } else if slot {
      PutMissHolds(s, key, value);
    } else {
      PutNoSlotKeepsInv(s, key, value);
      LookupMeans(s, key, "");
    }
  }

  lemma PutSlotHolds(c: Cache, key: string, value: string, slot: bool)
    requires Ready(c) && Placed(c) && (slot ==> c.free > 0)
    ensures var r := PutSlot(c, key, value, slot);
      && Placed(r.cache) && r.cache.hash == c.hash
      && (forall e :: Holds(r.cache, e) ==> e == Entry(key, value) || (Holds(c, e) && e.key != key))
      && (forall d :: d in r.demoted ==> Holds(c, Entry(d.key, d.value)) && d.key != key)
  {
    hide StripePolicy.Put, StripeTheorems.Bag, StripeTheorems.Inv;
    var r := PutSlot(c, key, value, slot);
    var n := Route(c, key);
    assert Inv(c.stripes[n]);
    PutHolds(c.stripes[n], key, value, slot);
    forall i, e | 0 <= i < NUM_STRIPES && e in Bag(r.cache.stripes[i])
      ensures Route(r.cache, e.key) == i && (e == Entry(key, value) || (Holds(c, e) && e.key != key))
    {
      if i != n {
        assert e in Bag(c.stripes[i]);
      }
    }
    forall d | d in r.demoted ensures Holds(c, Entry(d.key, d.value)) && d.key != key {
      assert Entry(d.key, d.value) in Bag(c.stripes[n]);
    }
  }

  lemma PutKeyHolds(c: Cache, key: string, value: string)
    requires Ready(c) && Placed(c)
    ensures var r := PutKey(c, key, value);
      && Placed(r.cache) && r.cache.hash == c.hash
      && (forall e :: Holds(r.cache, e) ==> e == Entry(key, value) || (Holds(c, e) && e.key != key))
      && (forall d :: d in r.demoted ==> Holds(c, Entry(d.key, d.value)) && d.key != key)
  {
    hide PutSlot, Holds, Placed, Ready;
    PutSlotHolds(c, key, value, c.free > 0);
  }

  lemma RemoveKeyHolds(c: Cache, key: string)
    requires Ready(c) && Placed(c)
    ensures var r := RemoveKey(c, key);
      && Placed(r.cache) && r.cache.hash == c.hash
      && (forall e :: Holds(r.cache, e) <==> Holds(c, e) && e.key != key)
  {
    hide StripePolicy.Remove, StripeTheorems.Bag, StripeTheorems.Inv;
    var r := RemoveKey(c, key);
    var n := Route(c, key);
    assert Inv(c.stripes[n]);
    StripeRemoveHolds(c.stripes[n], key);
    forall i, e | 0 <= i < NUM_STRIPES && e in Bag(r.cache.stripes[i]) ensures Route(r.cache, e.key) == i {
      assert e in Bag(c.stripes[i]);
    }
    forall e ensures Holds(r.cache, e) <==> Holds(c, e) && e.key != key {
      HoldsAt(c, e);
      HoldsAt(r.cache, e);
    }
  }

  lemma RemovedIfHeld(c: Cache, key: string)
    requires Ready(c) && Placed(c)
    ensures RemoveKey(c, key).removed <==> exists v :: Holds(c, Entry(key, v))
  {
    var s := StripeOf(c, key);
    RemoveKeepsInv(s, key);
    LookupMeans(s, key, "");
    forall v ensures Holds(c, Entry(key, v)) <==> Lookup(s, key) == Some(v) {
      HoldsAt(c, Entry(key, v));
      LookupMeans(s, key, v);
    }
    if Has(s, key) {
      assert Holds(c, Entry(key, Lookup(s, key).value));
    }
  }

  lemma StripeRemoveHolds(s: Stripe, key: string)
    requires Inv(s)
    ensures forall e :: e in Bag(Remove(s, key).stripe) <==> e in Bag(s) && e.key != key
  {
    RemoveKeepsInv(s, key);
    var t := Remove(s, key).stripe;
    LookupMeans(s, key, "");
    LookupMeans(t, key, "");
    hide Remove, Has, Lookup, Bag, Unique;
    if Has(s, key) {
      var gone := Entry(key, Lookup(s, key).value);
      assert forall e :: e in Bag(s) <==> e in Bag(t) || e == gone;
    }
  }

  // ----- batch_get

  /** Getting the keys one by one, in order. */
  datatype CacheGets = CacheGets(cache: Cache, values: seq<Option<string>>)

  function GetAll(c: Cache, keys: seq<string>): (r: CacheGets)
    requires Ready(c)
    ensures Ready(r.cache) && |r.values| == |keys|
  {
    if keys == [] then CacheGets(c, [])
    else
      var before := GetAll(c, keys[..|keys| - 1]);
      var last := GetKey(before.cache, keys[|keys| - 1]);
      CacheGets(last.cache, before.values + [last.value])
  }

  /** Stripe `s` after those of the first `n` keys that route to it. */
  function After(c: Cache, keys: seq<string>, n: nat, s: nat): (r: Stripe)
    requires Ready(c) && n <= |keys| && s < NUM_STRIPES
    ensures Inv(r)
  {
    if n == 0 then c.stripes[s]
    else
      var before := After(c, keys, n - 1, s);
      GetKeepsInv(before, keys[n - 1]);
      if Route(c, keys[n - 1]) == s then Get(before, keys[n - 1]).stripe else before
  }

  /** What the `i`-th key finds. */
  function Found(c: Cache, keys: seq<string>, i: nat): Option<string>
    requires Ready(c) && i < |keys|
  {
    Get(After(c, keys, i, Route(c, keys[i])), keys[i]).value
  }

  lemma {:induction false} AfterPrefix(c: Cache, keys: seq<string>, m: nat, n: nat, s: nat)
    requires Ready(c) && n <= m <= |keys| && s < NUM_STRIPES
    ensures After(c, keys[..m], n, s) == After(c, keys, n, s)
  {
    if n > 0 {
      AfterPrefix(c, keys, m, n - 1, s);
    }
  }

  /** What the last of several gets adds. */
  lemma LastGet(c: Cache, keys: seq<string>)
    requires Ready(c) && keys != []
    ensures var b := GetAll(c, keys[..|keys| - 1]); var r := GetAll(c, keys); var key := keys[|keys| - 1];
      && Ready(b.cache)
      && var i := Route(b.cache, key);
      && r.cache == b.cache.(stripes := b.cache.stripes[i := Get(b.cache.stripes[i], key).stripe])
      && r.values == b.values + [Get(b.cache.stripes[i], key).value]
  {
    hide StripePolicy.Get, StripeTheorems.Inv;
  }

  /** Gets on different stripes commute: the ordered run can be read off stripe by stripe. */
  lemma {:induction false} GetAllByStripe(c: Cache, keys: seq<string>)
    requires Ready(c)
    ensures var r := GetAll(c, keys);
      && r.cache.hash == c.hash && r.cache.free == c.free
      && (forall s :: 0 <= s < NUM_STRIPES ==> r.cache.stripes[s] == After(c, keys, |keys|, s))
      && (forall i :: 0 <= i < |keys| ==> r.values[i] == Found(c, keys, i))
  {
    hide After, Found, StripePolicy.Get, StripeTheorems.Inv;
    if keys != [] {
      var n := |keys| - 1;
      GetAllByStripe(c, keys[..n]);
      LastGet(c, keys);
      hide GetAll;
      forall s | 0 <= s < NUM_STRIPES ensures GetAll(c, keys).cache.stripes[s] == After(c, keys, |keys|, s) {
        AfterPrefix(c, keys, n, n, s);
        AfterLast(c, keys, s);
      }
      forall i | 0 <= i < n ensures GetAll(c, keys).values[i] == Found(c, keys, i) {
        FoundPrefix(c, keys, n, i);
      }
      AfterPrefix(c, keys, n, n, Route(c, keys[n]));
      FoundIs(c, keys, n);
    } else {
      NothingGot(c);
    }
  }

  lemma NothingGot(c: Cache)
    requires Ready(c)
    ensures GetAll(c, []).cache == c && forall s :: 0 <= s < NUM_STRIPES ==> After(c, [], 0, s) == c.stripes[s]
  {
  }

  lemma AfterLast(c: Cache, keys: seq<string>, s: nat)
    requires Ready(c) && s < NUM_STRIPES && keys != []
    ensures var n := |keys| - 1; var before := After(c, keys, n, s);
      After(c, keys, |keys|, s) == if Route(c, keys[n]) == s then Get(before, keys[n]).stripe else before
  {
    hide StripePolicy.Get, StripeTheorems.Inv;
  }

  lemma FoundIs(c: Cache, keys: seq<string>, i: nat)
    requires Ready(c) && i < |keys|
    ensures Found(c, keys, i) == Get(After(c, keys, i, Route(c, keys[i])), keys[i]).value
  {
    hide StripePolicy.Get, StripeTheorems.Inv;
  }

  lemma FoundPrefix(c: Cache, keys: seq<string>, n: nat, i: nat)
    requires Ready(c) && i < n <= |keys|
    ensures Found(c, keys[..n], i) == Found(c, keys, i)
  {
    hide StripePolicy.Get, StripeTheorems.Inv;
    AfterPrefix(c, keys, n, i, Route(c, keys[i]));
  }

  /** The positions below `n` whose keys route to `s`, in order. */
  function Group(c: Cache, keys: seq<string>, n: nat, s: nat): (g: seq<nat>)
    requires n <= |keys|
    ensures forall j :: 0 <= j < |g| ==> g[j] < n && Route(c, keys[g[j]]) == s
    ensures forall j, k :: 0 <= j < k < |g| ==> g[j] < g[k]
    ensures forall i :: 0 <= i < n && Route(c, keys[i]) == s ==> i in g
  {
    if n == 0 then []
    else
      var rest := Group(c, keys, n - 1, s);
      if Route(c, keys[n - 1]) == s then rest + [n - 1] else rest
  }

  /** Keys of other stripes leave stripe `s` alone. */
  lemma {:induction false} AfterIdle(c: Cache, keys: seq<string>, a: nat, b: nat, s: nat)
    requires Ready(c) && a <= b <= |keys| && s < NUM_STRIPES
    requires forall i :: a <= i < b ==> Route(c, keys[i]) != s
    ensures After(c, keys, b, s) == After(c, keys, a, s)
    decreases b
  {
    if a < b {
      AfterIdle(c, keys, a, b - 1, s);
    }
  }

  /** Where stripe `s` stands when the `j`-th member of its group comes up. */
  function Turn(g: seq<nat>, j: nat, n: nat): nat
    requires j <= |g|
  {
    if j < |g| then g[j] else n
  }

  ghost predicate Increasing(g: seq<nat>) {
    forall j, k :: 0 <= j < k < |g| ==> g[j] < g[k]
  }

  lemma NotBetween(g: seq<nat>, j: nat, n: nat, i: nat)
    requires Increasing(g) && j < |g| && g[j] < i < Turn(g, j + 1, n)
    ensures i !in g
  {
    forall k | 0 <= k < |g| ensures g[k] != i {
      assert k <= j || g[k] >= Turn(g, j + 1, n);
    }
  }

  lemma NotBefore(g: seq<nat>, n: nat, i: nat)
    requires Increasing(g) && i < Turn(g, 0, n) && (g == [] ==> i < n)
    ensures i !in g
  {
    forall k | 0 <= k < |g| ensures g[k] != i {
      assert g[k] >= g[0];
    }
  }

  lemma GroupIncreasing(c: Cache, keys: seq<string>, s: nat)
    ensures Increasing(Group(c, keys, |keys|, s))
  {
  }

  lemma NextTurn(c: Cache, keys: seq<string>, s: nat, j: nat)
    requires Ready(c) && s < NUM_STRIPES
    requires j < |Group(c, keys, |keys|, s)|
    ensures var g := Group(c, keys, |keys|, s); var next := Turn(g, j + 1, |keys|);
      && g[j] < next <= |keys|
      && (forall i :: g[j] < i < next ==> Route(c, keys[i]) != s)
      && After(c, keys, next, s) == Get(After(c, keys, g[j], s), keys[g[j]]).stripe
  {
    hide StripePolicy.Get, StripeTheorems.Inv, After;
    var g := Group(c, keys, |keys|, s);
    GroupIncreasing(c, keys, s);
    var next := Turn(g, j + 1, |keys|);
    forall i | g[j] < i < next ensures Route(c, keys[i]) != s {
      NotBetween(g, j, |keys|, i);
    }
    AfterIdle(c, keys, g[j] + 1, next, s);
    AfterTaken(c, keys, g[j], s);
  }

  lemma AfterTaken(c: Cache, keys: seq<string>, i: nat, s: nat)
    requires Ready(c) && s < NUM_STRIPES && i < |keys| && Route(c, keys[i]) == s
    ensures After(c, keys, i + 1, s) == Get(After(c, keys, i, s), keys[i]).stripe
  {
  }

  lemma FirstTurn(c: Cache, keys: seq<string>, s: nat)
    requires Ready(c) && s < NUM_STRIPES
    ensures var first := Turn(Group(c, keys, |keys|, s), 0, |keys|);
      && first <= |keys|
      && (forall i :: 0 <= i < first ==> Route(c, keys[i]) != s)
      && After(c, keys, first, s) == c.stripes[s]
  {
    var g := Group(c, keys, |keys|, s);
    GroupIncreasing(c, keys, s);
    forall i | 0 <= i < Turn(g, 0, |keys|) ensures Route(c, keys[i]) != s {
      NotBefore(g, |keys|, i);
    }
    AfterIdle(c, keys, 0, Turn(g, 0, |keys|), s);
  }
}
