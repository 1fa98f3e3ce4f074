/**
 Without pressure a stripe is a map, and so is the cache: as long as no stripe sees more distinct keys
 than it has room for, everything put is found until it is removed.
 */
module StripeMap {
  import opened Types
  import Seqs
  import opened StripePolicy
  import opened StripeTheorems
  import StripeHistory
  import Striped = StripedCache

  // ----- One stripe

  /** The map that the operations describe. */
  function Latest(ops: seq<StripeOp>): map<string, string> {
    if ops == [] then map[]
    else
      var before := Latest(ops[..|ops| - 1]);
      match ops[|ops| - 1]
      case DoGet(_) => before
      case DoPut(k, v, _) => before[k := v]
      case DoRemove(k) => before - {k}
  }

  function PutKeys(ops: seq<StripeOp>): set<string> {
    if ops == [] then {}
    else
      var before := PutKeys(ops[..|ops| - 1]);
      var op := ops[|ops| - 1];
      if op.DoPut? then before + {op.key} else before
  }

  ghost predicate AllSlots(ops: seq<StripeOp>) {
    forall i :: 0 <= i < |ops| && ops[i].DoPut? ==> ops[i].slot
  }

  /** The stripe holds exactly the map. */
  ghost predicate Represents(s: Stripe, m: map<string, string>) {
    (forall e :: e in Bag(s) <==> e.key in m && m[e.key] == e.value) && Size(s) == |m|
  }

  function MapGet(m: map<string, string>, key: string): Option<string> {
    if key in m then Some(m[key]) else None
  }

  lemma RepresentsAnswers(s: Stripe, m: map<string, string>, key: string)
    requires Inv(s) && Represents(s, m)
    ensures Lookup(s, key) == MapGet(m, key)
  {
    hide Bag, Lookup, Has;
    LookupMeans(s, key, "");
    if key in m {
      LookupMeans(s, key, m[key]);
      assert Entry(key, m[key]) in Bag(s);
    } else {
      if e :| e in Bag(s) && e.key == key {
        assert false;
      }
    }
  }

  lemma PutRepresents(s: Stripe, m: map<string, string>, key: string, value: string)
    requires Inv(s) && Represents(s, m) && (key in m || |m| < s.cfg.capacity)
    ensures var t := Put(s, key, value, true).stripe;
      Represents(t, m[key := value]) && t.evictions == s.evictions && t.rejections == s.rejections
  {
    hide Bag, Lookup, Has, StripePolicy.Put, Inv, Size, Represents;
    RepresentsAnswers(s, m, key);
    HasIsLookup(s, key);
    if key in m {
      HitRepresents(s, m, key, value);
    } else {
      MissRepresents(s, m, key, value);
    }
  }

  lemma HitRepresents(s: Stripe, m: map<string, string>, key: string, value: string)
    requires Inv(s) && Represents(s, m) && key in m && Has(s, key)
    ensures var t := Put(s, key, value, true).stripe;
      Represents(t, m[key := value]) && t.evictions == s.evictions && t.rejections == s.rejections
  {
    hide Bag, Lookup, Has, StripePolicy.Put, Size;
    RepresentsAnswers(s, m, key);
    PutHitKeepsInv(s, key, value, true);
    Replaced(Bag(s), m, Entry(key, m[key]), Entry(key, value));
    assert m[key := value].Keys == m.Keys;
    SameSize(m, m[key := value]);
  }

  lemma MissRepresents(s: Stripe, m: map<string, string>, key: string, value: string)
    requires Inv(s) && Represents(s, m) && key !in m && |m| < s.cfg.capacity && !Has(s, key)
    ensures var t := Put(s, key, value, true).stripe;
      Represents(t, m[key := value]) && t.evictions == s.evictions && t.rejections == s.rejections
  {
    hide Bag, Lookup, Has, StripePolicy.Put, Size, PutLoss;
    PutMissKeepsInv(s, key, value);
    Added(Bag(s), PutLoss(s, key, value), Bag(Put(s, key, value, true).stripe), m, Entry(key, value));
    Grown(m, key, value);
  }

  lemma HasIsLookup(s: Stripe, key: string)
    ensures Has(s, key) <==> Lookup(s, key).Some?
  {
  }

  lemma Replaced(b: multiset<Entry>, m: map<string, string>, previous: Entry, e: Entry)
    requires Unique(b) && forall x :: x in b <==> x.key in m && m[x.key] == x.value
    requires previous in b && e.key == previous.key
    ensures forall x :: x in b - multiset{previous} + multiset{e} <==>
      x.key in m && m[e.key := e.value][x.key] == x.value
  {
    forall x
      ensures x in b - multiset{previous} + multiset{e} <==> x.key in m && m[e.key := e.value][x.key] == x.value
    {
      assert x in b && x != previous ==> x.key != e.key;
    }
  }

  lemma Added(b: multiset<Entry>, lost: seq<Entry>, after: multiset<Entry>, m: map<string, string>, e: Entry)
    requires forall x :: x in b <==> x.key in m && m[x.key] == x.value
    requires lost == [] && after + multiset(lost) == b + multiset{e} && e.key !in m
    ensures forall x :: x in after <==> x.key in m[e.key := e.value] && m[e.key := e.value][x.key] == x.value
  {
    assert after == b + multiset{e};
  }

  lemma SameSize(a: map<string, string>, b: map<string, string>)
    requires a.Keys == b.Keys
    ensures |a| == |b|
  {
    assert |a| == |a.Keys| && |b| == |b.Keys|;
  }

  lemma Grown(m: map<string, string>, key: string, value: string)
    requires key !in m
    ensures |m[key := value]| == |m| + 1
  {
    var n := m[key := value];
    assert n.Keys == m.Keys + {key};
    assert |n| == |n.Keys| && |m| == |m.Keys|;
  }

  lemma Shrunk(m: map<string, string>, key: string)
    ensures |m - {key}| == |m| - (if key in m then 1 else 0)
  {
    var n := m - {key};
    assert n.Keys == m.Keys - {key};
    assert |n| == |n.Keys| && |m| == |m.Keys|;
  }

  lemma RemoveRepresents(s: Stripe, m: map<string, string>, key: string)
    requires Inv(s) && Represents(s, m)
    ensures Represents(Remove(s, key).stripe, m - {key})
  {
    hide Bag, Lookup, Has, StripePolicy.Remove, Size;
    RepresentsAnswers(s, m, key);
    HasIsLookup(s, key);
    RemoveKeepsInv(s, key);
    Striped.StripeRemoveHolds(s, key);
    Shrunk(m, key);
  }

  lemma {:induction false} LatestKeys(ops: seq<StripeOp>)
    ensures Latest(ops).Keys <= PutKeys(ops)
  {
    if ops != [] {
      LatestKeys(ops[..|ops| - 1]);
    }
  }

  /** With a slot for every put and no more distinct keys than the capacity, the stripe is the map of its operations. */
  lemma {:induction false} ServesAsMap(cfg: Config, hash: (string, nat) -> nat, ops: seq<StripeOp>)
    requires WellFormed(cfg) && AllSlots(ops) && |PutKeys(ops)| <= cfg.capacity
    ensures var s := StripeHistory.After(cfg, hash, ops);
      Represents(s, Latest(ops)) && s.evictions == 0 && s.rejections == 0
  {
    if ops == [] {
    } else {
      hide Represents, Inv, StripePolicy.Get, StripePolicy.Put, StripePolicy.Remove, StripeHistory.After;
      var front := ops[..|ops| - 1];
      var s := StripeHistory.After(cfg, hash, front);
      FewerKeys(ops);
      ServesAsMap(cfg, hash, front);
      StripeHistory.StepOfRun(cfg, hash, ops);
      match ops[|ops| - 1] {
        case DoGet(k) => GetRepresents(s, Latest(front), k);
        case DoPut(k, v, _) =>
          RoomFor(front, ops, k, cfg.capacity);
          PutRepresents(s, Latest(front), k, v);
        case DoRemove(k) =>
          RemoveRepresents(s, Latest(front), k);
          RemoveKeepsInv(s, k);
      }
    }
  }

  lemma GetRepresents(s: Stripe, m: map<string, string>, key: string)
    requires Inv(s) && Represents(s, m)
    ensures var t := Get(s, key).stripe;
      Represents(t, m) && t.evictions == s.evictions && t.rejections == s.rejections
  {
    hide Bag, StripePolicy.Get;
    GetKeepsInv(s, key);
  }

  lemma FewerKeys(ops: seq<StripeOp>)
    requires ops != []
    ensures |PutKeys(ops[..|ops| - 1])| <= |PutKeys(ops)|
    ensures AllSlots(ops) ==> AllSlots(ops[..|ops| - 1])
  {
    var op := ops[|ops| - 1];
    var before := PutKeys(ops[..|ops| - 1]);
    if op.DoPut? {
      assert PutKeys(ops) == before + {op.key};
      assert op.key in before ==> before + {op.key} == before;
    }
  }

  /** A put of a key that the map lacks finds room. */
  lemma RoomFor(front: seq<StripeOp>, ops: seq<StripeOp>, key: string, capacity: nat)
    requires ops != [] && front == ops[..|ops| - 1] && ops[|ops| - 1].DoPut? && ops[|ops| - 1].key == key
    requires |PutKeys(ops)| <= capacity
    ensures key in Latest(front) || |Latest(front)| < capacity
  {
    LatestKeys(front);
    if key !in Latest(front) {
      var keys := Latest(front).Keys + {key};
      assert keys <= PutKeys(ops);
      Seqs.SubsetSize(keys, PutKeys(ops));
      assert |keys| == |Latest(front)| + 1;
    }
  }

  ghost predicate NoRemoves(ops: seq<StripeOp>) {
    forall i :: 0 <= i < |ops| ==> !ops[i].DoRemove?
  }

  lemma {:induction false} AllPutStay(ops: seq<StripeOp>)
    requires NoRemoves(ops)
    ensures Latest(ops).Keys == PutKeys(ops)
  {
    if ops != [] {
      AllPutStay(ops[..|ops| - 1]);
    }
  }

  /** Without removes nothing is lost exactly as long as there are no more distinct keys than the capacity. */
  lemma NothingLostIsExact(cfg: Config, hash: (string, nat) -> nat, ops: seq<StripeOp>)
    requires WellFormed(cfg) && AllSlots(ops) && NoRemoves(ops)
    ensures (forall k :: Lookup(StripeHistory.After(cfg, hash, ops), k) == MapGet(Latest(ops), k)) <==>
      |PutKeys(ops)| <= cfg.capacity
  {
    hide Inv, Lookup, Represents;
    var s := StripeHistory.After(cfg, hash, ops);
    if |PutKeys(ops)| <= cfg.capacity {
      ServesAsMap(cfg, hash, ops);
      forall k ensures Lookup(s, k) == MapGet(Latest(ops), k) {
        RepresentsAnswers(s, Latest(ops), k);
      }
    } else if forall k :: Lookup(s, k) == MapGet(Latest(ops), k) {
      AllPutStay(ops);
      AllFoundFit(s, PutKeys(ops));
    }
  }

  /** As many keys as are found fit. */
  lemma AllFoundFit(s: Stripe, keys: set<string>)
    requires Inv(s) && forall k :: k in keys ==> Lookup(s, k).Some?
    ensures |keys| <= s.cfg.capacity
  {
    hide Lookup, Has;
    forall k | k in keys ensures exists e :: e in Bag(s) && e.key == k {
      LookupMeans(s, k, "");
    }
    hide Bag, Unique;
    KeysInBag(Bag(s), keys);
    BagSize(s);
  }

  lemma BagSize(s: Stripe)
    ensures |Bag(s)| == Size(s)
  {
  }

  lemma {:induction false} KeysInBag(b: multiset<Entry>, keys: set<string>)
    requires forall k :: k in keys ==> exists e :: e in b && e.key == k
    ensures |keys| <= |b|
    decreases keys
  {
    if keys != {} {
      var k :| k in keys;
      var e :| e in b && e.key == k;
      var rest := b[e := 0];
      forall j | j in keys - {k} ensures exists f :: f in rest && f.key == j {
        var f :| f in b && f.key == j;
        assert f in rest;
      }
      KeysInBag(rest, keys - {k});
      assert b == rest + multiset{e}[e := b[e]];
    }
  }

  // ----- The cache

  datatype CacheOp = CacheGet(key: string) | CachePut(key: string, value: string) | CacheRemove(key: string)

  function StepCache(c: Striped.Cache, op: CacheOp): (d: Striped.Cache)
    requires Striped.Ready(c)
    ensures Striped.Ready(d)
  {
    match op
    case CacheGet(k) => Striped.GetKey(c, k).cache
    case CachePut(k, v) => Striped.PutKey(c, k, v).cache
    case CacheRemove(k) => Striped.RemoveKey(c, k).cache
  }

  function RunCache(c: Striped.Cache, ops: seq<CacheOp>): (d: Striped.Cache)
    requires Striped.Ready(c)
    ensures Striped.Ready(d)
  {
    if ops == [] then c else StepCache(RunCache(c, ops[..|ops| - 1]), ops[|ops| - 1])
  }

  /** The operations that reach stripe `i`, each put with a slot. */
  function Reaching(route: string -> nat, ops: seq<CacheOp>, i: nat): seq<StripeOp> {
    if ops == [] then []
    else
      var before := Reaching(route, ops[..|ops| - 1], i);
      var op := ops[|ops| - 1];
      if route(op.key) % 64 != i then before
      else before + [match op
                     case CacheGet(k) => DoGet(k)
                     case CachePut(k, v) => DoPut(k, v, true)
                     case CacheRemove(k) => DoRemove(k)]
  }

  function LatestOf(ops: seq<CacheOp>): map<string, string> {
    if ops == [] then map[]
    else
      var before := LatestOf(ops[..|ops| - 1]);
      match ops[|ops| - 1]
      case CacheGet(_) => before
      case CachePut(k, v) => before[k := v]
      case CacheRemove(k) => before - {k}
  }

  lemma {:induction false} ReachingSlots(route: string -> nat, ops: seq<CacheOp>, i: nat)
    ensures AllSlots(Reaching(route, ops, i))
  {
    if ops != [] {
      ReachingSlots(route, ops[..|ops| - 1], i);
    }
  }

  /** A key's part in the map is told by the operations that reach its stripe. */
  lemma {:induction false} LatestByStripe(route: string -> nat, ops: seq<CacheOp>, key: string)
    ensures MapGet(Latest(Reaching(route, ops, route(key) % 64)), key) == MapGet(LatestOf(ops), key)
  {
    if ops != [] {
      var i := route(key) % 64;
      var front := ops[..|ops| - 1];
      LatestByStripe(route, front, key);
      var all, before := Reaching(route, ops, i), Reaching(route, front, i);
      assert all != before ==> all[..|all| - 1] == before;
      assert route(ops[|ops| - 1].key) % 64 != i ==> ops[|ops| - 1].key != key;
    }
  }

  function Resident(stripes: seq<Stripe>): nat {
    if stripes == [] then 0 else Resident(stripes[..|stripes| - 1]) + Size(stripes[|stripes| - 1])
  }

  lemma {:induction false} ResidentSet(stripes: seq<Stripe>, i: nat, t: Stripe)
    requires i < |stripes|
    ensures Resident(stripes[i := t]) == Resident(stripes) - Size(stripes[i]) + Size(t)
  {
    var n := |stripes| - 1;
    if i == n {
      assert stripes[i := t][..n] == stripes[..n];
    } else {
      ResidentSet(stripes[..n], i, t);
      assert stripes[i := t][..n] == stripes[..n][i := t];
    }
  }

  lemma {:induction false} ResidentBound(stripes: seq<Stripe>, capacity: nat)
    requires forall s :: s in stripes ==> Size(s) <= capacity
    ensures Resident(stripes) <= |stripes| * capacity
  {
    if stripes != [] {
      ResidentBound(stripes[..|stripes| - 1], capacity);
    }
  }

  /** The stripes have performed what reached them, and residents and free slots make up the slab. */
  ghost predicate Followed(c: Striped.Cache, total: nat, cfg: Config, route: string -> nat,
                           sketchHash: (string, nat) -> nat, ops: seq<CacheOp>)
    requires WellFormed(cfg)
  {
    && |c.stripes| == Striped.NUM_STRIPES && c.hash == route
    && (forall i :: 0 <= i < 64 ==> c.stripes[i] == StripeHistory.After(cfg, sketchHash, Reaching(route, ops, i)))
    && c.free + Resident(c.stripes) == total + 64
  }

  lemma StepFollows(c: Striped.Cache, total: nat, cfg: Config, route: string -> nat,
                    sketchHash: (string, nat) -> nat, front: seq<CacheOp>, op: CacheOp)
    requires WellFormed(cfg) && 64 * cfg.capacity <= total
    requires Striped.Ready(c) && Followed(c, total, cfg, route, sketchHash, front)
    ensures Followed(StepCache(c, op), total, cfg, route, sketchHash, front + [op])
  {
    hide StripeHistory.After, StripePolicy.Get, StripePolicy.Put, StripePolicy.Remove, Inv, Size;
    var n := route(op.key) % 64;
    var s := c.stripes[n];
    assert (front + [op])[..|front|] == front;
    HasFreeSlot(c, cfg, total);
    var d := StepCache(c, op);
    StepOne(c, op, d);
    ResidentSet(c.stripes, n, d.stripes[n]);
    StepAfter(cfg, sketchHash, Reaching(route, front, n), Reaching(route, front + [op], n));
  }

  lemma StepAfter(cfg: Config, hash: (string, nat) -> nat, before: seq<StripeOp>, ops: seq<StripeOp>)
    requires WellFormed(cfg) && ops != [] && before == ops[..|ops| - 1]
    ensures StripeHistory.After(cfg, hash, ops) ==
      Step(Ledger(StripeHistory.After(cfg, hash, before), 0, 0), ops[|ops| - 1]).stripe
  {
    StripeHistory.StepOfRun(cfg, hash, ops);
  }

  lemma HasFreeSlot(c: Striped.Cache, cfg: Config, total: nat)
    requires Striped.Ready(c) && 64 * cfg.capacity <= total && c.free + Resident(c.stripes) == total + 64
    requires forall i :: 0 <= i < 64 ==> c.stripes[i].cfg == cfg
    ensures c.free > 0
  {
    forall s | s in c.stripes ensures Size(s) <= cfg.capacity {
      var i :| 0 <= i < |c.stripes| && c.stripes[i] == s;
      assert Inv(c.stripes[i]);
    }
    hide Inv, Size;
    ResidentBound(c.stripes, cfg.capacity);
  }

  /** One operation of the cache with a free slot is one operation of its stripe. */
  lemma StepOne(c: Striped.Cache, op: CacheOp, d: Striped.Cache)
    requires Striped.Ready(c) && c.free > 0 && d == StepCache(c, op)
    ensures var n := Striped.Route(c, op.key); var s := c.stripes[n];
      && SketchReady(s)
      && var o := (match op
                   case CacheGet(k) => DoGet(k)
                   case CachePut(k, v) => DoPut(k, v, true)
                   case CacheRemove(k) => DoRemove(k));
      var t := Step(Ledger(s, 0, 0), o).stripe;
      && d.hash == c.hash && d.stripes == c.stripes[n := t] && d.free + Size(t) == c.free + Size(s)
  {
    hide StripePolicy.Get, StripePolicy.Put, StripePolicy.Remove;
    var n := Striped.Route(c, op.key);
    var s := c.stripes[n];
    assert Inv(s);
    match op
    case CacheGet(k) => GetKeepsInv(s, k);
    case CachePut(k, v) => Striped.PutKeepsInv(s, k, v, true);
    case CacheRemove(k) => RemoveKeepsInv(s, k);
  }

  lemma {:induction false} RunFollows(c: Striped.Cache, total: nat, cfg: Config, route: string -> nat,
                                      sketchHash: (string, nat) -> nat, ops: seq<CacheOp>)
    requires WellFormed(cfg) && 64 * cfg.capacity <= total
    requires Striped.Ready(c) && Followed(c, total, cfg, route, sketchHash, [])
    ensures Followed(RunCache(c, ops), total, cfg, route, sketchHash, ops)
  {
    hide Followed, Striped.Ready, StepCache;
    if ops != [] {
      var front := ops[..|ops| - 1];
      RunFollows(c, total, cfg, route, sketchHash, front);
      StepFollows(RunCache(c, front), total, cfg, route, sketchHash, front, ops[|ops| - 1]);
      assert front + [ops[|ops| - 1]] == ops;
    }
  }

  /**
   The constructed cache answers every get with the last value put, unless removed since, as long as no
   stripe sees more than `total / 64` distinct keys.
   */
  lemma CacheServesAsMap(total: nat, windowPct: real, probationPct: real, route: string -> nat,
                         sketchHash: (string, nat) -> nat, ops: seq<CacheOp>, key: string)
    requires windowPct >= 0.0 && 0.0 <= probationPct < 1.0 && total >= 192 && Striped.SlotsFit(total)
    requires |PutKeys(Reaching(route, ops, route(key) % 64))| <= total / 64
    ensures var c := Striped.StartCache(total, windowPct, probationPct, route, sketchHash);
      && Striped.Ready(c)
      && Striped.GetKey(RunCache(c, ops), key).value == MapGet(LatestOf(ops), key)
  {
    var c := Striped.StartCache(total, windowPct, probationPct, route, sketchHash);
    var cfg := MakeConfig(Striped.PerStripe(total), windowPct, probationPct);
    StartFollows(total, windowPct, probationPct, route, sketchHash);
    RunFollows(c, total, cfg, route, sketchHash, ops);
    var i := route(key) % 64;
    var mine := Reaching(route, ops, i);
    ReachingSlots(route, ops, i);
    ServesAsMap(cfg, sketchHash, mine);
    LatestByStripe(route, ops, key);
    RepresentsAnswers(StripeHistory.After(cfg, sketchHash, mine), Latest(mine), key);
    GetAnswer(RunCache(c, ops), key);
  }

  lemma GetAnswer(c: Striped.Cache, key: string)
    requires Striped.Ready(c)
    ensures Striped.GetKey(c, key).value == Lookup(Striped.StripeOf(c, key), key)
  {
    assert Inv(Striped.StripeOf(c, key));
    GetKeepsInv(Striped.StripeOf(c, key), key);
  }

  lemma StartFollows(total: nat, windowPct: real, probationPct: real, route: string -> nat,
                     sketchHash: (string, nat) -> nat)
    requires windowPct >= 0.0 && 0.0 <= probationPct < 1.0 && total >= 192 && Striped.SlotsFit(total)
    ensures var c := Striped.StartCache(total, windowPct, probationPct, route, sketchHash);
      var cfg := MakeConfig(Striped.PerStripe(total), windowPct, probationPct);
      && Striped.Ready(c) && 64 * cfg.capacity <= total
      && Followed(c, total, cfg, route, sketchHash, [])
  {
    hide MakeConfig;
    var c := Striped.StartCache(total, windowPct, probationPct, route, sketchHash);
    var cfg := MakeConfig(Striped.PerStripe(total), windowPct, probationPct);
    EmptyInv(cfg, sketchHash);
    assert forall i :: 0 <= i < 64 ==> c.stripes[i] == Empty(cfg, sketchHash);
    NobodyResident(c.stripes);
  }

  lemma {:induction false} NobodyResident(stripes: seq<Stripe>)
    requires forall s :: s in stripes ==> Size(s) == 0
    ensures Resident(stripes) == 0
  {
    if stripes != [] {
      NobodyResident(stripes[..|stripes| - 1]);
    }
  }
}
