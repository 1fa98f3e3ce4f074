/**
 Why 64 spare slots are enough. Stripes work concurrently: a put that inserts first takes a slot
 (`Begin`) and only later links its entry and frees what it displaces (`Finish`); in between, other
 stripes run. At most one operation is in flight per stripe, because the stripe's mutex is held.
 No put ever finds the slab empty if and only if the configured capacity is at least 192 and its sum
 with 64 fits in 32 bits.
 */
module SlabHeadroom {
  import opened Types
  import opened StripePolicy
  import opened StripeTheorems
  import opened StripedCache

  /** `waiting[i]` is the entry for which stripe `i` holds a slot that it has not linked yet. */
  datatype Shared = Shared(total: nat, route: string -> nat, stripes: seq<Stripe>, waiting: seq<Option<Entry>>)

  datatype Event =
    | Begin(stripe: nat, key: string, value: string)
    | Finish(stripe: nat)
    | GetEvent(stripe: nat, key: string)
    | RemoveEvent(stripe: nat, key: string)

  function Occupied(s: Stripe, w: Option<Entry>): nat {
    Size(s) + if w.Some? then 1 else 0
  }

  function OccupiedUpTo(stripes: seq<Stripe>, waiting: seq<Option<Entry>>, n: nat): nat
    requires n <= |stripes| && n <= |waiting|
  {
    if n == 0 then 0 else OccupiedUpTo(stripes, waiting, n - 1) + Occupied(stripes[n - 1], waiting[n - 1])
  }

  /** The number of free slots. */
  function FreeSlots(s: Shared): int
    requires |s.stripes| == |s.waiting| == NUM_STRIPES
  {
    SlabSlots(s.total) - OccupiedUpTo(s.stripes, s.waiting, NUM_STRIPES)
  }

  ghost predicate Coherent(s: Shared) {
    && |s.stripes| == |s.waiting| == NUM_STRIPES
    && forall i :: 0 <= i < NUM_STRIPES ==> StripeOk(s, i)
  }

  /** Stripe `i` is within its bounds and does not hold the key it is about to insert. */
  ghost predicate StripeOk(s: Shared, i: nat)
    requires i < |s.stripes| && i < |s.waiting|
  {
    && Inv(s.stripes[i]) && s.stripes[i].cfg.capacity == PerStripe(s.total)
    && (s.waiting[i].Some? ==> !Has(s.stripes[i], s.waiting[i].value.key))
  }

  /** Keys go to their own stripe, and its mutex is free, except for the put that holds it. */
  ghost predicate Possible(s: Shared, e: Event)
    requires Coherent(s)
  {
    && e.stripe < NUM_STRIPES
    && (!e.Finish? ==> s.route(e.key) % NUM_STRIPES == e.stripe)
    && (e.Finish? <==> s.waiting[e.stripe].Some?)
  }

  /** A put asks the slab for a slot and there is none. */
  ghost predicate Starved(s: Shared, e: Event)
    requires Coherent(s)
  {
    Possible(s, e) && e.Begin? && !Has(s.stripes[e.stripe], e.key) && FreeSlots(s) <= 0
  }

  function Set(s: Shared, i: nat, t: Stripe, w: Option<Entry>): Shared
    requires i < |s.stripes| && i < |s.waiting|
  {
    s.(stripes := s.stripes[i := t], waiting := s.waiting[i := w])
  }

  /** The linking half of an insertion, with what it demotes. */
  function LinkOutcome(s: Stripe, e: Entry): Outcome
    requires SketchReady(s)
  {
    AdmitAll(s.(window := [e] + s.window))
  }

  function Link(s: Stripe, e: Entry): Stripe
    requires SketchReady(s)
  {
    LinkOutcome(s, e).stripe
  }

  ghost function Step(s: Shared, e: Event): Shared
    requires Coherent(s) && Possible(s, e)
  {
    var t := s.stripes[e.stripe];
    assert StripeOk(s, e.stripe);
    match e
    case Begin(i, k, v) =>
      if Has(t, k) then Set(s, i, Put(t, k, v, true).stripe, None)
      else if FreeSlots(s) <= 0 then Set(s, i, Count(t, k), None)
      else Set(s, i, Count(t, k), Some(Entry(k, v)))
    case Finish(i) => Set(s, i, Link(t, s.waiting[i].value), None)
    case GetEvent(i, k) => Set(s, i, Get(t, k).stripe, None)
    case RemoveEvent(i, k) => Set(s, i, Remove(t, k).stripe, None)
  }

  function Start(total: nat, route: string -> nat, windowPct: real, probationPct: real,
                 hash: (string, nat) -> nat): Shared
    requires windowPct >= 0.0 && 0.0 <= probationPct < 1.0
  {
    var stripe := Empty(MakeConfig(PerStripe(total), windowPct, probationPct), hash);
    Shared(total, route, seq(NUM_STRIPES, _ => stripe), seq(NUM_STRIPES, _ => None))
  }

  /** `s'` is reached from `s` by the events, each possible in its turn. */
  ghost predicate Reaches(s: Shared, es: seq<Event>, s': Shared)
    decreases |es|
  {
    Coherent(s) &&
    if es == [] then s == s'
    else Possible(s, es[0]) && Reaches(Step(s, es[0]), es[1..], s')
  }

  // ----- Two halves make a put

  /** Counting first and linking later is the same as a put that is never interrupted. */
  lemma HalvesMakeAPut(s: Stripe, key: string, value: string)
    requires Inv(s) && !Has(s, key)
    ensures SketchReady(Count(s, key))
    ensures var p := Put(s, key, value, true); var o := LinkOutcome(Count(s, key), Entry(key, value));
      o.stripe == p.stripe && o.demoted == p.demoted && p.inserted
  {
  }

  /** The state that linking runs the overflow loop on. */
  function Joined(s: Stripe, e: Entry): Stripe {
    s.(window := [e] + s.window)
  }

  lemma LinkIs(s: Stripe, e: Entry)
    requires Inv(s)
    ensures Link(s, e) == if |s.window| < s.cfg.windowCap then Joined(s, e) else TryAdmit(Joined(s, e)).stripe
  {
    if |s.window| >= s.cfg.windowCap {
      OneAdmission(Joined(s, e));
    }
  }

  lemma JoinedBag(s: Stripe, e: Entry)
    requires Inv(s) && !Has(s, e.key)
    ensures Bag(Joined(s, e)) == Bag(s) + multiset{e} && Unique(Bag(Joined(s, e)))
  {
    assert multiset([e] + s.window) == multiset{e} + multiset(s.window);
    LookupMeans(s, e.key, "");
    InsertUnique(Bag(s), e);
  }

  lemma LinkEntries(s: Stripe, e: Entry)
    requires Inv(s) && !Has(s, e.key)
    ensures Unique(Bag(Link(s, e))) && Bag(Link(s, e)) <= Bag(s) + multiset{e}
  {
    LinkIs(s, e);
    JoinedBag(s, e);
    if |s.window| >= s.cfg.windowCap {
      TryAdmitEffect(Joined(s, e));
      SubUnique(Bag(Joined(s, e)), Bag(Link(s, e)));
    }
  }

  lemma LinkKeepsInv(s: Stripe, e: Entry)
    requires Inv(s) && !Has(s, e.key)
    ensures Inv(Link(s, e)) && Link(s, e).cfg == s.cfg
    ensures Size(Link(s, e)) == (if Size(s) < s.cfg.capacity then Size(s) + 1 else Size(s))
    ensures Bag(Link(s, e)) <= Bag(s) + multiset{e}
  {
    hide StripeTheorems.Unique, StripeTheorems.Bag, StripePolicy.TryAdmit, Link;
    LinkIs(s, e);
    LinkEntries(s, e);
    if |s.window| >= s.cfg.windowCap {
      TryAdmitEffect(Joined(s, e));
    }
  }

  lemma CountKeepsInv(s: Stripe, key: string)
    requires Inv(s)
    ensures Inv(Count(s, key)) && Count(s, key).cfg == s.cfg && Bag(Count(s, key)) == Bag(s)
    ensures Size(Count(s, key)) == Size(s) && forall k :: Has(Count(s, key), k) == Has(s, k)
  {
    CountEffect(s, key);
  }

  lemma SetCoherent(s: Shared, i: nat, t: Stripe, w: Option<Entry>)
    requires Coherent(s) && i < NUM_STRIPES
    requires Inv(t) && t.cfg == s.stripes[i].cfg && (w.Some? ==> !Has(t, w.value.key))
    ensures Coherent(Set(s, i, t, w))
  {
    var s' := Set(s, i, t, w);
    forall j | 0 <= j < NUM_STRIPES ensures StripeOk(s', j) {
      assert StripeOk(s, j);
    }
  }

  lemma StepKeepsCoherent(s: Shared, e: Event)
    requires Coherent(s) && Possible(s, e)
    ensures Coherent(Step(s, e)) && Step(s, e).total == s.total && Step(s, e).route == s.route
  {
    var t := s.stripes[e.stripe];
    assert StripeOk(s, e.stripe);
    match e
    case Begin(i, k, v) =>
      CountKeepsInv(t, k);
      if Has(t, k) {
        PutHitKeepsInv(t, k, v, true);
        SetCoherent(s, i, Put(t, k, v, true).stripe, None);
      } else {
        SetCoherent(s, i, Count(t, k), None);
        SetCoherent(s, i, Count(t, k), Some(Entry(k, v)));
      }
    case Finish(i) =>
      LinkKeepsInv(t, s.waiting[i].value);
      SetCoherent(s, i, Link(t, s.waiting[i].value), None);
    case GetEvent(i, k) =>
      GetKeepsInv(t, k);
      SetCoherent(s, i, Get(t, k).stripe, None);
    case RemoveEvent(i, k) =>
      RemoveKeepsInv(t, k);
      SetCoherent(s, i, Remove(t, k).stripe, None);
  }

  // ----- Enough capacity: no put starves

  /** A stripe occupies at most its capacity, and one more while it holds an unlinked slot. */
  lemma {:induction false} OccupiedBound(s: Shared, n: nat, idle: nat)
    requires Coherent(s) && n <= NUM_STRIPES && idle < NUM_STRIPES && s.waiting[idle].None?
    ensures OccupiedUpTo(s.stripes, s.waiting, n) <= n * (PerStripe(s.total) + 1) - (if idle < n then 1 else 0)
  {
    if n > 0 {
      OccupiedBound(s, n - 1, idle);
      assert StripeOk(s, n - 1);
      assert n * (PerStripe(s.total) + 1) == (n - 1) * (PerStripe(s.total) + 1) + (PerStripe(s.total) + 1);
    }
  }

  lemma NeverStarved(s: Shared, e: Event)
    requires Coherent(s) && Possible(s, e) && s.total >= 192 && SlotsFit(s.total)
    ensures !Starved(s, e)
  {
    if e.Begin? {
      OccupiedBound(s, NUM_STRIPES, e.stripe);
    }
  }

  lemma {:induction false} ReachedCoherent(s: Shared, es: seq<Event>, s': Shared)
    requires Reaches(s, es, s')
    ensures Coherent(s') && s'.total == s.total
    decreases |es|
  {
    if es != [] {
      StepKeepsCoherent(s, es[0]);
      ReachedCoherent(Step(s, es[0]), es[1..], s');
    }
  }

  /** With capacity 192 or more and no wrap-around, in no reachable state does a put find the slab empty. */
  lemma HeadroomSuffices(total: nat, route: string -> nat, windowPct: real, probationPct: real,
                         hash: (string, nat) -> nat, es: seq<Event>, s: Shared, e: Event)
    requires windowPct >= 0.0 && 0.0 <= probationPct < 1.0 && total >= 192 && SlotsFit(total)
    requires Reaches(Start(total, route, windowPct, probationPct, hash), es, s)
    ensures Coherent(s) && !Starved(s, e)
  {
    ReachedCoherent(Start(total, route, windowPct, probationPct, hash), es, s);
    if Possible(s, e) {
      NeverStarved(s, e);
    }
  }

  // ----- Less capacity: a put can starve

  /** Four different keys for every stripe. */
  ghost predicate KeysPerStripe(route: string -> nat, keys: (nat, nat) -> string) {
    && (forall i, j :: 0 <= i < NUM_STRIPES && 0 <= j < 4 ==> route(keys(i, j)) % NUM_STRIPES == i)
    && forall i, j, k :: 0 <= i < NUM_STRIPES && 0 <= j < k < 4 ==> keys(i, j) != keys(i, k)
  }

  function Clamp(n: int): nat {
    if n < 0 then 0 else if n > 3 then 3 else n
  }

  /** Stripe `i` when `n` slots have been taken: fill the stripes in turn, then leave one insertion hanging in each. */
  ghost predicate FilledStripe(s: Shared, n: nat, keys: (nat, nat) -> string, i: nat)
    requires i < |s.stripes| && i < |s.waiting|
  {
    && Size(s.stripes[i]) == Clamp(n - 3 * i)
    && (s.waiting[i].Some? <==> 192 + i < n)
    && forall e :: e in Bag(s.stripes[i]) ==> exists j :: 0 <= j < Clamp(n - 3 * i) && e.key == keys(i, j)
  }

  ghost predicate Filled(s: Shared, n: nat, keys: (nat, nat) -> string) {
    && Coherent(s) && PerStripe(s.total) >= 3
    && OccupiedUpTo(s.stripes, s.waiting, NUM_STRIPES) == n
    && forall i :: 0 <= i < NUM_STRIPES ==> FilledStripe(s, n, keys, i)
  }

  lemma {:induction false} OccupiedSet(stripes: seq<Stripe>, waiting: seq<Option<Entry>>, i: nat, t: Stripe,
                                       w: Option<Entry>, n: nat)
    requires n <= |stripes| == |waiting| && i < |stripes|
    ensures OccupiedUpTo(stripes[i := t], waiting[i := w], n) ==
            OccupiedUpTo(stripes, waiting, n) + (if i < n then Occupied(t, w) - Occupied(stripes[i], waiting[i]) else 0)
  {
    if n > 0 {
      OccupiedSet(stripes, waiting, i, t, w, n - 1);
    }
  }

  lemma {:induction false} OccupiedEmpty(s: Shared, n: nat)
    requires n <= |s.stripes| == |s.waiting|
    requires forall i :: 0 <= i < n ==> Size(s.stripes[i]) == 0 && s.waiting[i].None?
    ensures OccupiedUpTo(s.stripes, s.waiting, n) == 0
  {
    if n > 0 {
      OccupiedEmpty(s, n - 1);
    }
  }

  /** A key that the stripe has not been given is not resident. */
  lemma NextKeyAbsent(s: Shared, n: nat, keys: (nat, nat) -> string, i: nat, j: nat)
    requires Filled(s, n, keys) && KeysPerStripe(s.route, keys) && i < NUM_STRIPES && Clamp(n - 3 * i) <= j < 4
    ensures !Has(s.stripes[i], keys(i, j))
  {
    assert FilledStripe(s, n, keys, i) && StripeOk(s, i);
    LookupMeans(s.stripes[i], keys(i, j), "");
    forall e | e in Bag(s.stripes[i]) ensures e.key != keys(i, j) {
      var k :| 0 <= k < Clamp(n - 3 * i) && e.key == keys(i, k);
    }
  }

  /** Which stripe, and which of its keys, takes the next slot. */
  function NextStripe(n: nat): (i: nat)
    ensures n <= 255 ==> i < NUM_STRIPES
  {
    if n < 192 then n / 3 else n - 192
  }

  function NextKey(n: nat): (j: nat)
    ensures j < 4
    ensures n <= 255 ==> Clamp(n - 3 * NextStripe(n)) == j
  {
    if n < 192 then n % 3 else 3
  }

  lemma OthersStay(n: nat, i: nat)
    requires n < 255 && i < NUM_STRIPES && i != NextStripe(n)
    ensures Clamp(n + 1 - 3 * i) == Clamp(n - 3 * i)
    ensures 192 + i < n <==> 192 + i < n + 1
  {
  }

  /** Changing one stripe as the filling order asks keeps the picture, one slot later. */
  lemma FilledNext(s: Shared, n: nat, keys: (nat, nat) -> string, t: Stripe, w: Option<Entry>)
    requires Filled(s, n, keys) && n < 255
    requires var i := NextStripe(n); var s' := Set(s, i, t, w);
      Coherent(s') && FilledStripe(s', n + 1, keys, i) && Occupied(t, w) == Occupied(s.stripes[i], s.waiting[i]) + 1
    ensures Filled(Set(s, NextStripe(n), t, w), n + 1, keys)
  {
    var i, m := NextStripe(n), n + 1;
    var s' := Set(s, i, t, w);
    OccupiedSet(s.stripes, s.waiting, i, t, w, NUM_STRIPES);
    forall j | 0 <= j < NUM_STRIPES ensures FilledStripe(s', m, keys, j) {
      if j != i {
        assert FilledStripe(s, n, keys, j);
        OthersStay(n, j);
      }
    }
  }

  /** The stripe and the shared state after the next insertion has taken its slot. */
  function Begun(s: Shared, n: nat, keys: (nat, nat) -> string): Stripe
    requires |s.stripes| == NUM_STRIPES && n < 255
    requires ValidSketchAt(s, NextStripe(n))
  {
    Count(s.stripes[NextStripe(n)], keys(NextStripe(n), NextKey(n)))
  }

  ghost predicate ValidSketchAt(s: Shared, i: nat)
    requires i < |s.stripes|
  {
    SketchReady(s.stripes[i])
  }

  function NextEntry(n: nat, keys: (nat, nat) -> string): Entry {
    Entry(keys(NextStripe(n), NextKey(n)), "")
  }

  lemma BeginNext(s: Shared, n: nat, keys: (nat, nat) -> string)
    requires Filled(s, n, keys) && KeysPerStripe(s.route, keys) && n < 255 && n < SlabSlots(s.total)
    ensures var i := NextStripe(n); var e := NextEntry(n, keys); var t := s.stripes[i];
      && Possible(s, Begin(i, e.key, "")) && ValidSketchAt(s, i) && s.waiting[i].None?
      && var u := Begun(s, n, keys);
      && Step(s, Begin(i, e.key, "")) == Set(s, i, u, Some(e))
      && Coherent(Set(s, i, u, Some(e)))
      && Inv(u) && u.cfg == t.cfg && t.cfg.capacity >= 3 && Bag(u) == Bag(t) && Size(u) == Size(t) && !Has(u, e.key)
  {
    var i, j := NextStripe(n), NextKey(n);
    assert StripeOk(s, i) && FilledStripe(s, n, keys, i);
    NextKeyAbsent(s, n, keys, i, j);
    CountKeepsInv(s.stripes[i], keys(i, j));
    StepKeepsCoherent(s, Begin(i, keys(i, j), ""));
  }

  /** A whole put on a stripe that is not full yet. */
  lemma FillOne(s: Shared, n: nat, keys: (nat, nat) -> string) returns (s': Shared, es: seq<Event>)
    requires Filled(s, n, keys) && KeysPerStripe(s.route, keys) && n < 192 && n < SlabSlots(s.total)
    ensures Reaches(s, es, s') && Filled(s', n + 1, keys) && s'.total == s.total && s'.route == s.route
  {
    hide StripePolicy.Count, StripeTheorems.Inv, StripeTheorems.Bag, StripePolicy.Size, StripePolicy.Has;
    BeginNext(s, n, keys);
    var i, e := NextStripe(n), NextEntry(n, keys);
    var mid := Set(s, i, Begun(s, n, keys), Some(e));
    s' := FinishNext(s, n, keys, mid);
    es := [Begin(i, e.key, ""), Finish(i)];
    ReachesTwo(s, Begin(i, e.key, ""), mid, Finish(i), s');
  }

  lemma ReachesTwo(s: Shared, a: Event, mid: Shared, b: Event, s': Shared)
    requires Coherent(s) && Possible(s, a) && Step(s, a) == mid && Coherent(mid) && Possible(mid, b)
      && Step(mid, b) == s' && Coherent(s')
    ensures Reaches(s, [a, b], s')
  {
    assert [a, b][1..] == [b] && [b][1..] == [];
    assert Reaches(mid, [b], s');
  }

  lemma ReachesOne(s: Shared, a: Event, s': Shared)
    requires Coherent(s) && Possible(s, a) && Step(s, a) == s' && Coherent(s')
    ensures Reaches(s, [a], s')
  {
    assert [a][1..] == [];
  }

  lemma FinishNext(s: Shared, n: nat, keys: (nat, nat) -> string, mid: Shared) returns (s': Shared)
    requires Filled(s, n, keys) && KeysPerStripe(s.route, keys) && n < 192 && n < SlabSlots(s.total)
    requires ValidSketchAt(s, NextStripe(n))
      && mid == Set(s, NextStripe(n), Begun(s, n, keys), Some(NextEntry(n, keys)))
    ensures var i := NextStripe(n);
      && Coherent(mid) && Possible(mid, Finish(i)) && s' == Step(mid, Finish(i))
      && Filled(s', n + 1, keys) && s'.total == s.total && s'.route == s.route
  {
    hide StripePolicy.Count, StripePolicy.Has, StripeTheorems.Unique, StripeTheorems.Bag, Link, FilledStripe;
    BeginNext(s, n, keys);
    var i, e := NextStripe(n), NextEntry(n, keys);
    var c := Begun(s, n, keys);
    HasRoom(s, n, keys);
    LinkKeepsInv(c, e);
    var u := Link(c, e);
    StepKeepsCoherent(mid, Finish(i));
    s' := Step(mid, Finish(i));
    assert s' == Set(s, i, u, None);
    LinkedIsFilled(s, n, keys, u);
    FilledNext(s, n, keys, u, None);
  }

  lemma HasRoom(s: Shared, n: nat, keys: (nat, nat) -> string)
    requires Filled(s, n, keys) && n < 192
    ensures var i := NextStripe(n); Size(s.stripes[i]) < 3 && s.waiting[i].None?
  {
    assert FilledStripe(s, n, keys, NextStripe(n));
  }

  lemma LinkedIsFilled(s: Shared, n: nat, keys: (nat, nat) -> string, u: Stripe)
    requires Filled(s, n, keys) && n < 192
    requires var i := NextStripe(n); var e := NextEntry(n, keys);
      Size(u) == Size(s.stripes[i]) + 1 && Bag(u) <= Bag(s.stripes[i]) + multiset{e}
    ensures FilledStripe(Set(s, NextStripe(n), u, None), n + 1, keys, NextStripe(n))
  {
    hide StripeTheorems.Bag, StripePolicy.Size, Inv;
    var i := NextStripe(n);
    assert FilledStripe(s, n, keys, i);
    LinkedKeys(s.stripes[i], u, NextEntry(n, keys), keys, i, NextKey(n));
  }

  lemma LinkedKeys(t: Stripe, u: Stripe, e: Entry, keys: (nat, nat) -> string, i: nat, j: nat)
    requires forall x :: x in Bag(t) ==> exists k :: 0 <= k < j && x.key == keys(i, k)
    requires Bag(u) <= Bag(t) + multiset{e} && e.key == keys(i, j)
    ensures forall x :: x in Bag(u) ==> exists k :: 0 <= k < j + 1 && x.key == keys(i, k)
  {
    forall x | x in Bag(u) ensures exists k :: 0 <= k < j + 1 && x.key == keys(i, k) {
      if x in Bag(t) {
        var k :| 0 <= k < j && x.key == keys(i, k);
      } else {
        assert x == e;
      }
    }
  }

  /** Half a put on a full stripe. */
  lemma HangOne(s: Shared, n: nat, keys: (nat, nat) -> string) returns (s': Shared, es: seq<Event>)
    requires Filled(s, n, keys) && KeysPerStripe(s.route, keys) && 192 <= n < 255 && n < SlabSlots(s.total)
    ensures Reaches(s, es, s') && Filled(s', n + 1, keys) && s'.total == s.total && s'.route == s.route
  {
    hide StripePolicy.Count, StripePolicy.Has;
    BeginNext(s, n, keys);
    var i, e := NextStripe(n), NextEntry(n, keys);
    s' := Set(s, i, Begun(s, n, keys), Some(e));
    assert FilledStripe(s, n, keys, i);
    assert FilledStripe(s', n + 1, keys, i);
    FilledNext(s, n, keys, Begun(s, n, keys), Some(e));
    es := [Begin(i, e.key, "")];
    ReachesOne(s, Begin(i, e.key, ""), s');
  }

  lemma {:induction false} ReachesConcat(a: Shared, es: seq<Event>, b: Shared, fs: seq<Event>, c: Shared)
    requires Reaches(a, es, b) && Reaches(b, fs, c)
    ensures Reaches(a, es + fs, c)
    decreases |es|
  {
    hide Coherent, Possible, Step;
    if es == [] {
      assert es + fs == fs;
    } else {
      assert (es + fs)[1..] == es[1..] + fs;
      ReachesConcat(Step(a, es[0]), es[1..], b, fs, c);
    }
  }

  lemma {:induction false} FillMany(start: Shared, n: nat, keys: (nat, nat) -> string)
    returns (s: Shared, es: seq<Event>)
    requires Filled(start, 0, keys) && KeysPerStripe(start.route, keys) && n <= 255 && n <= SlabSlots(start.total)
    ensures Reaches(start, es, s) && Filled(s, n, keys) && s.total == start.total && s.route == start.route
  {
    if n == 0 {
      s, es := start, [];
    } else {
      hide Filled, KeysPerStripe, SlabSlots;
      var before, fs := FillMany(start, n - 1, keys);
      var gs;
      if n - 1 < 192 {
        s, gs := FillOne(before, n - 1, keys);
      } else {
        s, gs := HangOne(before, n - 1, keys);
      }
      es := fs + gs;
      ReachesConcat(start, fs, before, gs, s);
    }
  }

  /** Some run of the cache leads to a state in which a put finds the slab empty. */
  ghost predicate CanStarve(total: nat, route: string -> nat, windowPct: real, probationPct: real,
                            hash: (string, nat) -> nat)
    requires windowPct >= 0.0 && 0.0 <= probationPct < 1.0
  {
    exists es, s, e ::
      Reaches(Start(total, route, windowPct, probationPct, hash), es, s) && Coherent(s) && Starved(s, e)
  }

  /**
   With less than 192, or with a sum that wraps around, there is a run after which a put finds the slab empty. Where
   the sum wraps to 0 no cache is ever built.
   */
  lemma HeadroomIsNeeded(total: nat, route: string -> nat, windowPct: real, probationPct: real,
                         hash: (string, nat) -> nat, keys: (nat, nat) -> string)
    requires windowPct >= 0.0 && 0.0 <= probationPct < 1.0 && total < WORD32 && KeysPerStripe(route, keys)
    requires SlabSlots(total) > 0 && (total < 192 || !SlotsFit(total))
    ensures CanStarve(total, route, windowPct, probationPct, hash)
  {
    hide Filled, Starved, Coherent, KeysPerStripe;
    var start := Start(total, route, windowPct, probationPct, hash);
    StartFilled(total, route, windowPct, probationPct, hash, keys);
    var n := SlabSlots(total);
    assert n <= 255;
    var s, es := FillMany(start, n, keys);
    FilledStarves(s, n, keys);
  }

  /** When every slot is taken, the next put of the filling order starves. */
  lemma FilledStarves(s: Shared, n: nat, keys: (nat, nat) -> string)
    requires Filled(s, n, keys) && KeysPerStripe(s.route, keys) && n == SlabSlots(s.total) && n <= 255
    ensures Coherent(s) && Starved(s, Begin(NextStripe(n), keys(NextStripe(n), NextKey(n)), ""))
  {
    hide StripeTheorems.Inv, StripePolicy.Has, StripeTheorems.Bag;
    var i, j := NextStripe(n), NextKey(n);
    assert FilledStripe(s, n, keys, i);
    NextKeyAbsent(s, n, keys, i, j);
  }

  lemma StartFilled(total: nat, route: string -> nat, windowPct: real, probationPct: real, hash: (string, nat) -> nat,
                    keys: (nat, nat) -> string)
    requires windowPct >= 0.0 && 0.0 <= probationPct < 1.0
    ensures Filled(Start(total, route, windowPct, probationPct, hash), 0, keys)
  {
    var s := Start(total, route, windowPct, probationPct, hash);
    EmptyInv(MakeConfig(PerStripe(total), windowPct, probationPct), hash);
    forall i | 0 <= i < NUM_STRIPES ensures StripeOk(s, i) && FilledStripe(s, 0, keys, i) {
    }
    OccupiedEmpty(s, NUM_STRIPES);
  }

  /** The slab can run dry exactly for these capacities. */
  lemma HeadroomIsExact(total: nat, route: string -> nat, windowPct: real, probationPct: real,
                        hash: (string, nat) -> nat, keys: (nat, nat) -> string)
    requires windowPct >= 0.0 && 0.0 <= probationPct < 1.0 && total < WORD32 && KeysPerStripe(route, keys)
    requires SlabSlots(total) > 0
    ensures CanStarve(total, route, windowPct, probationPct, hash) <==> total < 192 || !SlotsFit(total)
  {
    if total < 192 || !SlotsFit(total) {
      HeadroomIsNeeded(total, route, windowPct, probationPct, hash, keys);
    } else {
      forall es, s, e | Reaches(Start(total, route, windowPct, probationPct, hash), es, s) && Coherent(s)
        ensures !Starved(s, e)
      {
        HeadroomSuffices(total, route, windowPct, probationPct, hash, es, s, e);
      }
    }
  }
}
