/**
 One cache stripe as a value: Window, Probation and Protected lists (most recent first), the
 frequency sketch and the counters, with the operations as functions. `CacheStripe` proves that
 the linked implementation computes exactly these functions.
 */
module StripePolicy {
  import opened Types
  import opened Seqs
  import opened CountMinSketch

  datatype Config =
    Config(capacity: nat, windowCap: nat, mainCap: nat, probationCap: nat, protectedCap: nat, decayInterval: nat)

  function Max(a: nat, b: nat): nat {
    if a < b then b else a
  }

  function Portion(n: nat, pct: real): nat
    requires pct >= 0.0
  {
    (n as real * pct).Floor
  }

  lemma PortionBelow(n: nat, pct: real)
    requires 0.0 <= pct < 1.0 && n > 0
    ensures Portion(n, pct) < n
  {
    assert n as real * pct < n as real * 1.0;
  }

  function WindowCapacity(capacity: nat, windowPct: real): (w: nat)
    requires capacity >= 3 && windowPct >= 0.0
    ensures w < capacity - 2 || w == capacity / 4
  {
    var w := Max(3, Portion(capacity, windowPct));
    if w >= capacity - 2 then capacity / 4 else w
  }

  /** The constructor's capacity arithmetic, with the two fractions as exact reals. */
  function MakeConfig(capacity: nat, windowPct: real, probationPct: real): (c: Config)
    requires capacity >= 3 && windowPct >= 0.0 && 0.0 <= probationPct < 1.0
    ensures WellFormed(c) && c.capacity == capacity
    ensures c.windowCap == 0 <==> capacity == 3
  {
    var w := WindowCapacity(capacity, windowPct);
    var main := capacity - w;
    PortionBelow(main, probationPct);
    var probation := Max(1, Portion(main, probationPct));
    Config(capacity, w, main, probation, main - probation, capacity * 5)
  }

  /** `n` is the fraction `pct` of `whole`, rounded down, but at least `least`. */
  ghost predicate IsPortion(n: nat, whole: nat, pct: real, least: nat) {
    && n >= least && whole as real * pct < n as real + 1.0
    && (n as real <= whole as real * pct || n == least)
  }

  /**
   The capacities in terms of the fractions: the window is its fraction of the whole, at least 3, unless
   that would leave Main less than 3 places; then it is a quarter. Probation is its fraction of Main, at
   least 1. A decay is due after five puts per place.
   */
  lemma ConfigIsExact(capacity: nat, windowPct: real, probationPct: real)
    requires capacity >= 3 && windowPct >= 0.0 && 0.0 <= probationPct < 1.0
    ensures var c := MakeConfig(capacity, windowPct, probationPct);
      && (if capacity > 5 && capacity as real * windowPct < capacity as real - 2.0 then
            IsPortion(c.windowCap, capacity, windowPct, 3)
          else 4 * c.windowCap <= capacity < 4 * (c.windowCap + 1))
      && c.mainCap == capacity - c.windowCap
      && IsPortion(c.probationCap, c.mainCap, probationPct, 1)
      && c.protectedCap == c.mainCap - c.probationCap
      && c.decayInterval == 5 * capacity
  {
    var main := capacity - WindowCapacity(capacity, windowPct);
    PortionBelow(main, probationPct);
    PortionIs(capacity, windowPct);
    PortionIs(main, probationPct);
  }

  lemma PortionIs(n: nat, pct: real)
    requires pct >= 0.0
    ensures Portion(n, pct) as real <= n as real * pct < Portion(n, pct) as real + 1.0
  {
  }

  ghost predicate WellFormed(c: Config) {
    && c.windowCap + c.mainCap == c.capacity
    && c.probationCap + c.protectedCap == c.mainCap
    && c.mainCap >= 3 && c.protectedCap >= 1 && c.probationCap >= 1
    && c.decayInterval > 0
  }

  datatype Stripe = Stripe(
    cfg: Config,
    window: seq<Entry>, probation: seq<Entry>, protected: seq<Entry>,
    sketch: Sketch, opsSinceDecay: nat,
    hits: nat, misses: nat, evictions: nat, admissions: nat, rejections: nat)

  function Empty(cfg: Config, hash: (string, nat) -> nat): Stripe {
    Stripe(cfg, [], [], [], Fresh(4, 512, hash), 0, 0, 0, 0, 0, 0)
  }

  /** The position of `key`, or the length if it is absent. */
  function Find(l: seq<Entry>, key: string): (i: nat)
    ensures i <= |l|
    ensures i < |l| ==> l[i].key == key
    ensures forall j :: 0 <= j < i ==> l[j].key != key
  {
    if l == [] then 0 else if l[0].key == key then 0 else 1 + Find(l[1..], key)
  }

  predicate HasKey(l: seq<Entry>, key: string) {
    Find(l, key) < |l|
  }

  /** The keys of a list are unique. */
  ghost predicate UniqueKeys(l: seq<Entry>) {
    forall i, j :: 0 <= i < j < |l| ==> l[i].key != l[j].key
  }

  predicate Has(s: Stripe, key: string) {
    HasKey(s.window, key) || HasKey(s.probation, key) || HasKey(s.protected, key)
  }

  function Size(s: Stripe): nat {
    |s.window| + |s.probation| + |s.protected|
  }

  function Last<T>(l: seq<T>): T
    requires l != []
  {
    l[|l| - 1]
  }

  function Front<T>(l: seq<T>): seq<T>
    requires l != []
  {
    l[..|l| - 1]
  }

  /** `promote_to_protected`: a full Protected list gives its last entry back to Probation. */
  function Promote(s: Stripe, i: nat): Stripe
    requires i < |s.probation|
  {
    var e := s.probation[i];
    var rest := RemoveAt(s.probation, i);
    if |s.protected| >= s.cfg.protectedCap && s.protected != [] then
      s.(probation := [Last(s.protected)] + rest, protected := [e] + Front(s.protected))
    else
      s.(probation := rest, protected := [e] + s.protected)
  }

  /** What any hit does to the lists. */
  function Touch(s: Stripe, key: string): Stripe {
    if HasKey(s.window, key) then s.(window := ToFront(s.window, Find(s.window, key)))
    else if HasKey(s.probation, key) then Promote(s, Find(s.probation, key))
    else if HasKey(s.protected, key) then s.(protected := ToFront(s.protected, Find(s.protected, key)))
    else s
  }

  function SetIn(l: seq<Entry>, key: string, value: string): seq<Entry> {
    if HasKey(l, key) then l[Find(l, key) := Entry(key, value)] else l
  }

  function SetValue(s: Stripe, key: string, value: string): Stripe {
    if HasKey(s.window, key) then s.(window := SetIn(s.window, key, value))
    else if HasKey(s.probation, key) then s.(probation := SetIn(s.probation, key, value))
    else s.(protected := SetIn(s.protected, key, value))
  }

  function Lookup(s: Stripe, key: string): Option<string> {
    if HasKey(s.window, key) then Some(s.window[Find(s.window, key)].value)
    else if HasKey(s.probation, key) then Some(s.probation[Find(s.probation, key)].value)
    else if HasKey(s.protected, key) then Some(s.protected[Find(s.protected, key)].value)
    else None
  }

  ghost predicate SketchReady(s: Stripe) {
    ValidSketch(s.sketch)
  }

  datatype GetResult = GetResult(stripe: Stripe, value: Option<string>)

  /** A hit counts in the sketch; a miss leaves it alone. */
  function Get(s: Stripe, key: string): GetResult
    requires SketchReady(s)
  {
    if Has(s, key) then
      var t := Touch(s.(sketch := Increment(s.sketch, key)), key);
      GetResult(t.(hits := s.hits + 1), Lookup(s, key))
    else GetResult(s.(misses := s.misses + 1), None)
  }

  function MaybeDecay(s: Stripe): Stripe
    requires SketchReady(s)
  {
    if s.opsSinceDecay + 1 >= s.cfg.decayInterval then s.(sketch := Decay(s.sketch), opsSinceDecay := 0)
    else s.(opsSinceDecay := s.opsSinceDecay + 1)
  }

  /** Every put counts in the sketch and may trigger a decay. */
  function Count(s: Stripe, key: string): (r: Stripe)
    requires SketchReady(s)
    ensures SketchReady(r)
  {
    MaybeDecay(s.(sketch := Increment(s.sketch, key)))
  }

  datatype Outcome = Outcome(stripe: Stripe, demoted: seq<DemotionItem>)

  function DemotionOf(s: Stripe, e: Entry): DemotionItem
    requires SketchReady(s)
  {
    DemotionItem(e.key, e.value, Estimate(s.sketch, e.key))
  }

  /**
   `try_admit_from_window`: the last window entry enters Probation, for free or by beating its last entry, or is
   dropped.
   */
  function TryAdmit(s: Stripe): (o: Outcome)
    requires SketchReady(s)
    ensures SketchReady(o.stripe)
    ensures s.window != [] ==> |o.stripe.window| == |s.window| - 1 && o.stripe.cfg == s.cfg
  {
    if s.window == [] then Outcome(s, [])
    else
      var candidate := Last(s.window);
      var t := s.(window := Front(s.window));
      if |s.probation| + |s.protected| < s.cfg.mainCap then
        Outcome(t.(probation := [candidate] + s.probation, admissions := s.admissions + 1), [])
      else if s.probation == [] then
        Outcome(t.(rejections := s.rejections + 1), [])
      else
        var victim := Last(s.probation);
        if Estimate(s.sketch, candidate.key) > Estimate(s.sketch, victim.key) then
          Outcome(t.(probation := [candidate] + Front(s.probation), evictions := s.evictions + 1,
            admissions := s.admissions + 1),
                  [DemotionOf(s, victim)])
        else
          Outcome(t.(rejections := s.rejections + 1), [])
  }

  /** The overflow loop of `insert_into_window`. */
  function AdmitAll(s: Stripe): (o: Outcome)
    requires SketchReady(s)
    ensures SketchReady(o.stripe)
    decreases |s.window|
  {
    if |s.window| <= s.cfg.windowCap then Outcome(s, [])
    else
      var first := TryAdmit(s);
      var rest := AdmitAll(first.stripe);
      Outcome(rest.stripe, first.demoted + rest.demoted)
  }

  datatype PutResult = PutResult(stripe: Stripe, inserted: bool, demoted: seq<DemotionItem>)

  /** `slot` says whether the slab had a free slot when the put asked for one. */
  function Put(s: Stripe, key: string, value: string, slot: bool): PutResult
    requires SketchReady(s)
  {
    var t := Count(s, key);
    if Has(s, key) then PutResult(Touch(SetValue(t, key, value), key), false, [])
    else if !slot then PutResult(t, false, [])
    else
      var o := AdmitAll(t.(window := [Entry(key, value)] + t.window));
      PutResult(o.stripe, true, o.demoted)
  }

  datatype RemoveResult = RemoveResult(stripe: Stripe, removed: bool)

  function Remove(s: Stripe, key: string): RemoveResult {
    if HasKey(s.window, key) then RemoveResult(s.(window := RemoveAt(s.window, Find(s.window, key))), true)
    else if HasKey(s.probation, key) then
      RemoveResult(s.(probation := RemoveAt(s.probation, Find(s.probation, key))), true)
    else if HasKey(s.protected, key) then
      RemoveResult(s.(protected := RemoveAt(s.protected, Find(s.protected, key))), true)
    else RemoveResult(s, false)
  }
}
