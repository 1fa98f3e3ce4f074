/** What every operation of a stripe keeps, and what whole runs of operations guarantee. */
module StripeTheorems {
  import opened Types
  import opened Seqs
  import opened CountMinSketch
  import opened StripePolicy

  /** All resident entries, whatever their segment. */
  ghost function Bag(s: Stripe): multiset<Entry> {
    multiset(s.window) + multiset(s.probation) + multiset(s.protected)
  }

  /** No key occurs twice. */
  ghost predicate Unique(b: multiset<Entry>) {
    forall e, f :: e in b && f in b && e.key == f.key ==> e == f && b[e] == 1
  }

  ghost predicate Inv(s: Stripe) {
    && WellFormed(s.cfg) && ValidSketch(s.sketch)
    && Unique(Bag(s))
    && |s.window| <= s.cfg.windowCap
    && |s.protected| <= s.cfg.protectedCap
    && |s.probation| + |s.protected| <= s.cfg.mainCap
    && s.opsSinceDecay < s.cfg.decayInterval
  }

  // ----- Sequences as bags

  lemma RemoveAtBag<T>(l: seq<T>, i: nat)
    requires i < |l|
    ensures multiset(l) == multiset(RemoveAt(l, i)) + multiset{l[i]}
    ensures multiset(ToFront(l, i)) == multiset(l)
  {
    assert l == l[..i] + ([l[i]] + l[i + 1..]);
  }

  lemma FrontBag<T>(l: seq<T>)
    requires l != []
    ensures multiset(l) == multiset(Front(l)) + multiset{Last(l)}
  {
    assert l == Front(l) + [Last(l)];
  }

  lemma UpdateBag<T>(l: seq<T>, i: nat, x: T)
    requires i < |l|
    ensures multiset(l[i := x]) == multiset(l) - multiset{l[i]} + multiset{x}
  {
    assert l == l[..i] + ([l[i]] + l[i + 1..]);
    assert l[i := x] == l[..i] + ([x] + l[i + 1..]);
  }

  /** Looking a key up in a list. */
  lemma FindMeans(l: seq<Entry>, key: string)
    ensures HasKey(l, key) <==> exists e :: e in l && e.key == key
    ensures HasKey(l, key) ==> l[Find(l, key)] in l
  {
    if e :| e in l && e.key == key {
      var j :| 0 <= j < |l| && l[j] == e;
      assert !(j < Find(l, key));
    }
  }

  /** With unique keys, lookup is membership. */
  lemma LookupMeans(s: Stripe, key: string, value: string)
    requires Unique(Bag(s))
    ensures Lookup(s, key) == Some(value) <==> Entry(key, value) in Bag(s)
    ensures Has(s, key) <==> Lookup(s, key).Some?
    ensures Has(s, key) <==> exists e :: e in Bag(s) && e.key == key
  {
    FindMeans(s.window, key);
    FindMeans(s.probation, key);
    FindMeans(s.protected, key);
    if Lookup(s, key).Some? {
      assert Entry(key, Lookup(s, key).value) in Bag(s);
    }
  }

  // ----- The list moves

  lemma PromoteEffect(s: Stripe, i: nat)
    requires i < |s.probation|
    ensures Bag(Promote(s, i)) == Bag(s) && Size(Promote(s, i)) == Size(s)
  {
    RemoveAtBag(s.probation, i);
    PrefixBag(s.probation[i], s.protected);
    if s.protected != [] {
      FrontBag(s.protected);
      PrefixBag(s.probation[i], Front(s.protected));
      PrefixBag(Last(s.protected), RemoveAt(s.probation, i));
    }
  }

  /** A hit only reorders: nothing enters, leaves or changes value, and the bounds stay. */
  lemma TouchEffect(s: Stripe, key: string)
    ensures var t := Touch(s, key);
      && Bag(t) == Bag(s) && Size(t) == Size(s) && |t.window| == |s.window|
      && |t.probation| + |t.protected| == |s.probation| + |s.protected|
      && (1 <= s.cfg.protectedCap && |s.protected| <= s.cfg.protectedCap ==> |t.protected| <= s.cfg.protectedCap)
      && t == s.(window := t.window, probation := t.probation, protected := t.protected)
  {
    if HasKey(s.window, key) {
      RemoveAtBag(s.window, Find(s.window, key));
    } else if HasKey(s.probation, key) {
      PromoteEffect(s, Find(s.probation, key));
    } else if HasKey(s.protected, key) {
      RemoveAtBag(s.protected, Find(s.protected, key));
    }
  }

  /** Replacing the value of a key in one list, seen in the bag of all entries. */
  lemma SetInEffect(l: seq<Entry>, key: string, value: string, rest: multiset<Entry>)
    requires HasKey(l, key)
    ensures |SetIn(l, key, value)| == |l|
    ensures var previous := Entry(key, l[Find(l, key)].value); var all := multiset(l) + rest;
      && previous in all
         && multiset(SetIn(l, key, value)) + rest == all - multiset{previous} + multiset{Entry(key, value)}
  {
    var previous := l[Find(l, key)];
    assert previous == Entry(key, previous.value);
    UpdateBag(l, Find(l, key), Entry(key, value));
    ReplacePart(multiset(l), rest, previous, Entry(key, value));
  }

  lemma SetValueEffect(s: Stripe, key: string, value: string)
    requires Has(s, key)
    ensures var t := SetValue(s, key, value);
      && Lookup(s, key).Some? && Entry(key, Lookup(s, key).value) in Bag(s)
      && Bag(t) == Bag(s) - multiset{Entry(key, Lookup(s, key).value)} + multiset{Entry(key, value)}
      && |t.window| == |s.window| && |t.probation| == |s.probation| && |t.protected| == |s.protected|
      && t == s.(window := t.window, probation := t.probation, protected := t.protected)
  {
    hide StripePolicy.Find, StripePolicy.SetIn;
    var w, p, q := multiset(s.window), multiset(s.probation), multiset(s.protected);
    if HasKey(s.window, key) {
      SetInEffect(s.window, key, value, p + q);
      assert Bag(s) == w + (p + q);
      assert Bag(SetValue(s, key, value)) == multiset(SetIn(s.window, key, value)) + (p + q);
    } else if HasKey(s.probation, key) {
      SetInEffect(s.probation, key, value, w + q);
      assert Bag(s) == p + (w + q);
      assert Bag(SetValue(s, key, value)) == multiset(SetIn(s.probation, key, value)) + (w + q);
    } else {
      SetInEffect(s.protected, key, value, w + p);
      assert Bag(s) == q + (w + p);
      assert Bag(SetValue(s, key, value)) == multiset(SetIn(s.protected, key, value)) + (w + p);
    }
  }

  lemma ReplacePart(part: multiset<Entry>, rest: multiset<Entry>, previous: Entry, replacement: Entry)
    requires previous in part
    ensures part - multiset{previous} + multiset{replacement} + rest ==
      part + rest - multiset{previous} + multiset{replacement}
  {
  }

  lemma ReplaceUnique(b: multiset<Entry>, previous: Entry, replacement: Entry)
    requires Unique(b) && previous in b && previous.key == replacement.key
    ensures Unique(b - multiset{previous} + multiset{replacement})
  {
    var c := b - multiset{previous} + multiset{replacement};
    forall e, f | e in c && f in c && e.key == f.key ensures e == f && c[e] == 1 {
      if e != replacement { assert e in b; }
      if f != replacement { assert f in b; }
    }
  }

  lemma InsertUnique(b: multiset<Entry>, e: Entry)
    requires Unique(b) && forall f :: f in b ==> f.key != e.key
    ensures Unique(b + multiset{e})
  {
  }

  lemma SubUnique(b: multiset<Entry>, c: multiset<Entry>)
    requires Unique(b) && c <= b
    ensures Unique(c)
  {
    forall e, f | e in c && f in c && e.key == f.key ensures e == f && c[e] == 1 {
      assert e in b && f in b;
    }
  }

  /** `maybe_decay_cms` keeps the decay counter in range and touches nothing but the sketch. */
  lemma CountEffect(s: Stripe, key: string)
    requires ValidSketch(s.sketch) && s.cfg.decayInterval > 0 && s.opsSinceDecay < s.cfg.decayInterval
    ensures var t := Count(s, key);
      && ValidSketch(t.sketch) && t.opsSinceDecay < s.cfg.decayInterval
      && t == s.(sketch := t.sketch, opsSinceDecay := t.opsSinceDecay)
  {
  }

  // ----- Admission

  /** The entry that an overflowing insertion throws away: the rejected candidate or the evicted victim. */
  function Lost(s: Stripe): seq<Entry>
    requires SketchReady(s)
  {
    if s.window == [] || |s.probation| + |s.protected| < s.cfg.mainCap then []
    else if s.probation == [] then [Last(s.window)]
    else if Estimate(s.sketch, Last(s.window).key) > Estimate(s.sketch, Last(s.probation).key) then [Last(s.probation)]
    else [Last(s.window)]
  }

  lemma TryAdmitEffect(s: Stripe)
    requires SketchReady(s) && s.window != [] && s.cfg.mainCap > 0 && |s.probation| + |s.protected| <= s.cfg.mainCap
    ensures var o := TryAdmit(s); var t := o.stripe;
      && Bag(t) + multiset(Lost(s)) == Bag(s)
      && Size(t) + |Lost(s)| == Size(s)
      && t.evictions + t.rejections == s.evictions + s.rejections + |Lost(s)|
      && |t.window| == |s.window| - 1 && t.protected == s.protected
      && |t.probation| + |t.protected| <= s.cfg.mainCap
      && t.sketch == s.sketch && t.opsSinceDecay == s.opsSinceDecay && t.cfg == s.cfg
      && |Lost(s)| <= 1 && |o.demoted| <= |Lost(s)| && t.evictions == s.evictions + |o.demoted|
      && (o.demoted != [] ==> o.demoted[0] == DemotionOf(s, Lost(s)[0]))
  {
    TryAdmitBag(s);
    hide Bag, Estimate;
  }

  /** An admission loses at most one entry. */
  lemma TryAdmitBag(s: Stripe)
    requires SketchReady(s) && s.window != []
    ensures Bag(TryAdmit(s).stripe) + multiset(Lost(s)) == Bag(s)
  {
    hide Estimate;
    FrontBag(s.window);
    PrefixBag(Last(s.window), s.probation);
    if s.probation != [] {
      FrontBag(s.probation);
      PrefixBag(Last(s.window), Front(s.probation));
    }
  }

  lemma PrefixBag<T>(x: T, l: seq<T>)
    ensures multiset([x] + l) == multiset{x} + multiset(l)
    ensures multiset([x]) == multiset{x}
  {
  }

  /** From a bounded state the overflow loop runs its body exactly once per insertion. */
  lemma OneAdmission(s: Stripe)
    requires SketchReady(s) && |s.window| == s.cfg.windowCap + 1
    ensures AdmitAll(s) == TryAdmit(s)
  {
    var first := TryAdmit(s);
    assert AdmitAll(first.stripe) == Outcome(first.stripe, []);
    assert first.demoted + [] == first.demoted;
  }

  /** When Main is full, Probation has a victim: the rejection for want of one is dead code. */
  lemma VictimExists(s: Stripe)
    requires Inv(s) && |s.probation| + |s.protected| >= s.cfg.mainCap
    ensures s.probation != []
  {
  }

  // ----- Each operation

  lemma GetKeepsInv(s: Stripe, key: string)
    requires Inv(s)
    ensures var r := Get(s, key);
      && Inv(r.stripe) && Bag(r.stripe) == Bag(s) && Size(r.stripe) == Size(s) && r.stripe.cfg == s.cfg
      && r.value == Lookup(s, key)
      && r.stripe.evictions == s.evictions && r.stripe.rejections == s.rejections
      && (r.value.None? ==> r.stripe == s.(misses := s.misses + 1))
  {
    hide StripePolicy.Find, StripePolicy.Touch;
    LookupMeans(s, key, "");
    if Has(s, key) {
      OperationsKeepValid(s.sketch, Inc(key));
      TouchEffect(s.(sketch := Increment(s.sketch, key)), key);
    }
  }

  lemma RemoveKeepsInv(s: Stripe, key: string)
    requires Inv(s)
    ensures var r := Remove(s, key);
      && Inv(r.stripe) && r.stripe.cfg == s.cfg
      && (r.removed <==> Has(s, key))
      && (r.removed ==>
          Bag(s) == Bag(r.stripe) + multiset{Entry(key, Lookup(s, key).value)} && Size(s) == Size(r.stripe) + 1)
      && (!r.removed ==> r.stripe == s)
      && !Has(r.stripe, key)
      && r.stripe.evictions == s.evictions && r.stripe.rejections == s.rejections
  {
    RemoveShape(s, key);
    RemoveBag(s, key);
    RemoveKeyGone(s, key);
    hide Bag, Unique, StripePolicy.Remove, StripePolicy.Has, StripePolicy.Lookup;
    SubUnique(Bag(s), Bag(Remove(s, key).stripe));
  }

  /** Nothing but the lists changes, and they only get shorter. */
  lemma RemoveShape(s: Stripe, key: string)
    ensures var t := Remove(s, key).stripe;
      && t == s.(window := t.window, probation := t.probation, protected := t.protected)
      && |t.window| <= |s.window| && |t.probation| <= |s.probation| && |t.protected| <= |s.protected|
      && (!Has(s, key) ==> t == s)
  {
  }

  lemma RemoveKeyGone(s: Stripe, key: string)
    requires Unique(Bag(s))
    ensures !Has(Remove(s, key).stripe, key)
  {
    var t := Remove(s, key).stripe;
    RemoveBag(s, key);
    if Has(s, key) {
      SubUnique(Bag(s), Bag(t));
      RemovedKeyGone(Bag(t), Entry(key, Lookup(s, key).value));
      LookupMeans(t, key, "");
    }
  }

  lemma RemoveBag(s: Stripe, key: string)
    ensures var r := Remove(s, key);
      && (r.removed <==> Has(s, key))
      && (r.removed ==> Lookup(s, key).Some? && Bag(s) == Bag(r.stripe) + multiset{Entry(key, Lookup(s, key).value)})
      && Size(r.stripe) + (if r.removed then 1 else 0) == Size(s)
  {
    if HasKey(s.window, key) {
      RemoveAtBag(s.window, Find(s.window, key));
    } else if HasKey(s.probation, key) {
      RemoveAtBag(s.probation, Find(s.probation, key));
    } else if HasKey(s.protected, key) {
      RemoveAtBag(s.protected, Find(s.protected, key));
    }
  }

  lemma RemovedKeyGone(c: multiset<Entry>, e: Entry)
    requires Unique(c + multiset{e})
    ensures forall f :: f in c ==> f.key != e.key
  {
    var b := c + multiset{e};
    assert e in b;
    assert e in c ==> b[e] > 1;
    assert forall f :: f in c ==> f in b;
  }

  /** A put of a resident key replaces its value and nothing else. */
  lemma PutHitKeepsInv(s: Stripe, key: string, value: string, slot: bool)
    requires Inv(s) && Has(s, key)
    ensures var r := Put(s, key, value, slot);
      && Inv(r.stripe) && r.stripe.cfg == s.cfg && !r.inserted && r.demoted == []
      && Lookup(s, key).Some?
      && Bag(r.stripe) == Bag(s) - multiset{Entry(key, Lookup(s, key).value)} + multiset{Entry(key, value)}
      && Size(r.stripe) == Size(s)
      && r.stripe.evictions == s.evictions && r.stripe.rejections == s.rejections
  {
    CountEffect(s, key);
    var t := Count(s, key);
    SetValueEffect(t, key, value);
    TouchEffect(SetValue(t, key, value), key);
    ReplaceUnique(Bag(s), Entry(key, Lookup(s, key).value), Entry(key, value));
  }

  /** The state an insertion runs the overflow loop on. */
  function Pushed(s: Stripe, key: string, value: string): Stripe
    requires SketchReady(s)
  {
    var t := Count(s, key);
    t.(window := [Entry(key, value)] + t.window)
  }

  /** What an insertion throws away: at most one entry, and none unless the stripe is full. */
  function PutLoss(s: Stripe, key: string, value: string): seq<Entry>
    requires SketchReady(s)
  {
    if |s.window| < s.cfg.windowCap then [] else Lost(Pushed(s, key, value))
  }

  lemma PushedBag(s: Stripe, key: string, value: string)
    requires Inv(s) && !Has(s, key)
    ensures Bag(Pushed(s, key, value)) == Bag(s) + multiset{Entry(key, value)}
    ensures Unique(Bag(Pushed(s, key, value)))
  {
    CountEffect(s, key);
    LookupMeans(s, key, value);
    assert multiset([Entry(key, value)] + s.window) == multiset{Entry(key, value)} + multiset(s.window);
    InsertUnique(Bag(s), Entry(key, value));
  }

  /** A put of a new key with a slot: conservation of entries, and the bounds. */
  lemma PutMissKeepsInv(s: Stripe, key: string, value: string)
    requires Inv(s) && !Has(s, key)
    ensures var r := Put(s, key, value, true); var lost := PutLoss(s, key, value);
      && Inv(r.stripe) && r.stripe.cfg == s.cfg && r.inserted
      && Bag(r.stripe) + multiset(lost) == Bag(s) + multiset{Entry(key, value)}
      && Size(r.stripe) + |lost| == Size(s) + 1
      && (lost == [] <==> Size(s) < s.cfg.capacity) && |lost| <= 1
      && r.stripe.evictions + r.stripe.rejections == s.evictions + s.rejections + |lost|
      && r.stripe.evictions == s.evictions + |r.demoted|
      && r.stripe.protected == s.protected
      && |r.demoted| <= |lost|
      && (r.demoted != [] ==> Entry(r.demoted[0].key, r.demoted[0].value) == lost[0] && lost[0] in Bag(s))
  {
    PutMissEntries(s, key, value);
    PutMissBounds(s, key, value);
    DemotedResident(s, key, value);
  }

  lemma PutMissIs(s: Stripe, key: string, value: string)
    requires Inv(s) && !Has(s, key)
    ensures var r := Put(s, key, value, true); var t := Pushed(s, key, value);
      && SketchReady(t) && r.inserted
      && (if |s.window| < s.cfg.windowCap then r.stripe == t && r.demoted == []
          else r.stripe == TryAdmit(t).stripe && r.demoted == TryAdmit(t).demoted)
  {
    CountEffect(s, key);
    var t := Pushed(s, key, value);
    if |s.window| >= s.cfg.windowCap {
      OneAdmission(t);
    } else {
      assert AdmitAll(t) == Outcome(t, []);
    }
  }

  lemma PutMissEntries(s: Stripe, key: string, value: string)
    requires Inv(s) && !Has(s, key)
    ensures var r := Put(s, key, value, true); var lost := PutLoss(s, key, value);
      && Unique(Bag(r.stripe))
      && Bag(r.stripe) + multiset(lost) == Bag(s) + multiset{Entry(key, value)}
  {
    hide Unique, StripePolicy.Put, StripePolicy.TryAdmit, Pushed, Bag;
    PutMissIs(s, key, value);
    PushedBag(s, key, value);
    var t := Pushed(s, key, value);
    if |s.window| >= s.cfg.windowCap {
      PushedBounds(s, key, value);
      TryAdmitEffect(t);
      SubUnique(Bag(t), Bag(TryAdmit(t).stripe));
    }
  }

  lemma PushedBounds(s: Stripe, key: string, value: string)
    requires Inv(s)
    ensures var t := Pushed(s, key, value);
      && ValidSketch(t.sketch) && t.opsSinceDecay < s.cfg.decayInterval
      && |t.window| == |s.window| + 1 && t.probation == s.probation && t.protected == s.protected && t.cfg == s.cfg
      && t.evictions == s.evictions && t.rejections == s.rejections
  {
    CountEffect(s, key);
  }

  lemma PutMissBounds(s: Stripe, key: string, value: string)
    requires Inv(s) && !Has(s, key)
    ensures var r := Put(s, key, value, true); var lost := PutLoss(s, key, value);
      && WellFormed(r.stripe.cfg) && r.stripe.cfg == s.cfg && ValidSketch(r.stripe.sketch) && r.inserted
      && |r.stripe.window| <= s.cfg.windowCap && r.stripe.protected == s.protected
      && |r.stripe.probation| + |r.stripe.protected| <= s.cfg.mainCap
      && r.stripe.opsSinceDecay < s.cfg.decayInterval
      && Size(r.stripe) + |lost| == Size(s) + 1
      && (lost == [] <==> Size(s) < s.cfg.capacity) && |lost| <= 1
      && r.stripe.evictions + r.stripe.rejections == s.evictions + s.rejections + |lost|
      && r.stripe.evictions == s.evictions + |r.demoted| && |r.demoted| <= |lost|
  {
    PutMissIs(s, key, value);
    PushedBounds(s, key, value);
    if |s.window| >= s.cfg.windowCap {
      TryAdmitEffect(Pushed(s, key, value));
    }
  }

  /** A demoted item is the entry that was lost, and it was resident before. */
  lemma DemotedResident(s: Stripe, key: string, value: string)
    requires Inv(s) && !Has(s, key)
    ensures var r := Put(s, key, value, true); var lost := PutLoss(s, key, value);
      r.demoted != [] ==>
        lost != [] && |r.demoted| == 1 && Entry(r.demoted[0].key, r.demoted[0].value) == lost[0] && lost[0] in Bag(s)
  {
    PutMissIs(s, key, value);
    PushedBounds(s, key, value);
    var t := Pushed(s, key, value);
    if |s.window| >= s.cfg.windowCap && TryAdmit(t).demoted != [] {
      TryAdmitEffect(t);
      DemotedIsVictim(t);
    }
  }

  /** Only entries of Probation are ever demoted. */
  lemma DemotedIsVictim(s: Stripe)
    requires SketchReady(s) && TryAdmit(s).demoted != []
    ensures Lost(s) != [] && Lost(s)[0] in multiset(s.probation)
  {
    assert s.probation != [] ==> Last(s.probation) in multiset(s.probation);
  }

  lemma PutNoSlotKeepsInv(s: Stripe, key: string, value: string)
    requires Inv(s) && !Has(s, key)
    ensures var r := Put(s, key, value, false);
      && Inv(r.stripe) && !r.inserted && r.demoted == []
      && r.stripe == s.(sketch := r.stripe.sketch, opsSinceDecay := r.stripe.opsSinceDecay)
  {
    CountEffect(s, key);
  }

  // ----- Whole runs

  datatype StripeOp = DoGet(key: string) | DoPut(key: string, value: string, slot: bool) | DoRemove(key: string)

  /** A stripe with the numbers of successful insertions and removals so far. */
  datatype Ledger = Ledger(stripe: Stripe, inserts: nat, removals: nat)

  function Step(l: Ledger, op: StripeOp): Ledger
    requires SketchReady(l.stripe)
  {
    match op
    case DoGet(k) => l.(stripe := Get(l.stripe, k).stripe)
    case DoPut(k, v, slot) =>
      var r := Put(l.stripe, k, v, slot);
      l.(stripe := r.stripe, inserts := if r.inserted then l.inserts + 1 else l.inserts)
    case DoRemove(k) =>
      var r := Remove(l.stripe, k);
      l.(stripe := r.stripe, removals := if r.removed then l.removals + 1 else l.removals)
  }

  lemma StepReady(l: Ledger, op: StripeOp)
    requires SketchReady(l.stripe)
    ensures SketchReady(Step(l, op).stripe)
  {
    var s := l.stripe;
    match op
    case DoGet(k) =>
      OperationsKeepValid(s.sketch, Inc(k));
      TouchEffect(s.(sketch := Increment(s.sketch, k)), k);
    case DoPut(k, v, slot) =>
      TouchEffect(SetValue(Count(s, k), k, v), k);
    case DoRemove(k) =>
  }

  function RunOps(s: Stripe, ops: seq<StripeOp>): (l: Ledger)
    requires SketchReady(s)
    ensures SketchReady(l.stripe)
  {
    if ops == [] then Ledger(s, 0, 0)
    else
      var l := RunOps(s, ops[..|ops| - 1]);
      StepReady(l, ops[|ops| - 1]);
      Step(l, ops[|ops| - 1])
  }

  /** Entries are conserved: inserts equal residents plus evictions plus rejections plus removals. */
  ghost predicate Balanced(l: Ledger) {
    l.inserts == Size(l.stripe) + l.stripe.evictions + l.stripe.rejections + l.removals
  }

  lemma StepKeeps(l: Ledger, op: StripeOp)
    requires Inv(l.stripe) && Balanced(l)
    ensures Inv(Step(l, op).stripe) && Balanced(Step(l, op)) && Step(l, op).stripe.cfg == l.stripe.cfg
  {
    hide StripePolicy.Get, StripePolicy.Put, StripePolicy.Remove, Inv, Bag;
    var s := l.stripe;
    match op
    case DoGet(k) => GetKeepsInv(s, k);
    case DoPut(k, v, slot) =>
      if Has(s, k) { PutHitKeepsInv(s, k, v, slot); }
      else if slot { PutMissKeepsInv(s, k, v); }
      else { PutNoSlotKeepsInv(s, k, v); }
    case DoRemove(k) => RemoveKeepsInv(s, k);
  }

  lemma EmptyInv(cfg: Config, hash: (string, nat) -> nat)
    requires WellFormed(cfg)
    ensures Inv(Empty(cfg, hash)) && SketchReady(Empty(cfg, hash))
  {
  }

  /** In every reachable state the segments are within bounds, keys are unique and entries balance. */
  lemma {:induction false} StripeSafety(cfg: Config, hash: (string, nat) -> nat, ops: seq<StripeOp>)
    requires WellFormed(cfg)
    ensures SketchReady(Empty(cfg, hash))
    ensures var l := RunOps(Empty(cfg, hash), ops);
      && Inv(l.stripe) && Balanced(l) && l.stripe.cfg == cfg
      && Size(l.stripe) <= cfg.capacity
      && (|l.stripe.probation| + |l.stripe.protected| >= cfg.mainCap ==> l.stripe.probation != [])
  {
    EmptyInv(cfg, hash);
    if ops != [] {
      StripeSafety(cfg, hash, ops[..|ops| - 1]);
      StepKeeps(RunOps(Empty(cfg, hash), ops[..|ops| - 1]), ops[|ops| - 1]);
    }
  }

  /** A scan: only puts of keys that are not resident at the time, and gets that miss. */
  ghost predicate IsScan(s: Stripe, ops: seq<StripeOp>)
    requires SketchReady(s)
  {
    ops == [] ||
    (IsScan(s, ops[..|ops| - 1]) &&
     var op := ops[|ops| - 1];
     !op.DoRemove? && !Has(RunOps(s, ops[..|ops| - 1]).stripe, op.key))
  }

  /**
   However long the scan, Protected keeps its entries, their values and their order, and misses alone leave the
   sketch as it was.
   */
  lemma {:induction false} ScanResistance(s: Stripe, ops: seq<StripeOp>)
    requires Inv(s) && IsScan(s, ops)
    ensures var t := RunOps(s, ops).stripe;
      && Inv(t) && t.protected == s.protected
      && ((forall i :: 0 <= i < |ops| ==> ops[i].DoGet?) ==> t == s.(misses := s.misses + |ops|))
  {
    hide StripePolicy.Put, StripePolicy.Get, Bag, PutLoss;
    if ops != [] {
      var before := ops[..|ops| - 1];
      ScanResistance(s, before);
      var l := RunOps(s, before);
      match ops[|ops| - 1] {
        case DoGet(k) =>
          GetKeepsInv(l.stripe, k);
        case DoPut(k, v, slot) =>
          if slot { PutMissKeepsInv(l.stripe, k, v); } else { PutNoSlotKeepsInv(l.stripe, k, v); }
      }
    }
  }

  /** So after any scan every entry that was protected still hits, with its value. */
  lemma ProtectedStillHits(s: Stripe, ops: seq<StripeOp>, e: Entry)
    requires Inv(s) && IsScan(s, ops) && e in s.protected
    ensures var t := RunOps(s, ops).stripe;
      SketchReady(t) && Get(t, e.key).value == Some(e.value)
  {
    ScanResistance(s, ops);
    var t := RunOps(s, ops).stripe;
    assert e in multiset(t.protected);
    assert e in Bag(t) && Entry(e.key, e.value) == e;
    LookupMeans(t, e.key, e.value);
    GetKeepsInv(t, e.key);
  }

  /**
   The put is refused: there is no slot for a new key, or there is no Window and the new key loses the contest at
   once.
   */
  ghost predicate Refused(s: Stripe, key: string, slot: bool)
    requires Inv(s)
  {
    var sketch := Count(s, key).sketch;
    && !Has(s, key)
    && (slot ==> s.cfg.windowCap == 0 && |s.probation| + |s.protected| == s.cfg.mainCap
                 && Estimate(sketch, key) <= Estimate(sketch, Last(s.probation).key))
  }

  /** A key just put is found with its value, unless the put was refused; then it is absent. */
  lemma ReadAfterPut(s: Stripe, key: string, value: string, slot: bool)
    requires Inv(s)
    ensures Lookup(Put(s, key, value, slot).stripe, key) == (if Refused(s, key, slot) then None else Some(value))
  {
    if Has(s, key) {
      PutHitKeepsInv(s, key, value, slot);
      LookupMeans(Put(s, key, value, slot).stripe, key, value);
    } else if !slot {
      CountEffect(s, key);
    } else if s.cfg.windowCap > 0 {
      PutMissKeepsInv(s, key, value);
      NewestInWindow(s, key, value);
      LookupMeans(Put(s, key, value, true).stripe, key, value);
    } else {
      NoWindow(s, key, value);
    }
  }

  /** Without a Window the new key goes straight to the contest. */
  lemma NoWindow(s: Stripe, key: string, value: string)
    requires Inv(s) && s.cfg.windowCap == 0 && !Has(s, key)
    ensures Lookup(Put(s, key, value, true).stripe, key) == (if Refused(s, key, true) then None else Some(value))
  {
    hide Bag, Unique;
    PutMissIs(s, key, value);
    PushedBounds(s, key, value);
    var t := Pushed(s, key, value);
    assert t.window == [Entry(key, value)] && Front(t.window) == [];
    assert Find([], key) == 0;
  }

  lemma FrontHead(l: seq<Entry>)
    ensures l != [] ==> l[0] in l
    ensures |l| > 1 ==> l[0] in Front(l)
  {
    if |l| > 1 {
      assert Front(l)[0] == l[0];
    }
  }

  lemma NewestInWindow(s: Stripe, key: string, value: string)
    requires Inv(s) && s.cfg.windowCap > 0 && !Has(s, key)
    ensures Entry(key, value) in Bag(Put(s, key, value, true).stripe)
  {
    PutMissIs(s, key, value);
    PushedBounds(s, key, value);
    var t := Pushed(s, key, value);
    FrontHead(t.window);
    hide StripePolicy.Put, Unique;
    assert Entry(key, value) in multiset(Put(s, key, value, true).stripe.window);
  }
}
