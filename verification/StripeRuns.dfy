/**
 A stripe of capacity 3 in pictures: what it holds and what it has counted, and how puts and gets
 change the picture. The sketch's hash is any function; of the keys it is only asked that each is
 alone in its cell in some row, so that its estimate is exact.
 */
module StripeRuns {
  import opened Types
  import opened Seqs
  import opened StripePolicy
  import opened StripeTheorems
  import opened Cms = CountMinSketch

  // ----- Exact estimates

  const DEPTH: nat := 4
  const WIDTH: nat := 512

  /** A stripe's new sketch. */
  ghost predicate Blank(sk: Sketch) {
    sk == Fresh(sk.depth, sk.width, sk.hash) && sk.depth == DEPTH && sk.width == WIDTH
  }

  /** In some row of a stripe's sketch no other of the keys shares the cell of `key`. */
  ghost predicate Apart(hash: (string, nat) -> nat, keys: seq<string>, key: string) {
    exists row :: 0 <= row < DEPTH && AloneIn(hash, keys, key, row)
  }

  ghost predicate AloneIn(hash: (string, nat) -> nat, keys: seq<string>, key: string, row: nat) {
    forall k :: k in keys && hash(k, row) % WIDTH == hash(key, row) % WIDTH ==> k == key
  }

  lemma ApartWithin(hash: (string, nat) -> nat, keys: seq<string>, some: seq<string>, key: string)
    requires Apart(hash, keys, key) && forall k :: k in some ==> k in keys
    ensures Apart(hash, some, key)
  {
    var row :| 0 <= row < DEPTH && AloneIn(hash, keys, key, row);
    assert AloneIn(hash, some, key, row);
  }

  function Counted(sk: Sketch, keys: seq<string>): Sketch
    requires sk.width > 0
  {
    PerformAll(sk, Incs(keys))
  }

  function Incs(keys: seq<string>): (ops: seq<Cms.Op>)
    ensures |ops| == |keys| && forall i :: 0 <= i < |keys| ==> ops[i] == Inc(keys[i])
  {
    seq(|keys|, i requires 0 <= i < |keys| => Inc(keys[i]))
  }

  function Times(keys: seq<string>, key: string): nat {
    if keys == [] then 0
    else Times(keys[..|keys| - 1], key) + if keys[|keys| - 1] == key then 1 else 0
  }

  lemma {:induction false} TotalIs(keys: seq<string>)
    ensures Total(Incs(keys)) == |keys|
  {
    if keys != [] {
      assert Incs(keys)[..|keys| - 1] == Incs(keys[..|keys| - 1]);
      TotalIs(keys[..|keys| - 1]);
    }
  }

  lemma IncsBounded(keys: seq<string>)
    requires |keys| < WORD32
    ensures Bounded(Incs(keys))
  {
    forall i | 0 <= i <= |keys| ensures Total(Incs(keys)[..i]) < WORD32 {
      assert Incs(keys)[..i] == Incs(keys[..i]);
      TotalIs(keys[..i]);
    }
  }

  function Equals(key: string): string -> bool {
    k => k == key
  }

  lemma {:induction false} TallyIs(keys: seq<string>, key: string)
    ensures Tally(Incs(keys), Equals(key)) == Times(keys, key)
  {
    if keys != [] {
      assert Incs(keys)[..|keys| - 1] == Incs(keys[..|keys| - 1]);
      TallyIs(keys[..|keys| - 1], key);
    }
  }

  /** The sketch estimates such a key by how often it was counted. */
  lemma EstimateIs(sk: Sketch, keys: seq<string>, key: string)
    requires Blank(sk) && |keys| < WORD32 && Apart(sk.hash, keys, key)
    ensures ValidSketch(Counted(sk, keys)) && Estimate(Counted(sk, keys), key) == Times(keys, key)
  {
    IncsBounded(keys);
    CountedValid(sk, keys);
    EstimateBounds(sk, Incs(keys), key);
    var row :| 0 <= row < DEPTH && AloneIn(sk.hash, keys, key, row);
    forall k | Inc(k) in Incs(keys) && SharesCell(sk, key, row)(k) ensures k == key {
      assert k in keys;
    }
    TallyIs(keys, key);
    TallySame(Incs(keys), k => k == key, Equals(key));
  }

  lemma BlankValid(sk: Sketch)
    requires Blank(sk)
    ensures ValidSketch(sk)
  {
  }

  lemma {:induction false} CountedValid(sk: Sketch, keys: seq<string>)
    requires Blank(sk)
    ensures ValidSketch(Counted(sk, keys))
  {
    if keys == [] {
      BlankValid(sk);
    } else {
      var front, last := keys[..|keys| - 1], keys[|keys| - 1];
      CountedStep(sk, front, last);
      assert front + [last] == keys;
      CountedValid(sk, front);
      OperationsKeepValid(Counted(sk, front), Inc(last));
    }
  }

  lemma CountedStep(sk: Sketch, keys: seq<string>, key: string)
    requires sk.width > 0
    ensures Counted(sk, keys).width > 0
    ensures Counted(sk, keys + [key]) == Increment(Counted(sk, keys), key)
  {
    assert Incs(keys + [key])[..|keys|] == Incs(keys);
  }

  // ----- One stripe of capacity 3

  ghost predicate Small(c: Config) {
    WellFormed(c) && c.windowCap == 0 && c.mainCap == 3 && c.protectedCap >= 2 && c.decayInterval >= 15
  }

  /** What the stripe holds, what it has counted, and how many puts it has seen. */
  datatype Picture = Picture(probation: seq<Entry>, protected: seq<Entry>, counted: seq<string>, puts: nat)

  ghost predicate Shows(s: Stripe, sk: Sketch, p: Picture)
    requires Blank(sk)
  {
    && Inv(s) && Small(s.cfg)
    && s.window == [] && s.probation == p.probation && s.protected == p.protected
    && s.sketch == Counted(sk, p.counted) && s.opsSinceDecay == p.puts
  }

  lemma CountShows(s: Stripe, sk: Sketch, p: Picture, key: string)
    requires Blank(sk) && Shows(s, sk, p) && p.puts < 14
    ensures SketchReady(s) && var t := Count(s, key);
      && t == s.(sketch := t.sketch, opsSinceDecay := t.opsSinceDecay)
      && t.sketch == Counted(sk, p.counted + [key]) && t.opsSinceDecay == p.puts + 1
  {
    hide Counted, Blank;
    CountedWidth(sk);
    CountedStep(sk, p.counted, key);
  }

  lemma CountedWidth(sk: Sketch)
    requires Blank(sk)
    ensures sk.width > 0
  {
  }

  /** The picture after a put of a new key, and what is demoted. */
  function PutPicture(p: Picture, e: Entry): Picture {
    var q := p.(counted := p.counted + [e.key], puts := p.puts + 1);
    if |p.probation| + |p.protected| < 3 then q.(probation := [e] + p.probation)
    else if p.probation != [] && Times(q.counted, e.key) > Times(q.counted, Last(p.probation).key)
    then q.(probation := [e] + Front(p.probation))
    else q
  }

  function PutDemotes(p: Picture, e: Entry): seq<DemotionItem> {
    var counted := p.counted + [e.key];
    if |p.probation| + |p.protected| < 3 || p.probation == [] then []
    else
      var v := Last(p.probation);
      var n := Times(counted, v.key);
      if Times(counted, e.key) > n then [DemotionItem(v.key, v.value, n)] else []
  }

  lemma PutShows(s: Stripe, sk: Sketch, p: Picture, e: Entry)
    requires Blank(sk) && Shows(s, sk, p) && p.puts < 14 && !Has(s, e.key)
    requires |p.counted| + 1 < WORD32 && Apart(sk.hash, p.counted + [e.key], e.key)
    requires p.probation != [] ==> Apart(sk.hash, p.counted + [e.key], Last(p.probation).key)
    ensures SketchReady(s)
    ensures var r := Put(s, e.key, e.value, true);
      Shows(r.stripe, sk, PutPicture(p, e)) && r.demoted == PutDemotes(p, e)
  {
    hide Counted, Blank, Competed, Times, Cms.Estimate, Apart, StripePolicy.Put, StripePolicy.Has, Inv, Small;
    ShownLists(s, sk, p);
    PutCompetes(s, sk, p, e);
    EstimateIs(sk, p.counted + [e.key], e.key);
    if p.probation != [] {
      EstimateIs(sk, p.counted + [e.key], Last(p.probation).key);
    }
    CompetedShows(s, sk, p, e, Put(s, e.key, e.value, true));
  }

  /** The outcome of a contest without a window, the sketch being `t`. */
  ghost predicate Competed(probation: seq<Entry>, protected: seq<Entry>, t: Sketch, e: Entry, r: PutResult)
    requires ValidSketch(t)
  {
    var u := r.stripe;
    && u.window == [] && u.protected == protected && u.sketch == t
    && (if |probation| + |protected| < 3 then u.probation == [e] + probation && r.demoted == []
        else
          && probation != []
          && var v := Last(probation);
          if Estimate(t, e.key) > Estimate(t, v.key) then
            u.probation == [e] + Front(probation) && r.demoted == [DemotionItem(v.key, v.value, Estimate(t, v.key))]
          else u.probation == probation && r.demoted == [])
  }

  lemma PutCompetes(s: Stripe, sk: Sketch, p: Picture, e: Entry)
    requires Blank(sk) && Shows(s, sk, p) && p.puts < 14 && !Has(s, e.key)
    ensures SketchReady(s) && ValidSketch(Counted(sk, p.counted + [e.key]))
    ensures var r := Put(s, e.key, e.value, true);
      && Inv(r.stripe) && Small(r.stripe.cfg) && r.stripe.opsSinceDecay == p.puts + 1
      && Competed(p.probation, p.protected, Counted(sk, p.counted + [e.key]), e, r)
  {
    hide Blank, Counted, Competed, Unique, Bag, Cms.Estimate, StripePolicy.Put, StripePolicy.Has, StripePolicy.Count;
    CountShows(s, sk, p, e.key);
    CountedValid(sk, p.counted + [e.key]);
    PutMissKeepsInv(s, e.key, e.value);
    PutWithoutWindow(s, e);
  }

  lemma CompetedShows(s: Stripe, sk: Sketch, p: Picture, e: Entry, r: PutResult)
    requires Blank(sk) && ValidSketch(Counted(sk, p.counted + [e.key]))
    requires Inv(r.stripe) && Small(r.stripe.cfg) && r.stripe.opsSinceDecay == p.puts + 1
    requires Competed(p.probation, p.protected, Counted(sk, p.counted + [e.key]), e, r)
    requires Estimate(Counted(sk, p.counted + [e.key]), e.key) == Times(p.counted + [e.key], e.key)
    requires p.probation != [] ==>
      var v := Last(p.probation); Estimate(Counted(sk, p.counted + [e.key]), v.key) == Times(p.counted + [e.key], v.key)
    ensures Shows(r.stripe, sk, PutPicture(p, e)) && r.demoted == PutDemotes(p, e)
  {
    hide Blank, Counted, Inv, Small, Times, Cms.Estimate;
  }

  /** What a picture says of the lists. */
  lemma ShownLists(s: Stripe, sk: Sketch, p: Picture)
    requires Blank(sk) && Shows(s, sk, p)
    ensures SketchReady(s) && s.window == [] && s.probation == p.probation && s.protected == p.protected
    ensures |p.probation| + |p.protected| <= 3
  {
  }

  /** Without a window a new key competes at once. */
  lemma PutWithoutWindow(s: Stripe, e: Entry)
    requires Inv(s) && s.cfg.windowCap == 0 && s.cfg.mainCap == 3 && s.window == [] && !Has(s, e.key)
    ensures var t := Count(s, e.key); var r := Put(s, e.key, e.value, true);
      Competed(s.probation, s.protected, t.sketch, e, r) && r.stripe.opsSinceDecay == t.opsSinceDecay
  {
    hide Cms.Estimate, StripeTheorems.Unique, StripeTheorems.Bag;
    PutMissIs(s, e.key, e.value);
    PushedBounds(s, e.key, e.value);
    var t := Pushed(s, e.key, e.value);
    assert t.window == [e] && Front(t.window) == [];
  }

  /** The picture after a get of the entry at place `i` of Probation, while Protected has room. */
  function GetPicture(p: Picture, i: nat): Picture
    requires i < |p.probation|
  {
    Picture(RemoveAt(p.probation, i), [p.probation[i]] + p.protected, p.counted + [p.probation[i].key], p.puts)
  }

  lemma GetShows(s: Stripe, sk: Sketch, p: Picture, i: nat)
    requires Blank(sk) && Shows(s, sk, p) && i < |p.probation| && Find(p.probation, p.probation[i].key) == i
      && |p.protected| < 2
    ensures SketchReady(s)
    ensures var r := Get(s, p.probation[i].key);
      Shows(r.stripe, sk, GetPicture(p, i)) && r.value == Some(p.probation[i].value)
  {
    hide Counted, Blank, Inv, StripePolicy.Get, Find;
    InvIsReady(s);
    CountedWidth(sk);
    CountedStep(sk, p.counted, p.probation[i].key);
    GetKeepsInv(s, p.probation[i].key);
    HitPromotes(s, i);
  }

  lemma InvIsReady(s: Stripe)
    requires Inv(s)
    ensures SketchReady(s)
  {
  }

  lemma HitPromotes(s: Stripe, i: nat)
    requires Inv(s) && s.window == [] && i < |s.probation| && Find(s.probation, s.probation[i].key) == i
      && |s.protected| < s.cfg.protectedCap
    ensures var e := s.probation[i]; var r := Get(s, e.key); var t := r.stripe;
      && r.value == Some(e.value) && t.window == [] && t.cfg == s.cfg
      && t.probation == RemoveAt(s.probation, i) && t.protected == [e] + s.protected
      && t.sketch == Increment(s.sketch, e.key) && t.opsSinceDecay == s.opsSinceDecay
  {
    hide Increment, StripeTheorems.Unique, StripeTheorems.Bag;
    assert Find([], s.probation[i].key) == 0;
  }

  lemma EmptyShows(cfg: Config, hash: (string, nat) -> nat)
    requires Small(cfg)
    ensures var s := Empty(cfg, hash);
      Blank(s.sketch) && s.sketch.hash == hash && Shows(s, s.sketch, Picture([], [], [], 0))
  {
    hide Fresh, Inv;
    EmptyInv(cfg, hash);
    FreshIsBlank(DEPTH, WIDTH, hash);
  }

  lemma FreshIsBlank(depth: nat, width: nat, hash: (string, nat) -> nat)
    requires width > 0
    ensures var sk := Fresh(depth, width, hash);
      sk == Fresh(sk.depth, sk.width, sk.hash) && sk.depth == depth && sk.width == width && sk.hash == hash
    ensures Counted(Fresh(depth, width, hash), []) == Fresh(depth, width, hash)
  {
  }

  /**
   A stripe of capacity 3 has no window, whatever its fraction; a probation fraction below a half leaves two
   protected places.
   */
  lemma SmallestConfig(windowPct: real, probationPct: real)
    requires windowPct >= 0.0 && 0.0 <= probationPct < 0.5
    ensures Small(MakeConfig(3, windowPct, probationPct))
  {
    SmallPortion(probationPct);
    NoWindowAtThree(windowPct);
    hide Portion, WindowCapacity;
  }

  lemma NoWindowAtThree(windowPct: real)
    requires windowPct >= 0.0
    ensures WindowCapacity(3, windowPct) == 0
  {
    hide Portion;
  }

  lemma SmallPortion(pct: real)
    requires 0.0 <= pct < 0.5
    ensures Portion(3, pct) <= 1
  {
  }

  /** A full stripe refuses a new key that is counted no more often than the last probation entry. */
  lemma FullRefuses(s: Stripe, sk: Sketch, p: Picture, key: string, slot: bool)
    requires Blank(sk) && Shows(s, sk, p) && p.puts < 14 && p.probation != [] && |p.probation| + |p.protected| == 3
    requires !HasKey(p.probation, key) && !HasKey(p.protected, key)
    requires |p.counted| + 1 < WORD32
    requires Apart(sk.hash, p.counted + [key], key) && Apart(sk.hash, p.counted + [key], Last(p.probation).key)
    requires Times(p.counted + [key], key) <= Times(p.counted + [key], Last(p.probation).key)
    ensures Refused(s, key, slot)
  {
    hide Blank, Counted, Times, Apart, Cms.Estimate, Unique, Bag, StripePolicy.Count;
    CountShows(s, sk, p, key);
    EstimateIs(sk, p.counted + [key], key);
    EstimateIs(sk, p.counted + [key], Last(p.probation).key);
  }
}
