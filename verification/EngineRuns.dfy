/**
 Runs from an empty engine after which a get answers wrongly: a removed key that comes back, and a
 put whose value is not found. The hashes are any functions; the four keys share a stripe of
 capacity 3, and each is alone in its cell in some row of that stripe's sketch.
 */
module EngineRuns {
  import opened Types
  import opened Seqs
  import opened StripeRuns
  import Policy = StripePolicy
  import Theorems = StripeTheorems
  import Cms = CountMinSketch
  import L1 = StripedCache
  import Queue = DemotionQueue
  import opened CacheEngine
  import opened EngineCoherence
  import opened EngineAnswers

  /** An engine's sizes and hashes; a total below 192 gives every stripe capacity 3. */
  datatype Setting = Setting(l1Total: nat, windowPct: real, probationPct: real, l2Total: nat, ring: nat,
                             route: string -> nat, sketchHash: (string, nat) -> nat, l2Hash: string -> nat)

  ghost predicate Fits(z: Setting) {
    z.l1Total < 192 && z.windowPct >= 0.0 && 0.0 <= z.probationPct < 0.5 && z.ring >= 2
  }

  /** A new engine. */
  function Opening(z: Setting): (e: Engine)
    requires z.windowPct >= 0.0 && 0.0 <= z.probationPct < 1.0
  {
    Start(z.l1Total, z.windowPct, z.probationPct, z.l2Total, z.ring, z.route, z.sketchHash, z.l2Hash)
  }

  /** Where a run happens: the routing, the stripe in use, and its sketch when it was new. */
  datatype Place = Place(route: string -> nat, stripe: nat, sketch: Cms.Sketch)

  ghost predicate Proper(at: Place) {
    at.stripe < L1.NUM_STRIPES && Blank(at.sketch)
  }

  predicate Here(at: Place, key: string) {
    at.route(key) % L1.NUM_STRIPES == at.stripe
  }

  /** The stripe in use, the ring, the drainer's batch, and some of what is in L2. */
  ghost predicate Stage(e: Engine, at: Place, p: Picture, queued: seq<DemotionItem>, flying: seq<DemotionItem>,
                        below: seq<Entry>)
    requires Proper(at)
  {
    && Inv(e) && e.l1.hash == at.route
    && Shows(e.l1.stripes[at.stripe], at.sketch, p) && e.l1.free + |p.probation| + |p.protected| >= 64
    && e.queue == Queue.Fifo(e.queue.capacity, queued, 0) && e.queue.capacity >= 2 && e.flying == flying
    && forall x :: x in below ==> InL2(e, x)
  }

  function SmallStripe(z: Setting): Policy.Stripe
    requires z.windowPct >= 0.0 && 0.0 <= z.probationPct < 1.0
  {
    Policy.Empty(Policy.MakeConfig(3, z.windowPct, z.probationPct), z.sketchHash)
  }

  lemma OpeningParts(z: Setting, n: nat)
    requires Fits(z) && n < L1.NUM_STRIPES
    ensures var e := Opening(z);
      && Inv(e) && |e.l1.stripes| == L1.NUM_STRIPES && e.l1.hash == z.route && e.l1.stripes[n] == SmallStripe(z)
      && e.l1.free >= 64 && e.queue == Queue.Fifo(z.ring, [], 0) && e.flying == []
  {
    hide Policy.Empty, Policy.MakeConfig, Inv;
    StartCoherent(z.l1Total, z.windowPct, z.probationPct, z.l2Total, z.ring, z.route, z.sketchHash, z.l2Hash);
  }

  lemma SmallStripeShows(z: Setting)
    requires Fits(z)
    ensures var s := SmallStripe(z);
      Blank(s.sketch) && s.sketch.hash == z.sketchHash && Shows(s, s.sketch, Picture([], [], [], 0))
  {
    hide Policy.MakeConfig;
    SmallestConfig(z.windowPct, z.probationPct);
    EmptyShows(Policy.MakeConfig(3, z.windowPct, z.probationPct), z.sketchHash);
  }

  lemma OpeningStage(z: Setting, key: string) returns (at: Place)
    requires Fits(z)
    ensures Proper(at) && Stage(Opening(z), at, Picture([], [], [], 0), [], [], [])
    ensures at.route == z.route && at.sketch.hash == z.sketchHash && Here(at, key)
  {
    hide SmallStripe, Inv, Blank, Shows, Opening;
    var n := z.route(key) % L1.NUM_STRIPES;
    OpeningParts(z, n);
    SmallStripeShows(z);
    at := Place(z.route, n, SmallStripe(z).sketch);
  }

  lemma PutStage(e: Engine, at: Place, p: Picture, flying: seq<DemotionItem>, below: seq<Entry>, x: Entry)
    requires Proper(at) && Stage(e, at, p, [], flying, below) && p.puts < 14 && Here(at, x.key)
    requires !Policy.HasKey(p.probation, x.key) && !Policy.HasKey(p.protected, x.key)
    requires |p.counted| + 1 < WORD32 && Apart(at.sketch.hash, p.counted + [x.key], x.key)
    requires p.probation != [] ==> Apart(at.sketch.hash, p.counted + [x.key], Policy.Last(p.probation).key)
    ensures Stage(Perform(e, DoPut(x.key, x.value)), at, PutPicture(p, x), PutDemotes(p, x), flying, below)
  {
    hide Blank, Shows, Times, Put, Policy.Put, Apart, PutPicture, PutDemotes, L2Ready, L1.Ready, InL2;
    HasStripes(e);
    var s := e.l1.stripes[at.stripe];
    ShownLists(s, at.sketch, p);
    AbsentKey(s, x.key);
    PutShows(s, at.sketch, p, x);
    ShownLists(Policy.Put(s, x.key, x.value, true).stripe, at.sketch, PutPicture(p, x));
    PutParts(e, x.key, x.value);
    PictureGrows(p, x);
    PushFew(e.queue, PutDemotes(p, x));
    SameL2(e, Put(e, x.key, x.value));
  }

  lemma HasStripes(e: Engine)
    requires Inv(e)
    ensures |e.l1.stripes| == L1.NUM_STRIPES && |e.l2| == NUM_L2_STRIPES
  {
  }

  lemma AbsentKey(s: Policy.Stripe, key: string)
    requires s.window == [] && !Policy.HasKey(s.probation, key) && !Policy.HasKey(s.protected, key)
    ensures !Policy.Has(s, key)
  {
  }

  /** What a put changes. */
  lemma PutParts(e: Engine, key: string, value: string)
    requires Inv(e)
    ensures var n := L1.Route(e.l1, key); var s := e.l1.stripes[n];
      && Policy.SketchReady(s)
      && var f := Put(e, key, value); var r := Policy.Put(s, key, value, e.l1.free > 0);
      && |f.l1.stripes| == L1.NUM_STRIPES && f.l1.stripes[n] == r.stripe
      && f.l1.free + Policy.Size(r.stripe) == e.l1.free + Policy.Size(s)
      && f.queue == Queue.PushAll(e.queue, r.demoted) && f.flying == e.flying && f.l2 == e.l2
      && f.l1.hash == e.l1.hash && f.l2Hash == e.l2Hash && f.l2Capacity == e.l2Capacity
  {
    hide Policy.Put, Queue.PushAll;
    var s := L1.StripeOf(e.l1, key);
    assert Theorems.Inv(s);
    L1.PutKeepsInv(s, key, value, e.l1.free > 0);
  }

  lemma PictureGrows(p: Picture, x: Entry)
    ensures var q := PutPicture(p, x); q.protected == p.protected && |PutDemotes(p, x)| <= 1
  {
  }

  lemma PushFew(f: Queue.Fifo, xs: seq<DemotionItem>)
    requires f.capacity >= 2 && f.items == [] && |xs| <= 1
    ensures Queue.PushAll(f, xs) == f.(items := xs)
  {
    if |xs| == 1 {
      assert xs[1..] == [] && xs == [xs[0]];
      assert Queue.PushAll(f, xs) == Queue.PushAll(Queue.Push(f, xs[0]), []);
    }
  }

  lemma GetStage(e: Engine, at: Place, p: Picture, queued: seq<DemotionItem>, flying: seq<DemotionItem>,
                 below: seq<Entry>, i: nat)
    requires Proper(at) && Stage(e, at, p, queued, flying, below)
    requires i < |p.probation| && Policy.Find(p.probation, p.probation[i].key) == i && |p.protected| < 2
    requires Here(at, p.probation[i].key)
    ensures Stage(Perform(e, DoGet(p.probation[i].key)), at, GetPicture(p, i), queued, flying, below)
  {
    hide Blank, Shows, GetPicture, L2Ready, L1.Ready, InL2, Policy.Get, Policy.Find;
    HasStripes(e);
    var key := p.probation[i].key;
    var s := e.l1.stripes[at.stripe];
    ShownLists(s, at.sketch, p);
    GetShows(s, at.sketch, p, i);
    GetHit(e, key);
    PictureMoves(p, i);
    SameL2(e, Get(e, key).engine);
  }

  /** What a get changes that L1 answers. */
  lemma GetHit(e: Engine, key: string)
    requires Inv(e)
    ensures var n := L1.Route(e.l1, key); var s := e.l1.stripes[n];
      && Policy.SketchReady(s)
      && var f := Get(e, key).engine; var r := Policy.Get(s, key);
      r.value.Some? ==> |f.l1.stripes| == L1.NUM_STRIPES && f == e.(l1 := e.l1.(stripes := e.l1.stripes[n := r.stripe]))
  {
    hide Policy.Get;
    var s := L1.StripeOf(e.l1, key);
    assert Theorems.Inv(s);
  }

  lemma PictureMoves(p: Picture, i: nat)
    requires i < |p.probation|
    ensures var q := GetPicture(p, i); |q.probation| + |q.protected| == |p.probation| + |p.protected|
  {
  }

  lemma DrainStage(e: Engine, at: Place, p: Picture, x: DemotionItem, below: seq<Entry>)
    requires Proper(at) && Stage(e, at, p, [x], [], below)
    ensures Stage(Perform(e, Drain), at, p, [], [x], below)
  {
    hide Blank, Shows, InL2;
    SameL2(e, PopBatch(e));
  }

  lemma DeliverStage(e: Engine, at: Place, p: Picture, x: DemotionItem)
    requires Proper(at) && Stage(e, at, p, [], [x], [])
    ensures Stage(Perform(e, Deliver), at, p, [], [], [Entry(x.key, x.value)])
  {
    hide Blank, Shows;
    StoreOneEffect(e);
  }

  lemma RunStep(e: Engine, acts: seq<Act>, a: Act)
    requires Inv(e)
    ensures Run(e, acts + [a]) == Perform(Run(e, acts), a)
  {
    hide Inv, Perform;
    assert (acts + [a])[..|acts|] == acts;
  }

  // ----- Four keys on one stripe

  ghost predicate Distinct(a: string, b: string, c: string, d: string) {
    a != b && a != c && a != d && b != c && b != d && c != d
  }

  /** Four keys of one stripe, each of them alone in its cell in some row of the stripe's sketch. */
  ghost predicate Quartet(route: string -> nat, hash: (string, nat) -> nat, a: string, b: string, c: string, d: string)
  {
    && Distinct(a, b, c, d)
    && (forall k :: k in [a, b, c, d] ==> route(k) % L1.NUM_STRIPES == route(a) % L1.NUM_STRIPES)
    && (forall k :: k in [a, b, c, d] ==> Apart(hash, [a, b, c, d], k))
  }

  ghost predicate Cast(at: Place, a: string, b: string, c: string, d: string) {
    Proper(at) && Here(at, a) && Quartet(at.route, at.sketch.hash, a, b, c, d)
  }

  /** Any of the four is alone among those counted so far. */
  lemma CastApart(at: Place, a: string, b: string, c: string, d: string, counted: seq<string>, key: string)
    requires Cast(at, a, b, c, d) && key in [a, b, c, d] && forall k :: k in counted ==> k in [a, b, c, d]
    ensures Here(at, key) && Apart(at.sketch.hash, counted, key)
  {
    ApartWithin(at.sketch.hash, [a, b, c, d], counted, key);
  }

  lemma TimesStep(keys: seq<string>, k: string, key: string)
    ensures Times(keys + [k], key) == Times(keys, key) + if k == key then 1 else 0
  {
    assert (keys + [k])[..|keys|] == keys;
  }

  /** The stripe full of three keys, each counted once. */
  function Full(a: string, b: string, c: string, v: string): Picture {
    Picture([Entry(c, v), Entry(b, v), Entry(a, v)], [], [a] + [b] + [c], 3)
  }

  lemma ThreePictures(a: string, b: string, c: string, v: string)
    ensures var p1 := PutPicture(Picture([], [], [], 0), Entry(a, v)); var p2 := PutPicture(p1, Entry(b, v));
      && p1 == Picture([Entry(a, v)], [], [a], 1) && p2 == Picture([Entry(b, v), Entry(a, v)], [], [a] + [b], 2)
      && PutPicture(p2, Entry(c, v)) == Full(a, b, c, v)
    ensures PutDemotes(Picture([], [], [], 0), Entry(a, v)) == []
    ensures PutDemotes(Picture([Entry(a, v)], [], [a], 1), Entry(b, v)) == []
    ensures PutDemotes(Picture([Entry(b, v), Entry(a, v)], [], [a] + [b], 2), Entry(c, v)) == []
  {
    assert [] + [a] == [a];
  }

  lemma OnceEach(a: string, b: string, c: string, key: string)
    ensures Times([a] + [b] + [c], key) ==
      (if a == key then 1 else 0) + (if b == key then 1 else 0) + (if c == key then 1 else 0)
  {
    TimesStep([], a, key);
    assert [] + [a] == [a];
    TimesStep([a], b, key);
    TimesStep([a] + [b], c, key);
  }

  /** A fourth key is refused the first time, and evicts `a` the second time. */
  lemma FourthKey(a: string, b: string, c: string, d: string, v: string)
    requires Distinct(a, b, c, d)
    ensures var p := Full(a, b, c, v); var q := p.(counted := p.counted + [d], puts := 4);
      && PutPicture(p, Entry(d, v)) == q && PutDemotes(p, Entry(d, v)) == []
      && PutPicture(q, Entry(d, v)) == Evicted(a, b, c, d, v) && PutDemotes(q, Entry(d, v)) == [DemotionItem(a, v, 1)]
  {
    var p := Full(a, b, c, v);
    OnceEach(a, b, c, a);
    OnceEach(a, b, c, d);
    TimesStep(p.counted, d, a);
    TimesStep(p.counted, d, d);
    TimesStep(p.counted + [d], d, a);
    TimesStep(p.counted + [d], d, d);
    hide Times;
    assert Policy.Last(p.probation) == Entry(a, v) && Policy.Front(p.probation) == [Entry(c, v), Entry(b, v)];
  }

  function Evicted(a: string, b: string, c: string, d: string, v: string): Picture {
    Picture([Entry(d, v), Entry(c, v), Entry(b, v)], [], [a] + [b] + [c] + [d] + [d], 5)
  }

  function Five(a: string, b: string, c: string, d: string, v: string): seq<Act> {
    [DoPut(a, v)] + [DoPut(b, v)] + [DoPut(c, v)] + [DoPut(d, v)] + [DoPut(d, v)]
  }

  lemma NoKey(l: seq<Entry>, key: string)
    requires forall i :: 0 <= i < |l| ==> l[i].key != key
    ensures !Policy.HasKey(l, key)
  {
  }

  lemma StageInv(e: Engine, at: Place, p: Picture, queued: seq<DemotionItem>, flying: seq<DemotionItem>,
                 below: seq<Entry>)
    requires Proper(at) && Stage(e, at, p, queued, flying, below)
    ensures Inv(e) && e.flying == flying && e.l1.free > 0
    ensures forall x :: x in below ==> InL2(e, x)
  {
    HasStripes(e);
    ShownLists(e.l1.stripes[at.stripe], at.sketch, p);
  }

  lemma ThreeActs(e0: Engine, at: Place, a: string, b: string, c: string, d: string, v: string)
    requires Cast(at, a, b, c, d) && Stage(e0, at, Picture([], [], [], 0), [], [], [])
    ensures Stage(Run(e0, [DoPut(a, v)] + [DoPut(b, v)] + [DoPut(c, v)]), at, Full(a, b, c, v), [], [], [])
  {
    hide Stage, Inv, Perform, Blank, PutPicture, PutDemotes, Apart, Cast, Here;
    CastIs(at, a, b, c, d);
    StageInv(e0, at, Picture([], [], [], 0), [], [], []);
    ThreePictures(a, b, c, v);
    assert [] + [DoPut(a, v)] == [DoPut(a, v)] && Run(e0, []) == e0;
    RunStep(e0, [], DoPut(a, v));
    NoKey([], a);
    CastApart(at, a, b, c, d, [] + [a], a);
    PutStage(e0, at, Picture([], [], [], 0), [], [], Entry(a, v));
    RunStep(e0, [DoPut(a, v)], DoPut(b, v));
    NoKey([Entry(a, v)], b);
    NoKey([], b);
    CastApart(at, a, b, c, d, [a] + [b], a);
    CastApart(at, a, b, c, d, [a] + [b], b);
    PutStage(Run(e0, [DoPut(a, v)]), at, Picture([Entry(a, v)], [], [a], 1), [], [], Entry(b, v));
    RunStep(e0, [DoPut(a, v)] + [DoPut(b, v)], DoPut(c, v));
    NoKey([Entry(b, v), Entry(a, v)], c);
    NoKey([], c);
    CastApart(at, a, b, c, d, [a] + [b] + [c], a);
    CastApart(at, a, b, c, d, [a] + [b] + [c], c);
    PutStage(Run(e0, [DoPut(a, v)] + [DoPut(b, v)]), at, Picture([Entry(b, v), Entry(a, v)], [], [a] + [b], 2), [], [],
             Entry(c, v));
  }

  lemma CastIs(at: Place, a: string, b: string, c: string, d: string)
    requires Cast(at, a, b, c, d)
    ensures Proper(at) && Distinct(a, b, c, d)
  {
  }

  /** The fifth put evicts `a`, which then waits in the ring. */
  lemma FiveActs(e0: Engine, at: Place, a: string, b: string, c: string, d: string, v: string)
    requires Cast(at, a, b, c, d) && Stage(e0, at, Picture([], [], [], 0), [], [], [])
    ensures Stage(Run(e0, Five(a, b, c, d, v)), at, Evicted(a, b, c, d, v), [DemotionItem(a, v, 1)], [], [])
  {
    hide Stage, Inv, Perform, Blank, PutPicture, PutDemotes, Apart, Cast, Here;
    CastIs(at, a, b, c, d);
    StageInv(e0, at, Picture([], [], [], 0), [], [], []);
    ThreeActs(e0, at, a, b, c, d, v);
    FourthKey(a, b, c, d, v);
    var three := [DoPut(a, v)] + [DoPut(b, v)] + [DoPut(c, v)];
    var p := Full(a, b, c, v);
    NoKey(p.probation, d);
    NoKey([], d);
    RunStep(e0, three, DoPut(d, v));
    CastApart(at, a, b, c, d, p.counted + [d], a);
    CastApart(at, a, b, c, d, p.counted + [d], d);
    PutStage(Run(e0, three), at, p, [], [], Entry(d, v));
    var q := p.(counted := p.counted + [d], puts := 4);
    RunStep(e0, three + [DoPut(d, v)], DoPut(d, v));
    CastApart(at, a, b, c, d, q.counted + [d], a);
    CastApart(at, a, b, c, d, q.counted + [d], d);
    PutStage(Run(e0, three + [DoPut(d, v)]), at, q, [], [], Entry(d, v));
  }

  // ----- The two runs

  /** Once `a` has been evicted and its copy popped, removing it does not keep it from coming back. */
  lemma RemovedKeyReturns(z: Setting, a: string, b: string, c: string, d: string, v: string)
    requires Fits(z) && Quartet(z.route, z.sketchHash, a, b, c, d)
    ensures Inv(Opening(z))
    ensures var e := Run(Opening(z), Five(a, b, c, d, v) + [Drain] + [DoRemove(a)] + [Deliver]);
      Get(e, a).value == Some(v) && BackendGet(e, a) == None
  {
    hide Stage, Perform, Opening, Blank, Five, L1.Ready, L2Ready, L1.Placed, Get, Quartet;
    var at := OpeningStage(z, a);
    var e0 := Opening(z);
    StageInv(e0, at, Picture([], [], [], 0), [], [], []);
    FiveActs(e0, at, a, b, c, d, v);
    var acts := Five(a, b, c, d, v);
    var p := Evicted(a, b, c, d, v);
    RunStep(e0, acts, Drain);
    DrainStage(Run(e0, acts), at, p, DemotionItem(a, v, 1), []);
    var e := Run(e0, acts + [Drain]);
    StageInv(e, at, p, [], [DemotionItem(a, v, 1)], []);
    RunStep(e0, acts + [Drain], DoRemove(a));
    RunStep(e0, acts + [Drain] + [DoRemove(a)], Deliver);
    RemovedKeyComesBack(e, a, v);
  }

  /** The acts that bring the first version of `a` to L2 and make the last probation entry as frequent as `a`. */
  function Settled(a: string, b: string, c: string, d: string, v: string): seq<Act> {
    Five(a, b, c, d, v) + [Drain] + [Deliver] + [DoGet(b)] + [DoGet(c)]
  }

  function SettledPicture(a: string, b: string, c: string, d: string, v: string): Picture {
    Picture([Entry(d, v)], [Entry(c, v), Entry(b, v)], [a] + [b] + [c] + [d] + [d] + [b] + [c], 5)
  }

  lemma TwoGets(a: string, b: string, c: string, d: string, v: string)
    requires Distinct(a, b, c, d)
    ensures var p := Evicted(a, b, c, d, v); var q := GetPicture(p, 2);
      && p.probation[2] == Entry(b, v) && Policy.Find(p.probation, b) == 2
      && q.probation == [Entry(d, v), Entry(c, v)] && q.protected == [Entry(b, v)]
      && q.probation[1] == Entry(c, v) && Policy.Find(q.probation, c) == 1
      && GetPicture(q, 1) == SettledPicture(a, b, c, d, v)
  {
    var p := Evicted(a, b, c, d, v);
    FindIs(p.probation, 2);
    FindIs(GetPicture(p, 2).probation, 1);
  }

  lemma FindIs(l: seq<Entry>, i: nat)
    requires i < |l| && forall j :: 0 <= j < i ==> l[j].key != l[i].key
    ensures Policy.Find(l, l[i].key) == i
  {
  }

  lemma SettledStage(e0: Engine, at: Place, a: string, b: string, c: string, d: string, v: string)
    requires Cast(at, a, b, c, d) && Stage(e0, at, Picture([], [], [], 0), [], [], [])
    ensures Stage(Run(e0, Settled(a, b, c, d, v)), at, SettledPicture(a, b, c, d, v), [], [], [Entry(a, v)])
  {
    hide Stage, Inv, Perform, Blank, Five, GetPicture, Cast, Here, Apart;
    CastIs(at, a, b, c, d);
    StageInv(e0, at, Picture([], [], [], 0), [], [], []);
    CastApart(at, a, b, c, d, [], b);
    CastApart(at, a, b, c, d, [], c);
    FiveActs(e0, at, a, b, c, d, v);
    TwoGets(a, b, c, d, v);
    var acts := Five(a, b, c, d, v);
    var p := Evicted(a, b, c, d, v);
    RunStep(e0, acts, Drain);
    DrainStage(Run(e0, acts), at, p, DemotionItem(a, v, 1), []);
    RunStep(e0, acts + [Drain], Deliver);
    DeliverStage(Run(e0, acts + [Drain]), at, p, DemotionItem(a, v, 1));
    RunStep(e0, acts + [Drain] + [Deliver], DoGet(b));
    GetStage(Run(e0, acts + [Drain] + [Deliver]), at, p, [], [], [Entry(a, v)], 2);
    RunStep(e0, acts + [Drain] + [Deliver] + [DoGet(b)], DoGet(c));
    GetStage(Run(e0, acts + [Drain] + [Deliver] + [DoGet(b)]), at, GetPicture(p, 2), [], [], [Entry(a, v)], 1);
  }

  /** In that state a put of `a` is refused: it has been counted twice by then, as often as `d`. */
  lemma SettledRefuses(e: Engine, at: Place, a: string, b: string, c: string, d: string, v: string)
    requires Cast(at, a, b, c, d) && Stage(e, at, SettledPicture(a, b, c, d, v), [], [], [Entry(a, v)])
    ensures Inv(e) && Theorems.Refused(L1.StripeOf(e.l1, a), a, e.l1.free > 0)
  {
    hide Blank, Shows, Quartet, Apart, Times, Theorems.Refused, L1.Ready, L2Ready;
    var p := SettledPicture(a, b, c, d, v);
    HasStripes(e);
    CastIs(at, a, b, c, d);
    CastApart(at, a, b, c, d, p.counted + [a], a);
    CastApart(at, a, b, c, d, p.counted + [a], d);
    SettledTimes(a, b, c, d, v);
    NoKey(p.probation, a);
    NoKey(p.protected, a);
    FullRefuses(e.l1.stripes[at.stripe], at.sketch, p, a, e.l1.free > 0);
  }

  lemma SettledTimes(a: string, b: string, c: string, d: string, v: string)
    requires Distinct(a, b, c, d)
    ensures var counted := SettledPicture(a, b, c, d, v).counted + [a]; Times(counted, a) == 2 && Times(counted, d) == 2
  {
    var k3 := [a] + [b] + [c];
    OnceEach(a, b, c, a);
    OnceEach(a, b, c, d);
    SumTimes(k3, d, d, b, c, a, a);
    SumTimes(k3, d, d, b, c, a, d);
  }

  lemma SumTimes(keys: seq<string>, k1: string, k2: string, k3: string, k4: string, k5: string, key: string)
    ensures Times(keys + [k1] + [k2] + [k3] + [k4] + [k5], key) ==
      Times(keys, key) + (if k1 == key then 1 else 0) + (if k2 == key then 1 else 0) + (if k3 == key then 1 else 0)
      + (if k4 == key then 1 else 0) + (if k5 == key then 1 else 0)
  {
    hide Times;
    TimesStep(keys, k1, key);
    TimesStep(keys + [k1], k2, key);
    TimesStep(keys + [k1] + [k2], k3, key);
    TimesStep(keys + [k1] + [k2] + [k3], k4, key);
    TimesStep(keys + [k1] + [k2] + [k3] + [k4], k5, key);
  }

  /** After this run a put of a new value for `a` is followed by a get that answers the old one. */
  lemma StaleAnswer(z: Setting, a: string, b: string, c: string, d: string, v: string, w: string)
    requires Fits(z) && Quartet(z.route, z.sketchHash, a, b, c, d)
    ensures Inv(Opening(z))
    ensures var e := Run(Opening(z), Settled(a, b, c, d, v) + [DoPut(a, w)]);
      Get(e, a).value == Some(v) && BackendGet(e, a) == Some(w)
  {
    hide Stage, Opening, Blank, Settled, L1.Ready, L2Ready, L1.Placed, Get, Put, Theorems.Refused, Quartet;
    var at := OpeningStage(z, a);
    var e0 := Opening(z);
    StageInv(e0, at, Picture([], [], [], 0), [], [], []);
    SettledStage(e0, at, a, b, c, d, v);
    var acts := Settled(a, b, c, d, v);
    var e := Run(e0, acts);
    StageInv(e, at, SettledPicture(a, b, c, d, v), [], [], [Entry(a, v)]);
    SettledRefuses(e, at, a, b, c, d, v);
    RunStep(e0, acts, DoPut(a, w));
    StalePutAnswers(e, a, v, w);
  }
}
