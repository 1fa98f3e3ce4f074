/**
 What a stripe's sketch has counted, told from the operations: every put and every hit, and a halving
 after each `decayInterval`-th put.
 */
module StripeHistory {
  import opened Types
  import opened Cms = CountMinSketch
  import opened StripePolicy
  import opened StripeTheorems

  const DEPTH: nat := 4
  const WIDTH: nat := 512

  /** Adds a put, the `n`-th one, to what has been counted. */
  function CountedPut(counted: seq<Op>, key: string, n: nat, interval: nat): seq<Op>
    requires interval > 0
  {
    counted + [Inc(key)] + if n % interval == 0 then [Halve] else []
  }

  function Puts(ops: seq<StripeOp>): nat {
    if ops == [] then 0 else Puts(ops[..|ops| - 1]) + if ops[|ops| - 1].DoPut? then 1 else 0
  }

  /** The stripe after the operations. */
  function After(cfg: Config, hash: (string, nat) -> nat, ops: seq<StripeOp>): (s: Stripe)
    requires WellFormed(cfg)
    ensures Inv(s) && s.cfg == cfg
  {
    StripeSafety(cfg, hash, ops);
    RunOps(Empty(cfg, hash), ops).stripe
  }

  function History(cfg: Config, hash: (string, nat) -> nat, ops: seq<StripeOp>): seq<Op>
    requires WellFormed(cfg)
  {
    if ops == [] then []
    else
      var front := ops[..|ops| - 1];
      var before := History(cfg, hash, front);
      match ops[|ops| - 1]
      case DoGet(k) => if Lookup(After(cfg, hash, front), k).Some? then before + [Inc(k)] else before
      case DoPut(k, _, _) => CountedPut(before, k, Puts(ops), cfg.decayInterval)
      case DoRemove(_) => before
  }

  lemma NextTurn(n: nat, interval: nat)
    requires interval > 0
    ensures (n + 1) % interval == if n % interval + 1 >= interval then 0 else n % interval + 1
  {
    var q, r := n / interval, n % interval;
    assert n == q * interval + r;
    if r + 1 == interval {
      CellCoordinates(q + 1, 0, interval);
    } else {
      CellCoordinates(q, r + 1, interval);
    }
  }

  /** Counting an access to a stripe whose sketch has counted `counted` and that has seen `puts` puts. */
  lemma CountIsHistory(s: Stripe, blank: Sketch, counted: seq<Op>, puts: nat, key: string)
    requires Inv(s) && blank.width > 0 && s.sketch == PerformAll(blank, counted)
    requires s.opsSinceDecay == puts % s.cfg.decayInterval
    ensures var t := Count(s, key); var n := puts + 1; var interval := s.cfg.decayInterval;
      t.sketch == PerformAll(blank, CountedPut(counted, key, n, interval)) && t.opsSinceDecay == n % interval
  {
    hide Increment, Decay;
    NextTurn(puts, s.cfg.decayInterval);
    PerformOne(blank, counted, Inc(key));
    PerformOne(blank, counted + [Inc(key)], Halve);
    assert counted + [Inc(key)] + [] == counted + [Inc(key)];
  }

  /** What an operation does to the sketch: a get counts a hit, a put counts, a remove does nothing. */
  lemma StepSketch(s: Stripe, op: StripeOp)
    requires Inv(s)
    ensures var t := Step(Ledger(s, 0, 0), op).stripe;
      match op
      case DoGet(k) =>
        && t.sketch == (if Lookup(s, k).Some? then Increment(s.sketch, k) else s.sketch)
        && t.opsSinceDecay == s.opsSinceDecay
      case DoPut(k, v, slot) => t.sketch == Count(s, k).sketch && t.opsSinceDecay == Count(s, k).opsSinceDecay
      case DoRemove(_) => t.sketch == s.sketch && t.opsSinceDecay == s.opsSinceDecay
  {
    hide Increment, StripePolicy.Find, StripePolicy.Promote, SetIn, StripePolicy.TryAdmit, Bag;
    match op
    case DoGet(k) =>
      LookupMeans(s, k, "");
      TouchEffect(s.(sketch := Increment(s.sketch, k)), k);
    case DoPut(k, v, slot) => PutSketch(s, k, v, slot);
    case DoRemove(k) => RemoveShape(s, k);
  }

  lemma PutSketch(s: Stripe, key: string, value: string, slot: bool)
    requires Inv(s)
    ensures var t := Put(s, key, value, slot).stripe; var c := Count(s, key);
      t.sketch == c.sketch && t.opsSinceDecay == c.opsSinceDecay
  {
    hide StripePolicy.Count, StripePolicy.Find, SetIn, Bag, StripePolicy.Has;
    if Has(s, key) {
      CountEffect(s, key);
      var t := Count(s, key);
      TouchEffect(SetValue(t, key, value), key);
    } else if slot {
      PutMissIs(s, key, value);
      PushedBounds(s, key, value);
      if |s.window| >= s.cfg.windowCap {
        TryAdmitEffect(Pushed(s, key, value));
      }
    }
  }

  lemma StepOfRun(cfg: Config, hash: (string, nat) -> nat, ops: seq<StripeOp>)
    requires WellFormed(cfg) && ops != []
    ensures After(cfg, hash, ops) == Step(Ledger(After(cfg, hash, ops[..|ops| - 1]), 0, 0), ops[|ops| - 1]).stripe
  {
    hide StripePolicy.Get, StripePolicy.Put, StripePolicy.Remove;
  }

  /** The sketch is what the history says, over any run. */
  lemma {:induction false} SketchIsHistory(cfg: Config, hash: (string, nat) -> nat, ops: seq<StripeOp>)
    requires WellFormed(cfg)
    ensures var s := After(cfg, hash, ops);
      && s.sketch == PerformAll(Fresh(DEPTH, WIDTH, hash), History(cfg, hash, ops))
      && s.opsSinceDecay == Puts(ops) % cfg.decayInterval
  {
    hide Inv, Step, After, PerformAll, Fresh, StripePolicy.Count, Increment, StripePolicy.Lookup, CountedPut;
    var blank := Fresh(DEPTH, WIDTH, hash);
    FreshIs(hash);
    if ops == [] {
      EmptyHistory(cfg, hash);
    } else {
      var front := ops[..|ops| - 1];
      var s := After(cfg, hash, front);
      SketchIsHistory(cfg, hash, front);
      StepOfRun(cfg, hash, ops);
      StepSketch(s, ops[|ops| - 1]);
      match ops[|ops| - 1] {
        case DoGet(k) => PerformOne(blank, History(cfg, hash, front), Inc(k));
        case DoPut(k, _, _) => CountIsHistory(s, blank, History(cfg, hash, front), Puts(front), k);
        case DoRemove(_) =>
      }
    }
  }

  lemma FreshIs(hash: (string, nat) -> nat)
    ensures var sk := Fresh(DEPTH, WIDTH, hash);
      sk.depth == DEPTH && sk.width == WIDTH && sk == Fresh(sk.depth, sk.width, sk.hash) && sk.hash == hash
  {
  }

  lemma EmptyHistory(cfg: Config, hash: (string, nat) -> nat)
    requires WellFormed(cfg)
    ensures var s := After(cfg, hash, []); s.sketch == Fresh(DEPTH, WIDTH, hash) && s.opsSinceDecay == 0
    ensures PerformAll(Fresh(DEPTH, WIDTH, hash), []) == Fresh(DEPTH, WIDTH, hash)
    ensures 0 % cfg.decayInterval == 0
  {
  }

  /** So the stripe's estimates have the sketch's bounds, with the history in place of the counters. */
  lemma StripeEstimates(cfg: Config, hash: (string, nat) -> nat, ops: seq<StripeOp>, key: string)
    requires WellFormed(cfg) && Bounded(History(cfg, hash, ops))
    ensures var h := History(cfg, hash, ops); var n := Estimate(After(cfg, hash, ops).sketch, key);
      && Tally(h, k => k == key) <= n <= Total(h)
      && ((exists row :: 0 <= row < DEPTH && AloneInRow(hash, h, key, row)) ==> n == Tally(h, k => k == key))
  {
    hide After, History, Estimate, PerformAll, Tally, Fresh;
    var h := History(cfg, hash, ops);
    var blank := Fresh(DEPTH, WIDTH, hash);
    FreshIs(hash);
    SketchIsHistory(cfg, hash, ops);
    EstimateBounds(blank, h, key);
    if row :| 0 <= row < DEPTH && AloneInRow(hash, h, key, row) {
      AloneIsExact(blank, h, key, row);
    }
  }

  lemma AloneIsExact(sk: Sketch, h: seq<Op>, key: string, row: nat)
    requires sk.width == WIDTH && row < sk.depth && sk == Fresh(sk.depth, sk.width, sk.hash) && Bounded(h)
    requires AloneInRow(sk.hash, h, key, row)
    ensures Estimate(PerformAll(sk, h), key) == Tally(h, k => k == key)
  {
    EstimateBounds(sk, h, key);
    forall k | Inc(k) in h && SharesCell(sk, key, row)(k) ensures k == key {
      assert sk.hash(k, row) % WIDTH == sk.hash(key, row) % WIDTH;
    }
    assert 0 <= row < sk.depth && forall k :: Inc(k) in h && SharesCell(sk, key, row)(k) ==> k == key;
    assert exists r :: 0 <= r < sk.depth && forall k :: Inc(k) in h && SharesCell(sk, key, r)(k) ==> k == key;
  }

  /** No other counted key has the cell of `key` in this row. */
  ghost predicate AloneInRow(hash: (string, nat) -> nat, h: seq<Op>, key: string, row: nat) {
    forall k :: Inc(k) in h && hash(k, row) % WIDTH == hash(key, row) % WIDTH ==> k == key
  }

  /** A put halves every estimate exactly if it is a `decayInterval`-th put, after counting its own key. */
  lemma DecayIsExact(cfg: Config, hash: (string, nat) -> nat, ops: seq<StripeOp>, put: StripeOp, key: string)
    requires WellFormed(cfg) && put.DoPut?
    ensures var counted := Increment(After(cfg, hash, ops).sketch, put.key);
      Estimate(After(cfg, hash, ops + [put]).sketch, key) ==
      if Puts(ops + [put]) % cfg.decayInterval == 0 then Estimate(counted, key) / 2 else Estimate(counted, key)
  {
    hide After, Estimate, Increment, Decay, Inv, Step, StripePolicy.Count, Puts;
    var s := After(cfg, hash, ops);
    assert (ops + [put])[..|ops|] == ops;
    StepOfRun(cfg, hash, ops + [put]);
    StepSketch(s, put);
    SketchIsHistory(cfg, hash, ops);
    PutsStep(ops, put);
    CountDecays(s, put.key, Puts(ops), key);
  }

  lemma PutsStep(ops: seq<StripeOp>, put: StripeOp)
    requires put.DoPut?
    ensures Puts(ops + [put]) == Puts(ops) + 1
  {
    assert (ops + [put])[..|ops|] == ops;
  }

  lemma CountDecays(s: Stripe, counted: string, puts: nat, key: string)
    requires Inv(s) && s.opsSinceDecay == puts % s.cfg.decayInterval
    ensures var c := Increment(s.sketch, counted); var t := Count(s, counted);
      Estimate(t.sketch, key) ==
      if (puts + 1) % s.cfg.decayInterval == 0 then Estimate(c, key) / 2 else Estimate(c, key)
  {
    hide Estimate, Increment, Decay, Bag, Unique;
    NextTurn(puts, s.cfg.decayInterval);
    OperationsKeepValid(s.sketch, Inc(counted));
    DecayHalvesEstimates(Increment(s.sketch, counted), key, key);
  }
}
