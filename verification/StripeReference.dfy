/**
 A reference for the stripe that knows no lists: every resident has a segment and the time it was
 last put in front there, and what leaves a segment is what has been there longest untouched. Its
 replies and states are determined. `StripeRefinement` shows that the lists of `StripePolicy` do the same.
 */
module StripeReference {
  import opened Types
  import opened Cms = CountMinSketch
  import opened StripePolicy
  import opened StripeTheorems
  import opened StripeHistory

  datatype Resident = Resident(value: string, segment: Segment, since: nat)

  datatype Statistics = Statistics(hits: nat, misses: nat, admissions: nat, evictions: nat, rejections: nat)

  /** `counted` is what the sketch has counted, `puts` the number of puts, `now` the number of operations. */
  datatype Reference = Reference(residents: map<string, Resident>, now: nat, counted: seq<Cms.Op>, puts: nat,
                                 stats: Statistics)

  function Start(): Reference {
    Reference(map[], 0, [], 0, Statistics(0, 0, 0, 0, 0))
  }

  /** What an operation returns. */
  datatype Reply =
    | Got(value: Option<string>)
    | Wrote(inserted: bool, demoted: seq<DemotionItem>)
    | Removed(removed: bool)

  /** What an insertion leads to. */
  datatype Fate =
    | Fits
    | Admits(candidate: string)
    | Replaces(candidate: string, victim: string)
    | Rejects(candidate: string)

  // ----- The reference's steps

  /** The residents of one segment. */
  ghost function Members(m: map<string, Resident>, seg: Segment): set<string> {
    set k | k in m && m[k].segment == seg
  }

  /** Nobody in the segment has been there untouched for longer. */
  ghost predicate Oldest(m: map<string, Resident>, seg: Segment, key: string) {
    key in m && m[key].segment == seg && forall k :: k in Members(m, seg) ==> m[key].since <= m[k].since
  }

  function Moved(m: map<string, Resident>, key: string, seg: Segment, now: nat): map<string, Resident>
    requires key in m
  {
    m[key := Resident(m[key].value, seg, now)]
  }

  function Refreshed(m: map<string, Resident>, key: string, value: string): map<string, Resident>
    requires key in m
  {
    m[key := m[key].(value := value)]
  }

  /** A hit in Probation is promoted; where Protected is full its oldest goes back to Probation. */
  ghost predicate Touched(cfg: Config, m: map<string, Resident>, key: string, now: nat, n: map<string, Resident>)
    requires key in m
  {
    if m[key].segment != Probation then n == Moved(m, key, m[key].segment, now)
    else if |Members(m, Protected)| < cfg.protectedCap then n == Moved(m, key, Protected, now)
    else exists d :: Oldest(m, Protected, d)
           && n == Moved(Moved(m, d, Probation, now), key, Protected, now)
  }

  /**
   The window's oldest becomes a candidate once the window overflows; Main is free, or the oldest in Probation
   defends.
   */
  ghost predicate Settled(cfg: Config, m: map<string, Resident>, sk: Sketch, now: nat, fate: Fate,
                          n: map<string, Resident>)
    requires ValidSketch(sk)
  {
    var overflows := |Members(m, Window)| > cfg.windowCap;
    var full := |Members(m, Probation)| + |Members(m, Protected)| >= cfg.mainCap;
    match fate
    case Fits => !overflows && n == m
    case Admits(c) =>
      overflows && !full && Oldest(m, Window, c) && n == Moved(m, c, Probation, now)
    case Replaces(c, v) =>
      && overflows && full && Oldest(m, Window, c) && Oldest(m, Probation, v)
      && Estimate(sk, c) > Estimate(sk, v) && c in m - {v} && n == Moved(m - {v}, c, Probation, now)
    case Rejects(c) =>
      && overflows && full && Oldest(m, Window, c)
      && (exists v :: Oldest(m, Probation, v) && Estimate(sk, c) <= Estimate(sk, v))
      && n == m - {c}
  }

  function Demotions(m: map<string, Resident>, sk: Sketch, fate: Fate): seq<DemotionItem>
    requires ValidSketch(sk) && (fate.Replaces? ==> fate.victim in m)
  {
    if fate.Replaces? then [DemotionItem(fate.victim, m[fate.victim].value, Estimate(sk, fate.victim))] else []
  }

  function WithFate(t: Statistics, fate: Fate): Statistics {
    match fate
    case Fits => t
    case Admits(_) => t.(admissions := t.admissions + 1)
    case Replaces(_, _) => t.(admissions := t.admissions + 1, evictions := t.evictions + 1)
    case Rejects(_) => t.(rejections := t.rejections + 1)
  }

  function Counting(hash: (string, nat) -> nat, counted: seq<Cms.Op>): (sk: Sketch)
  {
    PerformAll(Fresh(DEPTH, WIDTH, hash), counted)
  }

  ghost predicate GetStep(cfg: Config, r: Reference, key: string, reply: Reply, q: Reference) {
    if key in r.residents then
      && reply == Got(Some(r.residents[key].value))
      && Touched(cfg, r.residents, key, r.now, q.residents)
      && q.now == r.now + 1 && q.counted == r.counted + [Inc(key)] && q.puts == r.puts
      && q.stats == r.stats.(hits := r.stats.hits + 1)
    else
      reply == Got(None) && q == r.(now := r.now + 1, stats := r.stats.(misses := r.stats.misses + 1))
  }

  ghost predicate PutStep(cfg: Config, hash: (string, nat) -> nat, r: Reference, key: string, value: string, slot: bool,
                          reply: Reply, q: Reference)
    requires WellFormed(cfg)
  {
    && q.now == r.now + 1 && q.puts == r.puts + 1
    && q.counted == CountedPut(r.counted, key, q.puts, cfg.decayInterval)
    && if key in r.residents then
         && reply == Wrote(false, []) && q.stats == r.stats
         && Touched(cfg, Refreshed(r.residents, key, value), key, r.now, q.residents)
       else if !slot then reply == Wrote(false, []) && q.residents == r.residents && q.stats == r.stats
       else
         var m := r.residents[key := Resident(value, Window, r.now)];
         var sk := Counting(hash, q.counted);
         && ValidSketch(sk)
         && exists fate :: Settled(cfg, m, sk, r.now, fate, q.residents) && q.stats == WithFate(r.stats, fate)
              && (fate.Replaces? ==> fate.victim in m) && reply == Wrote(true, Demotions(m, sk, fate))
  }

  ghost predicate RemoveStep(r: Reference, key: string, reply: Reply, q: Reference) {
    reply == Removed(key in r.residents) && q == r.(now := r.now + 1, residents := r.residents - {key})
  }

  ghost predicate ReferenceStep(cfg: Config, hash: (string, nat) -> nat, r: Reference, op: StripeOp, reply: Reply,
                                q: Reference)
    requires WellFormed(cfg)
  {
    match op
    case DoGet(k) => GetStep(cfg, r, k, reply, q)
    case DoPut(k, v, slot) => PutStep(cfg, hash, r, k, v, slot, reply, q)
    case DoRemove(k) => RemoveStep(r, k, reply, q)
  }

  /** The reference can go from its start to `r` with these operations and replies. */
  ghost predicate Reached(cfg: Config, hash: (string, nat) -> nat, ops: seq<StripeOp>, replies: seq<Reply>,
                          r: Reference)
    requires WellFormed(cfg) && |replies| == |ops|
  {
    if ops == [] then r == Start()
    else
      var n := |ops| - 1;
      exists q :: Reached(cfg, hash, ops[..n], replies[..n], q)
        && ReferenceStep(cfg, hash, q, ops[n], replies[n], r)
  }

  // ----- The reference leaves no choice

  ghost predicate Before(m: map<string, Resident>, now: nat) {
    forall k :: k in m ==> m[k].since < now
  }

  /** No two residents of a segment were put in front at the same time. */
  ghost predicate Untied(m: map<string, Resident>) {
    forall j, k :: j in m && k in m && j != k && m[j].segment == m[k].segment ==> m[j].since != m[k].since
  }

  lemma OneOldest(m: map<string, Resident>, seg: Segment, j: string, k: string)
    requires Untied(m) && Oldest(m, seg, j) && Oldest(m, seg, k)
    ensures j == k
  {
    assert j in Members(m, seg) && k in Members(m, seg);
  }

  lemma OneTouched(cfg: Config, m: map<string, Resident>, key: string, now: nat, n1: map<string, Resident>,
                   n2: map<string, Resident>)
    requires key in m && Untied(m) && Touched(cfg, m, key, now, n1) && Touched(cfg, m, key, now, n2)
    ensures n1 == n2
  {
    hide Members;
    if m[key].segment == Probation && |Members(m, Protected)| >= cfg.protectedCap {
      var d1 :| Oldest(m, Protected, d1) && n1 == Moved(Moved(m, d1, Probation, now), key, Protected, now);
      var d2 :| Oldest(m, Protected, d2) && n2 == Moved(Moved(m, d2, Probation, now), key, Protected, now);
      OneOldest(m, Protected, d1, d2);
    }
  }

  lemma OneFate(cfg: Config, m: map<string, Resident>, sk: Sketch, now: nat, f1: Fate, n1: map<string, Resident>,
                f2: Fate, n2: map<string, Resident>)
    requires ValidSketch(sk) && Untied(m) && Settled(cfg, m, sk, now, f1, n1) && Settled(cfg, m, sk, now, f2, n2)
    ensures f1 == f2 && n1 == n2
  {
    hide Oldest, Members, Estimate;
    if !f1.Fits? && !f2.Fits? {
      OneOldest(m, Window, f1.candidate, f2.candidate);
      forall j, k | Oldest(m, Probation, j) && Oldest(m, Probation, k) ensures j == k {
        OneOldest(m, Probation, j, k);
      }
    }
  }

  lemma UntiedMore(m: map<string, Resident>, key: string, x: Resident)
    requires Untied(m)
      && (if key in m then x.segment == m[key].segment && x.since == m[key].since else Before(m, x.since))
    ensures Untied(m[key := x])
  {
  }

  /** Reply and next state are determined. */
  lemma ReferenceIsDeterministic(cfg: Config, hash: (string, nat) -> nat, r: Reference, op: StripeOp, reply1: Reply,
                                 q1: Reference, reply2: Reply, q2: Reference)
    requires WellFormed(cfg) && Untied(r.residents) && Before(r.residents, r.now)
    requires ReferenceStep(cfg, hash, r, op, reply1, q1) && ReferenceStep(cfg, hash, r, op, reply2, q2)
    ensures reply1 == reply2 && q1 == q2
  {
    hide Touched, Settled, PerformAll, Estimate, CountedPut, Untied, Before;
    var m := r.residents;
    match op
    case DoGet(k) =>
      if k in m {
        OneTouched(cfg, m, k, r.now, q1.residents, q2.residents);
      }
    case DoRemove(_) =>
    case DoPut(k, v, slot) =>
      if k in m {
        UntiedMore(m, k, m[k].(value := v));
        OneTouched(cfg, Refreshed(m, k, v), k, r.now, q1.residents, q2.residents);
      } else if slot {
        UntiedMore(m, k, Resident(v, Window, r.now));
        OneInsertion(cfg, hash, r, k, v, reply1, q1, reply2, q2);
      }
  }

  lemma OneInsertion(cfg: Config, hash: (string, nat) -> nat, r: Reference, key: string, value: string, reply1: Reply,
                     q1: Reference, reply2: Reply, q2: Reference)
    requires WellFormed(cfg) && key !in r.residents && Untied(r.residents[key := Resident(value, Window, r.now)])
    requires PutStep(cfg, hash, r, key, value, true, reply1, q1) && PutStep(cfg, hash, r, key, value, true, reply2, q2)
    ensures reply1 == reply2 && q1.residents == q2.residents && q1.stats == q2.stats
  {
    hide Settled, PerformAll, Estimate, CountedPut, Untied;
    var m := r.residents[key := Resident(value, Window, r.now)];
    var sk := Counting(hash, q1.counted);
    assert q2.counted == q1.counted;
    var f1 :| Settled(cfg, m, sk, r.now, f1, q1.residents) && q1.stats == WithFate(r.stats, f1)
      && (f1.Replaces? ==> f1.victim in m) && reply1 == Wrote(true, Demotions(m, sk, f1));
    var f2 :| Settled(cfg, m, sk, r.now, f2, q2.residents) && q2.stats == WithFate(r.stats, f2)
      && (f2.Replaces? ==> f2.victim in m) && reply2 == Wrote(true, Demotions(m, sk, f2));
    OneFate(cfg, m, sk, r.now, f1, q1.residents, f2, q2.residents);
  }
}
