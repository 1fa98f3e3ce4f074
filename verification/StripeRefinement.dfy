/**
 The lists of a stripe refine the reference: each operation is a step of the reference with the same
 reply, so any run of the lists is a run of the reference.
 */
module StripeRefinement {
  import opened Types
  import opened Seqs
  import opened Cms = CountMinSketch
  import opened StripePolicy
  import opened StripeTheorems
  import opened StripeHistory
  import opened StripeReference
  import opened Recency

  // ----- One list and its segment

  /** The list has the segment's residents, the most recently touched first. */
  ghost predicate Shown(l: seq<Entry>, m: map<string, Resident>, seg: Segment) {
    && Keys(l) == Members(m, seg)
    && (forall i :: 0 <= i < |l| ==> l[i].key in m && m[l[i].key].value == l[i].value)
    && (forall i, j :: 0 <= i < j < |l| ==> m[l[i].key].since > m[l[j].key].since)
  }

  lemma ShownUnique(l: seq<Entry>, m: map<string, Resident>, seg: Segment)
    requires Shown(l, m, seg)
    ensures UniqueKeys(l) && |Members(m, seg)| == |l|
  {
    forall i, j | 0 <= i < j < |l| ensures l[i].key != l[j].key {
      assert m[l[i].key].since > m[l[j].key].since;
    }
    KeysSize(l);
  }

  lemma KeyShown(l: seq<Entry>, m: map<string, Resident>, seg: Segment, key: string)
    requires Shown(l, m, seg)
    ensures HasKey(l, key) <==> key in Members(m, seg)
    ensures HasKey(l, key) ==> l[Find(l, key)] == Entry(key, m[key].value)
  {
    FindMeans(l, key);
    if key in Members(m, seg) {
      assert key in Keys(l);
      var e :| e in l && e.key == key;
    }
    if HasKey(l, key) {
      assert l[Find(l, key)].key in Keys(l);
    }
  }

  lemma LastIsOldest(l: seq<Entry>, m: map<string, Resident>, seg: Segment)
    requires Shown(l, m, seg) && l != []
    ensures Oldest(m, seg, Last(l).key) && m[Last(l).key].value == Last(l).value
  {
    var n := |l| - 1;
    assert l[n].key in Keys(l);
    forall k | k in Members(m, seg) ensures m[l[n].key].since <= m[k].since {
      assert k in Keys(l);
      var i :| 0 <= i < |l| && l[i].key == k;
      assert i < n ==> m[l[i].key].since > m[l[n].key].since;
    }
  }

  // What may happen to a segment when the residents change.

  ghost predicate Same(m: map<string, Resident>, n: map<string, Resident>, seg: Segment) {
    Members(n, seg) == Members(m, seg) && forall k :: k in Members(m, seg) ==> n[k] == m[k]
  }

  ghost predicate Loses(m: map<string, Resident>, n: map<string, Resident>, seg: Segment, key: string) {
    Members(n, seg) == Members(m, seg) - {key} && forall k :: k in Members(n, seg) ==> n[k] == m[k]
  }

  ghost predicate Gains(m: map<string, Resident>, n: map<string, Resident>, seg: Segment, key: string) {
    && key !in Members(m, seg) && Members(n, seg) == Members(m, seg) + {key}
    && forall k :: k in Members(m, seg) ==> n[k] == m[k] && n[key].since > m[k].since
  }

  lemma SameShown(l: seq<Entry>, m: map<string, Resident>, n: map<string, Resident>, seg: Segment)
    requires Shown(l, m, seg) && Same(m, n, seg)
    ensures Shown(l, n, seg)
  {
    forall i | 0 <= i < |l| ensures l[i].key in Members(m, seg) {
      assert l[i].key in Keys(l);
    }
  }

  /** A resident enters in front. */
  lemma PushShown(l: seq<Entry>, m: map<string, Resident>, n: map<string, Resident>, seg: Segment, e: Entry)
    requires Shown(l, m, seg) && Gains(m, n, seg, e.key) && e.key in n && n[e.key].value == e.value
    ensures Shown([e] + l, n, seg)
  {
    KeysCons(e, l);
    var r := [e] + l;
    forall i | 0 <= i < |l| ensures r[i + 1] == l[i] && l[i].key in Members(m, seg) {
      assert l[i].key in Keys(l);
    }
    hide Keys, Members;
    forall i | 0 <= i < |r| ensures r[i].key in n && n[r[i].key].value == r[i].value {
      assert i > 0 ==> r[i] == l[i - 1];
    }
    forall i, j | 0 <= i < j < |r| ensures n[r[i].key].since > n[r[j].key].since {
      assert r[j] == l[j - 1];
      assert i > 0 ==> r[i] == l[i - 1];
    }
  }

  lemma DropShown(l: seq<Entry>, m: map<string, Resident>, n: map<string, Resident>, seg: Segment, i: nat)
    requires Shown(l, m, seg) && i < |l| && Loses(m, n, seg, l[i].key)
    ensures Shown(RemoveAt(l, i), n, seg)
  {
    ShownUnique(l, m, seg);
    RemoveKeys(l, i);
    var r := RemoveAt(l, i);
    forall a | 0 <= a < |r| ensures r[a] == l[if a < i then a else a + 1] && r[a].key in Members(n, seg) {
      assert r[a].key in Keys(r);
    }
  }

  lemma DropLastShown(l: seq<Entry>, m: map<string, Resident>, n: map<string, Resident>, seg: Segment)
    requires Shown(l, m, seg) && l != [] && Loses(m, n, seg, Last(l).key)
    ensures Shown(Front(l), n, seg)
  {
    DropShown(l, m, n, seg, |l| - 1);
    assert RemoveAt(l, |l| - 1) == Front(l);
  }

  /** Moving to the front. */
  lemma ToFrontShown(l: seq<Entry>, m: map<string, Resident>, seg: Segment, i: nat, now: nat)
    requires Shown(l, m, seg) && i < |l| && Before(m, now)
    ensures l[i].key in m && m[l[i].key].segment == seg
    ensures Shown(ToFront(l, i), Moved(m, l[i].key, seg, now), seg)
  {
    var key := l[i].key;
    assert key in Keys(l);
    var n := Moved(m, key, seg, now);
    RenewedMembers(m, key, now);
    DropShown(l, m, m - {key}, seg, i);
    PushShown(RemoveAt(l, i), m - {key}, n, seg, l[i]);
  }

  /** A resident that is put in front of its own segment. */
  lemma RenewedMembers(m: map<string, Resident>, key: string, now: nat)
    requires key in m && Before(m, now)
    ensures var seg := m[key].segment; var n := Moved(m, key, seg, now);
      && Loses(m, m - {key}, seg, key) && Gains(m - {key}, n, seg, key)
      && forall part :: part != seg ==> Same(m, n, part)
  {
  }

  /** A resident that goes to another segment. */
  lemma MovedMembers(m: map<string, Resident>, key: string, seg: Segment, now: nat)
    requires key in m && m[key].segment != seg && forall k :: k in Members(m, seg) ==> m[k].since < now
    ensures var n := Moved(m, key, seg, now);
      && Loses(m, n, m[key].segment, key) && Gains(m, n, seg, key)
      && forall part :: part != seg && part != m[key].segment ==> Same(m, n, part)
  {
  }

  lemma RefreshKeys(l: seq<Entry>, i: nat, value: string)
    requires i < |l|
    ensures Keys(l[i := Entry(l[i].key, value)]) == Keys(l)
  {
    var r := l[i := Entry(l[i].key, value)];
    forall k ensures k in Keys(r) <==> k in Keys(l) {
      if k in Keys(l) {
        var a :| 0 <= a < |l| && l[a].key == k;
        assert r[a] in r;
      }
      if k in Keys(r) {
        var a :| 0 <= a < |r| && r[a].key == k;
        assert l[a] in l;
      }
    }
  }

  lemma RefreshedMembers(m: map<string, Resident>, key: string, value: string)
    requires key in m
    ensures var n := Refreshed(m, key, value);
      && (forall part :: Members(n, part) == Members(m, part))
      && (forall part :: part != m[key].segment ==> Same(m, n, part))
  {
  }

  lemma RefreshShown(l: seq<Entry>, m: map<string, Resident>, seg: Segment, i: nat, value: string)
    requires Shown(l, m, seg) && i < |l|
    ensures l[i].key in m && m[l[i].key].segment == seg
    ensures Shown(l[i := Entry(l[i].key, value)], Refreshed(m, l[i].key, value), seg)
  {
    ShownUnique(l, m, seg);
    RefreshKeys(l, i, value);
    assert l[i].key in Keys(l);
    hide Keys, Members;
    RefreshedMembers(m, l[i].key, value);
  }

  // ----- The three lists

  ghost predicate AllShown(s: Stripe, m: map<string, Resident>) {
    && Shown(s.window, m, Window) && Shown(s.probation, m, Probation) && Shown(s.protected, m, Protected)
    && forall k :: k in m ==> m[k].segment != Free
  }

  lemma LookupShown(s: Stripe, m: map<string, Resident>, key: string)
    requires AllShown(s, m)
    ensures Has(s, key) <==> key in m
    ensures Lookup(s, key) == if key in m then Some(m[key].value) else None
    ensures HasKey(s.window, key) <==> key in m && m[key].segment == Window
    ensures HasKey(s.probation, key) <==> key in m && m[key].segment == Probation
    ensures HasKey(s.protected, key) <==> key in m && m[key].segment == Protected
  {
    KeyShown(s.window, m, Window, key);
    KeyShown(s.probation, m, Probation, key);
    KeyShown(s.protected, m, Protected, key);
    hide Keys, Find;
  }

  /** A hit. */
  lemma TouchShown(s: Stripe, m: map<string, Resident>, key: string, now: nat) returns (n: map<string, Resident>)
    requires AllShown(s, m) && key in m && Before(m, now)
    requires s.cfg.protectedCap >= 1
    ensures Touched(s.cfg, m, key, now, n) && AllShown(Touch(s, key), n) && Before(n, now + 1)
  {
    hide Shown, Find, Promote, Same, Loses, Gains, Members;
    LookupShown(s, m, key);
    KeyShown(s.window, m, Window, key);
    KeyShown(s.protected, m, Protected, key);
    var seg := m[key].segment;
    n := Moved(m, key, seg, now);
    RenewedMembers(m, key, now);
    if seg == Window {
      ToFrontShown(s.window, m, Window, Find(s.window, key), now);
      SameShown(s.probation, m, n, Probation);
      SameShown(s.protected, m, n, Protected);
    } else if seg == Protected {
      ToFrontShown(s.protected, m, Protected, Find(s.protected, key), now);
      SameShown(s.probation, m, n, Probation);
      SameShown(s.window, m, n, Window);
    } else {
      ShownUnique(s.protected, m, Protected);
      if |s.protected| < s.cfg.protectedCap {
        n := Moved(m, key, Protected, now);
        PromoteIntoRoom(s, m, key, now);
      } else {
        n := PromoteIntoFull(s, m, key, now);
      }
    }
  }

  lemma PromoteIntoRoom(s: Stripe, m: map<string, Resident>, key: string, now: nat)
    requires AllShown(s, m) && key in m && m[key].segment == Probation && Before(m, now)
    requires HasKey(s.probation, key) && |s.protected| < s.cfg.protectedCap
    ensures AllShown(Promote(s, Find(s.probation, key)), Moved(m, key, Protected, now))
  {
    hide Shown, Find, Same, Loses, Gains, Members;
    var i := Find(s.probation, key);
    KeyShown(s.probation, m, Probation, key);
    var n := Moved(m, key, Protected, now);
    MovedLater(m, key, Protected, now);
    DropShown(s.probation, m, n, Probation, i);
    PushShown(s.protected, m, n, Protected, s.probation[i]);
    SameShown(s.window, m, n, Window);
  }

  lemma PromoteIntoFull(s: Stripe, m: map<string, Resident>, key: string, now: nat) returns (n: map<string, Resident>)
    requires AllShown(s, m) && key in m && m[key].segment == Probation && Before(m, now)
    requires HasKey(s.probation, key) && |s.protected| >= s.cfg.protectedCap >= 1
    ensures |Members(m, Protected)| >= s.cfg.protectedCap && Touched(s.cfg, m, key, now, n) && Before(n, now + 1)
    ensures AllShown(Promote(s, Find(s.probation, key)), n)
  {
    hide Shown, Find, Same, Loses, Gains, Members;
    var i := Find(s.probation, key);
    KeyShown(s.probation, m, Probation, key);
    ShownUnique(s.protected, m, Protected);
    LastIsOldest(s.protected, m, Protected);
    var d := Last(s.protected).key;
    n := Moved(Moved(m, d, Probation, now), key, Protected, now);
    SwapMembers(m, d, key, now);
    DropShown(s.probation, m, m - {key}, Probation, i);
    PushShown(RemoveAt(s.probation, i), m - {key}, n, Probation, Last(s.protected));
    DropLastShown(s.protected, m, m - {d}, Protected);
    PushShown(Front(s.protected), m - {d}, n, Protected, s.probation[i]);
    SameShown(s.window, m, n, Window);
  }

  lemma MovedLater(m: map<string, Resident>, key: string, seg: Segment, now: nat)
    requires key in m && m[key].segment != seg && Before(m, now)
    ensures var n := Moved(m, key, seg, now);
      && Loses(m, n, m[key].segment, key) && Gains(m, n, seg, key)
      && forall part :: part != seg && part != m[key].segment ==> Same(m, n, part)
  {
    hide Loses, Gains, Same;
    MovedMembers(m, key, seg, now);
  }

  /** One resident goes from Protected to Probation and another the other way. */
  lemma SwapMembers(m: map<string, Resident>, d: string, key: string, now: nat)
    requires d in m && key in m && m[d].segment == Protected && m[key].segment == Probation && Before(m, now)
    ensures var n := Moved(Moved(m, d, Probation, now), key, Protected, now);
      && Loses(m, m - {key}, Probation, key) && Gains(m - {key}, n, Probation, d)
      && Loses(m, m - {d}, Protected, d) && Gains(m - {d}, n, Protected, key)
      && Same(m, n, Window)
  {
    SwapIn(m, d, key, now);
    SwapOut(m, d, key, now);
    hide Gains, Loses;
  }

  lemma SwapIn(m: map<string, Resident>, d: string, key: string, now: nat)
    requires d in m && key in m && m[d].segment == Protected && m[key].segment == Probation && Before(m, now)
    ensures var n := Moved(Moved(m, d, Probation, now), key, Protected, now);
      Loses(m, m - {key}, Probation, key) && Gains(m - {key}, n, Probation, d)
  {
  }

  lemma SwapOut(m: map<string, Resident>, d: string, key: string, now: nat)
    requires d in m && key in m && m[d].segment == Protected && m[key].segment == Probation && Before(m, now)
    ensures var n := Moved(Moved(m, d, Probation, now), key, Protected, now);
      Loses(m, m - {d}, Protected, d) && Gains(m - {d}, n, Protected, key)
  {
  }

  /** Rewriting a value. */
  lemma SetValueShown(s: Stripe, m: map<string, Resident>, key: string, value: string)
    requires AllShown(s, m) && key in m
    ensures AllShown(SetValue(s, key, value), Refreshed(m, key, value))
  {
    hide Shown, Find, Same, Members;
    LookupShown(s, m, key);
    KeyShown(s.window, m, Window, key);
    KeyShown(s.probation, m, Probation, key);
    KeyShown(s.protected, m, Protected, key);
    var n := Refreshed(m, key, value);
    RefreshedMembers(m, key, value);
    var seg := m[key].segment;
    if seg == Window {
      RefreshShown(s.window, m, Window, Find(s.window, key), value);
      SameShown(s.probation, m, n, Probation);
      SameShown(s.protected, m, n, Protected);
    } else if seg == Probation {
      RefreshShown(s.probation, m, Probation, Find(s.probation, key), value);
      SameShown(s.window, m, n, Window);
      SameShown(s.protected, m, n, Protected);
    } else {
      RefreshShown(s.protected, m, Protected, Find(s.protected, key), value);
      SameShown(s.window, m, n, Window);
      SameShown(s.probation, m, n, Probation);
    }
  }

  // ----- Insertion

  /** A new key in front of the window. */
  lemma InsertShown(s: Stripe, m: map<string, Resident>, key: string, value: string, now: nat)
    requires AllShown(s, m) && key !in m && Before(m, now)
    ensures var n := m[key := Resident(value, Window, now)];
      AllShown(s.(window := [Entry(key, value)] + s.window), n) && Earlier(n, now)
  {
    hide Shown;
    var n := m[key := Resident(value, Window, now)];
    InsertedMembers(m, key, value, now);
    PushShown(s.window, m, n, Window, Entry(key, value));
    SameShown(s.probation, m, n, Probation);
    SameShown(s.protected, m, n, Protected);
  }

  /** Before `now` outside the window, and not later inside. */
  ghost predicate Earlier(m: map<string, Resident>, now: nat) {
    Before(m, now + 1) && forall k :: k in Members(m, Probation) ==> m[k].since < now
  }

  lemma InsertedMembers(m: map<string, Resident>, key: string, value: string, now: nat)
    requires key !in m && Before(m, now)
    ensures var n := m[key := Resident(value, Window, now)];
      Gains(m, n, Window, key) && forall part :: part != Window ==> Same(m, n, part)
  {
  }

  lemma GoneMembers(m: map<string, Resident>, key: string)
    requires key in m
    ensures Loses(m, m - {key}, m[key].segment, key)
    ensures forall part :: part != m[key].segment ==> Same(m, m - {key}, part)
  {
  }

  /** The window's last entry goes to Probation. */
  lemma AdmitShown(s: Stripe, m: map<string, Resident>, now: nat)
    requires AllShown(s, m) && s.window != [] && Earlier(m, now)
    ensures var c := Last(s.window);
      && c.key in m && m[c.key].value == c.value
      && AllShown(s.(window := Front(s.window), probation := [c] + s.probation), Moved(m, c.key, Probation, now))
      && Before(Moved(m, c.key, Probation, now), now + 1)
  {
    hide Shown, Gains, Loses, Same, Members;
    var c := Last(s.window);
    LastIsOldest(s.window, m, Window);
    var n := Moved(m, c.key, Probation, now);
    MovedMembers(m, c.key, Probation, now);
    DropLastShown(s.window, m, n, Window);
    PushShown(s.probation, m, n, Probation, c);
    SameShown(s.protected, m, n, Protected);
  }

  /** The last entry of Probation leaves. */
  lemma EvictShown(s: Stripe, m: map<string, Resident>, now: nat)
    requires AllShown(s, m) && s.probation != [] && Earlier(m, now)
    ensures var v := Last(s.probation);
      && v.key in m && m[v.key].value == v.value
      && AllShown(s.(probation := Front(s.probation)), m - {v.key}) && Earlier(m - {v.key}, now)
  {
    hide Shown, Gains, Loses, Same;
    var v := Last(s.probation);
    LastIsOldest(s.probation, m, Probation);
    var n := m - {v.key};
    GoneMembers(m, v.key);
    DropLastShown(s.probation, m, n, Probation);
    SameShown(s.window, m, n, Window);
    SameShown(s.protected, m, n, Protected);
  }

  /** The last window entry leaves. */
  lemma RejectShown(s: Stripe, m: map<string, Resident>)
    requires AllShown(s, m) && s.window != []
    ensures var c := Last(s.window); c.key in m && AllShown(s.(window := Front(s.window)), m - {c.key})
  {
    hide Shown, Gains, Loses, Same, Members;
    var c := Last(s.window);
    LastIsOldest(s.window, m, Window);
    var n := m - {c.key};
    GoneMembers(m, c.key);
    DropLastShown(s.window, m, n, Window);
    SameShown(s.probation, m, n, Probation);
    SameShown(s.protected, m, n, Protected);
  }

  ghost predicate StatsShown(s: Stripe, t: Statistics) {
    s.hits == t.hits && s.misses == t.misses && s.admissions == t.admissions && s.evictions == t.evictions
    && s.rejections == t.rejections
  }

  /** One admission. */
  lemma SettleShown(s: Stripe, m: map<string, Resident>, now: nat, stats: Statistics)
      returns (fate: Fate, n: map<string, Resident>)
    requires SketchReady(s) && AllShown(s, m) && Earlier(m, now) && StatsShown(s, stats)
    requires |s.window| > s.cfg.windowCap && (|s.probation| + |s.protected| >= s.cfg.mainCap ==> s.probation != [])
    ensures Settled(s.cfg, m, s.sketch, now, fate, n) && Before(n, now + 1)
    ensures fate.Replaces? ==> fate.victim in m
    ensures var o := TryAdmit(s);
      AllShown(o.stripe, n) && o.demoted == Demotions(m, s.sketch, fate) && StatsShown(o.stripe, WithFate(stats, fate))
  {
    hide Shown, Estimate, Members;
    ShownUnique(s.window, m, Window);
    ShownUnique(s.probation, m, Probation);
    ShownUnique(s.protected, m, Protected);
    LastIsOldest(s.window, m, Window);
    var c := Last(s.window).key;
    if |s.probation| + |s.protected| < s.cfg.mainCap {
      AdmitShown(s, m, now);
      fate, n := Admits(c), Moved(m, c, Probation, now);
    } else {
      LastIsOldest(s.probation, m, Probation);
      var v := Last(s.probation).key;
      if Estimate(s.sketch, c) > Estimate(s.sketch, v) {
        EvictShown(s, m, now);
        AdmitShown(s.(probation := Front(s.probation)), m - {v}, now);
        fate, n := Replaces(c, v), Moved(m - {v}, c, Probation, now);
      } else {
        RejectShown(s, m);
        fate, n := Rejects(c), m - {c};
      }
    }
  }

  // ----- Steps and runs

  /** The stripe is in the state that the reference describes. */
  ghost predicate Matches(hash: (string, nat) -> nat, s: Stripe, r: Reference)
    requires WellFormed(s.cfg)
  {
    && AllShown(s, r.residents) && Before(r.residents, r.now)
    && s.sketch == Counting(hash, r.counted) && s.opsSinceDecay == r.puts % s.cfg.decayInterval
    && StatsShown(s, r.stats)
  }

  /** What the stripe returns for an operation. */
  function ReplyOf(s: Stripe, op: StripeOp): Reply
    requires SketchReady(s)
  {
    match op
    case DoGet(k) => Got(Get(s, k).value)
    case DoPut(k, v, slot) => var p := Put(s, k, v, slot); Wrote(p.inserted, p.demoted)
    case DoRemove(k) => Removed(Remove(s, k).removed)
  }

  lemma GetMatches(hash: (string, nat) -> nat, s: Stripe, r: Reference, key: string) returns (q: Reference)
    requires Inv(s) && Matches(hash, s, r)
    ensures GetStep(s.cfg, r, key, Got(Get(s, key).value), q) && Get(s, key).stripe.cfg == s.cfg
    ensures Matches(hash, Get(s, key).stripe, q)
  {
    hide AllShown, Touch, Touched, Increment, Lookup, Has, PerformAll, Fresh, Bag, Unique;
    LookupShown(s, r.residents, key);
    if key in r.residents {
      var t := s.(sketch := Increment(s.sketch, key));
      SameLists(s, t, r.residents);
      TouchEffect(t, key);
      var n := TouchShown(t, r.residents, key, r.now);
      PerformOne(Fresh(DEPTH, WIDTH, hash), r.counted, Inc(key));
      q := Reference(n, r.now + 1, r.counted + [Inc(key)], r.puts, r.stats.(hits := r.stats.hits + 1));
      SameLists(Touch(t, key), Get(s, key).stripe, n);
    } else {
      q := r.(now := r.now + 1, stats := r.stats.(misses := r.stats.misses + 1));
      SameLists(s, Get(s, key).stripe, r.residents);
    }
  }

  /** Only the lists matter for what is shown. */
  lemma SameLists(s: Stripe, t: Stripe, m: map<string, Resident>)
    requires AllShown(s, m) && t.window == s.window && t.probation == s.probation && t.protected == s.protected
    ensures AllShown(t, m)
  {
  }

  lemma RemoveShown(s: Stripe, m: map<string, Resident>, key: string)
    requires AllShown(s, m) && key in m
    ensures AllShown(Remove(s, key).stripe, m - {key}) && Remove(s, key).removed
  {
    hide Shown, Same, Loses, Members, Find;
    LookupShown(s, m, key);
    KeyShown(s.window, m, Window, key);
    KeyShown(s.probation, m, Probation, key);
    KeyShown(s.protected, m, Protected, key);
    GoneMembers(m, key);
    if m[key].segment == Window {
      DropShown(s.window, m, m - {key}, Window, Find(s.window, key));
      SameShown(s.probation, m, m - {key}, Probation);
      SameShown(s.protected, m, m - {key}, Protected);
    } else if m[key].segment == Probation {
      DropShown(s.probation, m, m - {key}, Probation, Find(s.probation, key));
      SameShown(s.window, m, m - {key}, Window);
      SameShown(s.protected, m, m - {key}, Protected);
    } else {
      DropShown(s.protected, m, m - {key}, Protected, Find(s.protected, key));
      SameShown(s.window, m, m - {key}, Window);
      SameShown(s.probation, m, m - {key}, Probation);
    }
  }

  lemma RemoveMatches(hash: (string, nat) -> nat, s: Stripe, r: Reference, key: string) returns (q: Reference)
    requires Inv(s) && Matches(hash, s, r)
    ensures RemoveStep(r, key, Removed(Remove(s, key).removed), q) && Remove(s, key).stripe.cfg == s.cfg
    ensures Matches(hash, Remove(s, key).stripe, q)
  {
    hide AllShown, Has, Lookup, Bag, Unique, PerformAll, Fresh, StripePolicy.Remove;
    var m := r.residents;
    q := r.(now := r.now + 1, residents := m - {key});
    LookupShown(s, m, key);
    RemoveShape(s, key);
    RemoveCounters(s, key);
    if key in m {
      RemoveShown(s, m, key);
    } else {
      assert m - {key} == m;
    }
  }

  lemma RemoveCounters(s: Stripe, key: string)
    ensures Remove(s, key).removed <==> Has(s, key)
  {
  }

  /** Counting a put. */
  lemma CountMatches(hash: (string, nat) -> nat, s: Stripe, r: Reference, key: string)
    requires Inv(s) && Matches(hash, s, r)
    ensures var t := Count(s, key); var counted := CountedPut(r.counted, key, r.puts + 1, s.cfg.decayInterval);
      && ValidSketch(t.sketch) && t == s.(sketch := t.sketch, opsSinceDecay := t.opsSinceDecay)
      && t.sketch == Counting(hash, counted) && t.opsSinceDecay == (r.puts + 1) % s.cfg.decayInterval
      && AllShown(t, r.residents) && StatsShown(t, r.stats)
  {
    hide AllShown, Increment, Bag, Unique, PerformAll;
    CountEffect(s, key);
    CountIsHistory(s, Fresh(DEPTH, WIDTH, hash), r.counted, r.puts, key);
    hide StripePolicy.Count;
    SameLists(s, Count(s, key), r.residents);
  }

  lemma PutHitMatches(hash: (string, nat) -> nat, s: Stripe, r: Reference, key: string, value: string, slot: bool)
      returns (q: Reference)
    requires Inv(s) && Matches(hash, s, r) && key in r.residents
    ensures var p := Put(s, key, value, slot);
      PutStep(s.cfg, hash, r, key, value, slot, Wrote(p.inserted, p.demoted), q) && p.stripe.cfg == s.cfg
      && Matches(hash, p.stripe, q)
  {
    hide AllShown, Touch, Touched, Increment, Lookup, Has, PerformAll, Fresh, Bag, Unique, StripePolicy.Count, SetValue,
      Find, CountedPut;
    LookupShown(s, r.residents, key);
    CountMatches(hash, s, r, key);
    var t := Count(s, key);
    var u := SetValue(t, key, value);
    SetValueKeeps(t, key, value);
    TouchEffect(u, key);
    SetValueShown(t, r.residents, key, value);
    var n := TouchShown(u, Refreshed(r.residents, key, value), key, r.now);
    q := Reference(n, r.now + 1, CountedPut(r.counted, key, r.puts + 1, s.cfg.decayInterval), r.puts + 1, r.stats);
  }

  lemma SetValueKeeps(s: Stripe, key: string, value: string)
    ensures var t := SetValue(s, key, value);
      t == s.(window := t.window, probation := t.probation, protected := t.protected)
  {
  }

  lemma PutMissMatches(hash: (string, nat) -> nat, s: Stripe, r: Reference, key: string, value: string)
      returns (q: Reference)
    requires Inv(s) && Matches(hash, s, r) && key !in r.residents
    ensures var p := Put(s, key, value, true);
      PutStep(s.cfg, hash, r, key, value, true, Wrote(p.inserted, p.demoted), q) && p.stripe.cfg == s.cfg
      && Matches(hash, p.stripe, q)
  {
    hide AllShown, Increment, Lookup, Has, PerformAll, Fresh, Bag, Unique, StripePolicy.Count, StripePolicy.Put,
      StripePolicy.TryAdmit, CountedPut, Settled, Earlier, Before;
    LookupShown(s, r.residents, key);
    CountMatches(hash, s, r, key);
    PutMissIs(s, key, value);
    var t := Pushed(s, key, value);
    var m := r.residents[key := Resident(value, Window, r.now)];
    InsertShown(Count(s, key), r.residents, key, value, r.now);
    var counted := CountedPut(r.counted, key, r.puts + 1, s.cfg.decayInterval);
    if |s.window| < s.cfg.windowCap {
      FitsShown(t, m, r.now, t.sketch);
      q := Reference(m, r.now + 1, counted, r.puts + 1, r.stats);
      assert Settled(s.cfg, m, t.sketch, r.now, Fits, m) && WithFate(r.stats, Fits) == r.stats;
    } else {
      PushedBounds(s, key, value);
      var fate, n := SettleShown(t, m, r.now, r.stats);
      TryAdmitKeeps(t);
      q := Reference(n, r.now + 1, counted, r.puts + 1, WithFate(r.stats, fate));
    }
  }

  lemma TryAdmitKeeps(s: Stripe)
    requires SketchReady(s) && s.window != []
    ensures var t := TryAdmit(s).stripe; t.sketch == s.sketch && t.opsSinceDecay == s.opsSinceDecay && t.cfg == s.cfg
  {
    hide Estimate;
  }

  lemma FitsShown(s: Stripe, m: map<string, Resident>, now: nat, sk: Sketch)
    requires ValidSketch(sk) && AllShown(s, m) && Earlier(m, now) && |s.window| <= s.cfg.windowCap
    ensures Settled(s.cfg, m, sk, now, Fits, m) && Before(m, now + 1)
  {
    ShownUnique(s.window, m, Window);
  }

  lemma PutMatches(hash: (string, nat) -> nat, s: Stripe, r: Reference, key: string, value: string, slot: bool)
      returns (q: Reference)
    requires Inv(s) && Matches(hash, s, r)
    ensures var p := Put(s, key, value, slot);
      PutStep(s.cfg, hash, r, key, value, slot, Wrote(p.inserted, p.demoted), q) && p.stripe.cfg == s.cfg
      && Matches(hash, p.stripe, q)
  {
    hide AllShown, Increment, Lookup, Has, PerformAll, Fresh, Bag, Unique, StripePolicy.Count, CountedPut, Settled,
      Touched, StripePolicy.AdmitAll;
    LookupShown(s, r.residents, key);
    if key in r.residents {
      q := PutHitMatches(hash, s, r, key, value, slot);
    } else if slot {
      q := PutMissMatches(hash, s, r, key, value);
    } else {
      CountMatches(hash, s, r, key);
      var counted := CountedPut(r.counted, key, r.puts + 1, s.cfg.decayInterval);
      q := Reference(r.residents, r.now + 1, counted, r.puts + 1, r.stats);
    }
  }

  /** Every operation of the lists is a step of the reference, with the same reply. */
  lemma StepMatches(hash: (string, nat) -> nat, s: Stripe, r: Reference, op: StripeOp) returns (q: Reference)
    requires Inv(s) && Matches(hash, s, r)
    ensures var t := Step(Ledger(s, 0, 0), op).stripe;
      ReferenceStep(s.cfg, hash, r, op, ReplyOf(s, op), q) && t.cfg == s.cfg && Matches(hash, t, q)
  {
    hide Matches, GetStep, PutStep, RemoveStep, StripePolicy.Get, StripePolicy.Put, StripePolicy.Remove;
    match op
    case DoGet(k) => q := GetMatches(hash, s, r, k);
    case DoPut(k, v, slot) => q := PutMatches(hash, s, r, k, v, slot);
    case DoRemove(k) => q := RemoveMatches(hash, s, r, k);
  }

  /** In the states that the lists reach no two residents of a segment are tied. */
  lemma MatchedIsUntied(hash: (string, nat) -> nat, s: Stripe, r: Reference)
    requires WellFormed(s.cfg) && Matches(hash, s, r)
    ensures Untied(r.residents)
  {
    var m := r.residents;
    forall j, k | j in m && k in m && j != k && m[j].segment == m[k].segment ensures m[j].since != m[k].since {
      var seg := m[j].segment;
      var l := if seg == Window then s.window else if seg == Probation then s.probation else s.protected;
      ListUntied(l, m, seg, j, k);
    }
  }

  lemma ListUntied(l: seq<Entry>, m: map<string, Resident>, seg: Segment, j: string, k: string)
    requires Shown(l, m, seg) && j in Members(m, seg) && k in Members(m, seg) && j != k
    ensures m[j].since != m[k].since
  {
    assert j in Keys(l) && k in Keys(l);
    var a :| 0 <= a < |l| && l[a].key == j;
    var b :| 0 <= b < |l| && l[b].key == k;
    assert a < b ==> m[l[a].key].since > m[l[b].key].since;
    assert b < a ==> m[l[b].key].since > m[l[a].key].since;
  }

  // ----- Runs

  /** What the stripe returns along a run from the empty stripe. */
  function Replies(cfg: Config, hash: (string, nat) -> nat, ops: seq<StripeOp>): (replies: seq<Reply>)
    requires WellFormed(cfg)
    ensures |replies| == |ops|
  {
    if ops == [] then []
    else
      var front := ops[..|ops| - 1];
      Replies(cfg, hash, front) + [ReplyOf(After(cfg, hash, front), ops[|ops| - 1])]
  }

  /** Any run of the lists is a run of the reference, reply by reply, and ends in the state it describes. */
  lemma {:induction false} ListsRefineReference(cfg: Config, hash: (string, nat) -> nat, ops: seq<StripeOp>)
      returns (r: Reference)
    requires WellFormed(cfg)
    ensures Reached(cfg, hash, ops, Replies(cfg, hash, ops), r)
    ensures Matches(hash, After(cfg, hash, ops), r)
  {
    hide Matches, ReferenceStep, ReplyOf, After, Inv, Step;
    if ops == [] {
      r := Start();
      StartMatches(cfg, hash);
    } else {
      var n := |ops| - 1;
      var q := ListsRefineReference(cfg, hash, ops[..n]);
      r := StepMatches(hash, After(cfg, hash, ops[..n]), q, ops[n]);
      StepOfRun(cfg, hash, ops);
      var replies := Replies(cfg, hash, ops);
      assert replies[..n] == Replies(cfg, hash, ops[..n]);
      assert Reached(cfg, hash, ops[..n], replies[..n], q) && ReferenceStep(cfg, hash, q, ops[n], replies[n], r);
    }
  }

  lemma StartMatches(cfg: Config, hash: (string, nat) -> nat)
    requires WellFormed(cfg)
    ensures Matches(hash, After(cfg, hash, []), Start())
  {
  }
}
