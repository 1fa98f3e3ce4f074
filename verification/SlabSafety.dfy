/**
 Safety of the free list over all runs of `SlabProtocol`: exactly which runs are in order, and what
 the 32-bit tag guarantees.
 */
module SlabSafety {
  import opened Types
  import opened Seqs
  import opened FreeChain
  import opened SlabProtocol

  // ----- Exactly when it is safe

  /** After a taking swap the free slots are the old ones without the head. */
  lemma FreeAfterTake(s: State, i: nat, c: seq<nat>, d: seq<nat>)
    requires Good(s, c) && c != [] && i < |s.threads|
    requires Chain(s.next, if d == [] then INVALID_INDEX else d[0], d)
    requires Partition(|s.next|, HeldSets(s.threads)[i := HeldSets(s.threads)[i] + {c[0]}], d)
    ensures forall x :: x in d ==> x in c && x != c[0]
    ensures forall k :: 1 <= k < |c| ==> c[k] in d
  {
    var n, h := |s.next|, HeldSets(s.threads);
    var h' := h[i := h[i] + {c[0]}];
    ChainFits(s.next, s.head, c);
    ChainFits(s.next, if d == [] then INVALID_INDEX else d[0], d);
    forall x | x in d ensures x in c && x != c[0] {
      assert Placed(h, c, x);
      assert OwnsOnly(n, h'[i], d);
      forall j | 0 <= j < |h| ensures x !in h[j] {
        assert OwnsOnly(n, h'[j], d);
      }
    }
    forall k | 1 <= k < |c| ensures c[k] in d {
      assert c[k] in c;
      assert Placed(h', d, c[k]);
      forall j | 0 <= j < |h'| ensures c[k] !in h'[j] {
        assert OwnsOnly(n, h[j], c);
      }
    }
  }

  /** Two chains through the same links: one that holds the rest of the other starts where the rest starts. */
  lemma RestStartsNext(next: seq<nat>, head: nat, c: seq<nat>, d: seq<nat>)
    requires Chain(next, head, c) && c != [] && Chain(next, if d == [] then INVALID_INDEX else d[0], d)
    requires forall x :: x in d ==> x in c && x != c[0]
    requires forall k :: 1 <= k < |c| ==> c[k] in d
    ensures LinkAt(c, 0) == if d == [] then INVALID_INDEX else d[0]
  {
    if |c| > 1 {
      var j :| 0 <= j < |d| && d[j] == c[1];
      forall k | 0 < k < |d| ensures d[k] != c[1] {
        assert LinkOk(next, d, k - 1);
        assert d[k - 1] in d;
        var m :| 0 <= m < |c| && c[m] == d[k - 1];
        OnlyHeadLeadsToSecond(next, head, c, m);
      }
    }
    assert d != [] ==> d[0] in d;
  }

  lemma OnlyHeadLeadsToSecond(next: seq<nat>, head: nat, c: seq<nat>, m: nat)
    requires Chain(next, head, c) && |c| > 1 && m < |c|
    ensures c[m] < |next| && (next[c[m]] == c[1] ==> m == 0)
  {
    assert LinkOk(next, c, m) && LinkOk(next, c, 1);
  }

  /** A taking swap that leaves the allocator in order has installed the present link. */
  lemma OrderNeedsPresentLink(s: State, i: nat, c: seq<nat>, d: seq<nat>)
    requires Good(s, c) && Enabled(s, i, Swap) && s.threads[i].pc.AllocRead? && Good(Apply(s, i, Swap), d)
    ensures InstallsPresentLink(s, i, Swap)
  {
    var s' := Apply(s, i, Swap);
    assert PcOk(s, s.threads[i]);
    HeadOnChain(s, c);
    var h := HeldSets(s.threads);
    assert HeldSets(s'.threads) == h[i := h[i] + {c[0]}];
    FreeAfterTake(s, i, c, d);
    RestStartsNext(s.next, s.head, c, d);
  }

  /** A step leaves the allocator in order if and only if it is no taking swap that installs an outdated link. */
  lemma StepIsExact(s: State, i: nat, a: Action)
    requires Inv(s) && Enabled(s, i, a)
    ensures Inv(Apply(s, i, a)) <==> InstallsPresentLink(s, i, a)
  {
    var c :| Good(s, c);
    if InstallsPresentLink(s, i, a) {
      StepKeepsGood(s, i, a, c);
    } else if Inv(Apply(s, i, a)) {
      var d :| Good(Apply(s, i, a), d);
      OrderNeedsPresentLink(s, i, c, d);
    }
  }

  /** A run is in order all the way if and only if every taking swap in it installs the present link. */
  lemma {:induction false} RunIsExact(s: State, es: seq<Event>)
    requires Inv(s) && Run(s, es).Some?
    ensures LinkedRun(s, es) <==> forall n :: 0 <= n <= |es| ==> InOrderAfter(s, es, n)
    decreases |es|
  {
    assert es[..0] == [];
    assert InOrderAfter(s, es, 0);
    if es != [] {
      var s' := Apply(s, es[0].thread, es[0].action);
      StepIsExact(s, es[0].thread, es[0].action);
      forall n | 0 <= n < |es| ensures InOrderAfter(s, es, n + 1) <==> InOrderAfter(s', es[1..], n) {
        assert es[..n + 1][0] == es[0] && es[..n + 1][1..] == es[1..][..n];
      }
      assert es[1..][..0] == [];
      assert InOrderAfter(s', es[1..], 0) <==> Inv(s');
      if Inv(s') {
        RunIsExact(s', es[1..]);
        assert (forall n :: 0 <= n <= |es| ==> InOrderAfter(s, es, n)) <==>
               (forall n :: 0 <= n <= |es[1..]| ==> InOrderAfter(s', es[1..], n)) by {
          forall n | 0 < n <= |es| ensures InOrderAfter(s, es, n) <==> InOrderAfter(s', es[1..], n - 1) {
            assert InOrderAfter(s, es, n - 1 + 1) <==> InOrderAfter(s', es[1..], n - 1);
          }
          if forall n :: 0 <= n <= |es| ==> InOrderAfter(s, es, n) {
            forall n | 0 <= n <= |es[1..]| ensures InOrderAfter(s', es[1..], n) {
              assert InOrderAfter(s, es, n + 1);
            }
          }
        }
      } else {
        assert !InOrderAfter(s, es, 0 + 1);
      }
    }
  }

  /** The first `n` events lead to a state in order. */
  ghost predicate InOrderAfter(s: State, es: seq<Event>, n: nat)
    requires n <= |es|
  {
    Run(s, es[..n]).Some? && Inv(Run(s, es[..n]).value)
  }

  lemma InitGood(n: nat, k: nat)
    requires 0 < n <= INVALID_INDEX
    ensures Good(Init(n, k), seq(n, i => i))
  {
    var s := Init(n, k);
    var c: seq<nat> := seq(n, i => i);
    InitialChain(n);
    forall x: nat | x < n ensures Placed(HeldSets(s.threads), c, x) {
      assert c[x] == x;
    }
    PendingIdle(s.threads);
  }

  lemma {:induction false} RunKeepsGood(s: State, es: seq<Event>, c: seq<nat>)
    requires Good(s, c) && LinkedRun(s, es) && Run(s, es).Some?
    ensures Inv(Run(s, es).value)
    decreases |es|
  {
    if es != [] {
      StepKeepsGood(s, es[0].thread, es[0].action, c);
      RunKeepsGood(Apply(s, es[0].thread, es[0].action), es[1..], ChainAfter(s, es[0].thread, es[0].action, c));
    }
  }

  /**
   For any number of threads and any interleaving whose taking swaps install the present link, the
   free list is a finite chain, and free and held slots partition the slab. The head word says
   "exhausted" exactly when no slot is free, and when no thread is inside the allocator the free
   counter is the number of free slots. A matching tag whose snapshot is not 2^32 swaps old shows
   that the next swap installs the present link, too.
   */
  lemma AllocatorSafety(n: nat, k: nat, es: seq<Event>)
    requires 0 < n <= INVALID_INDEX
    requires Run(Init(n, k), es).Some? && LinkedRun(Init(n, k), es)
    ensures var s := Run(Init(n, k), es).value;
      exists c ::
        && Chain(s.next, s.head, c) && Partition(|s.next|, HeldSets(s.threads), c)
        && (s.head == INVALID_INDEX <==> c == [])
        && ((forall i :: 0 <= i < |s.threads| ==> s.threads[i].pc.Idle?) ==> s.count == |c|)
        && (forall i: nat :: Enabled(s, i, Swap) && TagFresh(s, i, Swap) && s.threads[i].pc.AllocRead? ==>
              c != [] && s.threads[i].pc.index == c[0] && s.threads[i].pc.link == LinkAt(c, 0))
  {
    InitGood(n, k);
    RunKeepsGood(Init(n, k), es, seq(n, i => i));
    var s := Run(Init(n, k), es).value;
    var c :| Good(s, c);
    if c != [] { assert LinkOk(s.next, c, 0); }
    if forall i :: 0 <= i < |s.threads| ==> s.threads[i].pc.Idle? {
      QuiescentCount(s, c);
    }
    forall i: nat | Enabled(s, i, Swap) && TagFresh(s, i, Swap) && s.threads[i].pc.AllocRead?
      ensures c != [] && s.threads[i].pc.index == c[0] && s.threads[i].pc.link == LinkAt(c, 0)
    {
      FreshInstalls(s, i, Swap, c);
      TakeStep(s, i, c);
    }
  }

  /** And only then: the run from the start is in order at every point exactly if it is linked. */
  lemma AllocatorSafetyIsExact(n: nat, k: nat, es: seq<Event>)
    requires 0 < n <= INVALID_INDEX && Run(Init(n, k), es).Some?
    ensures LinkedRun(Init(n, k), es) <==> forall m :: 0 <= m <= |es| ==> InOrderAfter(Init(n, k), es, m)
  {
    InitGood(n, k);
    RunIsExact(Init(n, k), es);
  }

  // ----- What the tag guarantees

  /** A snapshot that is not 2^32 swaps old and still matches is the present head with its present link. */
  lemma FreshInstalls(s: State, i: nat, a: Action, c: seq<nat>)
    requires Good(s, c) && TagFresh(s, i, a)
    ensures InstallsPresentLink(s, i, a)
  {
    if Enabled(s, i, a) && a.Swap? && s.threads[i].pc.AllocRead? {
      assert PcOk(s, s.threads[i]);
      TagEquality(s.threads[i].pc.swaps, s.swaps);
    }
  }

  /** While the tag has not come round, every taking swap installs the present link. */
  lemma {:induction false} FreshIsLinked(s: State, es: seq<Event>, c: seq<nat>)
    requires Good(s, c) && FreshRun(s, es)
    ensures LinkedRun(s, es)
    decreases |es|
  {
    if es != [] {
      var i, a := es[0].thread, es[0].action;
      FreshInstalls(s, i, a, c);
      if Enabled(s, i, a) {
        StepKeepsGood(s, i, a, c);
        FreshIsLinked(Apply(s, i, a), es[1..], ChainAfter(s, i, a, c));
      }
    }
  }

  /** A run with at most 2^32 successful swaps is safe whatever the interleaving. */
  lemma ShortRunIsLinked(n: nat, k: nat, es: seq<Event>)
    requires 0 < n <= INVALID_INDEX && Run(Init(n, k), es).Some? && Run(Init(n, k), es).value.swaps <= WORD32
    ensures LinkedRun(Init(n, k), es)
  {
    InitGood(n, k);
    ShortIsFresh(Init(n, k), es);
    FreshIsLinked(Init(n, k), es, seq(n, i => i));
  }

  lemma {:induction false} SwapsGrow(s: State, es: seq<Event>)
    requires Run(s, es).Some?
    ensures s.swaps <= Run(s, es).value.swaps
    decreases |es|
  {
    if es != [] {
      SwapsGrow(Apply(s, es[0].thread, es[0].action), es[1..]);
    }
  }

  lemma {:induction false} ShortIsFresh(s: State, es: seq<Event>)
    requires Run(s, es).Some? && Run(s, es).value.swaps <= WORD32
    ensures FreshRun(s, es)
    decreases |es|
  {
    if es != [] {
      SwapsGrow(Apply(s, es[0].thread, es[0].action), es[1..]);
      ShortIsFresh(Apply(s, es[0].thread, es[0].action), es[1..]);
    }
  }

  /** When no thread is inside the allocator, the free counter is the length of the free list. */
  lemma QuiescentCount(s: State, c: seq<nat>)
    requires Good(s, c)
    requires forall i :: 0 <= i < |s.threads| ==> s.threads[i].pc.Idle?
    ensures s.count == |c|
  {
    PendingIdle(s.threads);
    ChainFits(s.next, s.head, c);
  }
}
