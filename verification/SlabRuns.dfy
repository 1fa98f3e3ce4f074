/**
 Particular runs of the free-list protocol: one thread that is not interrupted, which is what
 `SlabAllocator` models, and a run in which the 32-bit tag comes round.
 */
module SlabRuns {
  import opened Types
  import opened Seqs
  import opened FreeChain
  import opened SlabProtocol

  // ----- One thread at a time

  /** Some run leads from one state to the other. */
  ghost predicate Reaches(s: State, s': State) {
    exists es :: Run(s, es) == Some(s')
  }

  lemma {:induction false} RunConcat(s: State, a: seq<Event>, b: seq<Event>)
    requires Run(s, a).Some?
    ensures Run(s, a + b) == Run(Run(s, a).value, b)
    decreases |a|
  {
    if a == [] {
      assert a + b == b;
    } else {
      assert (a + b)[1..] == a[1..] + b;
      RunConcat(Apply(s, a[0].thread, a[0].action), a[1..], b);
    }
  }

  lemma ReachesTransitive(s: State, mid: State, s': State)
    requires Reaches(s, mid) && Reaches(mid, s')
    ensures Reaches(s, s')
  {
    var a :| Run(s, a) == Some(mid);
    var b :| Run(mid, b) == Some(s');
    RunConcat(s, a, b);
    assert Run(s, a + b) == Some(s');
  }

  lemma ReachesStep(s: State, mid: State, i: nat, a: Action, s': State)
    requires Reaches(s, mid) && Enabled(mid, i, a) && Apply(mid, i, a) == s'
    ensures Reaches(s, s')
  {
    var es := [Event(i, a)];
    assert es[1..] == [];
    assert Run(mid, es) == Some(s');
    ReachesTransitive(s, mid, s');
  }

  lemma ReachesSelf(s: State)
    ensures Reaches(s, s)
  {
    assert Run(s, []) == Some(s);
  }

  function WordsOf(s: State): FreeList {
    FreeList(s.next, s.head, s.swaps % WORD32, s.count)
  }

  /** Thread `i` has allocated the head slot without interruption. */
  function AfterTake(s: State, i: nat): State
    requires i < |s.threads| && s.head < |s.next|
  {
    s.(head := s.next[s.head], swaps := s.swaps + 1, count := (s.count + WORD32 - 1) % WORD32,
       threads := s.threads[i := Thread(Idle, s.threads[i].held + {s.head})])
  }

  /** Thread `i` has given a slot back without interruption. */
  function AfterReturn(s: State, i: nat, slot: nat): State
    requires i < |s.threads| && slot < |s.next|
  {
    s.(next := s.next[slot := s.head], head := slot, swaps := s.swaps + 1, count := (s.count + 1) % WORD32,
       threads := s.threads[i := Thread(Idle, s.threads[i].held - {slot})])
  }

  /** An allocation that no other thread interrupts is one `Allocate`. */
  lemma SoloAllocate(s: State, i: nat)
    requires i < |s.threads| && s.threads[i].pc.Idle? && (s.head < |s.next| || s.head == INVALID_INDEX)
      && |s.next| <= INVALID_INDEX
    ensures s.head < |s.next| ==> Reaches(s, AfterTake(s, i)) && WordsOf(AfterTake(s, i)) == TakeSlot(WordsOf(s))
    ensures s.head == INVALID_INDEX ==> Reaches(s, s) && TakeSlot(WordsOf(s)) == WordsOf(s)
  {
    ReachesSelf(s);
    if s.head < |s.next| {
      RunTake(s, i);
      TagStep(s.swaps);
    }
  }

  /** A deallocation that no other thread interrupts is one `Deallocate`. */
  lemma SoloDeallocate(s: State, i: nat, slot: nat)
    requires i < |s.threads| && s.threads[i].pc.Idle? && slot in s.threads[i].held && slot < |s.next|
    ensures Reaches(s, AfterReturn(s, i, slot)) && WordsOf(AfterReturn(s, i, slot)) == GiveSlot(WordsOf(s), slot)
  {
    RunReturn(s, i, slot);
    TagStep(s.swaps);
  }

  lemma TagStep(w: nat)
    ensures (w % WORD32 + 1) % WORD32 == (w + 1) % WORD32
  {
    CountModulo(w, 1);
  }

  lemma RunTake(s: State, i: nat)
    requires i < |s.threads| && s.threads[i].pc.Idle? && s.head < |s.next|
    ensures Reaches(s, AfterTake(s, i))
  {
    var t := s.threads[i];
    var s1 := WithThread(s, i, t.(pc := AllocLoaded(s.head, s.swaps)));
    var s2 := WithThread(s, i, t.(pc := AllocRead(s.head, s.swaps, s.next[s.head])));
    var s3 := AfterTake(s, i).(count := s.count, threads := s.threads[i := Thread(AllocTaken, t.held + {s.head})]);
    ReachesSelf(s);
    ReachesStep(s, s, i, Load, s1);
    ReachesStep(s, s1, i, ReadNext, s2);
    ReachesStep(s, s2, i, Swap, s3);
    ReachesStep(s, s3, i, Finish, AfterTake(s, i));
  }

  lemma RunReturn(s: State, i: nat, slot: nat)
    requires i < |s.threads| && s.threads[i].pc.Idle? && slot in s.threads[i].held && slot < |s.next|
    ensures Reaches(s, AfterReturn(s, i, slot))
  {
    var t := s.threads[i];
    var s1 := WithThread(s, i, t.(pc := FreeReset(slot)));
    var s2 := WithThread(s, i, t.(pc := FreeLoaded(slot, s.head, s.swaps)));
    var s3 := WithThread(s, i, t.(pc := FreeLinked(slot, s.head, s.swaps))).(next := s.next[slot := s.head]);
    var s4 := AfterReturn(s, i, slot).(
      count := s.count, threads := s.threads[i := Thread(FreePublished, t.held - {slot})]);
    ReachesSelf(s);
    ReachesStep(s, s, i, BeginFree(slot), s1);
    ReachesStep(s, s1, i, Load, s2);
    ReachesStep(s, s2, i, Link, s3);
    ReachesStep(s, s3, i, Swap, s4);
    ReachesStep(s, s4, i, Finish, AfterReturn(s, i, slot));
  }

  // ----- The tag guarantees it only until it comes round

  /** The state after one thread emptied a three-slot slab and gave slot 0 back, `w` swaps in. */
  function Stalled(w: nat): State {
    State([INVALID_INDEX, 2, INVALID_INDEX], 0, w, 1, [Thread(AllocRead(0, 0, 1), {}), Thread(Idle, {1, 2})])
  }

  /** Taking slot 0 and giving it back costs two swaps and changes nothing else. */
  lemma OneRound(w: nat)
    ensures Reaches(Stalled(w), Stalled(w + 2))
  {
    RunTake(Stalled(w), 1);
    var mid := AfterTake(Stalled(w), 1);
    RunReturn(mid, 1, 0);
    assert AfterReturn(mid, 1, 0).next == Stalled(w + 2).next;
    assert {1, 2} + {0} - {0} == {1, 2};
    assert AfterReturn(mid, 1, 0) == Stalled(w + 2);
    ReachesTransitive(Stalled(w), mid, Stalled(w + 2));
  }

  lemma {:induction false} ManyRounds(w: nat, k: nat)
    ensures Reaches(Stalled(w), Stalled(w + 2 * k))
    decreases k
  {
    if k == 0 {
      ReachesSelf(Stalled(w));
    } else {
      OneRound(w);
      ManyRounds(w + 2, k - 1);
      ReachesTransitive(Stalled(w), Stalled(w + 2), Stalled(w + 2 * k));
    }
  }

  /** Thread 0 sleeps between reading the link of slot 0 and its swap; thread 1 has taken `j` slots. */
  function Draining(j: nat): State
    requires j <= 3
  {
    State([1, 2, INVALID_INDEX], if j == 3 then INVALID_INDEX else j, j, 3 - j,
      [Thread(AllocRead(0, 0, 1), {}), Thread(Idle, Below(j))])
  }

  lemma StartDraining()
    ensures Reaches(Init(3, 2), Draining(0))
  {
    var s := Init(3, 2);
    var s1 := s.(threads := [Thread(AllocLoaded(0, 0), {}), Thread(Idle, {})]);
    ReachesSelf(s);
    ReachesStep(s, s, 0, Load, s1);
    ReachesStep(s, s1, 0, ReadNext, Draining(0));
  }

  lemma DrainOne(j: nat)
    requires j < 3
    ensures AfterTake(Draining(j), 1) == Draining(j + 1)
  {
    assert Draining(j).next[j] == Draining(j + 1).head;
    assert Below(j) + {j} == Below(j + 1);
    SmallDecrement(3 - j);
  }

  lemma SmallDecrement(n: nat)
    requires 0 < n < WORD32
    ensures (n + WORD32 - 1) % WORD32 == n - 1
  {
  }

  lemma {:induction false} DrainingReachable(j: nat)
    requires j <= 3
    ensures Reaches(Init(3, 2), Draining(j))
  {
    if j == 0 {
      StartDraining();
    } else {
      DrainingReachable(j - 1);
      RunTake(Draining(j - 1), 1);
      DrainOne(j - 1);
      ReachesTransitive(Init(3, 2), Draining(j - 1), Draining(j));
    }
  }

  lemma ReturnStalls()
    ensures AfterReturn(Draining(3), 1, 0) == Stalled(4)
  {
    assert Draining(3).next[0 := INVALID_INDEX] == Stalled(4).next;
    assert Below(3) - {0} == {1, 2};
    assert Draining(3).threads[1 := Thread(Idle, {1, 2})] == Stalled(4).threads;
  }

  lemma StalledReachable()
    ensures Reaches(Init(3, 2), Stalled(4))
  {
    DrainingReachable(3);
    RunReturn(Draining(3), 1, 0);
    ReturnStalls();
    ReachesTransitive(Init(3, 2), Draining(3), Stalled(4));
  }

  lemma HeadIsNotHeld(s: State, i: nat, c: seq<nat>)
    requires Good(s, c) && s.head < |s.next| && i < |s.threads|
    ensures s.head !in s.threads[i].held
  {
    HeadOnChain(s, c);
    assert c[0] in c && OwnsOnly(|s.next|, HeldSets(s.threads)[i], c);
  }

  lemma HeldHeadIsOutOfOrder(s: State, i: nat)
    requires i < |s.threads| && s.head in s.threads[i].held && s.head < |s.next|
    ensures !Inv(s)
  {
    forall c ensures !Good(s, c) {
      if Good(s, c) {
        HeadIsNotHeld(s, i, c);
      }
    }
  }

  /**
   The bound is needed: a thread that sleeps through 2^32 swaps finds its word unchanged, and its
   swap then puts a slot that another thread holds at the head of the free list.
   */
  lemma WrappedTagCorrupts()
    ensures exists s ::
      Reaches(Init(3, 2), s) && s.head < |s.next| && |s.threads| == 2 && s.head in s.threads[1].held && !Inv(s)
      && s.swaps == WORD32 + 1
  {
    StalledReachable();
    var k := WORD32 / 2 - 2;
    assert 4 + 2 * k == WORD32;
    ManyRounds(4, k);
    var last := Stalled(WORD32);
    ReachesTransitive(Init(3, 2), Stalled(4), last);
    var s := Apply(last, 0, Swap);
    ReachesStep(Init(3, 2), last, 0, Swap, s);
    assert s.head == 1 && 1 in s.threads[1].held;
    HeldHeadIsOutOfOrder(s, 1);
  }
}
