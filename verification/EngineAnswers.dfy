/**
 What a get answers, in every state, coherent or not: when it agrees with the backend, when a client
 reads the value it just put, and what a removed key can come back with.
 */
module EngineAnswers {
  import opened Types
  import opened CacheEngine
  import opened EngineCoherence
  import L1 = StripedCache
  import Queue = DemotionQueue
  import StripeTheorems
  import StripePolicy

  // ----- One get

  ghost predicate KeyInL1(e: Engine, key: string)
    requires Ready(e)
  {
    exists v :: L1.Holds(e.l1, Entry(key, v))
  }

  ghost predicate KeyInL2(e: Engine, key: string) {
    exists v :: InL2(e, Entry(key, v))
  }

  /** The first of L1, L2 and the backend that has the key has it with this value. */
  ghost predicate FirstHolds(e: Engine, key: string, value: string)
    requires Ready(e)
  {
    if KeyInL1(e, key) then L1.Holds(e.l1, Entry(key, value))
    else if KeyInL2(e, key) then InL2(e, Entry(key, value))
    else BackendGet(e, key) == Some(value)
  }

  /** What a get answers, in any state. */
  lemma GetAnswers(e: Engine, key: string, value: string)
    requires Inv(e)
    ensures Get(e, key).value == Some(value) <==> FirstHolds(e, key, value)
  {
    hide L1.Holds, LookL1, LookL2, PutL1, L1.Ready, L1.Placed, L2Ready;
    assert Ready(e);
    LookL1Effect(e, key);
    var first := LookL1(e, key);
    if first.value.Some? {
      assert KeyInL1(e, key);
    } else {
      SameL2(e, first.engine);
      LookL2Effect(first.engine, key);
      LookL2Finds(first.engine, key);
    }
  }

  lemma NothingFound(e: Engine, key: string)
    requires Inv(e)
    ensures Get(e, key).value == None <==> !KeyInL1(e, key) && !KeyInL2(e, key) && key !in e.backend
  {
    hide L1.Holds, Get, InL2, L1.Placed, L2Ready;
    if KeyInL1(e, key) {
      var v :| L1.Holds(e.l1, Entry(key, v));
      GetAnswers(e, key, v);
    } else if KeyInL2(e, key) {
      var v :| InL2(e, Entry(key, v));
      GetAnswers(e, key, v);
    } else if key in e.backend {
      GetAnswers(e, key, e.backend[key]);
    } else if Get(e, key).value.Some? {
      GetAnswers(e, key, Get(e, key).value.value);
    }
  }

  lemma LookL2Finds(e: Engine, key: string)
    requires Inv(e)
    ensures forall v :: LookL2(e, key).value == Some(v) <==> InL2(e, Entry(key, v))
  {
    hide LookL2, L1.Ready, L1.Placed, L2Ready;
    LookL2Effect(e, key);
    forall v | InL2(e, Entry(key, v)) ensures LookL2(e, key).value == Some(v) {
      FoundInL2(e, key, v);
    }
  }

  /** An entry that L2 holds is what `l2_get` returns. */
  lemma FoundInL2(e: Engine, key: string, value: string)
    requires Inv(e) && InL2(e, Entry(key, value))
    ensures LookL2(e, key).value == Some(value)
  {
    hide L1.Ready, L1.Placed;
    var i :| 0 <= i < |e.l2| && Entry(key, value) in e.l2[i];
    assert L2StripeReady(e, i);
    var l := e.l2[i];
    var j :| 0 <= j < |l| && l[j] == Entry(key, value);
    var n := StripePolicy.Find(l, key);
    assert n <= j;
  }

  /** What the first tier that has the key holds for it is current. */
  ghost predicate FirstCurrent(e: Engine, key: string)
    requires Ready(e)
  {
    if KeyInL1(e, key) then forall v :: L1.Holds(e.l1, Entry(key, v)) ==> Current(e, Entry(key, v))
    else forall v :: InL2(e, Entry(key, v)) ==> Current(e, Entry(key, v))
  }

  /** A get agrees with the backend exactly when the copies it comes to first are current. */
  lemma GetIsExact(e: Engine, key: string)
    requires Inv(e)
    ensures Get(e, key).value == BackendGet(e, key) <==> FirstCurrent(e, key)
  {
    hide L1.Holds, Get, InL2, L1.Ready, L1.Placed, L2Ready;
    assert Ready(e);
    forall v ensures Get(e, key).value == Some(v) <==> FirstHolds(e, key, v) {
      GetAnswers(e, key, v);
    }
    NothingFound(e, key);
    assert forall v :: Current(e, Entry(key, v)) <==> BackendGet(e, key) == Some(v);
    if Get(e, key).value.Some? {
      assert Get(e, key).value == Some(Get(e, key).value.value);
    }
  }

  // ----- A get after a put

  /** `l1_.put` refuses the key. */
  ghost predicate L1Refuses(e: Engine, key: string)
    requires Ready(e)
  {
    StripeTheorems.Refused(L1.StripeOf(e.l1, key), key, e.l1.free > 0)
  }

  lemma PutL1Holds(e: Engine, key: string, value: string)
    requires Inv(e)
    ensures forall v :: L1.Holds(PutL1(e, key, value).l1, Entry(key, v)) <==> !L1Refuses(e, key) && v == value
  {
    var s := L1.StripeOf(e.l1, key);
    var f := PutL1(e, key, value);
    var slot := e.l1.free > 0;
    assert StripeTheorems.Inv(s);
    L1.PutKeepsInv(s, key, value, slot);
    StripeTheorems.ReadAfterPut(s, key, value, slot);
    var t := StripePolicy.Put(s, key, value, slot).stripe;
    assert L1.StripeOf(f.l1, key) == t;
    L1.PutKeyHolds(e.l1, key, value);
    forall v ensures L1.Holds(f.l1, Entry(key, v)) <==> !StripeTheorems.Refused(s, key, slot) && v == value {
      StripeTheorems.LookupMeans(t, key, v);
      L1.HoldsAt(f.l1, Entry(key, v));
    }
  }

  lemma PutHolds(e: Engine, key: string, value: string)
    requires Inv(e)
    ensures var f := Put(e, key, value);
      && f.backend == e.backend[key := value]
      && (forall x :: InL2(f, x) <==> InL2(e, x))
      && forall v :: L1.Holds(f.l1, Entry(key, v)) <==> !L1Refuses(e, key) && v == value
  {
    hide L1.Holds, PutL1, InL2, L1.Ready, L1.Placed, L2Ready, L1.StripeOf, StripeTheorems.Refused;
    var s := StoreBackend(e, key, value);
    SameL2(e, s);
    PutL1Holds(s, key, value);
    PutL1Effect(s, key, value);
    SameL2(s, PutL1(s, key, value));
  }

  /** A client reads its own put unless the stripe refused it while L2 holds another value. */
  lemma ReadYourWrite(e: Engine, key: string, value: string)
    requires Inv(e)
    ensures Get(Put(e, key, value), key).value == Some(value) <==>
      || !L1Refuses(e, key)
      || forall v :: InL2(e, Entry(key, v)) ==> v == value
  {
    hide L1.Holds, Get, Put, InL2, LookL2, L1.Ready, L1.Placed, L2Ready, L1Refuses;
    PutHolds(e, key, value);
    GetAnswers(Put(e, key, value), key, value);
    LookL2Finds(e, key);
  }

  /** So a refused put leaves the older value in L2 to be answered. */
  lemma StalePutAnswers(e: Engine, key: string, previous: string, value: string)
    requires Inv(e) && InL2(e, Entry(key, previous))
    requires L1Refuses(e, key)
    ensures var f := Put(e, key, value); Get(f, key).value == Some(previous) && BackendGet(f, key) == Some(value)
  {
    hide L1.Holds, Get, Put, InL2, L1.Ready, L1.Placed, L2Ready, L1Refuses;
    PutHolds(e, key, value);
    GetAnswers(Put(e, key, value), key, previous);
  }

  // ----- A get after a get

  lemma MissKeepsRefusal(c: L1.Cache, key: string, slot: bool)
    requires L1.Ready(c) && L1.GetKey(c, key).value.None?
    ensures var d := L1.GetKey(c, key).cache;
      && (StripeTheorems.Refused(L1.StripeOf(d, key), key, slot) <==>
          StripeTheorems.Refused(L1.StripeOf(c, key), key, slot))
      && d.free == c.free
  {
    assert StripeTheorems.Inv(L1.StripeOf(c, key));
    StripeTheorems.GetKeepsInv(L1.StripeOf(c, key), key);
    hide StripePolicy.Get;
  }

  /** What a get leaves behind when L1 has the key. */
  lemma GetHitLeaves(e: Engine, key: string)
    requires Inv(e) && KeyInL1(e, key)
    ensures var a := Get(e, key);
      && a.value.Some? && a.engine == e.(l1 := a.engine.l1)
      && forall x :: L1.Holds(a.engine.l1, x) <==> L1.Holds(e.l1, x)
  {
    hide L1.Holds, LookL1, LookL2, PutL1, L1.Placed, L2Ready;
    LookL1Effect(e, key);
    var v :| L1.Holds(e.l1, Entry(key, v));
    assert LookL1(e, key).value == Some(v);
  }

  /** A get that L1 misses moves what it finds into L1, unless the stripe refuses it, and out of L2. */
  lemma GetMissLeaves(e: Engine, key: string)
    requires Inv(e) && !KeyInL1(e, key)
    ensures var a := Get(e, key); var f := a.engine;
      && f.backend == e.backend
      && (forall x :: InL2(f, x) <==> InL2(e, x) && x.key != key)
      && forall v :: L1.Holds(f.l1, Entry(key, v)) <==> a.value == Some(v) && !L1Refuses(e, key)
  {
    hide L1.Holds, LookL2, PutL1, L1.Ready, L1.Placed, L2Ready, L1.GetKey, L1.StripeOf, StripeTheorems.Refused, InL2;
    LookL1Effect(e, key);
    var first := LookL1(e, key);
    NoneHeld(e, key, first.value);
    MissKeepsRefusal(e.l1, key, e.l1.free > 0);
    SameL2(e, first.engine);
    LookL2Effect(first.engine, key);
    var g := LookL2(first.engine, key).engine;
    assert L1Refuses(g, key) == L1Refuses(e, key);
    var found := Get(e, key).value;
    if found.Some? {
      PutL1Effect(g, key, found.value);
      PutL1Holds(g, key, found.value);
      SameL2(g, PutL1(g, key, found.value));
    }
  }

  lemma NoneHeld(e: Engine, key: string, o: Option<string>)
    requires Ready(e) && !KeyInL1(e, key) && forall v :: o == Some(v) <==> L1.Holds(e.l1, Entry(key, v))
    ensures o == None
  {
    NeverSome(o);
  }

  /**
   The same get again has the same answer, unless L2 had the value and L1 refused to take it; then the backend
   answers.
   */
  lemma GetAgain(e: Engine, key: string)
    requires Inv(e)
    ensures var a := Get(e, key);
      Get(a.engine, key).value ==
      if KeyInL1(e, key) || a.value.None? || !L1Refuses(e, key) then a.value else BackendGet(e, key)
  {
    hide L1.Holds, Get, InL2, L1.Placed, L2Ready, L1Refuses;
    var a := Get(e, key);
    var f := a.engine;
    if KeyInL1(e, key) {
      GetHitLeaves(e, key);
      GetAnswers(e, key, a.value.value);
      GetAnswers(f, key, a.value.value);
      assert KeyInL1(f, key);
    } else {
      GetMissLeaves(e, key);
      if a.value.Some? && !L1Refuses(e, key) {
        assert KeyInL1(f, key);
        GetAnswers(f, key, a.value.value);
      } else {
        assert !KeyInL1(f, key) && !KeyInL2(f, key);
        NothingFound(e, key);
        BackendAnswers(f, key);
      }
    }
  }

  lemma BackendAnswers(e: Engine, key: string)
    requires Inv(e) && !KeyInL1(e, key) && !KeyInL2(e, key)
    ensures Get(e, key).value == BackendGet(e, key)
  {
    hide L1.Holds, Get, InL2, L1.Placed, L2Ready;
    NothingFound(e, key);
    if key in e.backend {
      GetAnswers(e, key, e.backend[key]);
    }
  }

  // ----- Gets after a remove

  ghost predicate OnlyDrainer(acts: seq<Act>) {
    forall i :: 0 <= i < |acts| ==> acts[i].Drain? || acts[i].Deliver?
  }

  /** Apart from the drainer's items nothing is left of the key. */
  ghost predicate Cleared(e: Engine, key: string)
    requires Ready(e)
  {
    key !in e.backend && !KeyInL1(e, key)
  }

  lemma RemoveClears(e: Engine, key: string)
    requires Inv(e)
    ensures var f := Remove(e, key);
      && Cleared(f, key) && !KeyInL2(f, key) && f.queue == e.queue && f.flying == e.flying
  {
    hide L1.Holds, DropL1, LookL2, L1.Ready, L1.Placed, L2Ready, InL2;
    DropL1Effect(e, key);
    var d := DropL1(e, key);
    LookL2Effect(d, key);
    SameL2(DropL2(d, key), Remove(e, key));
  }

  /** One step of the drainer brings in no copy and nothing above L2. */
  lemma DrainerStep(e: Engine, a: Act, key: string)
    requires Inv(e) && Cleared(e, key) && (a.Drain? || a.Deliver?)
    ensures var f := Perform(e, a);
      && Cleared(f, key)
      && (forall x :: Copy(f, x) ==> Copy(e, x))
      && (forall x :: Waiting(e, x) ==> Waiting(f, x) || InL2(f, x))
  {
    hide L1.Holds, L1.Ready, L1.Placed, L2Ready, StoreOne;
    if a.Drain? {
      PopBatchEffect(e);
      PopBatchWaiting(e);
    } else if e.flying != [] {
      StoreOneEffect(e);
      StoreOneWaiting(e);
    }
  }

  lemma PopBatchWaiting(e: Engine)
    ensures forall x :: Waiting(PopBatch(e), x) <==> Waiting(e, x)
  {
    var k := Queue.Least(Queue.BATCH, |e.queue.items|);
    forall x ensures Waiting(PopBatch(e), x) <==> Waiting(e, x) {
      ItemsSplit(e.queue.items, k, x);
      ItemsConcat(e.flying, e.queue.items[..k], x);
    }
  }

  lemma StoreOneWaiting(e: Engine)
    requires e.flying != [] && |e.l2| == NUM_L2_STRIPES
    ensures var d := e.flying[0]; forall x :: Waiting(e, x) ==> Waiting(StoreOne(e), x) || x == Entry(d.key, d.value)
  {
    assert e.flying == [e.flying[0]] + e.flying[1..];
    forall x | InItems(e.flying, x)
      ensures InItems(e.flying[1..], x) || x == Entry(e.flying[0].key, e.flying[0].value)
    {
      ItemsConcat([e.flying[0]], e.flying[1..], x);
    }
  }

  /** The drainer never answers more than what was there. */
  lemma {:induction false} DrainerRun(e: Engine, acts: seq<Act>, key: string)
    requires Inv(e) && Cleared(e, key) && OnlyDrainer(acts)
    ensures Cleared(Run(e, acts), key) && forall x :: Copy(Run(e, acts), x) ==> Copy(e, x)
  {
    hide L1.Holds, L1.Ready, L1.Placed, L2Ready, Perform, Copy, Cleared;
    if acts != [] {
      var front := acts[..|acts| - 1];
      DrainerRun(e, front, key);
      DrainerStep(Run(e, front), acts[|acts| - 1], key);
    }
  }

  /** A key that nothing above holds is answered with what L2 holds. */
  lemma Surfaces(e: Engine, key: string, value: string)
    requires Inv(e) && Cleared(e, key)
    ensures Get(e, key).value == Some(value) <==> InL2(e, Entry(key, value))
  {
    hide L1.Holds, Get, InL2, L1.Ready, L1.Placed, L2Ready;
    GetAnswers(e, key, value);
  }

  lemma {:induction false} RunFirst(e: Engine, a: Act, acts: seq<Act>)
    requires Inv(e)
    ensures Run(e, [a] + acts) == Run(Perform(e, a), acts)
  {
    hide Inv, Perform;
    if acts == [] {
      assert [a] + acts == [a] && Run(e, [a][..0]) == e;
    } else {
      var n := |acts| - 1;
      RunFirst(e, a, acts[..n]);
      assert ([a] + acts)[..|acts|] == [a] + acts[..n];
    }
  }

  /** Draining and delivering long enough brings a waiting copy to L2, where a get finds it. */
  lemma {:induction false} Arrives(e: Engine, key: string, value: string) returns (acts: seq<Act>)
    requires Inv(e) && Cleared(e, key) && Waiting(e, Entry(key, value))
    ensures OnlyDrainer(acts) && Get(Run(e, acts), key).value == Some(value)
    decreases 2 * |e.queue.items| + |e.flying|
  {
    hide L1.Holds, L1.Ready, L1.Placed, L2Ready, Copy, Cleared, Get, Waiting, InL2;
    var a := if e.flying == [] then Drain else Deliver;
    var f := Perform(e, a);
    DrainerStep(e, a, key);
    var rest := [];
    if InL2(f, Entry(key, value)) {
      Surfaces(f, key, value);
    } else {
      StepShortens(e, a, Entry(key, value));
      rest := Arrives(f, key, value);
    }
    RunFirst(e, a, rest);
    acts := [a] + rest;
  }

  lemma StepShortens(e: Engine, a: Act, x: Entry)
    requires Inv(e) && Waiting(e, x) && a == if e.flying == [] then Drain else Deliver
    ensures var f := Perform(e, a); 2 * |f.queue.items| + |f.flying| < 2 * |e.queue.items| + |e.flying|
  {
    hide Inv;
  }

  /** After a remove, the drainer can make a get answer exactly the values that waited in the ring and in the batch. */
  lemma ComesBack(e: Engine, key: string, value: string)
    requires Inv(e)
    ensures (exists acts :: OnlyDrainer(acts) && Get(Run(Remove(e, key), acts), key).value == Some(value)) <==>
      Waiting(e, Entry(key, value))
  {
    hide L1.Holds, L1.Ready, L1.Placed, L2Ready, Get, Remove, Cleared;
    RemoveClears(e, key);
    var g := Remove(e, key);
    assert Waiting(g, Entry(key, value)) <==> Waiting(e, Entry(key, value));
    if Waiting(e, Entry(key, value)) {
      var acts := Arrives(g, key, value);
    }
    forall acts | OnlyDrainer(acts) && Get(Run(g, acts), key).value == Some(value)
      ensures Waiting(g, Entry(key, value))
    {
      DrainerRun(g, acts, key);
      Surfaces(Run(g, acts), key, value);
      ClearedCopies(g, key, value);
    }
  }

  lemma ClearedCopies(e: Engine, key: string, value: string)
    requires Ready(e) && Cleared(e, key) && !KeyInL2(e, key)
    ensures Copy(e, Entry(key, value)) ==> Waiting(e, Entry(key, value))
  {
    hide L1.Holds, L1.Ready, L1.Placed;
  }

  /** A removed key stays gone, whatever the drainer does, exactly when no copy of it waits. */
  lemma RemovedStaysGone(e: Engine, key: string)
    requires Inv(e)
    ensures (forall acts :: OnlyDrainer(acts) ==> Get(Run(Remove(e, key), acts), key).value == None) <==>
      !KeyWaiting(e, key)
  {
    hide Inv, Run, Get, Remove, OnlyDrainer, Waiting;
    forall v ensures (exists acts :: OnlyDrainer(acts) && Get(Run(Remove(e, key), acts), key).value == Some(v)) <==>
        Waiting(e, Entry(key, v))
    {
      ComesBack(e, key, v);
    }
    if KeyWaiting(e, key) {
      var v :| Waiting(e, Entry(key, v));
    } else {
      forall acts | OnlyDrainer(acts) ensures Get(Run(Remove(e, key), acts), key).value == None {
        NeverSome(Get(Run(Remove(e, key), acts), key).value);
      }
    }
  }

  lemma NeverSome(o: Option<string>)
    requires forall v :: o != Some(v)
    ensures o == None
  {
  }

  /** The shortest way: a copy at the head of the batch is back after one delivery. */
  lemma RemovedKeyComesBack(e: Engine, key: string, value: string)
    requires Inv(e) && e.flying != [] && e.flying[0].key == key && e.flying[0].value == value
    ensures var f := Perform(Perform(e, DoRemove(key)), Deliver);
      Get(f, key).value == Some(value) && BackendGet(f, key) == None
  {
    hide L1.Holds, L1.Ready, L1.Placed, L2Ready, Get, Remove, StoreOne;
    RemoveClears(e, key);
    var g := Remove(e, key);
    DrainerStep(g, Deliver, key);
    StoreOneEffect(g);
    Surfaces(StoreOne(g), key, value);
  }
}
