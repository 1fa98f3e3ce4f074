/**
 A client whose steps nobody interrupts does what the sequential operation does: the interleaved
 engine of `EngineConcurrency` and the one-client engine of `EngineCoherence` are the same engine.
 */
module EngineSolo {
  import opened Types
  import opened CacheEngine
  import opened EngineConcurrency
  import Coherence = EngineCoherence
  import L1 = StripedCache

  /** All events are steps of this client. */
  ghost predicate Alone(evs: seq<Event>, i: nat) {
    forall j :: 0 <= j < |evs| ==> evs[j].Client? && evs[j].client == i
  }

  /** The client is between two operations. */
  predicate Resting(w: World, i: nat) {
    i < |w.clients| && (w.clients[i].Idle? || w.clients[i].Answered?)
  }

  /** Only this client has moved. */
  ghost predicate OnlyMoved(w: World, i: nat, u: World)
    requires i < |w.clients|
  {
    |u.clients| == |w.clients| && u.clients == w.clients[i := u.clients[i]]
  }

  lemma {:induction false} ReachesJoin(w: World, es: seq<Event>, mid: World, fs: seq<Event>, u: World)
    requires Reaches(w, es, mid) && Reaches(mid, fs, u)
    ensures Reaches(w, es + fs, u)
    decreases |es|
  {
    hide Step, Enabled, Ready;
    if es == [] {
      assert es + fs == fs;
    } else {
      ReachesJoin(Step(w, es[0]), es[1..], mid, fs, u);
      assert (es + fs)[1..] == es[1..] + fs;
    }
  }

  lemma ReachesOne(w: World, ev: Event)
    requires Ready(w.engine) && Enabled(w, ev)
    ensures Reaches(w, [ev], Step(w, ev))
  {
    assert [ev][1..] == [];
  }

  /** The stripe of the key stays unlocked while this client moves between steps without victims. */
  lemma StaysUnlocked(w: World, u: World, i: nat, key: string)
    requires i < |w.clients| && Unlocked(w, key) && u.engine.l1.hash == w.engine.l1.hash
    requires OnlyMoved(w, i, u) && !u.clients[i].Pushing?
    ensures Unlocked(u, key)
  {
  }

  /** `l1_.put` with its push. */
  lemma FinishPutting(w: World, i: nat, key: string, value: string, reading: bool)
      returns (evs: seq<Event>, u: World)
    requires Inv(w.engine) && i < |w.clients| && Unlocked(w, key)
    requires w.clients[i] == if reading then Carrying(key, value) else Stored(key, value)
    ensures Alone(evs, i) && Reaches(w, evs, u) && OnlyMoved(w, i, u)
    ensures forall j :: 0 <= j < |evs| ==> !evs[j].act.StartPut?
    ensures u.engine == PutL1(w.engine, key, value) && u.clients[i] == Onward(key, value, [], reading)
  {
    hide PutL1Slot, PutInto, PushFirst, Inv, Unlocked, Reaches;
    var slot := w.engine.l1.free > 0;
    var ev := Client(i, if reading then Reinsert(slot) else FinishPut(slot));
    InvReady(w.engine);
    ReachesOne(w, ev);
    evs, u := [ev], Step(w, ev);
    PutMoves(w, i, key, value, slot, reading);
    SoloPut(w, i, key, value, slot, reading);
    if u.clients[i].Pushing? {
      var push := Client(i, PushVictim);
      ReachesOne(u, push);
      ReachesJoin(w, evs, u, [push], Step(u, push));
      PushMoves(u, i);
      evs, u := evs + [push], Step(u, push);
    }
  }

  lemma InvReady(e: Engine)
    requires Inv(e)
    ensures Ready(e)
  {
  }

  lemma PutMoves(w: World, i: nat, key: string, value: string, slot: bool, reading: bool)
    requires Ready(w.engine) && (slot ==> w.engine.l1.free > 0) && i < |w.clients|
    ensures var u := PutInto(w, i, key, value, slot, reading); OnlyMoved(w, i, u) && Ready(u.engine)
  {
    hide L1.PutSlot;
    PutReady(w.engine, key, value, slot);
  }

  lemma PutReady(e: Engine, key: string, value: string, slot: bool)
    requires Ready(e) && (slot ==> e.l1.free > 0)
    ensures var f := e.(l1 := L1.PutSlot(e.l1, key, value, slot).cache); Ready(f)
  {
    hide L1.PutSlot, L1.Holds;
    L1.PutSlotHolds(e.l1, key, value, slot);
  }

  lemma PushMoves(w: World, i: nat)
    requires i < |w.clients| && w.clients[i].Pushing?
    ensures OnlyMoved(w, i, PushFirst(w, i))
  {
  }

  /** The value that a get finds below L1, and the engine once L2 has been asked. */
  function Below(e: Engine, key: string): Answer
    requires |e.l2| == NUM_L2_STRIPES
  {
    var b := LookL2(e, key);
    Answer(b.engine, if b.value.Some? then b.value else BackendGet(b.engine, key))
  }

  /** After a miss in L1: L2, the backend if need be, and back into L1. */
  lemma GetFromBelow(w: World, i: nat, key: string) returns (evs: seq<Event>, u: World)
    requires Inv(w.engine) && i < |w.clients| && Unlocked(w, key) && w.clients[i] == MissedL1(key)
    ensures Alone(evs, i) && Reaches(w, evs, u) && OnlyMoved(w, i, u)
    ensures var b := Below(w.engine, key);
      && Inv(b.engine) && u.clients[i] == Answered(key, b.value)
      && u.engine == if b.value.Some? then PutL1(b.engine, key, b.value.value) else b.engine
  {
    hide Inv, Unlocked, Reaches, LookL2, PutL1;
    InvReady(w.engine);
    var second := Client(i, SearchL2);
    ReachesOne(w, second);
    evs, u := [second], Step(w, second);
    LookL2Effect(w.engine, key);
    InvReady(u.engine);
    var b := LookL2(w.engine, key);
    if b.value.None? {
      var third := Client(i, AskBackend);
      ReachesOne(u, third);
      ReachesJoin(w, evs, u, [third], Step(u, third));
      evs, u := evs + [third], Step(u, third);
    }
    if u.clients[i].Carrying? {
      StaysUnlocked(w, u, i, key);
      var more, v := FinishPutting(u, i, key, u.clients[i].value, true);
      ReachesJoin(w, evs, u, more, v);
      evs, u := evs + more, v;
    }
  }

  /** The sequential `get`, cut after the search in L1. */
  lemma GetParts(e: Engine, key: string)
    requires Inv(e)
    ensures var a := LookL1(e, key); var g := Coherence.Get(e, key);
      if a.value.Some? then g == a
      else
        && Inv(a.engine)
        && var b := Below(a.engine, key);
        && Inv(b.engine) && g.value == b.value
        && g.engine == if b.value.Some? then PutL1(b.engine, key, b.value.value) else b.engine
  {
    hide LookL1, LookL2, PutL1, Inv;
    InvReady(e);
    LookL1Effect(e, key);
    var a := LookL1(e, key);
    InvReady(a.engine);
    LookL2Effect(a.engine, key);
  }

  lemma FirstStep(w: World, i: nat, key: string)
    requires Inv(w.engine) && Resting(w, i) && Unlocked(w, key)
    ensures Enabled(w, Client(i, StartGet(key)))
    ensures var a := LookL1(w.engine, key); var u := Step(w, Client(i, StartGet(key)));
      && Inv(u.engine) && u.engine == a.engine && u.engine.l1.hash == w.engine.l1.hash && OnlyMoved(w, i, u)
      && u.clients[i] == if a.value.Some? then Answered(key, a.value) else MissedL1(key)
  {
    hide LookL1, Unlocked;
    LookL1Effect(w.engine, key);
    KeepsHash(w.engine, key);
  }

  /** Alone, `get` answers and leaves behind what the sequential `get` does. */
  lemma SoloGet(w: World, i: nat, key: string) returns (evs: seq<Event>, u: World)
    requires Inv(w.engine) && Resting(w, i) && Unlocked(w, key)
    ensures Alone(evs, i) && Reaches(w, evs, u) && OnlyMoved(w, i, u)
    ensures u.engine == Coherence.Get(w.engine, key).engine
    ensures u.clients[i] == Answered(key, Coherence.Get(w.engine, key).value)
  {
    hide Inv, Unlocked, Reaches, LookL1, PutL1, Step, Enabled, Coherence.Get, Below;
    InvReady(w.engine);
    FirstStep(w, i, key);
    GetParts(w.engine, key);
    var first := Client(i, StartGet(key));
    ReachesOne(w, first);
    evs, u := [first], Step(w, first);
    if u.clients[i].MissedL1? {
      StaysUnlocked(w, u, i, key);
      var more, v := GetFromBelow(u, i, key);
      ReachesJoin(w, evs, u, more, v);
      evs, u := evs + more, v;
    }
  }

  lemma FirstEnabled(w: World, i: nat, key: string)
    requires Resting(w, i) && Unlocked(w, key)
    ensures Enabled(w, Client(i, StartGet(key)))
    ensures Enabled(w, Client(i, StartRemove(key)))
  {
  }

  lemma KeepsHash(e: Engine, key: string)
    requires Ready(e)
    ensures LookL1(e, key).engine.l1.hash == e.l1.hash && DropL1(e, key).l1.hash == e.l1.hash
  {
  }

  /** Alone, `put` does what the sequential `put` does. */
  lemma SoloWrite(w: World, i: nat, key: string, value: string) returns (evs: seq<Event>, u: World)
    requires Inv(w.engine) && Resting(w, i) && Unlocked(w, key)
    ensures Alone(evs, i) && Reaches(w, evs, u) && OnlyMoved(w, i, u)
    ensures u.engine == Coherence.Put(w.engine, key, value) && u.clients[i] == Idle
    ensures u.stored == w.stored + {Entry(key, value)}
  {
    hide Inv, Unlocked, Reaches, PutL1;
    InvReady(w.engine);
    var first := Client(i, StartPut(key, value));
    ReachesOne(w, first);
    evs, u := [first], Step(w, first);
    Coherence.StoredInv(w.engine, key, value);
    StaysUnlocked(w, u, i, key);
    var more, v := FinishPutting(u, i, key, value, false);
    ReachesJoin(w, evs, u, more, v);
    StoredAlready(u, more, v, i);
    evs, u := evs + more, v;
  }

  /** Steps that do not start a put store nothing. */
  lemma StoredAlready(w: World, evs: seq<Event>, u: World, i: nat)
    requires Reaches(w, evs, u) && forall j :: 0 <= j < |evs| ==> evs[j].Client? && !evs[j].act.StartPut?
    ensures u.stored == w.stored
  {
    StoredByPuts(w, evs, u);
    assert forall x :: !WasPut(evs, x);
  }

  /** Alone, `remove` does what the sequential `remove` does. */
  lemma SoloRemove(w: World, i: nat, key: string) returns (evs: seq<Event>, u: World)
    requires Inv(w.engine) && Resting(w, i) && Unlocked(w, key)
    ensures Alone(evs, i) && Reaches(w, evs, u) && OnlyMoved(w, i, u)
    ensures u.engine == Coherence.Remove(w.engine, key) && u.clients[i] == Idle
  {
    hide Inv, Unlocked, Reaches, DropL1, LookL2;
    InvReady(w.engine);
    FirstEnabled(w, i, key);
    DropL1Effect(w.engine, key);
    var d := DropL1(w.engine, key);
    LookL2Effect(d, key);
    InvReady(d);
    InvReady(DropL2(d, key));
    var first, second, third := Client(i, StartRemove(key)), Client(i, ContinueRemove), Client(i, FinishRemove);
    var w1 := Step(w, first);
    ReachesOne(w, first);
    var w2 := Step(w1, second);
    ReachesOne(w1, second);
    ReachesJoin(w, [first], w1, [second], w2);
    ReachesOne(w2, third);
    ReachesJoin(w, [first] + [second], w2, [third], Step(w2, third));
    evs, u := [first] + [second] + [third], Step(w2, third);
  }
}
