/**
 Any number of clients and the drainer, interleaved at every lock boundary. Each access to an L1
 stripe, to an L2 stripe, to the queue and to the backend is atomic under its own mutex; between two
 of them anything may happen. A put that evicts pushes the victim while it still holds its stripe:
 until then that stripe waits, the rest of the engine does not. Freshness fails here, but provenance
 and conservation hold in every run.
 */
module EngineConcurrency {
  import opened Types
  import opened CacheEngine
  import L1 = StripedCache
  import Queue = DemotionQueue
  import StripePolicy
  import StripeTheorems

  /** Where a client stands inside `get`, `put` or `remove`. */
  datatype Pc =
    | Idle
    | MissedL1(key: string)
    | MissedL2(key: string)
    | Carrying(key: string, value: string)
    | Answered(key: string, answer: Option<string>)
    | Stored(key: string, value: string)
    | Pushing(key: string, value: string, victims: seq<DemotionItem>, reading: bool)
    | RemovedL1(key: string)
    | RemovedL2(key: string)

  /**
   The engine, its clients, and what history has to remember: everything ever stored, accepted by the queue,
   delivered to L2.
   */
  datatype World =
    World(engine: Engine, clients: seq<Pc>, stored: set<Entry>, accepted: seq<DemotionItem>,
      delivered: seq<DemotionItem>)

  datatype Act =
    | StartGet(key: string)
    | SearchL2
    | AskBackend
    | Reinsert(slot: bool)
    | StartPut(key: string, value: string)
    | FinishPut(slot: bool)
    | PushVictim
    | StartRemove(key: string)
    | ContinueRemove
    | FinishRemove

  /**
   A put that adds an entry says whether it got a slot: while puts on other stripes hold one, it may not, although
   one is counted free.
   */
  datatype Event = Client(client: nat, act: Act) | PopEvent | StoreEvent

  /** The put that holds the stripe of the key is not inside `try_push`. */
  predicate Unlocked(w: World, key: string) {
    forall i :: 0 <= i < |w.clients| && w.clients[i].Pushing? ==>
      L1.Route(w.engine.l1, w.clients[i].key) != L1.Route(w.engine.l1, key)
  }

  predicate Enabled(w: World, ev: Event) {
    match ev
    case PopEvent => w.engine.flying == []
    case StoreEvent => w.engine.flying != []
    case Client(i, a) =>
      i < |w.clients| &&
      var pc := w.clients[i];
      match a
      case StartGet(k) => (pc.Idle? || pc.Answered?) && Unlocked(w, k)
      case SearchL2 => pc.MissedL1?
      case AskBackend => pc.MissedL2?
      case Reinsert(slot) => pc.Carrying? && (slot ==> w.engine.l1.free > 0) && Unlocked(w, pc.key)
      case StartPut(_, _) => pc.Idle? || pc.Answered?
      case FinishPut(slot) => pc.Stored? && (slot ==> w.engine.l1.free > 0) && Unlocked(w, pc.key)
      case PushVictim => pc.Pushing?
      case StartRemove(k) => (pc.Idle? || pc.Answered?) && Unlocked(w, k)
      case ContinueRemove => pc.RemovedL1?
      case FinishRemove => pc.RemovedL2?
  }

  function At(w: World, i: nat, pc: Pc): World
    requires i < |w.clients|
  {
    w.(clients := w.clients[i := pc])
  }

  /** Where a client is while it has these victims to push, and after the last of them. */
  function Onward(key: string, value: string, victims: seq<DemotionItem>, reading: bool): Pc {
    if victims != [] then Pushing(key, value, victims, reading)
    else if reading then Answered(key, Some(value))
    else Idle
  }

  /** `l1_.put` by a client up to its first push: the entry is in, the victim is out and its slot free. */
  function PutInto(w: World, i: nat, key: string, value: string, slot: bool, reading: bool): World
    requires Ready(w.engine) && (slot ==> w.engine.l1.free > 0) && i < |w.clients|
  {
    var p := L1.PutSlot(w.engine.l1, key, value, slot);
    At(w, i, Onward(key, value, p.demoted, reading)).(engine := w.engine.(l1 := p.cache))
  }

  /** `try_push` of the first victim, with its acceptance written down. */
  function PushFirst(w: World, i: nat): World
    requires i < |w.clients| && w.clients[i].Pushing?
  {
    var pc := w.clients[i];
    if pc.victims == [] then At(w, i, Onward(pc.key, pc.value, [], pc.reading))
    else
      var q := Queue.Push(w.engine.queue, pc.victims[0]);
      At(w, i, Onward(pc.key, pc.value, pc.victims[1..], pc.reading)).(
        engine := w.engine.(queue := q), accepted := w.accepted + Queue.Arrivals(w.engine.queue, q))
  }

  function ClientStep(w: World, i: nat, a: Act): World
    requires Ready(w.engine) && Enabled(w, Client(i, a))
  {
    var e := w.engine;
    var pc := w.clients[i];
    match a
    case StartGet(k) =>
      var r := LookL1(e, k);
      At(w, i, if r.value.Some? then Answered(k, r.value) else MissedL1(k)).(engine := r.engine)
    case SearchL2 =>
      var r := LookL2(e, pc.key);
      At(w, i, if r.value.Some? then Carrying(pc.key, r.value.value) else MissedL2(pc.key)).(engine := r.engine)
    case AskBackend =>
      At(w, i, if pc.key in e.backend then Carrying(pc.key, e.backend[pc.key]) else Answered(pc.key, None))
    case Reinsert(slot) => PutInto(w, i, pc.key, pc.value, slot, true)
    case StartPut(k, v) => At(w, i, Stored(k, v)).(engine := StoreBackend(e, k, v), stored := w.stored + {Entry(k, v)})
    case FinishPut(slot) => PutInto(w, i, pc.key, pc.value, slot, false)
    case PushVictim => PushFirst(w, i)
    case StartRemove(k) => At(w, i, RemovedL1(k)).(engine := DropL1(e, k))
    case ContinueRemove => At(w, i, RemovedL2(pc.key)).(engine := DropL2(e, pc.key))
    case FinishRemove => At(w, i, Idle).(engine := DropBackend(e, pc.key))
  }

  function Step(w: World, ev: Event): World
    requires Ready(w.engine) && Enabled(w, ev)
  {
    match ev
    case PopEvent => w.(engine := PopBatch(w.engine))
    case StoreEvent => w.(engine := StoreOne(w.engine), delivered := w.delivered + [w.engine.flying[0]])
    case Client(i, a) => ClientStep(w, i, a)
  }

  // ----- Provenance

  ghost predicate PcKnown(stored: set<Entry>, pc: Pc) {
    match pc
    case Carrying(k, v) => Entry(k, v) in stored
    case Answered(k, a) => a.Some? ==> Entry(k, a.value) in stored
    case Stored(k, v) => Entry(k, v) in stored
    case Pushing(k, v, victims, _) =>
      Entry(k, v) in stored && forall d :: d in victims ==> Entry(d.key, d.value) in stored
    case _ => true
  }

  /** Whatever is held, carried or answered was put by someone. */
  ghost predicate Known(w: World)
    requires Ready(w.engine)
  {
    && (forall x :: Copy(w.engine, x) ==> x in w.stored)
    && (forall k :: k in w.engine.backend ==> Entry(k, w.engine.backend[k]) in w.stored)
    && (forall i :: 0 <= i < |w.clients| ==> PcKnown(w.stored, w.clients[i]))
  }

  lemma ClientKeepsKnown(w: World, i: nat, a: Act)
    requires Inv(w.engine) && Known(w) && Enabled(w, Client(i, a))
    ensures Inv(ClientStep(w, i, a).engine) && Known(ClientStep(w, i, a))
  {
    hide L1.Holds, L1.Ready, L1.Placed, L2Ready, LookL1, LookL2, L1.PutSlot, PushFirst, DropL1, L1.RemoveKey,
      StripeTheorems.Inv;
    var e := w.engine;
    var pc := w.clients[i];
    assert PcKnown(w.stored, pc);
    match a
    case StartGet(k) =>
      LookL1Effect(e, k);
      var r := LookL1(e, k);
      if r.value.Some? { assert Copy(e, Entry(k, r.value.value)); }
    case SearchL2 =>
      LookL2Effect(e, pc.key);
      var r := LookL2(e, pc.key);
      if r.value.Some? { assert Copy(e, Entry(pc.key, r.value.value)); }
      assert forall x :: Copy(r.engine, x) ==> Copy(e, x);
    case AskBackend =>
    case Reinsert(slot) => PutIntoKnown(w, i, pc.key, pc.value, slot, true);
    case StartPut(k, v) => SameL2(e, StoreBackend(e, k, v));
      assert forall x :: Copy(StoreBackend(e, k, v), x) ==> Copy(e, x);
    case FinishPut(slot) => PutIntoKnown(w, i, pc.key, pc.value, slot, false);
    case PushVictim => PushFirstKnown(w, i);
    case StartRemove(k) =>
      DropL1Effect(e, k);
      SameL2(e, DropL1(e, k));
      assert forall x :: Copy(DropL1(e, k), x) ==> Copy(e, x);
    case ContinueRemove =>
      LookL2Effect(e, pc.key);
      assert forall x :: Copy(DropL2(e, pc.key), x) ==> Copy(e, x);
    case FinishRemove => SameL2(e, DropBackend(e, pc.key));
      assert forall x :: Copy(DropBackend(e, pc.key), x) ==> Copy(e, x);
  }

  lemma PutIntoKnown(w: World, i: nat, key: string, value: string, slot: bool, reading: bool)
    requires Inv(w.engine) && Known(w) && Entry(key, value) in w.stored
    requires (slot ==> w.engine.l1.free > 0) && i < |w.clients|
    ensures var u := PutInto(w, i, key, value, slot, reading); Inv(u.engine) && Known(u)
  {
    hide L1.Holds, L1.Placed, L1.PutSlot;
    var e := w.engine;
    L1.PutSlotHolds(e.l1, key, value, slot);
    var p := L1.PutSlot(e.l1, key, value, slot);
    var f := e.(l1 := p.cache);
    SameL2(e, f);
    forall x | Copy(f, x) ensures x in w.stored {
      assert x == Entry(key, value) || Copy(e, x);
    }
    forall d | d in p.demoted ensures Entry(d.key, d.value) in w.stored {
      assert Copy(e, Entry(d.key, d.value));
    }
  }

  lemma PushFirstKnown(w: World, i: nat)
    requires Inv(w.engine) && Known(w) && i < |w.clients| && w.clients[i].Pushing?
    ensures Inv(PushFirst(w, i).engine) && Known(PushFirst(w, i))
  {
    hide L1.Holds, L1.Placed, L1.Ready, L2Ready;
    var e := w.engine;
    var pc := w.clients[i];
    assert PcKnown(w.stored, pc);
    var f := PushFirst(w, i).engine;
    SameL2(e, f);
    if pc.victims != [] {
      var d := pc.victims[0];
      assert d in pc.victims;
      forall x | Copy(f, x) ensures x in w.stored {
        PushedItems(e.queue, d, x);
        assert x == Entry(d.key, d.value) || Copy(e, x);
      }
    }
  }

  lemma PushedItems(f: Queue.Fifo, d: DemotionItem, x: Entry)
    ensures InItems(Queue.Push(f, d).items, x) ==> InItems(f.items, x) || x == Entry(d.key, d.value)
  {
    ItemsConcat(f.items, [d], x);
  }

  lemma StepKeepsKnown(w: World, ev: Event)
    requires Inv(w.engine) && Known(w) && Enabled(w, ev)
    ensures Inv(Step(w, ev).engine) && Known(Step(w, ev))
  {
    hide L1.Holds, L1.Ready, L1.Placed, L2Ready, StoreOne, ClientStep;
    match ev
    case PopEvent => PopBatchEffect(w.engine);
    case StoreEvent => StoreOneEffect(w.engine);
    case Client(i, a) => ClientKeepsKnown(w, i, a);
  }

  // ----- Conservation

  function Evictions(stripes: seq<StripePolicy.Stripe>): nat {
    if stripes == [] then 0 else Evictions(stripes[..|stripes| - 1]) + stripes[|stripes| - 1].evictions
  }

  /** Victims that clients have still to push. */
  function Pending(clients: seq<Pc>): nat {
    if clients == [] then 0 else Pending(clients[..|clients| - 1]) + Victims(clients[|clients| - 1])
  }

  function Victims(pc: Pc): nat {
    if pc.Pushing? then |pc.victims| else 0
  }

  lemma {:induction false} PendingSet(clients: seq<Pc>, i: nat, pc: Pc)
    requires i < |clients|
    ensures Pending(clients[i := pc]) == Pending(clients) - Victims(clients[i]) + Victims(pc)
  {
    var n := |clients| - 1;
    if i == n {
      assert clients[i := pc][..n] == clients[..n];
    } else {
      PendingSet(clients[..n], i, pc);
      assert clients[i := pc][..n] == clients[..n][i := pc];
    }
  }

  /**
   Delivered items, the drainer's batch and the queue, in that order, are exactly what the queue
   accepted; and every eviction was accepted, counted as a drop, or is still to be pushed.
   */
  ghost predicate Conserved(w: World) {
    && w.delivered + w.engine.flying + w.engine.queue.items == w.accepted
    && Evictions(w.engine.l1.stripes) == |w.accepted| + w.engine.queue.drops + Pending(w.clients)
  }

  lemma {:induction false} EvictionsSet(stripes: seq<StripePolicy.Stripe>, i: nat, t: StripePolicy.Stripe)
    requires i < |stripes|
    ensures Evictions(stripes[i := t]) == Evictions(stripes) - stripes[i].evictions + t.evictions
  {
    var n := |stripes| - 1;
    if i == n {
      assert stripes[i := t][..n] == stripes[..n];
    } else {
      EvictionsSet(stripes[..n], i, t);
      assert stripes[i := t][..n] == stripes[..n][i := t];
    }
  }

  /** A put evicts exactly as many entries as it offers to the queue. */
  lemma PutEvictions(s: StripePolicy.Stripe, key: string, value: string, slot: bool)
    requires StripeTheorems.Inv(s)
    ensures var p := StripePolicy.Put(s, key, value, slot); p.stripe.evictions == s.evictions + |p.demoted|
  {
    if StripePolicy.Has(s, key) { StripeTheorems.PutHitKeepsInv(s, key, value, slot); }
    else if slot { StripeTheorems.PutMissKeepsInv(s, key, value); }
    else { StripeTheorems.PutNoSlotKeepsInv(s, key, value); }
  }

  lemma L1PutEvictions(c: L1.Cache, key: string, value: string, slot: bool)
    requires L1.Ready(c) && (slot ==> c.free > 0)
    ensures var p := L1.PutSlot(c, key, value, slot); Evictions(p.cache.stripes) == Evictions(c.stripes) + |p.demoted|
  {
    var s := L1.StripeOf(c, key);
    assert StripeTheorems.Inv(s);
    PutEvictions(s, key, value, slot);
    EvictionsSet(c.stripes, L1.Route(c, key), StripePolicy.Put(s, key, value, slot).stripe);
  }

  lemma L1GetEvictions(c: L1.Cache, key: string)
    requires L1.Ready(c)
    ensures Evictions(L1.GetKey(c, key).cache.stripes) == Evictions(c.stripes)
  {
    var s := L1.StripeOf(c, key);
    assert StripeTheorems.Inv(s);
    StripeTheorems.GetKeepsInv(s, key);
    hide StripePolicy.Get, StripeTheorems.Inv;
    EvictionsSet(c.stripes, L1.Route(c, key), StripePolicy.Get(s, key).stripe);
  }

  lemma L1RemoveEvictions(c: L1.Cache, key: string)
    requires L1.Ready(c)
    ensures Evictions(L1.RemoveKey(c, key).cache.stripes) == Evictions(c.stripes)
  {
    var s := L1.StripeOf(c, key);
    assert StripeTheorems.Inv(s);
    StripeTheorems.RemoveKeepsInv(s, key);
    hide StripePolicy.Remove, StripeTheorems.Inv;
    EvictionsSet(c.stripes, L1.Route(c, key), StripePolicy.Remove(s, key).stripe);
  }

  lemma PutIntoConserves(w: World, i: nat, key: string, value: string, slot: bool, reading: bool)
    requires Inv(w.engine) && Conserved(w) && (slot ==> w.engine.l1.free > 0)
    requires i < |w.clients| && !w.clients[i].Pushing?
    ensures Conserved(PutInto(w, i, key, value, slot, reading))
  {
    hide L1.PutSlot, L1.Ready, Pending;
    L1PutEvictions(w.engine.l1, key, value, slot);
    PendingSet(w.clients, i, Onward(key, value, L1.PutSlot(w.engine.l1, key, value, slot).demoted, reading));
  }

  lemma PushFirstConserves(w: World, i: nat)
    requires Conserved(w) && i < |w.clients| && w.clients[i].Pushing?
    ensures Conserved(PushFirst(w, i))
  {
    hide Pending, Evictions;
    var pc := w.clients[i];
    var e := w.engine;
    PendingSet(w.clients, i, PushFirst(w, i).clients[i]);
    if pc.victims != [] {
      var q := Queue.Push(e.queue, pc.victims[0]);
      var more := Queue.Arrivals(e.queue, q);
      assert q.items == e.queue.items + more && q.drops + |more| == e.queue.drops + 1;
      assert w.delivered + e.flying + (e.queue.items + more) == (w.delivered + e.flying + e.queue.items) + more;
    }
  }

  /** A step of a client between two places without victims. */
  lemma PendingSame(w: World, i: nat, pc: Pc)
    requires i < |w.clients| && !w.clients[i].Pushing? && !pc.Pushing?
    ensures Pending(At(w, i, pc).clients) == Pending(w.clients)
  {
    PendingSet(w.clients, i, pc);
  }

  lemma ClientConserves(w: World, i: nat, a: Act)
    requires Inv(w.engine) && Conserved(w) && Enabled(w, Client(i, a))
    ensures Conserved(ClientStep(w, i, a))
  {
    hide L1.GetKey, L1.RemoveKey, L1.Ready, PutInto, PushFirst, Pending, Evictions, Unlocked;
    var e := w.engine;
    var pc := w.clients[i];
    if !a.Reinsert? && !a.FinishPut? && !a.PushVictim? {
      PendingSame(w, i, ClientStep(w, i, a).clients[i]);
    }
    match a
    case StartGet(k) => L1GetEvictions(e.l1, k);
    case SearchL2 =>
    case AskBackend =>
    case Reinsert(slot) => PutIntoConserves(w, i, pc.key, pc.value, slot, true);
    case StartPut(_, _) =>
    case FinishPut(slot) => PutIntoConserves(w, i, pc.key, pc.value, slot, false);
    case PushVictim => PushFirstConserves(w, i);
    case StartRemove(k) => L1RemoveEvictions(e.l1, k);
    case ContinueRemove =>
    case FinishRemove =>
  }

  lemma StepConserves(w: World, ev: Event)
    requires Inv(w.engine) && Conserved(w) && Enabled(w, ev)
    ensures Conserved(Step(w, ev))
  {
    hide ClientStep, Inv, Pending, Evictions;
    var e := w.engine;
    match ev
    case PopEvent =>
      var items := e.queue.items;
      var k := Queue.Least(Queue.BATCH, |items|);
      assert items[..k] + items[k..] == items;
      assert w.delivered + (e.flying + items[..k]) + items[k..] == w.delivered + e.flying + (items[..k] + items[k..]);
    case StoreEvent =>
      assert w.delivered + [e.flying[0]] + e.flying[1..] == w.delivered + e.flying;
    case Client(i, a) => ClientConserves(w, i, a);
  }

  /** A put evicts at most one entry; with its push it does to the engine what one uninterrupted `l1_.put` does. */
  lemma SoloPut(w: World, i: nat, key: string, value: string, slot: bool, reading: bool)
    requires Inv(w.engine) && (slot ==> w.engine.l1.free > 0) && i < |w.clients|
    ensures var u := PutInto(w, i, key, value, slot, reading); var last := Onward(key, value, [], reading);
      if u.clients[i].Pushing? then
        PushFirst(u, i).engine == PutL1Slot(w.engine, key, value, slot) && PushFirst(u, i).clients[i] == last
      else u.engine == PutL1Slot(w.engine, key, value, slot) && u.clients[i] == last
  {
    hide L1.Ready, L1.Placed, L2Ready, StripePolicy.Put;
    AtMostOneVictim(w.engine.l1, key, value, slot);
    var demoted := L1.PutSlot(w.engine.l1, key, value, slot).demoted;
    if demoted != [] {
      assert demoted[1..] == [];
      assert Queue.PushAll(w.engine.queue, demoted) == Queue.PushAll(Queue.Push(w.engine.queue, demoted[0]), []);
    }
  }

  lemma AtMostOneVictim(c: L1.Cache, key: string, value: string, slot: bool)
    requires L1.Ready(c) && (slot ==> c.free > 0)
    ensures |L1.PutSlot(c, key, value, slot).demoted| <= 1
  {
    var s := L1.StripeOf(c, key);
    assert StripeTheorems.Inv(s);
    if StripePolicy.Has(s, key) { StripeTheorems.PutHitKeepsInv(s, key, value, slot); }
    else if slot { StripeTheorems.PutMissKeepsInv(s, key, value); }
    else { StripeTheorems.PutNoSlotKeepsInv(s, key, value); }
  }

  // ----- Whole runs

  ghost predicate Good(w: World) {
    Inv(w.engine) && Known(w) && Conserved(w)
  }

  /** `w'` is reached from `w` by the events, each enabled in its turn. */
  ghost predicate Reaches(w: World, evs: seq<Event>, w': World)
    decreases |evs|
  {
    if evs == [] then w == w'
    else Ready(w.engine) && Enabled(w, evs[0]) && Reaches(Step(w, evs[0]), evs[1..], w')
  }

  lemma {:induction false} RunKeepsGood(w: World, evs: seq<Event>, w': World)
    requires Good(w) && Reaches(w, evs, w')
    ensures Good(w')
    decreases |evs|
  {
    hide Inv, Known, Conserved, Step;
    if evs != [] {
      StepKeepsKnown(w, evs[0]);
      StepConserves(w, evs[0]);
      RunKeepsGood(Step(w, evs[0]), evs[1..], w');
    }
  }

  /** The events contain a put of this entry. */
  ghost predicate WasPut(evs: seq<Event>, x: Entry) {
    exists i :: Client(i, StartPut(x.key, x.value)) in evs
  }

  /** History holds what it held before and what the events put, and nothing else. */
  lemma {:induction false} StoredByPuts(w: World, evs: seq<Event>, w': World)
    requires Reaches(w, evs, w')
    ensures forall x :: x in w'.stored <==> x in w.stored || WasPut(evs, x)
    decreases |evs|
  {
    hide LookL1, LookL2, L1.PutSlot, DropL1, PopBatch, StoreOne, Ready;
    if evs != [] {
      StoredByPuts(Step(w, evs[0]), evs[1..], w');
      forall x ensures WasPut(evs, x) <==> WasPut([evs[0]], x) || WasPut(evs[1..], x) {
        assert evs == [evs[0]] + evs[1..];
      }
      StepStored(w, evs[0]);
    }
  }

  lemma StepStored(w: World, ev: Event)
    requires Ready(w.engine) && Enabled(w, ev)
    ensures forall x :: x in Step(w, ev).stored <==> x in w.stored || WasPut([ev], x)
  {
    hide LookL1, LookL2, L1.PutSlot, DropL1, PopBatch, StoreOne, Ready;
    if ev.Client? && ev.act.StartPut? {
      assert ev == Client(ev.client, StartPut(ev.act.key, ev.act.value));
    }
  }

  function Opening(e: Engine, clients: nat): World {
    World(e, seq(clients, _ => Idle), {}, [], [])
  }

  /**
   From an empty engine, in every interleaving of any number of clients with the drainer: every
   copy, every value on its way and every answer was stored in the backend under its key at some
   point before, and no evicted item is lost, duplicated or reordered on its way to L2.
   */
  lemma EveryRun(l1Total: nat, windowPct: real, probationPct: real, l2Total: nat, queueSize: nat,
                 route: string -> nat, sketchHash: (string, nat) -> nat, l2Hash: string -> nat,
                 clients: nat, evs: seq<Event>, w: World)
    requires windowPct >= 0.0 && 0.0 <= probationPct < 1.0
    requires
      var e := Start(l1Total, windowPct, probationPct, l2Total, queueSize, route, sketchHash, l2Hash);
      Reaches(Opening(e, clients), evs, w)
    ensures Ready(w.engine) && Known(w) && Conserved(w)
    ensures forall x :: x in w.stored <==> WasPut(evs, x)
    ensures w.engine.flying == [] && w.engine.queue.items == [] ==> w.delivered == w.accepted
  {
    var e := Start(l1Total, windowPct, probationPct, l2Total, queueSize, route, sketchHash, l2Hash);
    StartGood(e, clients, l1Total, windowPct, probationPct, l2Total, queueSize, route, sketchHash, l2Hash);
    RunKeepsGood(Opening(e, clients), evs, w);
    StoredByPuts(Opening(e, clients), evs, w);
  }

  lemma {:induction false} NoEvictions(stripes: seq<StripePolicy.Stripe>)
    requires forall s :: s in stripes ==> s.evictions == 0
    ensures Evictions(stripes) == 0
  {
    if stripes != [] {
      NoEvictions(stripes[..|stripes| - 1]);
    }
  }

  lemma {:induction false} NonePending(clients: nat)
    ensures Pending(seq(clients, _ => Idle)) == 0
  {
    if clients > 0 {
      assert seq(clients, _ => Idle)[..clients - 1] == seq(clients - 1, _ => Idle);
      NonePending(clients - 1);
    }
  }

  lemma StartGood(e: Engine, clients: nat, l1Total: nat, windowPct: real, probationPct: real, l2Total: nat,
                  queueSize: nat, route: string -> nat, sketchHash: (string, nat) -> nat, l2Hash: string -> nat)
    requires windowPct >= 0.0 && 0.0 <= probationPct < 1.0
    requires e == Start(l1Total, windowPct, probationPct, l2Total, queueSize, route, sketchHash, l2Hash)
    ensures Good(Opening(e, clients))
  {
    StripeTheorems.EmptyInv(e.l1.stripes[0].cfg, sketchHash);
    assert forall i :: 0 <= i < |e.l1.stripes| ==> e.l1.stripes[i] == e.l1.stripes[0];
    assert forall i :: 0 <= i < |e.l2| ==> L2StripeReady(e, i);
    assert forall x :: !Copy(e, x);
    NoEvictions(e.l1.stripes);
    NonePending(clients);
  }
}
