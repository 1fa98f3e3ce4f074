/**
 One client: when does the engine return exactly what the backend holds? A put does not clear
 copies below L1 and a remove does not clear queued ones, so coherence is conditional; the
 conditions are exact.
 */
module EngineCoherence {
  import opened Types
  import opened CacheEngine
  import L1 = StripedCache
  import Queue = DemotionQueue
  import StripeTheorems
  import StripePolicy

  // ----- The client operations

  function Get(e: Engine, key: string): (a: Answer)
    requires Inv(e)
    ensures Inv(a.engine)
  {
    LookL1Effect(e, key);
    var first := LookL1(e, key);
    if first.value.Some? then first
    else
      LookL2Effect(first.engine, key);
      var second := LookL2(first.engine, key);
      var found := if second.value.Some? then second.value else BackendGet(second.engine, key);
      if found.Some? then
        PutL1Effect(second.engine, key, found.value);
        Answer(PutL1(second.engine, key, found.value), found)
      else Answer(second.engine, None)
  }

  function Put(e: Engine, key: string, value: string): (f: Engine)
    requires Inv(e)
    ensures Inv(f)
  {
    var stored := StoreBackend(e, key, value);
    SameL2(e, stored);
    PutL1Effect(stored, key, value);
    PutL1(stored, key, value)
  }

  function Remove(e: Engine, key: string): (f: Engine)
    requires Inv(e)
    ensures Inv(f)
  {
    DropL1Effect(e, key);
    LookL2Effect(DropL1(e, key), key);
    var g := DropL2(DropL1(e, key), key);
    SameL2(g, DropBackend(g, key));
    DropBackend(g, key)
  }

  // ----- Coherence

  ghost predicate Current(e: Engine, x: Entry) {
    x.key in e.backend && e.backend[x.key] == x.value
  }

  /** Every copy, wherever it is, equals what the backend holds. */
  ghost predicate Coherent(e: Engine)
    requires Ready(e)
  {
    forall x :: Copy(e, x) ==> Current(e, x)
  }

  /** A copy of the key waits in the queue, in the drainer's batch or in L2. */
  ghost predicate KeyBeyond(e: Engine, key: string) {
    exists v :: Beyond(e, Entry(key, v))
  }

  /** The entry waits in the queue or in the drainer's batch. */
  ghost predicate Waiting(e: Engine, x: Entry) {
    InItems(e.queue.items, x) || InItems(e.flying, x)
  }

  ghost predicate KeyWaiting(e: Engine, key: string) {
    exists v :: Waiting(e, Entry(key, v))
  }

  /** A get on a coherent engine returns exactly what the backend holds and keeps it coherent. */
  lemma GetIsTransparent(e: Engine, key: string)
    requires Inv(e) && Coherent(e)
    ensures Get(e, key).value == BackendGet(e, key)
    ensures Coherent(Get(e, key).engine) && Get(e, key).engine.backend == e.backend
  {
    hide L1.Holds, LookL1, LookL2, PutL1, L1.Ready, L1.Placed, L2Ready;
    LookL1Effect(e, key);
    var first := LookL1(e, key);
    if first.value.Some? {
      assert Copy(e, Entry(key, first.value.value));
    } else {
      LookL2Effect(first.engine, key);
      var second := LookL2(first.engine, key);
      TakenStaysCoherent(e, first.engine, second.engine);
      if second.value.Some? {
        assert Copy(first.engine, Entry(key, second.value.value));
      }
      var found := if second.value.Some? then second.value else BackendGet(second.engine, key);
      if found.Some? {
        assert Current(second.engine, Entry(key, found.value));
        PutL1Effect(second.engine, key, found.value);
        ReinsertStaysCoherent(second.engine, key, found.value, PutL1(second.engine, key, found.value));
      }
    }
  }

  lemma ReinsertStaysCoherent(e: Engine, key: string, value: string, f: Engine)
    requires Inv(e) && Ready(f) && Coherent(e) && Current(e, Entry(key, value)) && f == PutL1(e, key, value)
    ensures Coherent(f)
  {
    hide L1.Holds, PutL1, L1.Ready, L1.Placed, L2Ready;
    PutL1Effect(e, key, value);
    forall x | Copy(f, x) ensures Current(f, x) {
      if x != Entry(key, value) {
        assert Copy(e, x);
        assert Current(e, x);
      }
    }
  }

  lemma TakenStaysCoherent(e: Engine, f: Engine, g: Engine)
    requires Ready(e) && Ready(f) && Ready(g) && Coherent(e) && e.backend == f.backend == g.backend
    requires forall x :: Copy(f, x) <==> Copy(e, x)
    requires g == f.(l2 := g.l2) && forall x :: InL2(g, x) ==> InL2(f, x)
    ensures Coherent(f) && Coherent(g)
  {
    forall x | Copy(g, x) ensures Current(g, x) {
      assert Copy(f, x);
      assert Current(e, x);
    }
    forall x | Copy(f, x) ensures Current(f, x) {
      assert Current(e, x);
    }
  }

  /** A put keeps the engine coherent exactly when it changes nothing or no copy of the key waits below L1. */
  lemma PutCoherence(e: Engine, key: string, value: string)
    requires Inv(e) && Coherent(e)
    ensures Coherent(Put(e, key, value)) <==> BackendGet(e, key) == Some(value) || !KeyBeyond(e, key)
  {
    hide L1.Holds, PutL1, L1.Ready, L1.Placed, L2Ready;
    var s := StoreBackend(e, key, value);
    SameL2(e, s);
    var f := Put(e, key, value);
    StoredInv(e, key, value);
    PutL1Effect(s, key, value);
    assert forall x :: Beyond(s, x) <==> Beyond(e, x);
    if KeyBeyond(e, key) {
      var v :| Beyond(e, Entry(key, v));
      assert Copy(e, Entry(key, v));
      assert Current(e, Entry(key, v));
      assert Beyond(f, Entry(key, v));
      assert Copy(f, Entry(key, v));
      if BackendGet(e, key) != Some(value) {
        assert !Current(f, Entry(key, v));
      }
    }
    if BackendGet(e, key) == Some(value) || !KeyBeyond(e, key) {
      forall x | Copy(f, x) ensures Current(f, x) {
        if x != Entry(key, value) {
          assert Copy(e, x);
          assert Current(e, x);
          assert x.key == key ==> Beyond(e, Entry(key, x.value));
        }
      }
    }
  }

  lemma StoredInv(e: Engine, key: string, value: string)
    requires Inv(e)
    ensures Inv(StoreBackend(e, key, value))
  {
    SameL2(e, StoreBackend(e, key, value));
  }

  /** A remove keeps the engine coherent exactly when no copy of the key waits in the queue or in the batch. */
  lemma RemoveCoherence(e: Engine, key: string)
    requires Inv(e) && Coherent(e)
    ensures Coherent(Remove(e, key)) <==> !KeyWaiting(e, key)
  {
    hide L1.Holds, DropL1, LookL2, L1.Ready, L1.Placed, L2Ready;
    DropL1Effect(e, key);
    var d := DropL1(e, key);
    LookL2Effect(d, key);
    SameL2(e, d);
    var g := DropL2(d, key);
    var f := Remove(e, key);
    assert f == DropBackend(g, key);
    SameL2(g, f);
    if KeyWaiting(e, key) {
      var v :| Waiting(e, Entry(key, v));
      assert Copy(f, Entry(key, v)) && !Current(f, Entry(key, v));
    } else {
      forall x | Copy(f, x) ensures Current(f, x) {
        assert Copy(e, x);
        assert Current(e, x);
        assert x.key == key ==> Waiting(e, Entry(key, x.value));
      }
    }
  }

  lemma DrainCoherence(e: Engine)
    requires Inv(e) && Coherent(e)
    ensures Inv(PopBatch(e)) && Coherent(PopBatch(e))
    ensures e.flying != [] ==> Inv(StoreOne(e)) && Coherent(StoreOne(e))
  {
    hide L1.Holds, L1.Ready, L1.Placed, L2Ready;
    PopBatchEffect(e);
    forall x | Copy(PopBatch(e), x) ensures Current(PopBatch(e), x) {
      assert Current(e, x);
    }
    if e.flying != [] {
      StoreOneEffect(e);
      forall x | Copy(StoreOne(e), x) ensures Current(StoreOne(e), x) {
        assert Current(e, x);
      }
    }
  }

  // ----- Whole runs

  datatype Act = DoGet(key: string) | DoPut(key: string, value: string) | DoRemove(key: string) | Drain | Deliver

  function Perform(e: Engine, a: Act): (f: Engine)
    requires Inv(e)
    ensures Inv(f)
  {
    match a
    case DoGet(k) => Get(e, k).engine
    case DoPut(k, v) => Put(e, k, v)
    case DoRemove(k) => Remove(e, k)
    case Drain => PopBatchEffect(e); PopBatch(e)
    case Deliver => if e.flying == [] then e else StoreOneEffect(e); StoreOne(e)
  }

  function Run(e: Engine, acts: seq<Act>): (f: Engine)
    requires Inv(e)
    ensures Inv(f)
  {
    if acts == [] then e else Perform(Run(e, acts[..|acts| - 1]), acts[|acts| - 1])
  }

  /** A put that changes a value finds no copy of the key below L1; a remove finds none on its way there. */
  ghost predicate Careful(e: Engine, a: Act)
    requires Inv(e)
  {
    match a
    case DoPut(k, v) => BackendGet(e, k) == Some(v) || !KeyBeyond(e, k)
    case DoRemove(k) => !KeyWaiting(e, k)
    case _ => true
  }

  ghost predicate CarefulRun(e: Engine, acts: seq<Act>)
    requires Inv(e)
  {
    acts == [] || (CarefulRun(e, acts[..|acts| - 1]) && Careful(Run(e, acts[..|acts| - 1]), acts[|acts| - 1]))
  }

  /** From a coherent state one act ends in a coherent state exactly when it is careful. */
  lemma CarefulIsExact(e: Engine, a: Act)
    requires Inv(e) && Coherent(e)
    ensures Coherent(Perform(e, a)) <==> Careful(e, a)
  {
    hide L1.Ready, L1.Placed, L2Ready, Get, Put, Remove, PopBatch, StoreOne, Copy;
    match a
    case DoGet(k) => GetIsTransparent(e, k);
    case DoPut(k, v) => PutCoherence(e, k, v);
    case DoRemove(k) => RemoveCoherence(e, k);
    case Drain => DrainCoherence(e);
    case Deliver => DrainCoherence(e);
  }

  lemma StartCoherent(l1Total: nat, windowPct: real, probationPct: real, l2Total: nat, queueSize: nat,
                      route: string -> nat, sketchHash: (string, nat) -> nat, l2Hash: string -> nat)
    requires windowPct >= 0.0 && 0.0 <= probationPct < 1.0
    ensures var e := Start(l1Total, windowPct, probationPct, l2Total, queueSize, route, sketchHash, l2Hash);
      Inv(e) && Coherent(e)
  {
    var e := Start(l1Total, windowPct, probationPct, l2Total, queueSize, route, sketchHash, l2Hash);
    StripeTheorems.EmptyInv(e.l1.stripes[0].cfg, sketchHash);
    assert forall i :: 0 <= i < |e.l1.stripes| ==> e.l1.stripes[i] == e.l1.stripes[0];
    assert forall i :: 0 <= i < |e.l2| ==> L2StripeReady(e, i);
    assert forall x :: !Copy(e, x);
  }

  /** Cache transparency: along a careful run every copy is current and every get answers as the backend would. */
  lemma {:induction false} Transparency(e: Engine, acts: seq<Act>, key: string)
    requires Inv(e) && Coherent(e) && CarefulRun(e, acts)
    ensures Coherent(Run(e, acts))
    ensures Get(Run(e, acts), key).value == BackendGet(Run(e, acts), key)
  {
    if acts != [] {
      Transparency(e, acts[..|acts| - 1], key);
      CarefulIsExact(Run(e, acts[..|acts| - 1]), acts[|acts| - 1]);
    }
    GetIsTransparent(Run(e, acts), key);
  }

  /** A run is coherent all the way if and only if every act in it is careful. */
  lemma {:induction false} TransparencyIsExact(e: Engine, acts: seq<Act>)
    requires Inv(e) && Coherent(e)
    ensures CarefulRun(e, acts) <==> forall n :: 0 <= n <= |acts| ==> Coherent(Run(e, acts[..n]))
  {
    hide Coherent, Careful, Perform, L1.Ready, L1.Placed, L2Ready, Queue.ValidFifo;
    assert acts[..0] == [] && acts[..|acts|] == acts;
    if acts != [] {
      var m := |acts| - 1;
      TransparencyIsExact(e, acts[..m]);
      forall n | 0 <= n <= m ensures acts[..m][..n] == acts[..n] {
      }
      if Coherent(Run(e, acts[..m])) {
        CarefulIsExact(Run(e, acts[..m]), acts[m]);
      }
    }
  }
}
