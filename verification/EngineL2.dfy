/** What the second tier of an engine answers after any run, told from what was delivered to it and asked of it. */
module EngineL2 {
  import opened Types
  import opened CacheEngine
  import opened EngineCoherence
  import L1 = StripedCache
  import L2 = L2Recency

  /** What an act does to L2 stripe `i`: a get that misses L1 and a remove take, a delivery stores. */
  function Traffic(e: Engine, a: Act, i: nat): seq<L2.Op>
    requires Inv(e)
  {
    match a
    case DoGet(k) => if L2Route(e, k) == i && LookL1(e, k).value.None? then [L2.TakeOp(k)] else []
    case DoPut(_, _) => []
    case DoRemove(k) => if L2Route(e, k) == i then [L2.TakeOp(k)] else []
    case Drain => []
    case Deliver =>
      if e.flying != [] && L2Route(e, e.flying[0].key) == i
      then [L2.StoreOp(Entry(e.flying[0].key, e.flying[0].value))]
      else []
  }

  function AllTraffic(e: Engine, acts: seq<Act>, i: nat): seq<L2.Op>
    requires Inv(e)
  {
    if acts == [] then []
    else
      var front := acts[..|acts| - 1];
      AllTraffic(e, front, i) + Traffic(Run(e, front), acts[|acts| - 1], i)
  }

  /** One stripe of L2 under one operation or none. */
  function Applied(l: seq<Entry>, capacity: nat, ops: seq<L2.Op>): seq<Entry>
    requires |ops| <= 1
  {
    if ops == [] then l
    else match ops[0]
      case StoreOp(x) => Store(l, capacity, x)
      case TakeOp(k) => Take(l, k).list
  }

  lemma ActOnL2(e: Engine, a: Act, i: nat)
    requires Inv(e) && i < NUM_L2_STRIPES
    ensures var f := Perform(e, a);
      && f.l2Capacity == e.l2Capacity && f.l2Hash == e.l2Hash && |f.l2| == |e.l2| == NUM_L2_STRIPES
      && f.l2[i] == Applied(e.l2[i], e.l2Capacity, Traffic(e, a, i))
  {
    hide L1.GetKey, L1.RemoveKey, L1.PutSlot, Store, Take, L1.Ready, L1.Placed, L2Ready;
    match a
    case DoGet(k) => GetOnL2(e, k, i);
    case DoPut(k, v) =>
    case DoRemove(k) =>
    case Drain =>
    case Deliver =>
  }

  lemma GetOnL2(e: Engine, key: string, i: nat)
    requires Inv(e) && i < NUM_L2_STRIPES
    ensures var f := Get(e, key).engine;
      && f.l2Capacity == e.l2Capacity && f.l2Hash == e.l2Hash && |f.l2| == |e.l2| == NUM_L2_STRIPES
      && f.l2[i] == if L2Route(e, key) == i && LookL1(e, key).value.None? then Take(e.l2[i], key).list else e.l2[i]
  {
    hide L1.GetKey, L1.PutSlot, Take, L1.Ready, L1.Placed, L2Ready;
    LookL1Effect(e, key);
  }

  lemma RunOne(capacity: nat, ops: seq<L2.Op>, more: seq<L2.Op>)
    requires |more| <= 1
    ensures L2.RunStripe(capacity, ops + more) == Applied(L2.RunStripe(capacity, ops), capacity, more)
  {
    if more == [] {
      assert ops + more == ops;
    } else {
      assert (ops + more)[..|ops|] == ops;
    }
  }

  /** Each stripe of L2 has performed the traffic that reached it. */
  lemma {:induction false} L2FollowsTraffic(e: Engine, acts: seq<Act>, i: nat)
    requires Inv(e) && i < NUM_L2_STRIPES && e.l2[i] == []
    ensures var f := Run(e, acts);
      && f.l2Capacity == e.l2Capacity && f.l2Hash == e.l2Hash
      && f.l2[i] == L2.RunStripe(e.l2Capacity, AllTraffic(e, acts, i))
  {
    hide Perform, Traffic, Applied, L1.Ready, L1.Placed, L2Ready;
    if acts != [] {
      var front := acts[..|acts| - 1];
      var f := Run(e, front);
      L2FollowsTraffic(e, front, i);
      ActOnL2(f, acts[|acts| - 1], i);
      FewOps(f, acts[|acts| - 1], i);
      RunOne(e.l2Capacity, AllTraffic(e, front, i), Traffic(f, acts[|acts| - 1], i));
    }
  }

  lemma FewOps(e: Engine, a: Act, i: nat)
    requires Inv(e)
    ensures |Traffic(e, a, i)| <= 1
  {
  }

  /** L2 answers the value last delivered, unless taken or overtaken by as many other keys as the stripe has places. */
  lemma L2AnswersByHistory(e: Engine, acts: seq<Act>, key: string)
    requires Inv(e) && e.l2[L2Route(e, key)] == []
    ensures LookL2(Run(e, acts), key).value == L2.Kept(e.l2Capacity, AllTraffic(e, acts, L2Route(e, key)), key)
  {
    hide Run, AllTraffic, Take, L2.RunStripe;
    L2FollowsTraffic(e, acts, L2Route(e, key));
    L2.RemembersByRecency(e.l2Capacity, AllTraffic(e, acts, L2Route(e, key)), key);
  }

  /** A new engine's sizes, and that nothing is in it. */
  lemma StartSizes(l1Total: nat, windowPct: real, probationPct: real, l2Total: nat, queueSize: nat,
                   route: string -> nat, sketchHash: (string, nat) -> nat, l2Hash: string -> nat)
    requires windowPct >= 0.0 && 0.0 <= probationPct < 1.0
    ensures var e := Start(l1Total, windowPct, probationPct, l2Total, queueSize, route, sketchHash, l2Hash);
      && |e.l2| == 16 && (forall i :: 0 <= i < 16 ==> e.l2[i] == [])
      && (if l2Total < 16 then e.l2Capacity == 1 else 16 * e.l2Capacity <= l2Total < 16 * (e.l2Capacity + 1))
      && |e.l1.stripes| == 64
      && (forall i :: 0 <= i < 64 ==>
            var c := e.l1.stripes[i].cfg.capacity;
            if l1Total < 192 then c == 3 else 64 * c <= l1Total < 64 * (c + 1))
      && e.queue.capacity == queueSize && e.queue.items == [] && e.flying == [] && e.backend == map[]
  {
  }
}
