/**
 The drainer thread: it moves batches from the demotion ring to the insert callback until it is stopped, then empties
 the ring.
 */
module DemotionDrainer {
  import opened Types
  import opened DemotionQueue
  import opened Seqs

  /**
   What the ring accepts of the items that producers offer round after round, the drainer popping one batch after
   each round.
   */
  function Accepted(f: Fifo, rounds: seq<seq<DemotionItem>>): seq<DemotionItem>
    decreases |rounds|
  {
    if rounds == [] then []
    else
      var g := PushAll(f, rounds[0]);
      Arrivals(f, g) + Accepted(PopBatch(g, BATCH).fifo, rounds[1..])
  }

  function Offered(rounds: seq<seq<DemotionItem>>): nat {
    if rounds == [] then 0 else |rounds[0]| + Offered(rounds[1..])
  }

  /** A finished run is one round followed by the rest. */
  lemma AcceptedStep(f: Fifo, rounds: seq<seq<DemotionItem>>, n: nat)
    requires n < |rounds|
    ensures var g := PushAll(f, rounds[n]);
      Accepted(f, rounds[n..]) == Arrivals(f, g) + Accepted(PopBatch(g, BATCH).fifo, rounds[n + 1..])
    ensures Offered(rounds[n..]) == |rounds[n]| + Offered(rounds[n + 1..])
  {
    assert rounds[n..][0] == rounds[n] && rounds[n..][1..] == rounds[n + 1..];
  }

  class DemotionDrainer {
    const queue: DemotionQueue
    var running: bool
    var drained: nat

    /** Everything the insert callback has been given, in order. */
    var sink: seq<DemotionItem>

    ghost predicate Valid()
      reads this, queue, queue.buffer
    {
      queue.Valid()
    }

    constructor (queue: DemotionQueue)
      requires queue.Valid()
      ensures Valid() && this.queue == queue && running && drained == 0 && sink == []
    {
      this.queue := queue;
      running, drained, sink := true, 0, [];
    }

    /** Pops a batch and, if it is not empty, hands it to the callback. */
    method Round() returns (popped: nat)
      requires Valid()
      modifies this`drained, this`sink, queue
      ensures Valid()
      ensures queue.View() == PopBatch(old(queue.View()), BATCH).fifo
      ensures sink == old(sink) + PopBatch(old(queue.View()), BATCH).out
      ensures drained == old(drained) + popped && popped == Least(64, |old(queue.items)|)
    {
      hide Holds, Threshold;
      var batch;
      batch, popped := queue.TryPopMany([], BATCH);
      NothingBefore(PopBatch(old(queue.View()), BATCH).out);
      hide PopBatch;
      if popped > 0 {
        sink := sink + batch;
        drained := drained + popped;
      }
    }

    /** What producers do between two rounds. */
    method Produce(items: seq<DemotionItem>)
      requires Valid()
      modifies queue, queue.buffer
      ensures Valid() && queue.View() == PushAll(old(queue.View()), items)
    {
      for i := 0 to |items|
        invariant Valid()
        invariant PushAll(queue.View(), items[i..]) == PushAll(old(queue.View()), items)
      {
        assert items[i..][0] == items[i] && items[i..][1..] == items[i + 1..];
        var _ := queue.TryPushItem(items[i]);
      }
    }

    /** The final drain. */
    method DrainAll()
      requires Valid()
      modifies this`drained, this`sink, queue
      ensures Valid() && queue.items == [] && queue.drops == old(queue.drops)
      ensures sink == old(sink) + old(queue.items) && drained == old(drained) + |old(queue.items)|
    {
      var popped := 1;
      while popped > 0
        invariant Valid() && queue.drops == old(queue.drops)
        invariant sink + queue.items == old(sink) + old(queue.items)
        invariant drained + |queue.items| == old(drained) + |old(queue.items)|
        invariant popped == 0 ==> queue.items == []
        decreases |queue.items|, popped
      {
        ghost var items := queue.items;
        ghost var k := Least(BATCH, |items|);
        assert sink + items[..k] + items[k..] == sink + items;
        popped := Round();
      }
    }

    /**
     The thread from start to stop. `rounds` is what producers offer before each round; once they
     cease and the drainer is stopped, the ring is empty, and the callback has received what was
     queued and what was accepted: all of it, once, in order. The rest was counted as drops.
     */
    method Run(rounds: seq<seq<DemotionItem>>)
      requires Valid()
      modifies this, queue, queue.buffer
      ensures Valid() && !running && queue.items == []
      ensures sink == old(sink) + old(queue.items) + Accepted(old(queue.View()), rounds)
      ensures drained == old(drained) + |old(queue.items)| + |Accepted(old(queue.View()), rounds)|
      ensures queue.drops + |Accepted(old(queue.View()), rounds)| == old(queue.drops) + Offered(rounds)
    {
      hide Books;
      ghost var start := Ledger(sink, drained, queue.View());
      BooksOpen(start, rounds);
      for n := 0 to |rounds|
        invariant Valid() && Books(start, rounds, Ledger(sink, drained, queue.View()), n)
      {
        BooksStep(start, rounds, Ledger(sink, drained, queue.View()), n);
        Produce(rounds[n]);
        var _ := Round();
      }
      running := false;
      BooksClose(start, rounds, Ledger(sink, drained, queue.View()));
      DrainAll();
    }
  }

  /** What the callback has received, how much has been counted, and the ring. */
  datatype Ledger = Ledger(sink: seq<DemotionItem>, drained: nat, fifo: Fifo)

  /**
   After `n` rounds: received, queued and still to be accepted items are those of the start, and every offer is
   accounted for.
   */
  ghost predicate Books(start: Ledger, rounds: seq<seq<DemotionItem>>, now: Ledger, n: nat)
    requires n <= |rounds|
  {
    var all := Accepted(start.fifo, rounds);
    var later := Accepted(now.fifo, rounds[n..]);
    && now.sink + now.fifo.items + later == start.sink + start.fifo.items + all
    && now.drained + |now.fifo.items| + |later| == start.drained + |start.fifo.items| + |all|
    && now.fifo.drops + |all| - |later| == start.fifo.drops + Offered(rounds) - Offered(rounds[n..])
  }

  /** One round of producers and drainer. */
  function AfterRound(now: Ledger, offers: seq<DemotionItem>): Ledger {
    var p := PopBatch(PushAll(now.fifo, offers), BATCH);
    Ledger(now.sink + p.out, now.drained + |p.out|, p.fifo)
  }

  lemma BooksOpen(start: Ledger, rounds: seq<seq<DemotionItem>>)
    ensures Books(start, rounds, start, 0)
  {
    assert rounds[0..] == rounds;
  }

  lemma BooksStep(start: Ledger, rounds: seq<seq<DemotionItem>>, now: Ledger, n: nat)
    requires n < |rounds| && Books(start, rounds, now, n)
    ensures Books(start, rounds, AfterRound(now, rounds[n]), n + 1)
  {
    hide Accepted, PushAll, PopBatch, Offered;
    RoundBooks(now.sink, now.fifo, rounds, n);
  }

  lemma BooksClose(start: Ledger, rounds: seq<seq<DemotionItem>>, now: Ledger)
    requires Books(start, rounds, now, |rounds|)
    ensures now.sink + now.fifo.items == start.sink + start.fifo.items + Accepted(start.fifo, rounds)
    ensures now.drained + |now.fifo.items| == start.drained + |start.fifo.items| + |Accepted(start.fifo, rounds)|
    ensures now.fifo.drops + |Accepted(start.fifo, rounds)| == start.fifo.drops + Offered(rounds)
  {
    assert rounds[|rounds|..] == [];
    assert now.sink + now.fifo.items + [] == now.sink + now.fifo.items;
  }

  /** One round moves items along but keeps their sequence, and counts what it refuses. */
  lemma RoundBooks(sink: seq<DemotionItem>, f: Fifo, rounds: seq<seq<DemotionItem>>, n: nat)
    requires n < |rounds|
    ensures var p := PopBatch(PushAll(f, rounds[n]), BATCH); var later := Accepted(p.fifo, rounds[n + 1..]);
      && sink + p.out + p.fifo.items + later == sink + f.items + Accepted(f, rounds[n..])
      && |p.out| + |p.fifo.items| + |later| == |f.items| + |Accepted(f, rounds[n..])|
      && p.fifo.drops - |later| == f.drops - |Accepted(f, rounds[n..])| + |rounds[n]|
      && Offered(rounds[n..]) == |rounds[n]| + Offered(rounds[n + 1..])
  {
    hide Accepted, PushAll, Threshold;
    AcceptedStep(f, rounds, n);
    PushAllMeans(f, rounds[n]);
    var g := PushAll(f, rounds[n]);
    var p := PopBatch(g, BATCH);
    assert p.out + p.fifo.items == g.items;
    assert PopBatch(g, BATCH).fifo.drops == g.drops;
    Regroup(sink, f.items, Arrivals(f, g), p.out, p.fifo.items, Accepted(p.fifo, rounds[n + 1..]));
  }

  lemma Regroup<T>(sink: seq<T>, before: seq<T>, arrived: seq<T>, out: seq<T>, rest: seq<T>, later: seq<T>)
    requires out + rest == before + arrived
    ensures sink + out + rest + later == sink + before + (arrived + later)
    ensures |out| + |rest| + |later| == |before| + |arrived + later|
  {
    assert sink + (out + rest) + later == sink + (before + arrived) + later;
    assert sink + out + rest + later == sink + (out + rest) + later;
    assert sink + (before + arrived) + later == sink + before + (arrived + later);
  }
}
