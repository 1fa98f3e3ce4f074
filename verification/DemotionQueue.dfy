/** The bounded demotion ring: its capacity arithmetic, the FIFO it stands for, and the ring itself. */
module DemotionQueue {
  import opened Types
  import opened Bits

  // ----- Capacity

  /** `r` is the least power of two that is at least `v`. */
  ghost predicate LeastPowerAtLeast(v: nat, r: nat) {
    exists e: nat :: r == Pow2(e) && v <= r && (e > 0 ==> Pow2(e - 1) < v)
  }

  /** Smearing the highest bit of a non-zero 32-bit word downwards fills every lower bit. */
  method Smear(v0: nat) returns (v: nat)
    requires 0 < v0 < WORD32
    ensures v == Pow2(Log2(v0) + 1) - 1
  {
    v := v0;
    ghost var k := Log2(v0);
    HighestBit(v0);
    SmearStep(v, k, 1);
    v := Or(v, ShiftRight(v, 1));
    SmearStep(v, k, 2);
    v := Or(v, ShiftRight(v, 2));
    SmearStep(v, k, 4);
    v := Or(v, ShiftRight(v, 4));
    SmearStep(v, k, 8);
    v := Or(v, ShiftRight(v, 8));
    SmearStep(v, k, 16);
    v := Or(v, ShiftRight(v, 16));
  }

  lemma HighestBit(v: nat)
    requires 0 < v < WORD32
    ensures TopOnes(v, Log2(v), 1) && Log2(v) < 32
    ensures Pow2(0) == 1 && Pow2(32) == WORD32
  {
    Word32Power();
    LogBelow(v, 32);
  }

  lemma Word32Power()
    ensures Pow2(31) == 0x8000_0000 && Pow2(32) == WORD32
  {
    PowAdd(8, 8);
    PowAdd(16, 15);
    PowAdd(16, 16);
    PowAdd(7, 8);
    assert Pow2(8) == 256 && Pow2(7) == 128;
  }

  /** The subtraction and the final addition wrap at 32 bits. */
  method NextPowerOf2(request: nat) returns (r: nat)
    requires request < WORD32
    ensures request == 0 ==> r == 1
    ensures 1 <= request <= 0x8000_0000 ==> LeastPowerAtLeast(request, r)
    ensures request > 0x8000_0000 ==> r == 0
  {
    hide Pow2, Log2, LeastPowerAtLeast;
    if request == 0 {
      return 1;
    }
    var v := request - 1;
    if v == 0 {
      OneIsPower();
      return 1;
    }
    var w := Smear(v);
    NextFits(v);
    r := (w + 1) % WORD32;
  }

  /** The rounded capacity leaves room for an item exactly for the requests from 2 to 2^31. */
  lemma RoomFor(request: nat, c: nat)
    requires request < WORD32 && (request == 0 ==> c == 1) && (request > 0x8000_0000 ==> c == 0)
    requires 1 <= request <= 0x8000_0000 ==> LeastPowerAtLeast(request, c)
    ensures Threshold(c) > 0 <==> 2 <= request <= 0x8000_0000
  {
    hide LeastPowerAtLeast, Threshold;
    ThresholdPositive(c);
    if request == 1 {
      LeastFromOne(c);
    } else if 2 <= request <= 0x8000_0000 {
      LeastReaches(request, c);
    }
  }

  lemma LeastFromOne(r: nat)
    requires LeastPowerAtLeast(1, r)
    ensures r == 1
  {
  }

  lemma LeastReaches(v: nat, r: nat)
    requires LeastPowerAtLeast(v, r)
    ensures v <= r
  {
  }

  lemma OneIsPower()
    ensures LeastPowerAtLeast(1, 1)
  {
    assert Pow2(0) == 1;
  }

  /** The power after the highest bit fits in 32 bits, or is exactly the word size. */
  lemma NextFits(v: nat)
    requires 0 < v < WORD32
    ensures v < 0x8000_0000 ==> Pow2(Log2(v) + 1) < WORD32 && LeastPowerAtLeast(v + 1, Pow2(Log2(v) + 1))
    ensures v >= 0x8000_0000 ==> Pow2(Log2(v) + 1) == WORD32
  {
    var k := Log2(v);
    Word32Power();
    LogBelow(v, 31);
    LogBelow(v, 32);
    PowOrder(k + 1, 31);
    assert v < 0x8000_0000 ==> k + 1 <= 31;
    assert v >= 0x8000_0000 ==> k == 31;
  }

  lemma PowOrder(a: nat, b: nat)
    ensures a <= b ==> Pow2(a) <= Pow2(b)
  {
    if a <= b {
      PowMonotone(a, b);
    }
  }

  lemma LogBelow(v: nat, n: nat)
    requires v > 0
    ensures Log2(v) < n <==> v < Pow2(n)
  {
    PowOrder(n, Log2(v));
    PowOrder(Log2(v) + 1, n);
  }

  /** `floor(0.8f * capacity)`: the float constant is 13421773 / 2^24, and its product with a power of two is exact. */
  function Threshold(capacity: nat): (t: nat)
    ensures t <= capacity
    ensures capacity > 0 ==> t < capacity
  {
    capacity * 13421773 / 16777216
  }

  // ----- The FIFO the ring stands for

  /** How much the drainer pops at once. */
  const BATCH: nat := 64

  datatype Fifo = Fifo(capacity: nat, items: seq<DemotionItem>, drops: nat)

  predicate ValidFifo(f: Fifo) {
    |f.items| <= Threshold(f.capacity)
  }

  function Push(f: Fifo, x: DemotionItem): Fifo {
    if |f.items| >= Threshold(f.capacity) then f.(drops := f.drops + 1) else f.(items := f.items + [x])
  }

  function PushAll(f: Fifo, xs: seq<DemotionItem>): Fifo
    decreases |xs|
  {
    if xs == [] then f else PushAll(Push(f, xs[0]), xs[1..])
  }

  /** The items of `g` that were not yet in `f`. */
  function Arrivals(f: Fifo, g: Fifo): seq<DemotionItem> {
    if |f.items| <= |g.items| then g.items[|f.items|..] else []
  }

  /** Pushing several items appends some of them, counts the others as drops, and removes nothing. */
  lemma {:induction false} PushAllMeans(f: Fifo, xs: seq<DemotionItem>)
    ensures var g := PushAll(f, xs);
      && g.capacity == f.capacity && (ValidFifo(f) ==> ValidFifo(g))
      && |f.items| <= |g.items| && g.items == f.items + Arrivals(f, g)
      && g.drops + |Arrivals(f, g)| == f.drops + |xs|
      && forall d :: d in Arrivals(f, g) ==> d in xs
    decreases |xs|
  {
    if xs != [] {
      var h := Push(f, xs[0]);
      PushAllMeans(h, xs[1..]);
      var g := PushAll(f, xs);
      assert g.items == h.items + Arrivals(h, g);
      assert g.items[..|f.items|] == f.items;
      assert Arrivals(f, g) == Arrivals(f, h) + Arrivals(h, g);
    }
  }

  datatype Popped = Popped(fifo: Fifo, out: seq<DemotionItem>)

  /** `try_pop`, with an empty result for failure. */
  function PopOne(f: Fifo): Popped {
    if f.items == [] then Popped(f, []) else Popped(f.(items := f.items[1..]), [f.items[0]])
  }

  /** `n` calls of `try_pop`. */
  function PopTimes(f: Fifo, n: nat): Popped
    decreases n
  {
    if n == 0 then Popped(f, [])
    else
      var first := PopOne(f);
      var rest := PopTimes(first.fifo, n - 1);
      Popped(rest.fifo, first.out + rest.out)
  }

  function Least(a: nat, b: nat): nat {
    if a < b then a else b
  }

  /** `try_pop_batch`. */
  function PopBatch(f: Fifo, max: nat): Popped {
    var k := Least(max, |f.items|);
    Popped(f.(items := f.items[k..]), f.items[..k])
  }

  /** A batch is what repeated single pops would have returned. */
  lemma {:induction false} BatchIsRepeatedPop(f: Fifo, n: nat)
    ensures PopBatch(f, n) == PopTimes(f, n)
    decreases n
  {
    if n > 0 && f.items != [] {
      BatchIsRepeatedPop(f.(items := f.items[1..]), n - 1);
      var k := Least(n, |f.items|);
      assert f.items[..k] == [f.items[0]] + f.items[1..][..k - 1];
      assert f.items[k..] == f.items[1..][k - 1..];
    } else if n > 0 {
      BatchIsRepeatedPop(f, n - 1);
    }
  }

  datatype QueueOp = TryPush(x: DemotionItem) | TryPopBatch(max: nat)

  /** What a history did: the queue, what was accepted, what came out, and how many pushes were tried. */
  datatype History = History(fifo: Fifo, accepted: seq<DemotionItem>, popped: seq<DemotionItem>, attempts: nat)

  function Advance(h: History, op: QueueOp): History {
    match op
    case TryPush(x) =>
      var f := Push(h.fifo, x);
      h.(fifo := f, accepted := if |f.items| > |h.fifo.items| then h.accepted + [x] else h.accepted,
        attempts := h.attempts + 1)
    case TryPopBatch(n) =>
      var p := PopBatch(h.fifo, n);
      h.(fifo := p.fifo, popped := h.popped + p.out)
  }

  function RunQueue(capacity: nat, ops: seq<QueueOp>): History {
    if ops == [] then History(Fifo(capacity, [], 0), [], [], 0)
    else Advance(RunQueue(capacity, ops[..|ops| - 1]), ops[|ops| - 1])
  }

  /**
   Exactly once, in order: popped then queued items are the accepted ones, and every other push was counted as a
   drop.
   */
  lemma {:induction false} QueueConserves(capacity: nat, ops: seq<QueueOp>)
    ensures var h := RunQueue(capacity, ops);
      && ValidFifo(h.fifo) && h.fifo.capacity == capacity
      && h.popped + h.fifo.items == h.accepted
      && h.attempts == |h.accepted| + h.fifo.drops
  {
    if ops != [] {
      QueueConserves(capacity, ops[..|ops| - 1]);
      var h := RunQueue(capacity, ops[..|ops| - 1]);
      match ops[|ops| - 1] {
        case TryPush(x) =>
          assert h.popped + (h.fifo.items + [x]) == h.accepted + [x];
        case TryPopBatch(n) =>
          var k := Least(n, |h.fifo.items|);
          assert h.fifo.items[..k] + h.fifo.items[k..] == h.fifo.items;
          assert h.popped + h.fifo.items[..k] + h.fifo.items[k..] == h.popped + h.fifo.items;
      }
    }
  }

  /** A ring ever accepts an item exactly if its capacity is 2 or more. */
  lemma AcceptsIsExact(capacity: nat)
    ensures (exists ops :: RunQueue(capacity, ops).accepted != []) <==> capacity >= 2
  {
    ThresholdPositive(capacity);
    var once := [TryPush(NO_ITEM)];
    assert once[..0] == [];
    assert capacity >= 2 ==> RunQueue(capacity, once).accepted == [NO_ITEM];
    forall ops | capacity < 2 ensures RunQueue(capacity, ops).accepted == [] {
      NeverAccepts(capacity, ops);
    }
  }

  lemma ThresholdPositive(capacity: nat)
    ensures Threshold(capacity) > 0 <==> capacity >= 2
  {
  }

  /**
   Four fifths of the capacity, rounded down, below 2^24; the float constant is a little more than that,
   which makes up to `capacity / 2^24` fifths beyond.
   */
  lemma ThresholdIsFourFifths(capacity: nat)
    ensures 4 * capacity - 4 <= 5 * Threshold(capacity) <= 4 * capacity + capacity / 0x100_0000
    ensures capacity < 0x100_0000 ==> Threshold(capacity) == 4 * capacity / 5
  {
  }

  lemma {:induction false} NeverAccepts(capacity: nat, ops: seq<QueueOp>)
    requires Threshold(capacity) == 0
    ensures var h := RunQueue(capacity, ops); h.accepted == [] && h.fifo.capacity == capacity
  {
    if ops != [] {
      NeverAccepts(capacity, ops[..|ops| - 1]);
    }
  }

  // ----- The ring

  const NO_ITEM := DemotionItem("", "", 0)

  /** The slot that the ring uses for position `i`. */
  function Slot(capacity: nat, i: nat): (s: nat)
    requires capacity > 0
    ensures s < capacity
  {
    i % capacity
  }

  lemma SlotDistinct(capacity: nat, i: nat, j: nat)
    requires capacity > 0 && i < j < i + capacity
    ensures Slot(capacity, i) != Slot(capacity, j)
  {
    var q := i / capacity;
    var r := j / capacity;
    if i % capacity == j % capacity {
      assert j - i == (r - q) * capacity;
      NoMultipleBelow(r - q, capacity);
    }
  }

  lemma NoMultipleBelow(q: int, c: nat)
    requires c > 0
    ensures !(0 < q * c < c)
  {
    if q >= 1 {
      assert q * c >= c;
    } else {
      assert q * c <= 0;
    }
  }

  /** The ring holds `items` at the positions from `read` on. */
  ghost predicate Holds(buffer: seq<DemotionItem>, read: nat, items: seq<DemotionItem>) {
    |buffer| > 0 && forall i :: 0 <= i < |items| ==> buffer[Slot(|buffer|, read + i)] == items[i]
  }

  lemma HoldsPush(buffer: seq<DemotionItem>, read: nat, items: seq<DemotionItem>, x: DemotionItem)
    requires Holds(buffer, read, items) && |items| < |buffer|
    ensures Holds(buffer[Slot(|buffer|, read + |items|) := x], read, items + [x])
  {
    var after := buffer[Slot(|buffer|, read + |items|) := x];
    var all := items + [x];
    forall i | 0 <= i < |all| ensures after[Slot(|after|, read + i)] == all[i] {
      if i < |items| {
        SlotDistinct(|buffer|, read + i, read + |items|);
        assert buffer[Slot(|buffer|, read + i)] == items[i];
      }
    }
  }

  lemma HoldsDrop(buffer: seq<DemotionItem>, read: nat, items: seq<DemotionItem>, k: nat)
    requires Holds(buffer, read, items) && k <= |items|
    ensures Holds(buffer, read + k, items[k..])
  {
    forall i | 0 <= i < |items[k..]| ensures buffer[Slot(|buffer|, read + k + i)] == items[k..][i] {
      assert read + k + i == read + (k + i);
    }
  }

  class DemotionQueue {
    const capacity: nat
    const mask: nat
    const buffer: array<DemotionItem>
    var writePos: nat
    var readPos: nat
    var drops: nat

    /** The queued items, oldest first. */
    ghost var items: seq<DemotionItem>

    ghost predicate Valid()
      reads this, buffer
    {
      && (capacity > 0 ==> exists e :: capacity == Pow2(e))
      && mask == (if capacity == 0 then WORD32 else capacity) - 1
      && buffer.Length == capacity
      && writePos == readPos + |items|
      && |items| <= Threshold(capacity)
      && (capacity > 0 ==> Holds(buffer[..], readPos, items))
    }

    ghost function View(): Fifo
      reads this
    {
      Fifo(capacity, items, drops)
    }

    /** A request above 2^31 wraps to a ring without room, which drops every push. */
    constructor (request: nat)
      requires request < WORD32
      ensures Valid() && fresh(buffer) && items == [] && drops == 0
      ensures 1 <= request <= 0x8000_0000 ==> LeastPowerAtLeast(request, capacity)
      ensures request == 0 ==> capacity == 1
      ensures request > 0x8000_0000 ==> capacity == 0
      ensures Threshold(capacity) > 0 <==> 2 <= request <= 0x8000_0000
    {
      var c := NextPowerOf2(request);
      assert Pow2(0) == 1;
      assert c > 0 ==> exists e :: c == Pow2(e);
      capacity := c;
      mask := (c + WORD32 - 1) % WORD32;
      buffer := new DemotionItem[c](_ => NO_ITEM);
      writePos, readPos, drops := 0, 0, 0;
      items := [];
      RoomFor(request, c);
    }

    /** Masking a position is the remainder by the capacity. */
    lemma MaskIsModulo(pos: nat)
      requires Valid() && capacity > 0
      ensures And(pos, mask) == Slot(capacity, pos)
    {
      var e :| capacity == Pow2(e);
      AndMask(pos, e);
    }

    /** The capacity test after the pressure test never decides: a full ring is far beyond the threshold. */
    method TryPushItem(item: DemotionItem) returns (ok: bool)
      requires Valid()
      modifies this, buffer
      ensures Valid() && View() == Push(old(View()), item)
      ensures ok <==> |items| == |old(items)| + 1
      ensures ok || drops == old(drops) + 1
    {
      if writePos - readPos >= Threshold(capacity) {
        drops := drops + 1;
        return false;
      }
      if writePos - readPos >= capacity {
        assert false;
      }
      MaskIsModulo(writePos);
      HoldsPush(buffer[..], readPos, items, item);
      ghost var after := buffer[..][Slot(capacity, writePos) := item];
      buffer[And(writePos, mask)] := item;
      assert buffer[..] == after;
      writePos := writePos + 1;
      items := items + [item];
      return true;
    }

    method TryPop() returns (r: Option<DemotionItem>)
      requires Valid()
      modifies this
      ensures Valid()
      ensures View() == PopOne(old(View())).fifo
      ensures PopOne(old(View())).out == (if r.Some? then [r.value] else [])
    {
      if readPos == writePos {
        return None;
      }
      var item := ItemAt(0);
      r := Some(item);
      HoldsDrop(buffer[..], readPos, items, 1);
      readPos := readPos + 1;
      items := items[1..];
    }

    /** The item `i` places behind the read position. */
    method ItemAt(i: nat) returns (item: DemotionItem)
      requires Valid() && i < |items|
      ensures item == items[i]
    {
      MaskIsModulo(readPos + i);
      assert buffer[..][Slot(capacity, readPos + i)] == items[i];
      item := buffer[And(readPos + i, mask)];
    }

    method TryPopMany(out: seq<DemotionItem>, max: nat) returns (grown: seq<DemotionItem>, count: nat)
      requires Valid()
      modifies this
      ensures Valid()
      ensures View() == PopBatch(old(View()), max).fifo
      ensures grown == out + PopBatch(old(View()), max).out && count == |PopBatch(old(View()), max).out|
    {
      grown := out;
      var available := writePos - readPos;
      if available == 0 {
        return grown, 0;
      }
      count := if max < available then max else available;
      ghost var queued := items;
      for i := 0 to count
        invariant unchanged(this) && grown == out + queued[..i]
      {
        var item := ItemAt(i);
        grown := grown + [item];
      }
      HoldsDrop(buffer[..], readPos, items, count);
      readPos := readPos + count;
      items := items[count..];
    }

    method Size() returns (n: nat)
      requires Valid()
      ensures n == |items|
    {
      n := writePos - readPos;
    }
  }
}
