/**
 The access recorder of the W-TinyLFU baseline: a two-hash Bloom filter packed into 64-bit words
 decides whether an access reaches the frequency sketch, and both age together.
 */
module Doorkeeper {
  import opened Types
  import opened Bits
  import opened CountMinSketch

  const WORD_BITS: nat := 64

  // ----- Single bits

  /** Bit `i` of a word. */
  predicate Bit(a: nat, i: nat) {
    ShiftRight(a, i) % 2 == 1
  }

  lemma BitStep(a: nat, i: nat)
    requires i > 0
    ensures Bit(a, i) == Bit(a / 2, i - 1)
  {
    HalfDivides(a, Pow2(i - 1));
  }

  lemma HalfDivides(a: nat, p: nat)
    requires p > 0
    ensures Quotient(a, 2 * p) == Quotient(a / 2, p)
  {
    var h := a / 2;
    assert h == Times(Quotient(h, p), p) + h % p;
    assert a == Quotient(h, p) * (2 * p) + (2 * (h % p) + a % 2);
    Remainder(a, 2 * p, Quotient(h, p), 2 * (h % p) + a % 2);
  }

  lemma BitZero(a: nat)
    ensures Bit(a, 0) <==> a % 2 == 1
  {
    assert Pow2(0) == 1;
    DivideByOne(a);
  }

  lemma DivideByOne(a: nat)
    ensures Quotient(a, 1) == a
  {
  }

  lemma {:induction false} NoBits(i: nat)
    ensures !Bit(0, i)
  {
    if i == 0 {
      BitZero(0);
    } else {
      BitStep(0, i);
      NoBits(i - 1);
    }
  }

  lemma {:induction false} OrBits(a: nat, b: nat, i: nat)
    ensures Bit(Or(a, b), i) <==> Bit(a, i) || Bit(b, i)
    decreases i
  {
    NoBits(i);
    if a != 0 && b != 0 {
      var o := Or(a, b);
      assert o / 2 == Or(a / 2, b / 2) && (o % 2 == 1 <==> a % 2 == 1 || b % 2 == 1);
      if i == 0 {
        BitZero(a);
        BitZero(b);
        BitZero(o);
      } else {
        OrBits(a / 2, b / 2, i - 1);
        BitStep(a, i);
        BitStep(b, i);
        BitStep(o, i);
      }
    }
  }

  lemma {:induction false} PowBits(j: nat, i: nat)
    ensures Bit(Pow2(j), i) <==> i == j
    decreases i
  {
    if i == 0 {
      BitZero(Pow2(j));
    } else {
      BitStep(Pow2(j), i);
      if j == 0 {
        NoBits(i - 1);
      } else {
        PowBits(j - 1, i - 1);
      }
    }
  }

  /** Shifting and masking with 1 reads the bit. */
  lemma TestReadsBit(a: nat, i: nat)
    ensures And(ShiftRight(a, i), 1) == 1 <==> Bit(a, i)
  {
    AndMask(ShiftRight(a, i), 1);
    assert Pow2(1) == 2;
  }

  // ----- The filter

  datatype Door = Door(numBits: nat, words: seq<nat>, hash1: string -> nat, hash2: string -> nat)

  function WordsFor(numBits: nat): nat {
    (numBits + 63) / 64
  }

  ghost predicate ValidDoor(d: Door) {
    && d.numBits > 0 && |d.words| == WordsFor(d.numBits)
    && forall i :: 0 <= i < |d.words| ==> d.words[i] < Pow2(WORD_BITS)
  }

  function Spot1(d: Door, key: string): (p: nat)
    requires d.numBits > 0
    ensures p < d.numBits
  {
    d.hash1(key) % d.numBits
  }

  function Spot2(d: Door, key: string): (p: nat)
    requires d.numBits > 0
    ensures p < d.numBits
  {
    d.hash2(key) % d.numBits
  }

  lemma SpotInWords(d: Door, pos: nat)
    requires ValidDoor(d) && pos < d.numBits
    ensures pos / 64 < |d.words|
  {
  }

  predicate TestBit(words: seq<nat>, pos: nat)
    requires pos / 64 < |words|
  {
    And(ShiftRight(words[pos / 64], pos % 64), 1) == 1
  }

  function SetBit(words: seq<nat>, pos: nat): (r: seq<nat>)
    requires pos / 64 < |words|
    ensures |r| == |words|
  {
    words[pos / 64 := Or(words[pos / 64], Pow2(pos % 64))]
  }

  /** Setting a bit of the packed words sets that position and no other. */
  lemma SetBitTests(words: seq<nat>, pos: nat, other: nat)
    requires pos / 64 < |words| && other / 64 < |words|
    ensures TestBit(SetBit(words, pos), other) <==> other == pos || TestBit(words, other)
  {
    var r := SetBit(words, pos);
    TestReadsBit(words[other / 64], other % 64);
    TestReadsBit(r[other / 64], other % 64);
    if pos / 64 == other / 64 {
      OrBits(words[pos / 64], Pow2(pos % 64), other % 64);
      PowBits(pos % 64, other % 64);
    }
  }

  lemma SetBitFits(words: seq<nat>, pos: nat)
    requires pos / 64 < |words| && forall i :: 0 <= i < |words| ==> words[i] < Pow2(WORD_BITS)
    ensures forall i :: 0 <= i < |words| ==> SetBit(words, pos)[i] < Pow2(WORD_BITS)
  {
    PowMonotone(pos % 64, WORD_BITS);
    OrBelow(words[pos / 64], Pow2(pos % 64), WORD_BITS);
  }

  predicate Contains(d: Door, key: string)
    requires ValidDoor(d)
  {
    SpotInWords(d, Spot1(d, key));
    SpotInWords(d, Spot2(d, key));
    TestBit(d.words, Spot1(d, key)) && TestBit(d.words, Spot2(d, key))
  }

  function Add(d: Door, key: string): (r: Door)
    requires ValidDoor(d)
    ensures ValidDoor(r) && r == d.(words := r.words)
  {
    SpotInWords(d, Spot1(d, key));
    SpotInWords(d, Spot2(d, key));
    SetBitFits(d.words, Spot1(d, key));
    var once := SetBit(d.words, Spot1(d, key));
    SetBitFits(once, Spot2(d, key));
    d.(words := SetBit(once, Spot2(d, key)))
  }

  function Cleared(d: Door): (r: Door)
    requires ValidDoor(d)
    ensures ValidDoor(r)
  {
    d.(words := seq(|d.words|, _ => 0))
  }

  function AddAll(d: Door, keys: seq<string>): (r: Door)
    requires ValidDoor(d)
    ensures ValidDoor(r) && r == d.(words := r.words)
  {
    if keys == [] then d else Add(AddAll(d, keys[..|keys| - 1]), keys[|keys| - 1])
  }

  lemma AddTests(d: Door, key: string, pos: nat)
    requires ValidDoor(d) && pos < d.numBits
    ensures pos / 64 < |d.words|
    ensures TestBit(Add(d, key).words, pos) <==> pos == Spot1(d, key) || pos == Spot2(d, key) || TestBit(d.words, pos)
  {
    SpotInWords(d, pos);
    SpotInWords(d, Spot1(d, key));
    SpotInWords(d, Spot2(d, key));
    SetBitTests(d.words, Spot1(d, key), pos);
    SetBitTests(SetBit(d.words, Spot1(d, key)), Spot2(d, key), pos);
  }

  /** The position is a spot of some recorded key. */
  ghost predicate Marked(d: Door, keys: seq<string>, pos: nat)
    requires d.numBits > 0
  {
    exists k :: k in keys && (pos == Spot1(d, k) || pos == Spot2(d, k))
  }

  lemma MarkedStep(d: Door, keys: seq<string>, key: string, pos: nat)
    requires d.numBits > 0
    ensures Marked(d, keys + [key], pos) <==> pos == Spot1(d, key) || pos == Spot2(d, key) || Marked(d, keys, pos)
  {
    var all := keys + [key];
    assert all[|keys|] == key;
    if Marked(d, keys, pos) {
      var k :| k in keys && (pos == Spot1(d, k) || pos == Spot2(d, k));
      assert k in all;
    }
  }

  /** After a reset, a position is set exactly if it is a spot of some recorded key. */
  lemma {:induction false} MarkedSpots(d: Door, keys: seq<string>, pos: nat)
    requires ValidDoor(d) && pos < d.numBits
    ensures pos / 64 < |d.words|
    ensures TestBit(AddAll(Cleared(d), keys).words, pos) <==> Marked(d, keys, pos)
  {
    SpotInWords(d, pos);
    if keys == [] {
      TestReadsBit(0, pos % 64);
      NoBits(pos % 64);
    } else {
      hide TestBit, SetBit, Marked;
      var n := |keys| - 1;
      MarkedSpots(d, keys[..n], pos);
      AddTests(AddAll(Cleared(d), keys[..n]), keys[n], pos);
      MarkedStep(d, keys[..n], keys[n], pos);
      assert keys == keys[..n] + [keys[n]];
    }
  }

  /** No false negatives; and a positive means that both spots were marked by recorded keys. */
  lemma ContainsMeans(d: Door, keys: seq<string>, key: string)
    requires ValidDoor(d)
    ensures key in keys ==> Contains(AddAll(Cleared(d), keys), key)
    ensures Contains(AddAll(Cleared(d), keys), key) <==>
      Marked(d, keys, Spot1(d, key)) && Marked(d, keys, Spot2(d, key))
  {
    MarkedSpots(d, keys, Spot1(d, key));
    MarkedSpots(d, keys, Spot2(d, key));
  }

  // ----- Recording accesses

  datatype Recorder = Recorder(door: Door, sketch: Sketch, ops: nat, interval: nat)

  ghost predicate ValidRecorder(r: Recorder) {
    ValidDoor(r.door) && ValidSketch(r.sketch) && r.ops < r.interval
  }

  /** Only a key that the doorkeeper has seen reaches the sketch; at the interval both age. */
  function Record(r: Recorder, key: string): Recorder
    requires ValidRecorder(r)
  {
    var sketch := if Contains(r.door, key) then Increment(r.sketch, key) else r.sketch;
    var door := Add(r.door, key);
    if r.ops + 1 >= r.interval then Recorder(Cleared(door), Decay(sketch), 0, r.interval)
    else Recorder(door, sketch, r.ops + 1, r.interval)
  }

  lemma RecordKeepsValid(r: Recorder, key: string)
    requires ValidRecorder(r)
    ensures ValidRecorder(Record(r, key))
  {
    OperationsKeepValid(r.sketch, Inc(key));
    OperationsKeepValid(r.sketch, Halve);
    OperationsKeepValid(Increment(r.sketch, key), Halve);
  }

  function RecordAll(r: Recorder, keys: seq<string>): (t: Recorder)
    requires ValidRecorder(r)
    ensures ValidRecorder(t)
  {
    if keys == [] then r
    else
      var before := RecordAll(r, keys[..|keys| - 1]);
      RecordKeepsValid(before, keys[|keys| - 1]);
      Record(before, keys[|keys| - 1])
  }

  function Occurrences(keys: seq<string>, key: string): nat {
    if keys == [] then 0 else Occurrences(keys[..|keys| - 1], key) + if keys[|keys| - 1] == key then 1 else 0
  }

  lemma {:induction false} OccursIfIn(keys: seq<string>, key: string)
    ensures Occurrences(keys, key) > 0 <==> key in keys
  {
    if keys != [] {
      var n := |keys| - 1;
      OccursIfIn(keys[..n], key);
      assert keys == keys[..n] + [keys[n]];
    }
  }

  /** Every cell is at most `slack` above its old value, and nothing wrapped. */
  ghost predicate CellsWithin(s: Sketch, t: Sketch, slack: nat) {
    && t.depth == s.depth && t.width == s.width && t.hash == s.hash && |t.cells| == |s.cells|
    && forall i :: 0 <= i < |s.cells| ==> t.cells[i] <= s.cells[i] + slack
  }

  lemma IncrementCell(s: Sketch, key: string, row: nat, col: nat)
    requires ValidSketch(s) && row < s.depth && col < s.width && Cell(s, row, col) + 1 < WORD32
    ensures Cell(Increment(s, key), row, col) == Cell(s, row, col) + (if col == Column(s, key, row) then 1 else 0)
  {
    CellBound(row, col, s.depth, s.width);
    CellCoordinates(row, col, s.width);
  }

  /** One increment raises the estimate of its key and lowers no other, unless a cell wraps. */
  lemma IncrementEstimates(s: Sketch, key: string, other: string)
    requires ValidSketch(s) && forall i :: 0 <= i < |s.cells| ==> s.cells[i] + 1 < WORD32
    ensures Estimate(Increment(s, key), other) >= Estimate(s, other) + (if other == key then 1 else 0)
  {
    var t := Increment(s, key);
    var low := Estimate(s, other) + (if other == key then 1 else 0);
    forall r | 0 <= r < s.depth ensures Cell(t, r, Column(t, other, r)) >= low {
      CellBound(r, Column(s, other, r), s.depth, s.width);
      RaisedCell(s, key, other, r);
    }
    EstimateInCells(s, other);
    MinOverIs(t, other, s.depth, low);
  }

  lemma RaisedCell(s: Sketch, key: string, other: string, r: nat)
    requires ValidSketch(s) && r < s.depth && Cell(s, r, Column(s, other, r)) + 1 < WORD32
    ensures Cell(Increment(s, key), r, Column(s, other, r)) >= Estimate(s, other) + (if other == key then 1 else 0)
  {
    MinAtMost(s, other, s.depth, r);
    IncrementCell(s, key, r, Column(s, other, r));
  }

  lemma EstimateInCells(s: Sketch, key: string)
    requires ValidSketch(s) && forall i :: 0 <= i < |s.cells| ==> s.cells[i] + 1 < WORD32
    ensures Estimate(s, key) + 1 < WORD32
  {
    MinAtMost(s, key, s.depth, 0);
    CellBound(0, Column(s, key, 0), s.depth, s.width);
  }

  /** Short of the interval's end nothing ages. */
  lemma {:induction false} IntervalShape(r: Recorder, keys: seq<string>)
    requires ValidRecorder(r) && r.ops + |keys| < r.interval
    requires forall i :: 0 <= i < |r.sketch.cells| ==> r.sketch.cells[i] + |keys| < WORD32
    ensures var t := RecordAll(r, keys);
      t.door == AddAll(r.door, keys) && t.ops == r.ops + |keys| && t.interval == r.interval
        && CellsWithin(r.sketch, t.sketch, |keys|)
  {
    if keys != [] {
      var before := keys[..|keys| - 1];
      IntervalShape(r, before);
      hide Contains, Add, Record, Increment, Decay;
      var t := RecordAll(r, before);
      RecordShort(t, keys[|keys| - 1]);
      assert |before| + 1 == |keys|;
    }
  }

  lemma RecordShort(r: Recorder, key: string)
    requires ValidRecorder(r) && r.ops + 1 < r.interval
    ensures var t := Record(r, key);
      t.door == Add(r.door, key) && t.ops == r.ops + 1 && t.interval == r.interval && CellsWithin(r.sketch, t.sketch, 1)
  {
    hide Contains, Add;
  }

  /** Each access but the first reaches the sketch. */
  lemma {:induction false} IntervalCounts(r: Recorder, keys: seq<string>, key: string)
    requires ValidRecorder(r) && r.door == Cleared(r.door) && r.ops + |keys| < r.interval
    requires forall i :: 0 <= i < |r.sketch.cells| ==> r.sketch.cells[i] + |keys| < WORD32
    ensures var t := RecordAll(r, keys); var n := Occurrences(keys, key);
      Estimate(t.sketch, key) >= Estimate(r.sketch, key) + (if n > 0 then n - 1 else 0)
  {
    if keys != [] {
      hide Contains, Add, Estimate, Increment, ValidDoor;
      var last := keys[|keys| - 1];
      var before := keys[..|keys| - 1];
      IntervalCounts(r, before, key);
      IntervalShape(r, before);
      ContainsMeans(r.door, before, last);
      OccursIfIn(before, last);
      IncrementEstimates(RecordAll(r, before).sketch, last, key);
    }
  }

  /**
   A key accessed at least once since the last reset is in the doorkeeper, and its estimate is at
   least the number of those accesses minus one.
   */
  lemma RecordedSinceReset(r: Recorder, keys: seq<string>, key: string)
    requires ValidRecorder(r) && r.door == Cleared(r.door) && r.ops + |keys| < r.interval
    requires forall i :: 0 <= i < |r.sketch.cells| ==> r.sketch.cells[i] + |keys| < WORD32
    requires key in keys
    ensures var t := RecordAll(r, keys);
      Contains(t.door, key) && Estimate(t.sketch, key) >= Occurrences(keys, key) - 1
  {
    IntervalShape(r, keys);
    IntervalCounts(r, keys, key);
    ContainsMeans(r.door, keys, key);
    OccursIfIn(keys, key);
  }

  // ----- The objects

  class BloomDoorkeeper {
    const numBits: nat
    const hash1: string -> nat
    const hash2: string -> nat
    const words: array<nat>

    function View(): Door
      reads words
    {
      Door(numBits, words[..], hash1, hash2)
    }

    ghost predicate Valid()
      reads words
    {
      ValidDoor(View())
    }

    constructor (numBits: nat, hash1: string -> nat, hash2: string -> nat)
      requires numBits > 0
      ensures Valid() && fresh(words) && this.numBits == numBits && View() == Cleared(View())
    {
      this.numBits, this.hash1, this.hash2 := numBits, hash1, hash2;
      words := new nat[WordsFor(numBits)](_ => 0);
      new;
      assert words[..] == seq(WordsFor(numBits), _ => 0);
    }

    method Test(pos: nat) returns (b: bool)
      requires Valid() && pos < numBits
      ensures pos / 64 < words.Length && (b <==> TestBit(words[..], pos))
    {
      SpotInWords(View(), pos);
      b := And(ShiftRight(words[pos / 64], pos % 64), 1) == 1;
    }

    method Set(pos: nat)
      requires Valid() && pos < numBits
      modifies words
      ensures Valid() && pos / 64 < words.Length && words[..] == SetBit(old(words[..]), pos)
    {
      SpotInWords(View(), pos);
      SetBitFits(words[..], pos);
      ghost var after := SetBit(words[..], pos);
      words[pos / 64] := Or(words[pos / 64], Pow2(pos % 64));
      assert words[..] == after;
    }

    method ContainsAndAdd(key: string) returns (present: bool)
      requires Valid()
      modifies words
      ensures Valid() && present == Contains(old(View()), key) && View() == Add(old(View()), key)
    {
      var h1 := hash1(key) % numBits;
      var h2 := hash2(key) % numBits;
      var b1 := Test(h1);
      var b2 := Test(h2);
      present := b1 && b2;
      Set(h1);
      Set(h2);
    }

    method Reset()
      requires Valid()
      modifies words
      ensures Valid() && View() == Cleared(old(View()))
    {
      for i := 0 to words.Length
        invariant forall j :: 0 <= j < i ==> words[j] == 0
      {
        words[i] := 0;
      }
      assert words[..] == Cleared(old(View())).words;
    }
  }

  /** The part of the W-TinyLFU cache that records accesses. */
  class AccessRecorder {
    const door: BloomDoorkeeper
    const cms: CountMinSketch
    const interval: nat
    var ops: nat

    function View(): Recorder
      reads this, door.words, cms, cms.counters
    {
      Recorder(door.View(), cms.View(), ops, interval)
    }

    ghost predicate Valid()
      reads this, door.words, cms, cms.counters
    {
      door.words != cms.counters && ValidRecorder(View())
    }

    constructor (capacity: nat, hash1: string -> nat, hash2: string -> nat, sketchHash: (string, nat) -> nat)
      requires capacity > 0
      ensures Valid() && View().door == Cleared(View().door) && View().sketch == Fresh(4, 8192, sketchHash)
      ensures ops == 0 && interval == 5 * capacity && door.numBits == 8 * capacity
    {
      var d := new BloomDoorkeeper(capacity * 8, hash1, hash2);
      var c := new CountMinSketch(4, 8192, sketchHash);
      door, cms, interval, ops := d, c, 5 * capacity, 0;
    }

    method RecordAccess(key: string)
      requires Valid()
      modifies this`ops, door.words, cms, cms.counters
      ensures Valid() && View() == Record(old(View()), key)
    {
      hide Contains, Add, Increment, Decay, Cleared;
      RecordKeepsValid(View(), key);
      var seen := door.ContainsAndAdd(key);
      if seen {
        cms.IncrementKey(key);
      }
      ops := ops + 1;
      if ops >= interval {
        cms.DecayAll();
        door.Reset();
        ops := 0;
      }
    }
  }
}
