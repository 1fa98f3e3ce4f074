/**
 The Count-Min Sketch: `depth` rows of `width` 32-bit counters in one flat array. The hash is any
 deterministic function; a column is its value modulo the width.
 */
module CountMinSketch {
  import opened Types

  datatype Sketch = Sketch(depth: nat, width: nat, hash: (string, nat) -> nat, cells: seq<nat>, total: nat)

  ghost predicate ValidSketch(sk: Sketch) {
    && sk.depth > 0 && sk.width > 0
    && |sk.cells| == sk.depth * sk.width
    && forall i :: 0 <= i < |sk.cells| ==> sk.cells[i] < WORD32
  }

  function Column(sk: Sketch, key: string, row: nat): (c: nat)
    requires sk.width > 0
    ensures c < sk.width
  {
    sk.hash(key, row) % sk.width
  }

  /** Is cell `i` the one that `key` owns in its row? */
  predicate Owns(sk: Sketch, key: string, i: nat)
    requires sk.width > 0
  {
    i % sk.width == Column(sk, key, i / sk.width)
  }

  function Increment(sk: Sketch, key: string): (r: Sketch)
    requires sk.width > 0
    ensures |r.cells| == |sk.cells| && r.depth == sk.depth && r.width == sk.width && r.hash == sk.hash
  {
    sk.(cells := seq(|sk.cells|, i requires 0 <= i < |sk.cells| =>
                       if Owns(sk, key, i) then (sk.cells[i] + 1) % WORD32 else sk.cells[i]),
        total := sk.total + 1)
  }

  function Decay(sk: Sketch): (r: Sketch)
    ensures |r.cells| == |sk.cells| && r.depth == sk.depth && r.width == sk.width && r.hash == sk.hash
  {
    sk.(cells := seq(|sk.cells|, i requires 0 <= i < |sk.cells| => sk.cells[i] / 2))
  }

  function Reset(sk: Sketch): (r: Sketch)
    ensures |r.cells| == |sk.cells| && r.depth == sk.depth && r.width == sk.width && r.hash == sk.hash
  {
    sk.(cells := seq(|sk.cells|, _ => 0), total := 0)
  }

  function Fresh(depth: nat, width: nat, hash: (string, nat) -> nat): Sketch {
    Sketch(depth, width, hash, seq(depth * width, _ => 0), 0)
  }

  lemma CellBound(row: nat, col: nat, depth: nat, width: nat)
    requires row < depth && col < width
    ensures row * width + col < depth * width
  {
    assert (row + 1) * width <= depth * width;
  }

  lemma CellCoordinates(row: nat, col: nat, width: nat)
    requires col < width
    ensures (row * width + col) / width == row && (row * width + col) % width == col
  {
    var n := row * width + col;
    var q := n / width;
    assert n == q * width + n % width;
    MulMonotone(row + 1, q, width);
    MulMonotone(q + 1, row, width);
  }

  lemma MulMonotone(a: nat, b: nat, w: nat)
    ensures a <= b ==> a * w <= b * w
  {
  }

  lemma CoordinatesCell(i: nat, width: nat)
    requires width > 0
    ensures i == (i / width) * width + i % width
  {
  }

  function Cell(sk: Sketch, row: nat, col: nat): nat
    requires row < sk.depth && col < sk.width && |sk.cells| == sk.depth * sk.width
  {
    CellBound(row, col, sk.depth, sk.width);
    sk.cells[row * sk.width + col]
  }

  /** The minimum over the first `rows` rows, starting from UINT32_MAX. */
  function MinOver(sk: Sketch, key: string, rows: nat): nat
    requires rows <= sk.depth && sk.width > 0 && |sk.cells| == sk.depth * sk.width
  {
    if rows == 0 then WORD32 - 1
    else
      var rest := MinOver(sk, key, rows - 1);
      var c := Cell(sk, rows - 1, Column(sk, key, rows - 1));
      if c < rest then c else rest
  }

  function Estimate(sk: Sketch, key: string): nat
    requires sk.width > 0 && |sk.cells| == sk.depth * sk.width
  {
    MinOver(sk, key, sk.depth)
  }

  // ----- What the counters mean over a whole history

  datatype Op = Inc(key: string) | Halve | Clear

  function Perform(sk: Sketch, op: Op): (r: Sketch)
    requires sk.width > 0
    ensures |r.cells| == |sk.cells| && r.depth == sk.depth && r.width == sk.width && r.hash == sk.hash
  {
    match op
    case Inc(k) => Increment(sk, k)
    case Halve => Decay(sk)
    case Clear => Reset(sk)
  }

  function PerformAll(sk: Sketch, ops: seq<Op>): (r: Sketch)
    requires sk.width > 0
    ensures |r.cells| == |sk.cells| && r.depth == sk.depth && r.width == sk.width && r.hash == sk.hash
  {
    if ops == [] then sk else Perform(PerformAll(sk, ops[..|ops| - 1]), ops[|ops| - 1])
  }

  /** How often the keys selected by `p` were counted: plus one per increment, halved by a decay, cleared by a reset. */
  function Tally(ops: seq<Op>, p: string -> bool): nat {
    if ops == [] then 0
    else
      var t := Tally(ops[..|ops| - 1], p);
      match ops[|ops| - 1]
      case Inc(k) => if p(k) then t + 1 else t
      case Halve => t / 2
      case Clear => 0
  }

  /** Increments since the last reset: the counter `total_increments`. */
  function Total(ops: seq<Op>): nat {
    if ops == [] then 0
    else match ops[|ops| - 1]
      case Inc(_) => Total(ops[..|ops| - 1]) + 1
      case Halve => Total(ops[..|ops| - 1])
      case Clear => 0
  }

  /** The increments between two resets never reach 2^32. */
  ghost predicate Bounded(ops: seq<Op>) {
    forall i :: 0 <= i <= |ops| ==> Total(ops[..i]) < WORD32
  }

  /** The keys that share the cell of `key` in `row`. */
  function SharesCell(sk: Sketch, key: string, row: nat): string -> bool
    requires sk.width > 0
  {
    k => Column(sk, k, row) == Column(sk, key, row)
  }

  lemma BoundedPrefix(ops: seq<Op>)
    requires Bounded(ops) && ops != []
    ensures Bounded(ops[..|ops| - 1]) && Total(ops) < WORD32
  {
    var n := |ops| - 1;
    forall i | 0 <= i <= n ensures Total(ops[..n][..i]) < WORD32 {
      assert ops[..n][..i] == ops[..i];
    }
    assert ops[..|ops|] == ops;
  }

  lemma {:induction false} TallyAtMostTotal(ops: seq<Op>, p: string -> bool)
    ensures Tally(ops, p) <= Total(ops)
  {
    if ops != [] {
      TallyAtMostTotal(ops[..|ops| - 1], p);
    }
  }

  lemma {:induction false} TallyMonotone(ops: seq<Op>, p: string -> bool, q: string -> bool)
    requires forall k :: p(k) ==> q(k)
    ensures Tally(ops, p) <= Tally(ops, q)
  {
    if ops != [] {
      TallyMonotone(ops[..|ops| - 1], p, q);
    }
  }

  lemma {:induction false} TallySame(ops: seq<Op>, p: string -> bool, q: string -> bool)
    requires forall k :: Inc(k) in ops ==> p(k) == q(k)
    ensures Tally(ops, p) == Tally(ops, q)
  {
    if ops != [] {
      assert ops == ops[..|ops| - 1] + [ops[|ops| - 1]];
      TallySame(ops[..|ops| - 1], p, q);
    }
  }

  /** Without overflow a counter is exactly the tally of the keys that hash to it, and at most the total. */
  lemma {:induction false} CellIsTally(sk: Sketch, ops: seq<Op>, key: string, row: nat)
    requires sk.width > 0 && row < sk.depth && sk == Fresh(sk.depth, sk.width, sk.hash)
    requires Bounded(ops)
    ensures Cell(PerformAll(sk, ops), row, Column(sk, key, row)) == Tally(ops, SharesCell(sk, key, row))
    ensures Cell(PerformAll(sk, ops), row, Column(sk, key, row)) <= PerformAll(sk, ops).total == Total(ops)
  {
    var col := Column(sk, key, row);
    CellBound(row, col, sk.depth, sk.width);
    CellCoordinates(row, col, sk.width);
    if ops != [] {
      BoundedPrefix(ops);
      CellIsTally(sk, ops[..|ops| - 1], key, row);
      TallyAtMostTotal(ops, SharesCell(sk, key, row));
    }
  }

  lemma {:induction false} MinOverIs(sk: Sketch, key: string, rows: nat, low: nat)
    requires rows <= sk.depth && sk.width > 0 && |sk.cells| == sk.depth * sk.width
    requires low < WORD32
    ensures MinOver(sk, key, rows) >= low <==>
            forall r :: 0 <= r < rows ==> Cell(sk, r, Column(sk, key, r)) >= low
  {
    if rows > 0 {
      MinOverIs(sk, key, rows - 1, low);
    }
  }

  /**
   One-sided error: for any mix of increments, decays and resets, the estimate is at least the
   count of the key itself, and it is that count as soon as one row has no colliding key.
   */
  lemma EstimateBounds(sk: Sketch, ops: seq<Op>, key: string)
    requires sk.width > 0 && sk.depth > 0 && sk == Fresh(sk.depth, sk.width, sk.hash) && Bounded(ops)
    ensures Tally(ops, k => k == key) <= Estimate(PerformAll(sk, ops), key) <= Total(ops)
    ensures (exists row :: 0 <= row < sk.depth &&
               forall k :: Inc(k) in ops && SharesCell(sk, key, row)(k) ==> k == key) ==>
              Estimate(PerformAll(sk, ops), key) == Tally(ops, k => k == key)
  {
    var end := PerformAll(sk, ops);
    var own: string -> bool := k => k == key;
    assert ops[..|ops|] == ops;
    TallyAtMostTotal(ops, own);
    forall r | 0 <= r < sk.depth
      ensures Tally(ops, own) <= Cell(end, r, Column(end, key, r)) <= Total(ops)
    {
      CellIsTally(sk, ops, key, r);
      TallyMonotone(ops, own, SharesCell(sk, key, r));
    }
    MinOverIs(end, key, sk.depth, Tally(ops, own));
    MinAtMost(end, key, sk.depth, 0);
    if row :| 0 <= row < sk.depth && forall k :: Inc(k) in ops && SharesCell(sk, key, row)(k) ==> k == key {
      CellIsTally(sk, ops, key, row);
      TallySame(ops, own, SharesCell(sk, key, row));
      MinAtMost(end, key, sk.depth, row);
    }
  }

  lemma {:induction false} MinAtMost(sk: Sketch, key: string, rows: nat, row: nat)
    requires row < rows <= sk.depth && sk.width > 0 && |sk.cells| == sk.depth * sk.width
    ensures MinOver(sk, key, rows) <= Cell(sk, row, Column(sk, key, row))
  {
    if row < rows - 1 {
      MinAtMost(sk, key, rows - 1, row);
    }
  }

  lemma {:induction false} MinHalves(sk: Sketch, key: string, rows: nat)
    requires ValidSketch(sk) && 0 < rows <= sk.depth
    ensures MinOver(Decay(sk), key, rows) == MinOver(sk, key, rows) / 2
  {
    CellBound(rows - 1, Column(sk, key, rows - 1), sk.depth, sk.width);
    if rows > 1 {
      MinHalves(sk, key, rows - 1);
    }
  }

  /** A decay halves every estimate exactly, rounding down, and so keeps the weak order of the keys. */
  lemma DecayHalvesEstimates(sk: Sketch, a: string, b: string)
    requires ValidSketch(sk)
    ensures Estimate(Decay(sk), a) == Estimate(sk, a) / 2
    ensures Estimate(sk, a) <= Estimate(sk, b) ==> Estimate(Decay(sk), a) <= Estimate(Decay(sk), b)
  {
    MinHalves(sk, a, sk.depth);
    MinHalves(sk, b, sk.depth);
  }

  lemma PerformOne(sk: Sketch, ops: seq<Op>, op: Op)
    requires sk.width > 0
    ensures PerformAll(sk, ops + [op]) == Perform(PerformAll(sk, ops), op)
  {
    assert (ops + [op])[..|ops|] == ops;
  }

  lemma OperationsKeepValid(sk: Sketch, op: Op)
    requires ValidSketch(sk)
    ensures ValidSketch(Perform(sk, op))
  {
  }

  /** The cells once the first `rows` rows have been incremented. */
  function Bumped(sk: Sketch, key: string, rows: nat): (r: seq<nat>)
    requires sk.width > 0
    ensures |r| == |sk.cells|
  {
    seq(|sk.cells|, i requires 0 <= i < |sk.cells| =>
      if Owns(sk, key, i) && i / sk.width < rows then (sk.cells[i] + 1) % WORD32 else sk.cells[i])
  }

  lemma BumpedNone(sk: Sketch, key: string)
    requires sk.width > 0
    ensures Bumped(sk, key, 0) == sk.cells
  {
    forall i | 0 <= i < |sk.cells| ensures Bumped(sk, key, 0)[i] == sk.cells[i] {
      CoordinatesCell(i, sk.width);
    }
  }

  /** The cell that `increment` visits in a row is the only one that row owns. */
  lemma BumpRow(sk: Sketch, key: string, row: nat)
    requires ValidSketch(sk) && row < sk.depth
    ensures var i := row * sk.width + Column(sk, key, row);
      i < |sk.cells| && Bumped(sk, key, row + 1) == Bumped(sk, key, row)[i := (Bumped(sk, key, row)[i] + 1) % WORD32]
  {
    var at := row * sk.width + Column(sk, key, row);
    CellBound(row, Column(sk, key, row), sk.depth, sk.width);
    CellCoordinates(row, Column(sk, key, row), sk.width);
    var after := Bumped(sk, key, row)[at := (Bumped(sk, key, row)[at] + 1) % WORD32];
    forall i | 0 <= i < |sk.cells| ensures Bumped(sk, key, row + 1)[i] == after[i] {
      CoordinatesCell(i, sk.width);
    }
  }

  lemma BumpedAll(sk: Sketch, key: string)
    requires ValidSketch(sk)
    ensures Bumped(sk, key, sk.depth) == Increment(sk, key).cells
  {
    forall i | 0 <= i < |sk.cells| ensures Bumped(sk, key, sk.depth)[i] == Increment(sk, key).cells[i] {
      RowOfCell(sk, i);
    }
  }

  lemma RowOfCell(sk: Sketch, i: nat)
    requires ValidSketch(sk) && i < |sk.cells|
    ensures i / sk.width < sk.depth
  {
    CoordinatesCell(i, sk.width);
    RowBound(i / sk.width, i % sk.width, sk.depth, sk.width);
  }

  // ----- The object

  class CountMinSketch {
    const depth: nat
    const width: nat
    const hash: (string, nat) -> nat
    const counters: array<nat>
    var total: nat

    function View(): Sketch
      reads this, counters
    {
      Sketch(depth, width, hash, counters[..], total)
    }

    ghost predicate Valid()
      reads this, counters
    {
      ValidSketch(View())
    }

    constructor (depth: nat, width: nat, hash: (string, nat) -> nat)
      requires depth > 0 && width > 0
      ensures Valid() && fresh(counters) && View() == Fresh(depth, width, hash)
    {
      this.depth, this.width, this.hash := depth, width, hash;
      assert depth * width >= 0;
      counters := new nat[depth * width](_ => 0);
      total := 0;
      new;
      assert counters[..] == seq(depth * width, _ => 0);
    }

    method IncrementKey(key: string)
      requires Valid()
      modifies this`total, counters
      ensures Valid() && View() == Increment(old(View()), key)
    {
      ghost var was := View();
      BumpedNone(was, key);
      for row := 0 to depth
        invariant total == was.total && counters[..] == Bumped(was, key, row)
      {
        var col := hash(key, row) % width;
        BumpRow(was, key, row);
        counters[row * width + col] := (counters[row * width + col] + 1) % WORD32;
      }
      total := total + 1;
      BumpedAll(was, key);
    }

    method EstimateKey(key: string) returns (low: nat)
      requires Valid()
      ensures low == Estimate(View(), key)
    {
      low := WORD32 - 1;
      for row := 0 to depth
        invariant low == MinOver(View(), key, row)
      {
        var col := hash(key, row) % width;
        CellBound(row, col, depth, width);
        if counters[row * width + col] < low {
          low := counters[row * width + col];
        }
      }
    }

    method DecayAll()
      requires Valid()
      modifies counters
      ensures Valid() && View() == Decay(old(View()))
    {
      ghost var was := View();
      for i := 0 to counters.Length
        invariant forall j :: 0 <= j < i ==> counters[j] == was.cells[j] / 2
        invariant forall j :: i <= j < counters.Length ==> counters[j] == was.cells[j]
      {
        counters[i] := counters[i] / 2;
      }
      assert counters[..] == Decay(was).cells;
    }

    method ResetAll()
      requires Valid()
      modifies this`total, counters
      ensures Valid() && View() == Reset(old(View()))
    {
      for i := 0 to counters.Length
        invariant forall j :: 0 <= j < i ==> counters[j] == 0
      {
        counters[i] := 0;
      }
      total := 0;
      assert counters[..] == Reset(old(View())).cells;
    }
  }

  lemma RowBound(row: nat, col: nat, depth: nat, width: nat)
    requires row * width + col < depth * width
    ensures row < depth
  {
    MulMonotone(depth, row, width);
  }
}
