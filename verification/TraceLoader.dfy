/** The trace reader: format detection, the two line parsers, and the loader with its counters. */
module TraceLoader {
  import opened Types

  datatype OpType = GET | PUT

  datatype TraceOp = TraceOp(op: OpType, key: string)

  datatype Format = Unknown | Simple | Csv

  // ----- Characters and fields

  predicate IsSpace(c: char) {
    c == ' ' || c == '\t' || c == '\r' || c == '\n'
  }

  predicate IsBlank(c: char) {
    c == ' ' || c == '\t'
  }

  function TrimLeft(s: string): (r: string)
    ensures |r| <= |s|
    ensures r != "" ==> !IsSpace(r[0])
  {
    if s != "" && IsSpace(s[0]) then TrimLeft(s[1..]) else s
  }

  function TrimRight(s: string): (r: string)
    ensures |r| <= |s|
    ensures r != "" ==> !IsSpace(r[|r| - 1]) && r[0] == s[0]
  {
    if s != "" && IsSpace(s[|s| - 1]) then TrimRight(s[..|s| - 1]) else s
  }

  function Trim(s: string): (r: string)
    ensures |r| <= |s|
    ensures r != "" ==> !IsSpace(r[0]) && !IsSpace(r[|r| - 1])
  {
    TrimRight(TrimLeft(s))
  }

  lemma TrimSame(s: string)
    requires s == "" || (!IsSpace(s[0]) && !IsSpace(s[|s| - 1]))
    ensures Trim(s) == s
  {
  }

  /** The first position of a character that satisfies `p`, or the length. */
  function FirstOf(s: string, p: char -> bool): (i: nat)
    ensures i <= |s|
    ensures i < |s| ==> p(s[i])
    ensures forall j :: 0 <= j < i ==> !p(s[j])
  {
    if s == "" || p(s[0]) then 0 else 1 + FirstOf(s[1..], p)
  }

  function Upper(s: string): (r: string)
    ensures |r| == |s|
  {
    seq(|s|, i requires 0 <= i < |s| => if 'a' <= s[i] <= 'z' then s[i] - 'a' + 'A' else s[i])
  }

  function Lower(s: string): (r: string)
    ensures |r| == |s|
  {
    seq(|s|, i requires 0 <= i < |s| => if 'A' <= s[i] <= 'Z' then s[i] - 'A' + 'a' else s[i])
  }

  /** One `getline(stream, field, ',')`: fails at the end of the input or when nothing is left. */
  datatype Field = NoField | Field(text: string, rest: Option<string>)

  function NextField(stream: Option<string>): Field {
    if stream.None? || stream.value == "" then NoField
    else
      var i := FirstOf(stream.value, c => c == ',');
      if i < |stream.value| then Field(stream.value[..i], Some(stream.value[i + 1..]))
      else Field(stream.value, None)
  }

  datatype Fields = Fields(count: nat, f1: string, f2: string, f3: string)

  /** The first three comma-separated fields, and how many there were. */
  function ThreeFields(line: string): Fields {
    var a := NextField(Some(line));
    if a.NoField? then Fields(0, "", "", "")
    else
      var b := NextField(a.rest);
      if b.NoField? then Fields(1, a.text, "", "")
      else
        var c := NextField(b.rest);
        if c.NoField? then Fields(2, a.text, b.text, "") else Fields(3, a.text, b.text, c.text)
  }

  // ----- The reader's state

  datatype Reader =
    Reader(format: Format, known: bool, headerConsumed: bool, linesRead: nat, linesSkipped: nat, opsParsed: nat)

  function Start(): Reader {
    Reader(Unknown, false, false, 0, 0, 0)
  }

  predicate IsHeaderWord(s: string) {
    s == "op" || s == "operation" || s == "type"
  }

  predicate IsOpWord(s: string) {
    s == "get" || s == "put" || s == "read" || s == "write"
  }

  /** CSV needs three fields, the second of which names the operation column or an operation. */
  function DetectFormat(r: Reader, line: string): Reader {
    var f := ThreeFields(line);
    var word := Lower(Trim(f.f2));
    if f.count == 3 && (IsHeaderWord(word) || IsOpWord(word)) then
      r.(format := Csv, known := true, headerConsumed := !IsHeaderWord(word))
    else r.(format := Simple, known := true)
  }

  predicate IsPutWord(s: string) {
    s == "PUT" || s == "WRITE" || s == "SET" || s == "UPDATE" || s == "INSERT"
  }

  function ParseOpType(token: string): OpType {
    if IsPutWord(Upper(token)) then PUT else GET
  }

  function FirstToken(s: string): string {
    s[..FirstOf(s, IsBlank)]
  }

  function ParseSimple(line: string): Option<TraceOp> {
    var i := FirstOf(line, IsBlank);
    if i == |line| then (if line == "" then None else Some(TraceOp(GET, line)))
    else
      var first := line[..i];
      var rest := Trim(line[i + 1..]);
      var word := Upper(first);
      if word == "GET" || word == "READ" then (if rest == "" then None else Some(TraceOp(GET, FirstToken(rest))))
      else if IsPutWord(word) then (if rest == "" then None else Some(TraceOp(PUT, FirstToken(rest))))
      else Some(TraceOp(GET, first))
  }

  /** A line with fewer than two fields fails outright; a missing third field leaves an empty key, which fails too. */
  function ParseCsv(line: string): Option<TraceOp> {
    var f := ThreeFields(line);
    var key := Trim(f.f3);
    if f.count < 2 || key == "" then None else Some(TraceOp(ParseOpType(Trim(f.f2)), key))
  }

  datatype Fed = Fed(reader: Reader, op: Option<TraceOp>)

  function Skip(r: Reader): Reader {
    r.(linesSkipped := r.linesSkipped + 1)
  }

  /** One turn of the loop in `next`. */
  function Feed(r0: Reader, line: string): Fed {
    var r := r0.(linesRead := r0.linesRead + 1);
    var text := Trim(line);
    if text == "" || text[0] == '#' then Fed(Skip(r), None)
    else
      var d := if r.known then r else DetectFormat(r, text);
      if d.format == Csv && !d.headerConsumed then Fed(Skip(d.(headerConsumed := true)), None)
      else
        var op := if d.format == Simple then ParseSimple(text) else if d.format == Csv then ParseCsv(text) else None;
        if op.Some? then Fed(d.(opsParsed := d.opsParsed + 1), op) else Fed(Skip(d), None)
  }

  function ToSeq(o: Option<TraceOp>): seq<TraceOp> {
    if o.Some? then [o.value] else []
  }

  /** Everything the reader finds in the lines. */
  function AllOps(r: Reader, lines: seq<string>): seq<TraceOp>
    decreases |lines|
  {
    if lines == [] then []
    else
      var f := Feed(r, lines[0]);
      ToSeq(f.op) + AllOps(f.reader, lines[1..])
  }

  /** Every line read is either an operation or skipped. */
  ghost predicate Counted(r: Reader) {
    r.linesRead == r.opsParsed + r.linesSkipped
  }

  lemma FeedCounts(r: Reader, line: string)
    requires Counted(r)
    ensures Counted(Feed(r, line).reader) && Feed(r, line).reader.linesRead == r.linesRead + 1
    ensures Feed(r, line).reader.opsParsed == r.opsParsed + |ToSeq(Feed(r, line).op)|
  {
    hide ThreeFields, Trim, Lower, ParseSimple, ParseCsv;
  }

  // ----- Round trips

  /** A key that a trace can carry: not empty, without white space and commas. */
  predicate GoodKey(k: string) {
    k != "" && forall i :: 0 <= i < |k| ==> !IsSpace(k[i]) && k[i] != ','
  }

  predicate GoodOps(ops: seq<TraceOp>) {
    forall i :: 0 <= i < |ops| ==> GoodKey(ops[i].key)
  }

  function Word(t: OpType): string {
    match t
    case GET => "GET"
    case PUT => "PUT"
  }

  function SimpleLine(o: TraceOp): string {
    Word(o.op) + " " + o.key
  }

  function SimpleLines(ops: seq<TraceOp>): (lines: seq<string>)
    ensures |lines| == |ops|
  {
    if ops == [] then [] else [SimpleLine(ops[0])] + SimpleLines(ops[1..])
  }

  lemma {:induction false} FirstOfIs(s: string, p: char -> bool, i: nat)
    requires i <= |s| && (i < |s| ==> p(s[i])) && forall j :: 0 <= j < i ==> !p(s[j])
    ensures FirstOf(s, p) == i
  {
    if i > 0 {
      FirstOfIs(s[1..], p, i - 1);
    }
  }

  lemma WordUpper(t: OpType)
    ensures Upper(Word(t)) == Word(t)
    ensures Word(GET) == "GET" && Word(PUT) == "PUT"
  {
  }

  lemma ParsePrintedSimple(o: TraceOp)
    requires GoodKey(o.key)
    ensures Trim(SimpleLine(o)) == SimpleLine(o)
    ensures ParseSimple(SimpleLine(o)) == Some(o)
  {
    hide FirstOf, TrimLeft, TrimRight, Trim, Upper, SimpleLine;
    SimpleLineParts(o);
    var line := SimpleLine(o);
    TrimSame(line);
    FirstOfIs(line, IsBlank, 3);
    TrimSame(o.key);
    FirstOfIs(o.key, IsBlank, |o.key|);
    WordUpper(o.op);
    assert o.key[..|o.key|] == o.key;
  }

  lemma SimpleLineParts(o: TraceOp)
    requires GoodKey(o.key)
    ensures var line := SimpleLine(o);
      |line| == 4 + |o.key| && line[..3] == Word(o.op) && line[3] == ' ' && line[4..] == o.key
    ensures var line := SimpleLine(o);
      line[0] == Word(o.op)[0] && line[|line| - 1] == o.key[|o.key| - 1]
    ensures forall i :: 0 <= i < |SimpleLine(o)| ==> SimpleLine(o)[i] != ','
    ensures forall i :: 0 <= i < 3 ==> !IsSpace(SimpleLine(o)[i]) && SimpleLine(o)[i] != '#'
  {
    var line := SimpleLine(o);
    var w := Word(o.op);
    assert line == w + " " + o.key && |w| == 3;
    assert forall i :: 0 <= i < 3 ==> line[i] == w[i];
    assert forall i :: 4 <= i < |line| ==> line[i] == o.key[i - 4];
  }

  /** Without a comma there is only one field, so the format is the simple one. */
  lemma NoCommaIsSimple(r: Reader, line: string)
    requires forall i :: 0 <= i < |line| ==> line[i] != ','
    ensures DetectFormat(r, line) == r.(format := Simple, known := true)
  {
    FirstOfIs(line, c => c == ',', |line|);
  }

  /** A reader that will parse a line without commas in the simple format. */
  ghost predicate TakesSimple(r: Reader) {
    !r.known || r.format == Simple
  }

  lemma FeedPrintedSimple(r: Reader, o: TraceOp)
    requires GoodKey(o.key) && TakesSimple(r)
    ensures Feed(r, SimpleLine(o)).op == Some(o) && TakesSimple(Feed(r, SimpleLine(o)).reader)
  {
    hide Trim, ParseSimple, ParseCsv, DetectFormat, SimpleLine;
    ParsePrintedSimple(o);
    SimpleLineParts(o);
    NoCommaIsSimple(r.(linesRead := r.linesRead + 1), SimpleLine(o));
  }

  lemma AllOpsStep(r: Reader, line: string, rest: seq<string>, o: TraceOp)
    requires Feed(r, line).op == Some(o)
    ensures AllOps(r, [line] + rest) == [o] + AllOps(Feed(r, line).reader, rest)
  {
    hide Feed;
    assert ([line] + rest)[1..] == rest;
  }

  lemma {:induction false} SimpleFrom(r: Reader, ops: seq<TraceOp>)
    requires GoodOps(ops) && TakesSimple(r)
    ensures AllOps(r, SimpleLines(ops)) == ops
    decreases |ops|
  {
    hide TakesSimple, Feed, SimpleLine, GoodKey;
    if ops != [] {
      hide AllOps;
      var line := SimpleLine(ops[0]);
      FeedPrintedSimple(r, ops[0]);
      AllOpsStep(r, line, SimpleLines(ops[1..]), ops[0]);
      SimpleFrom(Feed(r, line).reader, ops[1..]);
    }
  }

  /** Printing operations one per line and loading them gives them back. */
  lemma SimpleRoundTrip(ops: seq<TraceOp>)
    requires GoodOps(ops)
    ensures AllOps(Start(), SimpleLines(ops)) == ops
  {
    SimpleFrom(Start(), ops);
  }

  function Header(): string {
    "timestamp,op,key"
  }

  /** A timestamp: digits only. */
  predicate Numeric(t: string) {
    t != "" && forall i :: 0 <= i < |t| ==> '0' <= t[i] <= '9'
  }

  function CsvLine(t: string, o: TraceOp): string {
    t + "," + Word(o.op) + "," + o.key
  }

  function CsvLines(times: seq<string>, ops: seq<TraceOp>): (lines: seq<string>)
    requires |times| == |ops|
    ensures |lines| == |ops|
  {
    if ops == [] then [] else [CsvLine(times[0], ops[0])] + CsvLines(times[1..], ops[1..])
  }

  lemma FieldOf(head: string, tail: string)
    requires forall i :: 0 <= i < |head| ==> head[i] != ','
    ensures NextField(Some(head + "," + tail)) == Field(head, Some(tail))
  {
    var s := head + "," + tail;
    assert s[..|head|] == head && s[|head|] == ',' && s[|head| + 1..] == tail;
    FirstOfIs(s, c => c == ',', |head|);
  }

  lemma LastField(s: string)
    requires s != "" && forall i :: 0 <= i < |s| ==> s[i] != ','
    ensures NextField(Some(s)) == Field(s, None)
  {
    FirstOfIs(s, c => c == ',', |s|);
  }

  lemma FieldsOfCsvLine(t: string, o: TraceOp)
    requires Numeric(t) && GoodKey(o.key)
    ensures ThreeFields(CsvLine(t, o)) == Fields(3, t, Word(o.op), o.key)
  {
    var w := Word(o.op);
    assert CsvLine(t, o) == t + "," + (w + "," + o.key);
    FieldOf(t, w + "," + o.key);
    FieldOf(w, o.key);
    LastField(o.key);
  }

  lemma ParsePrintedCsv(t: string, o: TraceOp)
    requires Numeric(t) && GoodKey(o.key)
    ensures Trim(CsvLine(t, o)) == CsvLine(t, o) && CsvLine(t, o)[0] == t[0]
    ensures ParseCsv(CsvLine(t, o)) == Some(o)
  {
    hide NextField, FirstOf, TrimRight, TrimLeft, ThreeFields;
    FieldsOfCsvLine(t, o);
    CsvLineEnds(t, o);
    TrimSame(CsvLine(t, o));
    TrimSame(o.key);
    TrimSame(Word(o.op));
    WordUpper(o.op);
  }

  lemma CsvLineEnds(t: string, o: TraceOp)
    requires Numeric(t) && GoodKey(o.key)
    ensures var line := CsvLine(t, o);
      line != "" && line[0] == t[0] && line[|line| - 1] == o.key[|o.key| - 1]
  {
  }

  lemma FeedPrintedCsv(r: Reader, t: string, o: TraceOp)
    requires Numeric(t) && GoodKey(o.key) && r.known && r.format == Csv && r.headerConsumed
    ensures var f := Feed(r, CsvLine(t, o));
      f.op == Some(o) && f.reader == r.(linesRead := r.linesRead + 1, opsParsed := r.opsParsed + 1)
  {
    ParsePrintedCsv(t, o);
  }

  lemma FeedHeader()
    ensures Feed(Start(), Header()) == Fed(Reader(Csv, true, true, 1, 1, 0), None)
  {
    hide ThreeFields, Trim, ParseSimple, ParseCsv, NextField;
    HeaderFields();
    TrimSame(Header());
    TrimSame("op");
    assert Lower("op") == "op";
  }

  lemma HeaderFields()
    ensures ThreeFields(Header()) == Fields(3, "timestamp", "op", "key")
  {
    hide NextField, FirstOf;
    assert Header() == "timestamp" + "," + ("op" + "," + "key");
    FieldOf("timestamp", "op" + "," + "key");
    FieldOf("op", "key");
    LastField("key");
  }

  predicate AllNumeric(times: seq<string>) {
    forall i :: 0 <= i < |times| ==> Numeric(times[i])
  }

  lemma PrintableTail(times: seq<string>, ops: seq<TraceOp>)
    requires |times| == |ops| > 0 && GoodOps(ops) && AllNumeric(times)
    ensures GoodKey(ops[0].key) && Numeric(times[0]) && GoodOps(ops[1..]) && AllNumeric(times[1..])
    ensures CsvLines(times, ops) == [CsvLine(times[0], ops[0])] + CsvLines(times[1..], ops[1..])
  {
    hide GoodKey, Numeric, CsvLine;
  }

  lemma {:induction false} CsvFrom(r: Reader, times: seq<string>, ops: seq<TraceOp>)
    requires |times| == |ops| && GoodOps(ops) && AllNumeric(times)
    requires r.known && r.format == Csv && r.headerConsumed
    ensures AllOps(r, CsvLines(times, ops)) == ops
    decreases |ops|
  {
    if ops != [] {
      hide Feed, AllOps, CsvLine, CsvLines, GoodKey, GoodOps, Numeric, AllNumeric;
      PrintableTail(times, ops);
      var line := CsvLine(times[0], ops[0]);
      FeedPrintedCsv(r, times[0], ops[0]);
      AllOpsStep(r, line, CsvLines(times[1..], ops[1..]), ops[0]);
      CsvFrom(Feed(r, line).reader, times[1..], ops[1..]);
    }
  }

  /** Printing a header and one row per operation, and loading them, gives the operations back. */
  lemma CsvRoundTrip(times: seq<string>, ops: seq<TraceOp>)
    requires |times| == |ops| && GoodOps(ops) && AllNumeric(times)
    ensures AllOps(Start(), [Header()] + CsvLines(times, ops)) == ops
  {
    FeedHeader();
    var lines := [Header()] + CsvLines(times, ops);
    assert lines[0] == Header() && lines[1..] == CsvLines(times, ops);
    CsvFrom(Feed(Start(), Header()).reader, times, ops);
  }

  // ----- The object

  lemma StartCounted()
    ensures Counted(Start())
  {
  }

  class TraceReader {
    /** The lines still in the stream. */
    var lines: seq<string>
    var state: Reader

    ghost predicate Valid()
      reads this
    {
      Counted(state)
    }

    constructor (lines: seq<string>)
      ensures Valid() && this.lines == lines && state == Start()
    {
      StartCounted();
      hide Start;
      this.lines := lines;
      state := Start();
    }

    /** The next operation, or `None` at the end of the stream. */
    method Next() returns (op: Option<TraceOp>)
      requires Valid()
      modifies this
      ensures Valid() && |lines| <= |old(lines)| && state.linesRead - old(state.linesRead) == |old(lines)| - |lines|
      ensures op.None? ==> lines == [] && AllOps(state, lines) == [] && AllOps(old(state), old(lines)) == []
      ensures op.Some? ==> |lines| < |old(lines)| && AllOps(old(state), old(lines)) == [op.value] + AllOps(state, lines)
      ensures state.opsParsed == old(state.opsParsed) + |ToSeq(op)|
    {
      while lines != []
        invariant Valid() && AllOps(state, lines) == AllOps(old(state), old(lines))
        invariant |lines| <= |old(lines)| && state.linesRead - old(state.linesRead) == |old(lines)| - |lines|
        invariant state.opsParsed == old(state.opsParsed)
        decreases |lines|
      {
        hide Feed;
        FeedCounts(state, lines[0]);
        var f := Feed(state, lines[0]);
        ghost var rest := AllOps(f.reader, lines[1..]);
        assert [] + rest == rest;
        state := f.reader;
        lines := lines[1..];
        if f.op.Some? {
          return f.op;
        }
      }
      return None;
    }
  }

  /** What has been collected and what is still to come make up the whole. */
  ghost predicate Split(all: seq<TraceOp>, collected: seq<TraceOp>, rest: seq<TraceOp>) {
    all == collected + rest
  }

  lemma SplitStart(all: seq<TraceOp>)
    ensures Split(all, [], all)
  {
  }

  lemma SplitNext(all: seq<TraceOp>, collected: seq<TraceOp>, x: TraceOp, rest: seq<TraceOp>)
    requires Split(all, collected, [x] + rest)
    ensures Split(all, collected + [x], rest)
  {
  }

  lemma SplitPrefix(all: seq<TraceOp>, collected: seq<TraceOp>, rest: seq<TraceOp>)
    requires Split(all, collected, rest)
    ensures collected <= all && |all| == |collected| + |rest|
    ensures rest == [] ==> collected == all
  {
  }

  /** Loads up to `max` operations; zero means all. */
  method LoadTrace(lines: seq<string>, max: nat) returns (ops: seq<TraceOp>)
    ensures ops <= AllOps(Start(), lines)
    ensures max == 0 ==> ops == AllOps(Start(), lines)
    ensures max > 0 ==> |ops| == if |AllOps(Start(), lines)| < max then |AllOps(Start(), lines)| else max
  {
    hide Feed, AllOps, Start, Split, Counted;
    var reader := new TraceReader(lines);
    ops := [];
    ghost var all := AllOps(Start(), lines);
    SplitStart(all);
    while true
      invariant reader.Valid() && fresh(reader)
      invariant Split(all, ops, AllOps(reader.state, reader.lines))
      invariant max > 0 ==> |ops| < max
      decreases |reader.lines|
    {
      var op := reader.Next();
      if op.None? {
        SplitPrefix(all, ops, []);
        return;
      }
      SplitNext(all, ops, op.value, AllOps(reader.state, reader.lines));
      ops := ops + [op.value];
      SplitPrefix(all, ops, AllOps(reader.state, reader.lines));
      if max > 0 && |ops| >= max {
        return;
      }
    }
  }

  /** Calls back for up to `max` operations and counts the calls; `seen` is what the callback received. */
  method StreamTrace(lines: seq<string>, max: nat) returns (count: nat, seen: seq<TraceOp>)
    ensures count == |seen| && seen <= AllOps(Start(), lines)
    ensures max == 0 ==> seen == AllOps(Start(), lines)
    ensures max > 0 ==> count == if |AllOps(Start(), lines)| < max then |AllOps(Start(), lines)| else max
  {
    hide Feed, AllOps, Start, Split, Counted;
    var reader := new TraceReader(lines);
    count, seen := 0, [];
    ghost var all := AllOps(Start(), lines);
    SplitStart(all);
    while true
      invariant reader.Valid() && fresh(reader) && count == |seen|
      invariant Split(all, seen, AllOps(reader.state, reader.lines))
      invariant max > 0 ==> count < max
      decreases |reader.lines|
    {
      var op := reader.Next();
      if op.None? {
        SplitPrefix(all, seen, []);
        return;
      }
      SplitNext(all, seen, op.value, AllOps(reader.state, reader.lines));
      seen := seen + [op.value];
      count := count + 1;
      SplitPrefix(all, seen, AllOps(reader.state, reader.lines));
      if max > 0 && count >= max {
        return;
      }
    }
  }
}
