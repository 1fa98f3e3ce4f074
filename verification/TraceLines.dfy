/** What single trace lines mean: bare keys, verbs in any case, foreign first tokens, rows, comments. */
module TraceLines {
  import opened Types
  import opened TraceLoader

  /** `a` is the upper-case word `w`, whatever the case of its letters. */
  predicate Spells(a: string, w: string) {
    |a| == |w| && forall i :: 0 <= i < |w| ==> a[i] == w[i] || ('a' <= a[i] <= 'z' && a[i] - 'a' + 'A' == w[i])
  }

  predicate Reads(a: string) {
    Spells(a, "GET") || Spells(a, "READ")
  }

  predicate Writes(a: string) {
    Spells(a, "PUT") || Spells(a, "WRITE") || Spells(a, "SET") || Spells(a, "UPDATE") || Spells(a, "INSERT")
  }

  predicate NoLower(w: string) {
    forall i :: 0 <= i < |w| ==> !('a' <= w[i] <= 'z')
  }

  lemma UpperSpells(a: string, w: string)
    requires NoLower(w)
    ensures Upper(a) == w <==> Spells(a, w)
  {
    var u := Upper(a);
    if Spells(a, w) {
      forall i | 0 <= i < |w| ensures u[i] == w[i] {
      }
      assert u == w;
    }
    if u == w {
      forall i | 0 <= i < |w| ensures a[i] == w[i] || ('a' <= a[i] <= 'z' && a[i] - 'a' + 'A' == w[i]) {
        assert u[i] == w[i];
      }
    }
  }

  lemma Verbs(a: string)
    ensures Upper(a) == "GET" || Upper(a) == "READ" <==> Reads(a)
    ensures IsPutWord(Upper(a)) <==> Writes(a)
  {
    hide Upper, Spells;
    UpperSpells(a, "GET");
    UpperSpells(a, "READ");
    UpperSpells(a, "PUT");
    UpperSpells(a, "WRITE");
    UpperSpells(a, "SET");
    UpperSpells(a, "UPDATE");
    UpperSpells(a, "INSERT");
  }

  /** The four characters that a line is trimmed of. */
  predicate White(s: string) {
    forall i :: 0 <= i < |s| ==> s[i] == ' ' || s[i] == '\t' || s[i] == '\r' || s[i] == '\n'
  }

  /** Not empty, and neither end is one of them. */
  predicate Bare(s: string) {
    s != "" && !White(s[..1]) && !White(s[|s| - 1..])
  }

  lemma {:induction false} TrimLeftCuts(left: string, s: string)
    requires White(left) && (s == "" || Bare(s))
    ensures TrimLeft(left + s) == s
  {
    var all := left + s;
    if left == "" {
      assert all == s;
    } else {
      assert all[0] == left[0] && all[1..] == left[1..] + s;
      TrimLeftCuts(left[1..], s);
    }
  }

  lemma {:induction false} TrimRightCuts(s: string, right: string)
    requires White(right) && (s == "" || Bare(s))
    ensures TrimRight(s + right) == s
  {
    var all := s + right;
    if right == "" {
      assert all == s;
    } else {
      var n := |right| - 1;
      assert all[|all| - 1] == right[n] && all[..|all| - 1] == s + right[..n];
      TrimRightCuts(s, right[..n]);
    }
  }

  /** Trimming takes the white space off both ends and nothing else. */
  lemma TrimCuts(left: string, s: string, right: string)
    requires White(left) && White(right) && (s == "" || Bare(s))
    ensures Trim(left + s + right) == s
  {
    hide TrimLeft, TrimRight;
    if s == "" {
      assert left + s + right == (left + right) + "";
      TrimLeftCuts(left + right, "");
      TrimRightCuts("", "");
    } else {
      TrimLeftKeeps(left, s, right);
      TrimRightCuts(s, right);
    }
  }

  lemma {:induction false} TrimLeftKeeps(left: string, s: string, right: string)
    requires White(left) && Bare(s)
    ensures TrimLeft(left + s + right) == s + right
  {
    var all := left + s + right;
    if left == "" {
      assert all == s + right && all[0] == s[0];
    } else {
      assert all[0] == left[0] && all[1..] == left[1..] + s + right;
      TrimLeftKeeps(left[1..], s, right);
    }
  }

  /** A token: not empty and without any white space. */
  predicate Solid(s: string) {
    s != "" && forall i :: 0 <= i < |s| ==> !White([s[i]])
  }

  /** What may follow a key on its line: nothing, or a blank and more. */
  predicate Trailing(s: string) {
    s == "" || ((s[0] == ' ' || s[0] == '\t') && !White([s[|s| - 1]]))
  }

  lemma SolidCharacters(s: string)
    requires Solid(s)
    ensures forall i :: 0 <= i < |s| ==> !IsSpace(s[i])
  {
    forall i | 0 <= i < |s| ensures !IsSpace(s[i]) {
      assert !White([s[i]]);
    }
  }

  /** A line of one token is a read of that key. */
  lemma BareKey(line: string)
    requires Solid(line)
    ensures ParseSimple(line) == Some(TraceOp(GET, line))
  {
    SolidCharacters(line);
    FirstOfIs(line, IsBlank, |line|);
  }

  /** A verb makes the second token the key; any other first token is itself the key of a read. */
  lemma FirstToken(first: string, blank: char, key: string, tail: string)
    requires Solid(first) && Solid(key) && Trailing(tail) && (blank == ' ' || blank == '\t')
    ensures ParseSimple(first + [blank] + key + tail) ==
      Some(if Reads(first) then TraceOp(GET, key) else if Writes(first) then TraceOp(PUT, key) else TraceOp(GET, first))
  {
    var line := first + [blank] + key + tail;
    var rest := key + tail;
    LineParts(first, blank, key, tail);
    SolidCharacters(first);
    SolidCharacters(key);
    FirstOfIs(line, IsBlank, |first|);
    FirstOfIs(rest, IsBlank, |key|);
    assert rest[..|key|] == key;
    TrimSame(rest);
    Verbs(first);
    hide Upper, FirstOf, Trim, Reads, Writes, IsPutWord;
  }

  lemma LineParts(first: string, blank: char, key: string, tail: string)
    requires Solid(first) && Solid(key) && Trailing(tail)
    ensures var line := first + [blank] + key + tail; var rest := key + tail; var n := |first|;
      && n < |line| && line[..n] == first && line[n] == blank && line[n + 1..] == rest
      && (forall i :: 0 <= i < n ==> line[i] == first[i])
      && (forall i :: 0 <= i < |key| ==> rest[i] == key[i]) && (tail != "" ==> rest[|key|] == tail[0])
      && rest != "" && !IsSpace(rest[0]) && !IsSpace(rest[|rest| - 1])
  {
    var line := first + [blank] + key + tail;
    SolidCharacters(key);
    assert line == first + ([blank] + (key + tail));
    assert tail != "" ==> !White([tail[|tail| - 1]]);
  }

  predicate NoComma(s: string) {
    forall i :: 0 <= i < |s| ==> s[i] != ','
  }

  lemma RowFields(f1: string, f2: string, f3: string, more: string)
    requires NoComma(f1) && NoComma(f2) && NoComma(f3) && (more == "" || more[0] == ',')
    ensures ThreeFields(f1 + "," + f2 + "," + f3 + more) ==
      if f3 == "" && more == "" then Fields(2, f1, f2, "") else Fields(3, f1, f2, f3)
  {
    hide FirstOf, NextField;
    var rest := f3 + more;
    assert f1 + "," + f2 + "," + f3 + more == f1 + "," + (f2 + "," + rest);
    FieldOf(f1, f2 + "," + rest);
    FieldOf(f2, rest);
    LastOfRow(f3, more);
  }

  lemma LastOfRow(f3: string, more: string)
    requires NoComma(f3) && (more == "" || more[0] == ',')
    ensures var f := NextField(Some(f3 + more)); if f3 == "" && more == "" then f.NoField? else f.Field? && f.text == f3
  {
    if more == "" {
      assert f3 + more == f3;
      if f3 != "" {
        LastField(f3);
      }
    } else {
      assert f3 + more == f3 + "," + more[1..];
      FieldOf(f3, more[1..]);
    }
  }

  /** A row is a write exactly if its second field is one of the five write verbs; a blank key is an error. */
  lemma Row(f1: string, f2: string, f3: string, more: string)
    requires NoComma(f1) && NoComma(f2) && NoComma(f3) && (more == "" || more[0] == ',')
    ensures ParseCsv(f1 + "," + f2 + "," + f3 + more) ==
      if Trim(f3) == "" then None else Some(TraceOp(if Writes(Trim(f2)) then PUT else GET, Trim(f3)))
  {
    hide ThreeFields, Upper, Writes, IsPutWord;
    RowFields(f1, f2, f3, more);
    Verbs(Trim(f2));
    TrimSame("");
  }

  /**
   The first line decides: rows if its second field is a column title or one of four verbs, otherwise simple lines.
   */
  lemma Detects(r: Reader, f1: string, f2: string, f3: string, more: string)
    requires NoComma(f1) && NoComma(f2) && NoComma(f3) && (more == "" || more[0] == ',') && (f3 != "" || more != "")
    ensures var d := DetectFormat(r, f1 + "," + f2 + "," + f3 + more); var word := Lower(Trim(f2));
      var title := word == "op" || word == "operation" || word == "type";
      var verb := word == "get" || word == "put" || word == "read" || word == "write";
      && d.known && (d.format == Csv <==> title || verb) && (d.format == Simple <==> !title && !verb)
      && (d.format == Csv ==> (d.headerConsumed <==> !title))
  {
    hide ThreeFields, Lower, Trim;
    RowFields(f1, f2, f3, more);
  }

  lemma WordIsVerb(t: OpType)
    ensures Lower(Trim(Word(t))) == if t == GET then "get" else "put"
  {
    TrimSame(Word(t));
    assert Lower("GET") == "get" && Lower("PUT") == "put";
  }

  /** Rows without a header load back unchanged, too: the first row is taken as data. */
  lemma HeaderlessRoundTrip(times: seq<string>, ops: seq<TraceOp>)
    requires |times| == |ops| && GoodOps(ops) && AllNumeric(times)
    ensures AllOps(Start(), CsvLines(times, ops)) == ops
  {
    if ops != [] {
      hide Feed, AllOps, CsvLine, CsvLines, GoodKey, GoodOps, Numeric, AllNumeric;
      PrintableTail(times, ops);
      FirstRow(times[0], ops[0]);
      var line := CsvLine(times[0], ops[0]);
      AllOpsStep(Start(), line, CsvLines(times[1..], ops[1..]), ops[0]);
      CsvFrom(Feed(Start(), line).reader, times[1..], ops[1..]);
    }
  }

  lemma FirstRow(t: string, o: TraceOp)
    requires Numeric(t) && GoodKey(o.key)
    ensures Feed(Start(), CsvLine(t, o)) == Fed(Reader(Csv, true, true, 1, 0, 1), Some(o))
  {
    hide Trim, ThreeFields, Lower, ParseCsv, CsvLine;
    ParsePrintedCsv(t, o);
    FieldsOfCsvLine(t, o);
    WordIsVerb(o.op);
    CsvLineEnds(t, o);
  }

  /** Blank lines and comments are skipped and decide nothing. */
  lemma SkippedLine(r: Reader, line: string)
    requires Trim(line) == "" || Trim(line)[0] == '#'
    ensures Feed(r, line) == Fed(r.(linesRead := r.linesRead + 1, linesSkipped := r.linesSkipped + 1), None)
  {
  }
}
