/** Whole TSLN documents of internal/lean: EncodeMetricsRows, Decode, and exactly when one undoes the other.
    A document is its base time and its body; the body has one line for each row, after the line before it. */
module TslnDocument {
  import opened Strings
  import opened Tsln

  /** The header carries the base time; the body is the text after the separator line. */
  datatype Document = Document(base: int, body: string)

  // ---- Encoding --------------------------------------------------------------------------

  function EncodeLine(r: Row, prev: Option<Row>, base: int): string
    requires Typed(r) && TypedPrev(prev)
  {
    Join(EncodeCells(r, prev, base), '|')
  }

  predicate AllTyped(rows: seq<Row>) {
    forall k :: 0 <= k < |rows| ==> Typed(rows[k])
  }

  function Body(rows: seq<Row>, prev: Option<Row>, base: int): string
    requires AllTyped(rows) && TypedPrev(prev)
    decreases |rows|
  {
    if rows == [] then "" else EncodeLine(rows[0], prev, base) + "\n" + Body(rows[1..], Some(rows[0]), base)
  }

  function Encode(rows: seq<Row>): Document
    requires rows != [] && AllTyped(rows)
  {
    Document(HeaderBase(rows[0].time), Body(rows, None, rows[0].time))
  }

  lemma NextCell(r: Row, prev: Option<Row>, base: int, k: nat)
    requires Typed(r) && TypedPrev(prev) && k < COUNTER_COLUMNS
    ensures EncodeCells(r, prev, base)[..2 + k + 1]
      == EncodeCells(r, prev, base)[..2 + k] + [EncodeInt(r.counters[k], Counter(prev, k))]
  {
    var cells := EncodeCells(r, prev, base);
    assert cells[2 + k] == EncodeCounters(r, prev)[k];
  }

  lemma FirstCells(r: Row, prev: Option<Row>, base: int)
    requires Typed(r) && TypedPrev(prev)
    ensures EncodeCells(r, prev, base)[..2] == [EncodeTime(r.time, base), EncodeStatus(r.status, Status(prev))]
    ensures EncodeCells(r, prev, base)[..2 + COUNTER_COLUMNS] == EncodeCells(r, prev, base)
  {
  }

  class Encoder {
    const base: int
    var prev: Option<Row>
    var buf: string
    var rowCount: nat

    constructor (base: int)
      ensures this.base == base && prev == None && buf == "" && rowCount == 0
    {
      this.base := base;
      prev, buf, rowCount := None, "", 0;
    }

    method EncodeRow(r: Row)
      requires Typed(r) && TypedPrev(prev)
      modifies this
      ensures buf == old(buf) + EncodeLine(r, old(prev), base) + "\n"
      ensures prev == Some(r) && rowCount == old(rowCount) + 1
    {
      var before := prev;
      FirstCells(r, before, base);
      var parts := [EncodeTime(r.time, base), EncodeStatus(r.status, Status(before))];
      for k := 0 to COUNTER_COLUMNS
        invariant parts == EncodeCells(r, before, base)[..2 + k]
        invariant prev == before && buf == old(buf) && rowCount == old(rowCount)
      {
        NextCell(r, before, base, k);
        parts := parts + [EncodeInt(r.counters[k], Counter(before, k))];
      }
      buf := buf + Join(parts, '|');
      buf := buf + "\n";
      prev := Some(r);
      rowCount := rowCount + 1;
    }
  }

  lemma BodyStep(done: string, rows: seq<Row>, k: nat, prev: Option<Row>, base: int)
    requires AllTyped(rows) && k < |rows| && TypedPrev(prev)
    ensures done + Body(rows[k..], prev, base)
      == done + EncodeLine(rows[k], prev, base) + "\n" + Body(rows[k + 1..], Some(rows[k]), base)
  {
    assert rows[k..][1..] == rows[k + 1..];
    var line, rest := EncodeLine(rows[k], prev, base), Body(rows[k + 1..], Some(rows[k]), base);
    assert done + (line + "\n" + rest) == done + line + "\n" + rest;
  }

  method EncodeMetricsRows(rows: seq<Row>) returns (r: Option<Document>)
    requires AllTyped(rows)
    ensures r.None? <==> rows == []
    ensures r.Some? ==> r.value == Encode(rows)
  {
    if |rows| == 0 { return None; }
    var enc := new Encoder(rows[0].time);
    for k := 0 to |rows|
      invariant enc.prev == if k == 0 then None else Some(rows[k - 1])
      invariant enc.buf + Body(rows[k..], enc.prev, enc.base) == Body(rows, None, rows[0].time)
      invariant fresh(enc) && enc.base == rows[0].time
    {
      BodyStep(enc.buf, rows, k, enc.prev, enc.base);
      enc.EncodeRow(rows[k]);
    }
    r := Some(Document(HeaderBase(rows[0].time), enc.buf));
  }

  // ---- Decoding ----------------------------------------------------------------------------

  /** The rows in the lines of a body; blank lines are skipped. */
  function DecodeLines(lines: seq<string>, base: int, prev: Option<Row>): Option<seq<Row>>
    requires TypedPrev(prev)
    decreases |lines|
  {
    if lines == [] then Some([])
    else if TrimSpace(lines[0]) == "" then DecodeLines(lines[1..], base, prev)
    else
      var r := DecodeCells(Split(TrimSpace(lines[0]), '|'), prev, base);
      if r.None? then None
      else
        Prepend([r.value], DecodeLines(lines[1..], base, r))
  }

  function DecodeAll(doc: Document): Option<seq<Row>> {
    DecodeLines(Split(doc.body, '\n'), doc.base, None)
  }

  function Prepend(rows: seq<Row>, rest: Option<seq<Row>>): Option<seq<Row>> {
    if rest.Some? then Some(rows + rest.value) else None
  }

  lemma PrependMore(rows: seq<Row>, r: Row, rest: Option<seq<Row>>)
    ensures Prepend(rows + [r], rest) == Prepend(rows, Prepend([r], rest))
    ensures Prepend([], rest) == rest
  {
    if rest.Some? {
      assert rows + [r] + rest.value == rows + ([r] + rest.value);
      assert [] + rest.value == rest.value;
    }
  }

  method Decode(doc: Document) returns (r: Option<seq<Row>>)
    ensures r == DecodeAll(doc)
  {
    var lines := Split(doc.body, '\n');
    var rows: seq<Row> := [];
    var prev: Option<Row> := None;
    assert lines[0..] == lines;
    if |lines| > 0 { PrependMore([], Row(0, "", []), DecodeAll(doc)); }
    for k := 0 to |lines|
      invariant TypedPrev(prev)
      invariant DecodeAll(doc) == Prepend(rows, DecodeLines(lines[k..], doc.base, prev))
    {
      assert lines[k..][1..] == lines[k + 1..];
      var line := TrimSpace(lines[k]);
      if line != "" {
        var current := DecodeCells(Split(line, '|'), prev, doc.base);
        if current.None? { return None; }
        PrependMore(rows, current.value, DecodeLines(lines[k + 1..], doc.base, current));
        rows := rows + [current.value];
        prev := current;
      }
    }
    assert rows + [] == rows;
    r := Some(rows);
  }

  /** The lines that are not blank, trimmed. */
  function Filled(lines: seq<string>): seq<string> {
    if lines == [] then []
    else if TrimSpace(lines[0]) == "" then Filled(lines[1..])
    else [TrimSpace(lines[0])] + Filled(lines[1..])
  }

  /** Each line reads as its row, after the row of the line before it. */
  predicate ReadAs(filled: seq<string>, rows: seq<Row>, base: int, prev: Option<Row>)
    requires TypedPrev(prev)
    decreases |filled|
  {
    if filled == [] || rows == [] then filled == [] && rows == []
    else
      && DecodeCells(Split(filled[0], '|'), prev, base) == Some(rows[0])
      && Typed(rows[0]) && ReadAs(filled[1..], rows[1..], base, Some(rows[0]))
  }

  lemma PrependIff(r: Row, rest: Option<seq<Row>>, rows: seq<Row>)
    ensures Prepend([r], rest) == Some(rows) <==> rows != [] && rows[0] == r && rest == Some(rows[1..])
  {
    if rest.Some? { assert ([r] + rest.value)[1..] == rest.value; }
    if rows != [] { assert rows == [rows[0]] + rows[1..]; }
  }

  lemma FilledLine(lines: seq<string>)
    requires lines != [] && TrimSpace(lines[0]) != ""
    ensures Filled(lines) != [] && Filled(lines)[0] == TrimSpace(lines[0]) && Filled(lines)[1..] == Filled(lines[1..])
  {
  }

  lemma LineDecodes(lines: seq<string>, base: int, prev: Option<Row>, r: Option<Row>)
    requires TypedPrev(prev) && lines != [] && TrimSpace(lines[0]) != ""
    requires r == DecodeCells(Split(TrimSpace(lines[0]), '|'), prev, base)
    ensures TypedPrev(r)
    ensures DecodeLines(lines, base, prev)
      == if r.None? then None else Prepend([r.value], DecodeLines(lines[1..], base, r))
  {
  }

  lemma ReadAsLine(filled: seq<string>, rows: seq<Row>, base: int, prev: Option<Row>, r: Option<Row>)
    requires TypedPrev(prev) && filled != [] && r == DecodeCells(Split(filled[0], '|'), prev, base) && TypedPrev(r)
    ensures ReadAs(filled, rows, base, prev)
      <==> rows != [] && r == Some(rows[0]) && ReadAs(filled[1..], rows[1..], base, r)
  {
  }

  /** Decoding gives exactly the rows as which the lines that are not blank read, one for each; it fails when one of
      them reads as no row. */
  lemma {:induction false} DecodeIff(lines: seq<string>, base: int, prev: Option<Row>, rows: seq<Row>)
    requires TypedPrev(prev)
    ensures DecodeLines(lines, base, prev) == Some(rows) <==> ReadAs(Filled(lines), rows, base, prev)
    decreases |lines|
  {
    if lines != [] {
      if TrimSpace(lines[0]) == "" {
        DecodeIff(lines[1..], base, prev, rows);
      } else {
        var r := DecodeCells(Split(TrimSpace(lines[0]), '|'), prev, base);
        FilledLine(lines);
        LineDecodes(lines, base, prev, r);
        ReadAsLine(Filled(lines), rows, base, prev, r);
        if r.Some? {
          PrependIff(r.value, DecodeLines(lines[1..], base, r), rows);
          if rows != [] { DecodeIff(lines[1..], base, r, rows[1..]); }
        }
      }
    }
  }

  // ---- Which rows survive ------------------------------------------------------------------------

  predicate Clean(s: string) {
    '|' !in s && '\n' !in s
  }

  predicate CleanPrev(prev: Option<Row>) {
    prev.Some? ==> Clean(prev.value.status)
  }

  predicate AllClean(rows: seq<Row>) {
    forall k :: 0 <= k < |rows| ==> Clean(rows[k].status)
  }

  /** Each row survives after the one before it. */
  predicate AllSurvive(rows: seq<Row>, prev: Option<Row>, base: int)
    requires AllTyped(rows) && TypedPrev(prev)
    decreases |rows|
  {
    rows == [] || (Survives(rows[0], prev, base) && AllSurvive(rows[1..], Some(rows[0]), base))
  }

  lemma {:induction false} SplitKeepsOut(s: string, sep: char, c: char, k: nat)
    requires c !in s && k < |Split(s, sep)|
    ensures c !in Split(s, sep)[k]
  {
    if s != "" {
      var rest := Split(s[1..], sep);
      if s[0] == sep {
        if k > 0 { SplitKeepsOut(s[1..], sep, c, k - 1); }
      } else {
        SplitKeepsOut(s[1..], sep, c, if k == 0 then 0 else k);
      }
    }
  }

  lemma {:induction false} TrimLeftKeepsOut(s: string, drop: char -> bool, c: char)
    requires c !in s
    ensures c !in TrimLeft(s, drop)
  {
    if s != "" && drop(s[0]) { TrimLeftKeepsOut(s[1..], drop, c); }
  }

  lemma TrimKeepsOut(s: string, c: char)
    requires c !in s
    ensures c !in TrimSpace(s)
  {
    var t := TrimRight(s, IsSpace);
    assert forall k :: 0 <= k < |t| ==> t[k] == s[k];
    TrimLeftKeepsOut(t, IsSpace, c);
  }

  /** Decoded statuses never hold a separator. */
  lemma {:induction false} DecodedAreClean(lines: seq<string>, base: int, prev: Option<Row>)
    requires TypedPrev(prev) && CleanPrev(prev) && forall k :: 0 <= k < |lines| ==> '\n' !in lines[k]
    ensures DecodeLines(lines, base, prev).Some? ==> AllClean(DecodeLines(lines, base, prev).value)
    decreases |lines|
  {
    if lines != [] && DecodeLines(lines, base, prev).Some? {
      var line := TrimSpace(lines[0]);
      if line == "" {
        DecodedAreClean(lines[1..], base, prev);
      } else {
        var cells := Split(line, '|');
        var r := DecodeCells(cells, prev, base);
        TrimKeepsOut(lines[0], '\n');
        SplitKeepsOut(line, '|', '\n', 1);
        assert Clean(cells[1]);
        DecodedAreClean(lines[1..], base, r);
      }
    }
  }

  // ---- Encoded lines read back as their cells --------------------------------------------------------

  predicate Digits(s: string) {
    s != "" && (IsDigit(s[0]) || s[0] == '-' || s[0] == '+') && forall k :: 1 <= k < |s| ==> IsDigit(s[k])
  }

  lemma NatTextDigits(n: nat)
    ensures Digits(NatText(n)) && Digits("-" + NatText(n)) && Digits(['+'] + NatText(n))
    ensures IsDigit(NatText(n)[|NatText(n)| - 1])
  {
  }

  predicate EndsInDigit(s: string) {
    s != "" && IsDigit(s[|s| - 1])
  }

  lemma IntCell(n: int, prev: Option<int>)
    ensures Digits(EncodeInt(n, prev)) && EndsInDigit(EncodeInt(n, prev))
    ensures Digits(IntText(n)) && EndsInDigit(IntText(n))
  {
    IntTextDigits(n);
    if prev.Some? {
      var delta := Wrap1(n - prev.value);
      if delta > 0 { NatTextDigits(delta); } else { IntTextDigits(delta); }
    }
  }

  lemma IntTextDigits(n: int)
    ensures Digits(IntText(n)) && EndsInDigit(IntText(n))
  {
    if n < 0 { NatTextDigits(-n); } else { NatTextDigits(n); }
  }

  lemma DigitsClean(s: string)
    requires Digits(s)
    ensures Clean(s)
  {
  }

  /** Every cell of a row with a clean status is free of separators; the first and the last are numbers. */
  lemma CellsClean(r: Row, prev: Option<Row>, base: int)
    requires Typed(r) && TypedPrev(prev) && Clean(r.status)
    ensures var cells := EncodeCells(r, prev, base);
      && (forall k :: 0 <= k < |cells| ==> Clean(cells[k]))
      && Digits(cells[0]) && EndsInDigit(cells[|cells| - 1])
  {
    var cells := EncodeCells(r, prev, base);
    IntTextDigits(Millis(Sub(r.time, base)));
    DigitsClean(cells[0]);
    assert Clean(cells[1]);
    forall k | 2 <= k < |cells| ensures Clean(cells[k]) && EndsInDigit(cells[k]) {
      IntCell(r.counters[k - 2], Counter(prev, k - 2));
      DigitsClean(cells[k]);
    }
  }

  lemma {:induction false} JoinEnds(parts: seq<string>, sep: char)
    requires parts != [] && parts[0] != "" && parts[|parts| - 1] != ""
    ensures var s := Join(parts, sep); s != "" && s[0] == parts[0][0]
    ensures var s, last := Join(parts, sep), parts[|parts| - 1]; s[|s| - 1] == last[|last| - 1]
  {
    if |parts| > 1 {
      JoinLast(parts[1..], sep);
    }
  }

  lemma {:induction false} JoinLast(parts: seq<string>, sep: char)
    requires parts != [] && parts[|parts| - 1] != ""
    ensures var s, last := Join(parts, sep), parts[|parts| - 1]; s != "" && s[|s| - 1] == last[|last| - 1]
  {
    if |parts| > 1 { JoinLast(parts[1..], sep); }
  }

  lemma {:induction false} JoinKeepsOut(parts: seq<string>, sep: char, c: char)
    requires c != sep && forall k :: 0 <= k < |parts| ==> c !in parts[k]
    ensures c !in Join(parts, sep)
  {
    if |parts| > 1 { JoinKeepsOut(parts[1..], sep, c); }
  }

  /** The line of a row reads back as its cells. */
  lemma LineBack(r: Row, prev: Option<Row>, base: int)
    requires Typed(r) && TypedPrev(prev) && Clean(r.status)
    ensures var line := EncodeLine(r, prev, base);
      '\n' !in line && line != "" && TrimSpace(line) == line && Split(line, '|') == EncodeCells(r, prev, base)
  {
    var cells := EncodeCells(r, prev, base);
    CellsClean(r, prev, base);
    JoinEnds(cells, '|');
    JoinKeepsOut(cells, '|', '\n');
    TrimNothing(Join(cells, '|'));
    SplitJoin(cells, '|');
  }

  /** The first line of a body decodes on its own, the rest follows. */
  lemma {:induction false} BodyFirst(rows: seq<Row>, ep: Option<Row>, dp: Option<Row>, base: int, from: int)
    requires rows != [] && AllTyped(rows) && Paired(ep, dp) && Clean(rows[0].status)
    ensures var d := RowBack(rows[0], ep, dp, base, from);
      && Typed(d)
      && DecodeLines(Split(Body(rows, ep, base), '\n'), from, dp)
        == Prepend([d], DecodeLines(Split(Body(rows[1..], Some(rows[0]), base), '\n'), from, Some(d)))
  {
    LineBack(rows[0], ep, base);
    RowDecodes(rows[0], ep, dp, base, from);
    var line, tail := EncodeLine(rows[0], ep, base), Body(rows[1..], Some(rows[0]), base);
    SplitCons(line, tail, '\n');
    var lines := Split(line + "\n" + tail, '\n');
    assert lines == [line] + Split(tail, '\n') && lines[1..] == Split(tail, '\n');
  }

  /** The rows that rows decode to, each one after the decoded form of the one before. */
  function RowsBack(rows: seq<Row>, ep: Option<Row>, dp: Option<Row>, base: int, from: int): seq<Row>
    requires AllTyped(rows) && AllClean(rows) && Paired(ep, dp)
    decreases |rows|
  {
    if rows == [] then []
    else
      BodyFirst(rows, ep, dp, base, from);
      var d := RowBack(rows[0], ep, dp, base, from);
      [d] + RowsBack(rows[1..], Some(rows[0]), Some(d), base, from)
  }

  lemma EmptyBody(from: int, dp: Option<Row>)
    requires TypedPrev(dp)
    ensures DecodeLines(Split("", '\n'), from, dp) == Some([])
  {
    assert Split("", '\n') == [""] && TrimSpace("") == "";
    assert [""][1..] == [];
  }

  /** Whatever the rows are, with clean statuses their encoding decodes, to RowsBack. */
  lemma {:induction false} BodyDecodes(rows: seq<Row>, ep: Option<Row>, dp: Option<Row>, base: int, from: int)
    requires AllTyped(rows) && AllClean(rows) && Paired(ep, dp)
    ensures DecodeLines(Split(Body(rows, ep, base), '\n'), from, dp) == Some(RowsBack(rows, ep, dp, base, from))
    decreases |rows|
  {
    if rows == [] {
      EmptyBody(from, dp);
    } else {
      BodyFirst(rows, ep, dp, base, from);
      BodyDecodes(rows[1..], Some(rows[0]), Some(RowBack(rows[0], ep, dp, base, from)), base, from);
    }
  }

  /** With a base that the header can tell, all rows come back exactly when all survive. */
  lemma {:induction false} RowsKept(rows: seq<Row>, p: Option<Row>, base: int)
    requires AllTyped(rows) && AllClean(rows) && TypedPrev(p)
    ensures RowsBack(rows, p, p, base, base) == rows <==> AllSurvive(rows, p, base)
    decreases |rows|
  {
    if rows != [] {
      var d := RowBack(rows[0], p, p, base, base);
      RowKept(rows[0], p, base);
      var back := RowsBack(rows, p, p, base, base);
      assert back == rows ==> back[0] == rows[0] && back[1..] == rows[1..];
      if d == rows[0] {
        RowsKept(rows[1..], Some(rows[0]), base);
        assert rows == [rows[0]] + rows[1..];
      }
    }
  }

  /** Rows come back exactly when the first timestamp is a whole second, the others are whole milliseconds that a
      Duration can hold, statuses hold no '|' and no newline and "=" follows only "=", and no counter repeats a
      non-zero value. */
  predicate Lossless(rows: seq<Row>)
    requires rows != [] && AllTyped(rows)
  {
    rows[0].time % 1_000_000_000 == 0 && AllClean(rows) && AllSurvive(rows, None, rows[0].time)
  }

  lemma CleanDecodes(rows: seq<Row>)
    requires rows != [] && AllTyped(rows) && AllClean(rows)
    ensures DecodeAll(Encode(rows)) == Some(RowsBack(rows, None, None, rows[0].time, HeaderBase(rows[0].time)))
  {
    BodyDecodes(rows, None, None, rows[0].time, HeaderBase(rows[0].time));
  }

  /** Only rows with clean statuses can come back. */
  lemma {:induction false} UncleanIsLost(rows: seq<Row>)
    requires rows != [] && AllTyped(rows) && DecodeAll(Encode(rows)) == Some(rows)
    ensures AllClean(rows)
  {
    var doc := Encode(rows);
    DecodedAreClean(Split(doc.body, '\n'), doc.base, None);
  }

  lemma FirstTime(rows: seq<Row>)
    requires rows != [] && AllTyped(rows) && AllClean(rows)
    ensures var back := RowsBack(rows, None, None, rows[0].time, HeaderBase(rows[0].time));
      back != [] && back[0].time == HeaderBase(rows[0].time)
  {
    assert Millis(Sub(rows[0].time, rows[0].time)) == 0;
  }

  lemma CleanRoundTrip(rows: seq<Row>)
    requires rows != [] && AllTyped(rows) && AllClean(rows)
    ensures RowsBack(rows, None, None, rows[0].time, HeaderBase(rows[0].time)) == rows <==> Lossless(rows)
  {
    FirstTime(rows);
    if rows[0].time % 1_000_000_000 == 0 { RowsKept(rows, None, rows[0].time); }
  }

  /** Decoding an encoded document gives the rows back exactly when they are lossless. */
  lemma RoundTrip(rows: seq<Row>)
    requires rows != [] && AllTyped(rows)
    ensures DecodeAll(Encode(rows)) == Some(rows) <==> Lossless(rows)
  {
    if AllClean(rows) {
      CleanDecodes(rows);
      CleanRoundTrip(rows);
    } else if DecodeAll(Encode(rows)) == Some(rows) {
      UncleanIsLost(rows);
    }
  }

  lemma RepeatDies(r: Row, k: nat)
    requires Typed(r) && k < COUNTER_COLUMNS && r.counters[k] != 0
    ensures !AllSurvive([r, r], None, r.time)
  {
    var rows := [r, r];
    assert rows[1..] == [r] && rows[1..][0] == r;
    assert !NoRepeat(r, r);
  }

  /** A row repeated with any non-zero counter does not come back. */
  lemma {:induction false} RepeatIsLost(r: Row, k: nat)
    requires Typed(r) && k < COUNTER_COLUMNS && r.counters[k] != 0
    ensures DecodeAll(Encode([r, r])) != Some([r, r])
  {
    RepeatDies(r, k);
    RoundTrip([r, r]);
  }
}
