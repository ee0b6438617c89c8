/** The TSLN encoder and decoder of internal/lean for the metrics schema, column by column and row by row.
    A counter is written as its difference from the row before, a status as "=" when it repeats, and a time as
    milliseconds from the base. */
module Tsln {
  import opened Strings

  const COUNTER_COLUMNS := 11

  /** A metrics row: a time in nanoseconds, a status, and the eleven integer columns. */
  datatype Row = Row(time: int, status: string, counters: seq<int>)

  predicate Typed(r: Row) {
    |r.counters| == COUNTER_COLUMNS && forall k :: 0 <= k < COUNTER_COLUMNS ==> IsInt64(r.counters[k])
  }

  /** 64-bit wrap-around of any integer. */
  function Wrap(n: int): (r: int)
    ensures IsInt64(r) && (IsInt64(n) ==> r == n)
  {
    (n - MIN_INT64) % TWO_TO_64 + MIN_INT64
  }

  /** A wrapped difference added back gives the value, even when both wrap around. */
  lemma WrapBack(p: int, n: int)
    requires IsInt64(p) && IsInt64(n)
    ensures IsInt64(Wrap1(n - p)) && Wrap1(p + Wrap1(n - p)) == n
    ensures Wrap1(n - p) == 0 <==> n == p
  {
  }

  // ---- Columns -----------------------------------------------------------------------------

  /** An integer column: the value, or its difference from the previous row. */
  function EncodeInt(n: int, prev: Option<int>): string {
    match prev
    case None => IntText(n)
    case Some(p) =>
      var delta := Wrap1(n - p);
      if delta == 0 then "0" else DeltaText(delta)
  }

  /** A non-zero difference, always with its sign. */
  function DeltaText(delta: int): string {
    if delta > 0 then ['+'] + NatText(delta) else IntText(delta)
  }

  predicate HasSign(s: string) {
    s != "" && (s[0] == '+' || s[0] == '-')
  }

  /** decodeDeltaInt: without a sign the text is an absolute value. */
  function DecodeInt(s: string, prev: Option<int>): (r: Option<int>)
    requires prev.Some? ==> IsInt64(prev.value)
    ensures r.Some? ==> IsInt64(r.value)
  {
    var n := ParseInt(s);
    if prev.Some? && HasSign(s) && n.Some? then Some(Wrap1(prev.value + n.value)) else n
  }

  lemma ZeroDecodes(p: int)
    requires IsInt64(p)
    ensures DecodeInt("0", Some(p)) == Some(0)
  {
    ParsePlain(0);
    assert NatText(0) == "0";
  }

  lemma DeltaTextBack(delta: int)
    requires IsInt64(delta) && delta != 0
    ensures HasSign(DeltaText(delta)) && ParseInt(DeltaText(delta)) == Some(delta)
  {
    if delta > 0 { ParseSigned('+', delta); } else { ParseSigned('-', -delta); }
  }

  lemma DeltaDecodes(delta: int, p: int)
    requires IsInt64(delta) && delta != 0 && IsInt64(p)
    ensures DecodeInt(DeltaText(delta), Some(p)) == Some(Wrap1(p + delta))
  {
    DeltaTextBack(delta);
    var s := DeltaText(delta);
    assert ParseInt(s).value == delta;
  }

  /** What a delta column decodes to, ep and dp being the previous values on the two sides:
      an unchanged value is written "0" and read back as an absolute 0. */
  function DeltaBack(n: int, ep: int, dp: int): int {
    if n == ep then 0 else Wrap1(dp + Wrap1(n - ep))
  }

  lemma EncodedDelta(n: int, ep: int)
    ensures Wrap1(n - ep) == 0 ==> EncodeInt(n, Some(ep)) == "0"
    ensures Wrap1(n - ep) != 0 ==> EncodeInt(n, Some(ep)) == DeltaText(Wrap1(n - ep))
  {
  }

  lemma DeltaColumn(n: int, ep: int, dp: int)
    requires IsInt64(n) && IsInt64(ep) && IsInt64(dp)
    ensures DecodeInt(EncodeInt(n, Some(ep)), Some(dp)) == Some(DeltaBack(n, ep, dp))
  {
    WrapBack(ep, n);
    EncodedDelta(n, ep);
    var s, delta := EncodeInt(n, Some(ep)), Wrap1(n - ep);
    if n == ep {
      assert DecodeInt(s, Some(dp)) == Some(0) by { ZeroDecodes(dp); }
    } else {
      assert DecodeInt(s, Some(dp)) == Some(Wrap1(dp + delta)) by { DeltaDecodes(delta, dp); }
    }
  }

  lemma FirstColumn(n: int)
    requires IsInt64(n)
    ensures DecodeInt(EncodeInt(n, None), None) == Some(n)
  {
    ParseIntText(n);
  }

  function EncodeStatus(s: string, prev: Option<string>): string {
    if prev == Some(s) then "=" else s
  }

  function DecodeStatus(s: string, prev: Option<string>): string {
    if s == "=" && prev.Some? then prev.value else s
  }

  const SECOND := 1_000_000_000
  const MILLI := 1_000_000

  /** time.Sub saturates at the limits of a Duration. */
  function Sub(t: int, base: int): int {
    var d := t - base;
    if d < MIN_INT64 then MIN_INT64 else if d > MAX_INT64 then MAX_INT64 else d
  }

  /** Go's division of a Duration truncates toward zero. */
  function Millis(d: int): int {
    if d >= 0 then d / MILLI else -(-d / MILLI)
  }

  function EncodeTime(t: int, base: int): string { IntText(Millis(Sub(t, base))) }

  function DecodeTime(s: string, base: int): Option<int> {
    var ms := ParseInt(s);
    if ms.Some? then Some(base + Wrap(ms.value * MILLI)) else None
  }

  /** The base as its header line tells it: whole seconds. */
  function HeaderBase(t: int): int { t - t % SECOND }

  /** A timestamp survives exactly when it is a whole number of milliseconds that a Duration from the base can hold. */
  predicate TimeKept(t: int, base: int) {
    IsInt64(t - base) && (t - base) % 1_000_000 == 0
  }

  /** Truncation to milliseconds loses nothing exactly on whole milliseconds. */
  lemma MillisBack(d: int)
    requires IsInt64(d)
    ensures IsInt64(Millis(d)) && IsInt64(Millis(d) * MILLI)
    ensures Millis(d) * MILLI == d <==> d % MILLI == 0
  {
    var q, r := (if d >= 0 then d else -d) / MILLI, (if d >= 0 then d else -d) % MILLI;
    assert Millis(d) == if d >= 0 then q else -q;
    assert q * MILLI + r == if d >= 0 then d else -d;
  }

  // ---- Rows ------------------------------------------------------------------------------------

  predicate TypedPrev(prev: Option<Row>) {
    prev.Some? ==> Typed(prev.value)
  }

  function Counter(prev: Option<Row>, k: nat): (n: Option<int>)
    requires TypedPrev(prev) && k < COUNTER_COLUMNS
    ensures n.Some? ==> IsInt64(n.value)
  {
    if prev.Some? then Some(prev.value.counters[k]) else None
  }

  function Status(prev: Option<Row>): Option<string> {
    if prev.Some? then Some(prev.value.status) else None
  }

  /** The integer cells of a row. */
  function EncodeCounters(r: Row, prev: Option<Row>): (cells: seq<string>)
    requires Typed(r) && TypedPrev(prev)
    ensures |cells| == COUNTER_COLUMNS
  {
    seq(COUNTER_COLUMNS, k requires 0 <= k < COUNTER_COLUMNS => EncodeInt(r.counters[k], Counter(prev, k)))
  }

  function EncodeCells(r: Row, prev: Option<Row>, base: int): (cells: seq<string>)
    requires Typed(r) && TypedPrev(prev)
    ensures |cells| == 2 + COUNTER_COLUMNS
  {
    [EncodeTime(r.time, base), EncodeStatus(r.status, Status(prev))] + EncodeCounters(r, prev)
  }

  function DecodeCounters(cells: seq<string>, prev: Option<Row>, k: nat): (r: Option<seq<int>>)
    requires |cells| == COUNTER_COLUMNS && k <= COUNTER_COLUMNS && TypedPrev(prev)
    ensures r.Some? ==> |r.value| == COUNTER_COLUMNS - k && forall i :: 0 <= i < |r.value| ==> IsInt64(r.value[i])
    decreases COUNTER_COLUMNS - k
  {
    if k == COUNTER_COLUMNS then Some([])
    else
      var n, rest := DecodeInt(cells[k], Counter(prev, k)), DecodeCounters(cells, prev, k + 1);
      if n.Some? && rest.Some? then Some([n.value] + rest.value) else None
  }

  function DecodeCells(cells: seq<string>, prev: Option<Row>, base: int): (r: Option<Row>)
    requires TypedPrev(prev)
    ensures r.Some? ==> Typed(r.value)
  {
    if |cells| != 2 + COUNTER_COLUMNS then None
    else
      var time, counters := DecodeTime(cells[0], base), DecodeCounters(cells[2..], prev, 0);
      if time.None? || counters.None? then None
      else Some(Row(time.value, DecodeStatus(cells[1], Status(prev)), counters.value))
  }

  /** How a counter cell reads: with a sign as a difference from the row before, if there is one; else as a value. */
  predicate ReadsAs(cell: string, prev: Option<int>, n: int) {
    && ParseInt(cell).Some?
    && n == if prev.Some? && HasSign(cell) then Wrap1(prev.value + ParseInt(cell).value) else ParseInt(cell).value
  }

  lemma ColumnIff(cell: string, prev: Option<int>)
    requires prev.Some? ==> IsInt64(prev.value)
    ensures DecodeInt(cell, prev).Some? <==> ParseInt(cell).Some?
    ensures DecodeInt(cell, prev).Some? ==> ReadsAs(cell, prev, DecodeInt(cell, prev).value)
  {
  }

  /** The cells as the columns read them. */
  function Columns(cells: seq<string>, prev: Option<Row>): (ns: seq<Option<int>>)
    requires |cells| == COUNTER_COLUMNS && TypedPrev(prev)
    ensures |ns| == COUNTER_COLUMNS
  {
    seq(COUNTER_COLUMNS, k requires 0 <= k < COUNTER_COLUMNS => DecodeInt(cells[k], Counter(prev, k)))
  }

  /** The values from the k-th column on, if all of them were read. */
  predicate AllRead(ns: seq<Option<int>>, k: nat, r: Option<seq<int>>)
    requires k <= |ns| && (r.Some? ==> |r.value| == |ns| - k)
  {
    && (r.Some? <==> forall i :: k <= i < |ns| ==> ns[i].Some?)
    && (r.Some? ==> forall i :: k <= i < |ns| ==> ns[i] == Some(r.value[i - k]))
  }

  lemma OneMoreRead(ns: seq<Option<int>>, k: nat, rest: Option<seq<int>>, r: Option<seq<int>>)
    requires k < |ns| && (rest.Some? ==> |rest.value| == |ns| - k - 1) && AllRead(ns, k + 1, rest)
    requires r == if ns[k].Some? && rest.Some? then Some([ns[k].value] + rest.value) else None
    ensures AllRead(ns, k, r)
  {
  }

  lemma CountersStep(cells: seq<string>, prev: Option<Row>, ns: seq<Option<int>>, k: nat)
    requires |cells| == COUNTER_COLUMNS && k < COUNTER_COLUMNS && TypedPrev(prev) && ns == Columns(cells, prev)
    ensures var rest := DecodeCounters(cells, prev, k + 1);
      DecodeCounters(cells, prev, k) == if ns[k].Some? && rest.Some? then Some([ns[k].value] + rest.value) else None
  {
    assert ns[k] == DecodeInt(cells[k], Counter(prev, k));
  }

  lemma {:induction false} CountersIff(cells: seq<string>, prev: Option<Row>, ns: seq<Option<int>>, k: nat)
    requires |cells| == COUNTER_COLUMNS && k <= COUNTER_COLUMNS && TypedPrev(prev) && ns == Columns(cells, prev)
    ensures AllRead(ns, k, DecodeCounters(cells, prev, k))
    decreases COUNTER_COLUMNS - k
  {
    if k < COUNTER_COLUMNS {
      CountersIff(cells, prev, ns, k + 1);
      CountersStep(cells, prev, ns, k);
      OneMoreRead(ns, k, DecodeCounters(cells, prev, k + 1), DecodeCounters(cells, prev, k));
    }
  }

  predicate Numbers(cells: seq<string>) {
    forall k :: 0 <= k < |cells| ==> ParseInt(cells[k]).Some?
  }

  /** The counter cells are read exactly when all of them are numbers, each in its own column. */
  lemma CounterCellsIff(cells: seq<string>, prev: Option<Row>)
    requires |cells| == COUNTER_COLUMNS && TypedPrev(prev)
    ensures var r := DecodeCounters(cells, prev, 0);
      && (r.Some? <==> Numbers(cells))
      && (r.Some? ==> forall k :: 0 <= k < COUNTER_COLUMNS ==> ReadsAs(cells[k], Counter(prev, k), r.value[k]))
  {
    var ns := Columns(cells, prev);
    CountersIff(cells, prev, ns, 0);
    forall k | 0 <= k < COUNTER_COLUMNS
      ensures ns[k].Some? <==> ParseInt(cells[k]).Some?
      ensures ns[k].Some? ==> ReadsAs(cells[k], Counter(prev, k), ns[k].value)
    {
      ColumnIff(cells[k], Counter(prev, k));
    }
  }

  lemma TimeIff(cell: string, base: int)
    ensures DecodeTime(cell, base)
      == if ParseInt(cell).Some? then Some(base + Wrap(ParseInt(cell).value * 1_000_000)) else None
  {
  }

  /** A row is read from exactly thirteen cells, the first and all from the third on being numbers; anything else is an
      error. */
  lemma CellsIff(cells: seq<string>, prev: Option<Row>, base: int)
    requires TypedPrev(prev)
    ensures DecodeCells(cells, prev, base).Some? <==>
      |cells| == 13 && ParseInt(cells[0]).Some? && Numbers(cells[2..])
    ensures DecodeCells(cells, prev, base).Some? ==>
      var r := DecodeCells(cells, prev, base).value;
      && r.time == base + Wrap(ParseInt(cells[0]).value * 1_000_000)
      && r.status == (if cells[1] == "=" && prev.Some? then prev.value.status else cells[1])
      && forall k :: 0 <= k < 11 ==> ReadsAs(cells[2..][k], Counter(prev, k), r.counters[k])
  {
    if |cells| == 13 {
      TimeIff(cells[0], base);
      CounterCellsIff(cells[2..], prev);
    }
  }

  lemma SignedText(delta: int)
    requires delta != 0
    ensures DeltaText(delta) == if delta > 0 then "+" + NatText(delta) else "-" + NatText(-delta)
  {
  }

  /** How a counter is written: as it is in a first row; later as "0" when it is unchanged, and else as the difference
      with its sign. */
  lemma CounterText(n: int, p: int)
    requires IsInt64(n) && IsInt64(p) && IsInt64(n - p)
    ensures EncodeInt(n, None) == IntText(n)
    ensures n == p ==> EncodeInt(n, Some(p)) == "0"
    ensures n != p ==> EncodeInt(n, Some(p)) == if n > p then "+" + NatText(n - p) else "-" + NatText(p - n)
  {
    EncodedDelta(n, p);
    if n != p { SignedText(n - p); }
  }

  /** No counter repeats a non-zero value. */
  predicate NoRepeat(r: Row, p: Row)
    requires Typed(r) && Typed(p)
  {
    forall k :: 0 <= k < COUNTER_COLUMNS ==> r.counters[k] == p.counters[k] ==> r.counters[k] == 0
  }

  /** What a row must be, after its predecessor, to survive encoding and decoding. */
  predicate Survives(r: Row, prev: Option<Row>, base: int)
    requires Typed(r) && TypedPrev(prev)
  {
    && TimeKept(r.time, base)
    && (prev.Some? ==> NoRepeat(r, prev.value) && (r.status == "=" ==> prev.value.status == "="))
  }

  /** Both sides have a previous row, or neither has. */
  predicate Paired(ep: Option<Row>, dp: Option<Row>) {
    TypedPrev(ep) && TypedPrev(dp) && (ep.Some? <==> dp.Some?)
  }

  /** The value a counter decodes to; ep is the previous row as encoded, dp as decoded. */
  function CounterBack(r: Row, ep: Option<Row>, dp: Option<Row>, k: nat): int
    requires Typed(r) && Paired(ep, dp) && k < COUNTER_COLUMNS
  {
    if ep.Some? then DeltaBack(r.counters[k], ep.value.counters[k], dp.value.counters[k]) else r.counters[k]
  }

  lemma CounterDecodes(r: Row, ep: Option<Row>, dp: Option<Row>, k: nat)
    requires Typed(r) && Paired(ep, dp) && k < COUNTER_COLUMNS
    ensures DecodeInt(EncodeCounters(r, ep)[k], Counter(dp, k)) == Some(CounterBack(r, ep, dp, k))
  {
    if ep.Some? {
      DeltaColumn(r.counters[k], ep.value.counters[k], dp.value.counters[k]);
    } else {
      FirstColumn(r.counters[k]);
    }
  }

  /** The values the counters from k on decode to. */
  function CountersBack(r: Row, ep: Option<Row>, dp: Option<Row>, k: nat): (back: seq<int>)
    requires Typed(r) && Paired(ep, dp) && k <= COUNTER_COLUMNS
    ensures |back| == COUNTER_COLUMNS - k
    ensures forall i {:trigger back[i]} :: 0 <= i < |back| ==> back[i] == CounterBack(r, ep, dp, k + i)
  {
    seq(COUNTER_COLUMNS - k, i requires 0 <= i < COUNTER_COLUMNS - k => CounterBack(r, ep, dp, k + i))
  }

  lemma BackCons(r: Row, ep: Option<Row>, dp: Option<Row>, k: nat)
    requires Typed(r) && Paired(ep, dp) && k < COUNTER_COLUMNS
    ensures CountersBack(r, ep, dp, k) == [CounterBack(r, ep, dp, k)] + CountersBack(r, ep, dp, k + 1)
  {
    var rest := CountersBack(r, ep, dp, k + 1);
    forall i | 0 <= i < COUNTER_COLUMNS - k
      ensures CountersBack(r, ep, dp, k)[i] == ([CounterBack(r, ep, dp, k)] + rest)[i]
    {
      if i > 0 { assert rest[i - 1] == CounterBack(r, ep, dp, k + 1 + (i - 1)); }
    }
  }

  lemma {:induction false} CountersDecode(cells: seq<string>, r: Row, ep: Option<Row>, dp: Option<Row>, k: nat)
    requires Typed(r) && Paired(ep, dp) && k <= COUNTER_COLUMNS && |cells| == COUNTER_COLUMNS
    requires forall i ::
      k <= i < COUNTER_COLUMNS ==> DecodeInt(cells[i], Counter(dp, i)) == Some(CounterBack(r, ep, dp, i))
    ensures DecodeCounters(cells, dp, k) == Some(CountersBack(r, ep, dp, k))
    decreases COUNTER_COLUMNS - k
  {
    if k < COUNTER_COLUMNS {
      CountersDecode(cells, r, ep, dp, k + 1);
      BackCons(r, ep, dp, k);
    }
  }

  /** The status a row decodes to. */
  function StatusBack(s: string, ep: Option<Row>, dp: Option<Row>): string {
    if dp.Some? && (s == "=" || Status(ep) == Some(s)) then dp.value.status else s
  }

  /** The row that a row decodes to: base is the encoder's base, from the one told by the header. */
  function RowBack(r: Row, ep: Option<Row>, dp: Option<Row>, base: int, from: int): Row
    requires Typed(r) && Paired(ep, dp)
  {
    Row(from + Millis(Sub(r.time, base)) * MILLI, StatusBack(r.status, ep, dp), CountersBack(r, ep, dp, 0))
  }

  lemma TimeDecodes(t: int, base: int, from: int)
    ensures DecodeTime(EncodeTime(t, base), from) == Some(from + Millis(Sub(t, base)) * MILLI)
  {
    MillisBack(Sub(t, base));
    ParseIntText(Millis(Sub(t, base)));
  }

  lemma CounterCellsDecode(r: Row, ep: Option<Row>, dp: Option<Row>)
    requires Typed(r) && Paired(ep, dp)
    ensures DecodeCounters(EncodeCounters(r, ep), dp, 0) == Some(CountersBack(r, ep, dp, 0))
  {
    var cells := EncodeCounters(r, ep);
    forall k | 0 <= k < COUNTER_COLUMNS
      ensures DecodeInt(cells[k], Counter(dp, k)) == Some(CounterBack(r, ep, dp, k))
    {
      CounterDecodes(r, ep, dp, k);
    }
    CountersDecode(cells, r, ep, dp, 0);
  }

  lemma StatusDecodes(s: string, ep: Option<Row>, dp: Option<Row>)
    requires ep.Some? <==> dp.Some?
    ensures DecodeStatus(EncodeStatus(s, Status(ep)), Status(dp)) == StatusBack(s, ep, dp)
  {
  }

  lemma CellsDecode(time: string, status: string, counters: seq<string>, dp: Option<Row>, from: int, back: Row)
    requires TypedPrev(dp) && |counters| == COUNTER_COLUMNS
    requires DecodeTime(time, from) == Some(back.time)
    requires DecodeStatus(status, Status(dp)) == back.status
    requires DecodeCounters(counters, dp, 0) == Some(back.counters)
    ensures DecodeCells([time, status] + counters, dp, from) == Some(back)
  {
    assert ([time, status] + counters)[2..] == counters;
  }

  /** Every encoded row decodes, to RowBack. */
  lemma RowDecodes(r: Row, ep: Option<Row>, dp: Option<Row>, base: int, from: int)
    requires Typed(r) && Paired(ep, dp)
    ensures DecodeCells(EncodeCells(r, ep, base), dp, from) == Some(RowBack(r, ep, dp, base, from))
  {
    var back := RowBack(r, ep, dp, base, from);
    assert DecodeTime(EncodeTime(r.time, base), from) == Some(back.time) by {
      TimeDecodes(r.time, base, from);
    }
    assert DecodeStatus(EncodeStatus(r.status, Status(ep)), Status(dp)) == back.status by {
      StatusDecodes(r.status, ep, dp);
    }
    assert DecodeCounters(EncodeCounters(r, ep), dp, 0) == Some(back.counters) by {
      CounterCellsDecode(r, ep, dp);
    }
    CellsDecode(EncodeTime(r.time, base), EncodeStatus(r.status, Status(ep)), EncodeCounters(r, ep), dp, from, back);
  }

  lemma CountersKept(r: Row, p: Option<Row>)
    requires Typed(r) && TypedPrev(p)
    ensures CountersBack(r, p, p, 0) == r.counters <==> (p.Some? ==> NoRepeat(r, p.value))
  {
    var back := CountersBack(r, p, p, 0);
    forall k | 0 <= k < COUNTER_COLUMNS
      ensures back[k] == r.counters[k] <==> (p.Some? && r.counters[k] == p.value.counters[k] ==> r.counters[k] == 0)
    {
      assert back[k] == CounterBack(r, p, p, k);
      if p.Some? { WrapBack(p.value.counters[k], r.counters[k]); }
    }
  }

  /** After a predecessor that came back as it was, a row comes back as it was exactly when it survives. */
  lemma RowKept(r: Row, p: Option<Row>, base: int)
    requires Typed(r) && TypedPrev(p)
    ensures RowBack(r, p, p, base, base) == r <==> Survives(r, p, base)
  {
    TimeKeptIff(r.time, base);
    CountersKept(r, p);
  }

  lemma TimeKeptIff(t: int, base: int)
    ensures base + Millis(Sub(t, base)) * MILLI == t <==> TimeKept(t, base)
  {
    MillisBack(Sub(t, base));
  }
}
