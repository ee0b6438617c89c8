/** No edit of a context patch is lost or made up (cli/internal/diff/patch.go). */
module PatchEdits {
  import opened Strings
  import opened LineDiff
  import opened PatchSections
  import opened ContextSearch
  import opened ContextParser

  /** The texts of the ops of a kind, in order. */
  function Texts(ops: seq<Op>, kind: Kind): seq<Line> {
    if ops == [] then []
    else
      var before, o := Texts(ops[..|ops| - 1], kind), ops[|ops| - 1];
      if o.kind == kind then before + [o.text] else before
  }

  /** The lines that a chunk deletes, or inserts. */
  function Part(c: Chunk, kind: Kind): seq<Line> {
    match kind
    case Del => c.del
    case Ins => c.ins
    case Keep => []
  }

  /** All lines that the chunks delete, or insert, in order. */
  function Edited(cs: seq<Chunk>, kind: Kind): seq<Line> {
    if cs == [] then [] else Edited(cs[..|cs| - 1], kind) + Part(cs[|cs| - 1], kind)
  }

  lemma EditedSnoc(cs: seq<Chunk>, c: Chunk, kind: Kind)
    ensures Edited(cs + [c], kind) == Edited(cs, kind) + Part(c, kind)
  {
    assert (cs + [c])[..|cs|] == cs;
  }

  lemma {:induction false} EditedConcat(a: seq<Chunk>, b: seq<Chunk>, kind: Kind)
    ensures Edited(a + b, kind) == Edited(a, kind) + Edited(b, kind)
  {
    if b == [] {
      assert a + b == a;
    } else {
      var init, last := b[..|b| - 1], b[|b| - 1];
      EditedConcat(a, init, kind);
      assert a + b == (a + init) + [last];
      EditedSnoc(a + init, last, kind);
      Regroup(Edited(a, kind), Edited(init, kind), Part(last, kind));
    }
  }

  lemma {:induction false} EditedShift(cs: seq<Chunk>, offset: nat, kind: Kind)
    ensures Edited(Shift(cs, offset), kind) == Edited(cs, kind)
  {
    if cs != [] {
      EditedShift(cs[..|cs| - 1], offset, kind);
      assert Shift(cs, offset)[..|cs| - 1] == Shift(cs[..|cs| - 1], offset);
    }
  }

  lemma FlushedEdits(s: Scan)
    requires |s.del| <= |s.oldLines|
    ensures Edited(Flushed(s), Del) == Edited(s.chunks, Del) + s.del
    ensures Edited(Flushed(s), Ins) == Edited(s.chunks, Ins) + s.ins
  {
    if s.ins != [] || s.del != [] {
      EditedSnoc(s.chunks, Chunk(|s.oldLines| - |s.del|, s.del, s.ins), Del);
      EditedSnoc(s.chunks, Chunk(|s.oldLines| - |s.del|, s.del, s.ins), Ins);
    } else {
      assert s.chunks + [] == s.chunks;
    }
  }

  /** The edited lines of a kind that a scan has met: those of its chunks and those it is collecting. */
  function Met(s: Scan, kind: Kind): seq<Line> {
    Edited(s.chunks, kind) + match kind case Del => s.del case Ins => s.ins case Keep => []
  }

  lemma FlushMet(s: Scan, kind: Kind)
    requires |s.del| <= |s.oldLines| && !kind.Keep?
    ensures Met(s.(chunks := Flushed(s), del := [], ins := []), kind) == Met(s, kind)
  {
    FlushedEdits(s);
    assert Edited(Flushed(s), kind) + [] == Edited(Flushed(s), kind);
  }

  lemma DelMet(t: Scan, text: Line, r: Scan)
    requires r.chunks == t.chunks && r.del == t.del + [text]
    ensures Met(r, Del) == Met(t, Del) + [text]
  {
  }

  lemma InsMet(t: Scan, text: Line, r: Scan)
    requires r.chunks == t.chunks && r.ins == t.ins + [text]
    ensures Met(r, Ins) == Met(t, Ins) + [text]
  {
  }

  lemma ScanOpEdits(s: Scan, o: Op, kind: Kind)
    requires |s.del| <= |s.oldLines| && !kind.Keep?
    ensures Met(ScanOp(s, o), kind) == if o.kind == kind then Met(s, kind) + [o.text] else Met(s, kind)
  {
    FlushMet(s, kind);
    if o.kind == kind && kind.Del? { DelMet(s, o.text, ScanOp(s, o)); }
    if o.kind == kind && kind.Ins? { InsMet(s, o.text, ScanOp(s, o)); }
  }

  lemma {:induction false} ScanEdits(ops: seq<Op>, kind: Kind)
    requires !kind.Keep?
    ensures Met(ScanAll(ops), kind) == Texts(ops, kind)
  {
    if ops != [] {
      ScanEdits(ops[..|ops| - 1], kind);
      ScanOpEdits(ScanAll(ops[..|ops| - 1]), ops[|ops| - 1], kind);
    }
  }

  /** The texts of the lines from i to j - 1 that start with the character. */
  function Starting(lines: seq<string>, i: nat, j: nat, c: char): seq<Line>
    requires j <= |lines|
    decreases j - i
  {
    if i >= j then []
    else
      var before := Starting(lines, i, j - 1, c);
      if lines[j - 1] != "" && lines[j - 1][0] == c then before + [lines[j - 1][1..]] else before
  }

  lemma {:induction false} StartingJoin(lines: seq<string>, i: nat, j: nat, k: nat, c: char)
    requires i <= j <= k <= |lines|
    ensures Starting(lines, i, k, c) == Starting(lines, i, j, c) + Starting(lines, j, k, c)
    decreases k - j
  {
    if j < k { StartingJoin(lines, i, j, k - 1, c); }
  }

  lemma {:induction false} NoneStarting(lines: seq<string>, i: nat, j: nat, c: char)
    requires i <= j <= |lines| && forall k :: i <= k < j ==> !(lines[k] != "" && lines[k][0] == c)
    ensures Starting(lines, i, j, c) == []
    decreases j - i
  {
    if i < j { NoneStarting(lines, i, j - 1, c); }
  }

  /** A body line deletes or inserts its text when it starts with a minus or a plus, and otherwise keeps it: its text is
      what follows the first character if that is a plus, a minus or a blank, and else the whole line. */
  lemma BodyLine(line: string)
    ensures HasPrefix(line, "-") ==> Classify(line) == Op(Del, line[1..])
    ensures HasPrefix(line, "+") ==> Classify(line) == Op(Ins, line[1..])
    ensures HasPrefix(line, " ") ==> Classify(line) == Op(Keep, line[1..])
    ensures !HasPrefix(line, "-") && !HasPrefix(line, "+") && !HasPrefix(line, " ") ==> Classify(line) == Op(Keep, line)
  {
  }

  lemma MarkedLine(line: string, kind: Kind, mark: char)
    requires (kind.Del? && mark == '-') || (kind.Ins? && mark == '+')
    ensures Classify(line).kind == kind <==> line != "" && line[0] == mark
    ensures Classify(line).kind == kind ==> Classify(line).text == line[1..]
  {
  }

  lemma TextsSnoc(ops: seq<Op>, o: Op, kind: Kind)
    ensures Texts(ops + [o], kind) == if o.kind == kind then Texts(ops, kind) + [o.text] else Texts(ops, kind)
  {
    assert (ops + [o])[..|ops|] == ops;
  }

  lemma {:induction false} BodyEdits(lines: seq<string>, i: nat, j: nat, kind: Kind, mark: char)
    requires i <= j <= |lines| && ((kind.Del? && mark == '-') || (kind.Ins? && mark == '+'))
    ensures Texts(Body(lines, i, j), kind) == Starting(lines, i, j, mark)
    decreases j
  {
    if i < j {
      BodyEdits(lines, i, j - 1, kind, mark);
      TextsSnoc(Body(lines, i, j - 1), Classify(lines[j - 1]), kind);
      MarkedLine(lines[j - 1], kind, mark);
    }
  }

  lemma ChunkEdits(lines: seq<string>, i: nat, j: nat, kind: Kind, mark: char)
    requires i <= j <= |lines| && ((kind.Del? && mark == '-') || (kind.Ins? && mark == '+'))
    ensures Edited(Flushed(ScanAll(Body(lines, i, j))), kind) == Starting(lines, i, j, mark)
  {
    ScanEdits(Body(lines, i, j), kind);
    FlushedEdits(ScanAll(Body(lines, i, j)));
    BodyEdits(lines, i, j, kind, mark);
  }

  lemma SectionEnds(lines: seq<string>, i: nat, mark: char)
    requires i <= |lines| && (mark == '-' || mark == '+')
    ensures Starting(lines, i, Peek(lines, i).end, mark) == Starting(lines, i, SectionEnd(lines, i), mark)
  {
    var e, end := SectionEnd(lines, i), Peek(lines, i).end;
    StartingJoin(lines, i, e, end, mark);
    NoneStarting(lines, e, end, mark);
  }

  lemma SectionEdits(lines: seq<string>, i: nat, kind: Kind, mark: char)
    requires i <= |lines| && ((kind.Del? && mark == '-') || (kind.Ins? && mark == '+'))
    ensures Edited(Peek(lines, i).chunks, kind) == Starting(lines, i, Peek(lines, i).end, mark)
  {
    ChunkEdits(lines, i, SectionEnd(lines, i), kind, mark);
    SectionEnds(lines, i, mark);
  }

  /** The chunks of a pass: those before it and those of its section, moved to their place. */
  lemma PassChunks(lines: seq<string>, file: seq<Line>, c: Cursor) returns (offset: nat)
    requires c.at < |lines| && c.index <= |file| && Pass(lines, file, c).Ok?
    ensures var section := Peek(lines, HeaderAt(lines, c.at).at);
      Pass(lines, file, c).value.chunks == c.chunks + Shift(section.chunks, offset)
      && Pass(lines, file, c).value.at == section.end
  {
    var h := HeaderAt(lines, c.at);
    var section := Peek(lines, h.at);
    offset := Search(file, section.context, Seek(file, c.index, h.def).index, section.eof).index;
  }

  lemma MovedEdits(before: seq<Chunk>, chunks: seq<Chunk>, offset: nat, kind: Kind)
    ensures Edited(before + Shift(chunks, offset), kind) == Edited(before, kind) + Edited(chunks, kind)
  {
    EditedConcat(before, Shift(chunks, offset), kind);
    EditedShift(chunks, offset, kind);
  }

  lemma HeaderStarts(lines: seq<string>, at: nat, end: nat, mark: char)
    requires at <= |lines| && HeaderAt(lines, at).at <= end <= |lines| && (mark == '-' || mark == '+')
    ensures Starting(lines, at, end, mark) == Starting(lines, HeaderAt(lines, at).at, end, mark)
  {
    var body := HeaderAt(lines, at).at;
    NoneStarting(lines, at, body, mark);
    StartingJoin(lines, at, body, end, mark);
    assert [] + Starting(lines, body, end, mark) == Starting(lines, body, end, mark);
  }

  lemma PassEdits(lines: seq<string>, file: seq<Line>, c: Cursor, kind: Kind, mark: char)
    requires c.at < |lines| && c.index <= |file| && Pass(lines, file, c).Ok?
    requires (kind.Del? && mark == '-') || (kind.Ins? && mark == '+')
    ensures var r := Pass(lines, file, c).value;
      Edited(r.chunks, kind) == Edited(c.chunks, kind) + Starting(lines, c.at, r.at, mark)
  {
    var offset := PassChunks(lines, file, c);
    var at := HeaderAt(lines, c.at).at;
    SectionEdits(lines, at, kind, mark);
    HeaderStarts(lines, c.at, Peek(lines, at).end, mark);
    MovedEdits(c.chunks, Peek(lines, at).chunks, offset, kind);
  }

  /** The chunks of an update delete exactly the lines that its minus lines name and insert exactly those of its plus
      lines, each once and in the order of the patch. */
  lemma {:induction false} UpdateKeepsEdits(lines: seq<string>, file: seq<Line>, c: Cursor, kind: Kind, mark: char)
    requires c.at <= |lines| && c.index <= |file| && UpdateRun(lines, file, c).Ok?
    requires (kind.Del? && mark == '-') || (kind.Ins? && mark == '+')
    ensures var r := UpdateRun(lines, file, c).value;
      Edited(r.chunks, kind) == Edited(c.chunks, kind) + Starting(lines, c.at, r.at, mark)
    decreases |lines| - c.at
  {
    if !UpdateDone(lines, c.at) {
      var next, r := Pass(lines, file, c).value, UpdateRun(lines, file, c).value;
      PassEdits(lines, file, c, kind, mark);
      UpdateKeepsEdits(lines, file, next, kind, mark);
      StartingJoin(lines, c.at, next.at, r.at, mark);
      var a, b, d := Edited(c.chunks, kind), Starting(lines, c.at, next.at, mark), Starting(lines, next.at, r.at, mark);
      assert a + b + d == a + (b + d);
    }
  }
}
