/** Sections and chunks of the context patch format: peekNextSection and getUpdatedFile
    of cli/internal/diff/patch.go. */
module PatchSections {
  import opened Strings
  import opened LineDiff

  /** Replace the lines del, which start at line orig, by ins. */
  datatype Chunk = Chunk(orig: nat, del: seq<Line>, ins: seq<Line>)

  function End(c: Chunk): nat { c.orig + |c.del| }

  // ---- What a list of chunks means ----------------------------------------------------

  /** All chunks replaced at once: the last one first, so that positions stay those of the file. */
  function Splice(file: seq<Line>, cs: seq<Chunk>): seq<Line>
    requires InOrder(cs, |file|)
    decreases |cs|
  {
    if cs == [] then file
    else
      var c := cs[|cs| - 1];
      Splice(file[..c.orig], cs[..|cs| - 1]) + c.ins + file[End(c)..]
  }

  /** The chunks lie one after the other within the first n lines. */
  predicate InOrder(cs: seq<Chunk>, n: nat)
    decreases |cs|
  {
    cs == [] || (End(cs[|cs| - 1]) <= n && InOrder(cs[..|cs| - 1], cs[|cs| - 1].orig))
  }

  /** The chunk deletes exactly the lines it names. */
  predicate Names(c: Chunk, file: seq<Line>) {
    End(c) <= |file| && file[c.orig..End(c)] == c.del
  }

  predicate AllNamed(cs: seq<Chunk>, file: seq<Line>) {
    forall k :: 0 <= k < |cs| ==> Names(cs[k], file)
  }

  /** In order, with at least one line between neighbours, each deleting exactly the lines it names. */
  predicate Faithful(cs: seq<Chunk>, file: seq<Line>): (r: bool)
    ensures r ==> InOrder(cs, |file|)
    decreases |cs|
  {
    cs == [] ||
      var init, last := cs[..|cs| - 1], cs[|cs| - 1];
      && Names(last, file)
      && (init != [] ==> End(init[|init| - 1]) < last.orig)
      && Faithful(init, file[..last.orig])
  }

  lemma {:induction false} FaithfulAt(cs: seq<Chunk>, file: seq<Line>, k: nat)
    requires Faithful(cs, file) && k < |cs|
    ensures Names(cs[k], file)
    ensures k > 0 ==> End(cs[k - 1]) < cs[k].orig
    decreases |cs|
  {
    var init, last := cs[..|cs| - 1], cs[|cs| - 1];
    if k < |cs| - 1 {
      FaithfulAt(init, file[..last.orig], k);
      assert file[..last.orig][init[k].orig..End(init[k])] == file[init[k].orig..End(init[k])];
    }
  }

  lemma FaithfulGrows(file: seq<Line>, cs: seq<Chunk>, tail: seq<Line>)
    requires Faithful(cs, file)
    ensures Faithful(cs, file + tail)
  {
    if cs != [] {
      var c := cs[|cs| - 1];
      assert (file + tail)[..c.orig] == file[..c.orig];
      assert (file + tail)[c.orig..End(c)] == file[c.orig..End(c)];
    }
  }

  lemma FaithfulSnoc(file: seq<Line>, cs: seq<Chunk>, c: Chunk)
    requires Names(c, file) && Faithful(cs, file[..c.orig])
    requires cs != [] ==> End(cs[|cs| - 1]) < c.orig
    ensures Faithful(cs + [c], file)
  {
    assert (cs + [c])[..|cs|] == cs;
  }

  lemma SpliceGrows(file: seq<Line>, cs: seq<Chunk>, tail: seq<Line>)
    requires InOrder(cs, |file|)
    ensures InOrder(cs, |file + tail|)
    ensures Splice(file + tail, cs) == Splice(file, cs) + tail
  {
    if cs != [] {
      var c := cs[|cs| - 1];
      assert (file + tail)[..c.orig] == file[..c.orig];
      assert (file + tail)[End(c)..] == file[End(c)..] + tail;
    }
  }

  lemma SpliceSnoc(file: seq<Line>, cs: seq<Chunk>, c: Chunk)
    requires End(c) <= |file| && InOrder(cs, c.orig)
    ensures InOrder(cs + [c], |file|)
    ensures Splice(file, cs + [c]) == Splice(file[..c.orig], cs) + c.ins + file[End(c)..]
  {
    assert (cs + [c])[..|cs|] == cs;
  }

  lemma {:induction false} InOrderWider(cs: seq<Chunk>, m: nat, n: nat)
    requires InOrder(cs, m) && m <= n
    ensures InOrder(cs, n)
  {
  }

  lemma {:induction false} InOrderAt(cs: seq<Chunk>, n: nat, k: nat)
    requires InOrder(cs, n) && k < |cs|
    ensures End(cs[k]) <= n && InOrder(cs[..k], cs[k].orig)
    ensures k > 0 ==> End(cs[k - 1]) <= cs[k].orig
    decreases |cs|
  {
    var init, last := cs[..|cs| - 1], cs[|cs| - 1];
    if k < |cs| - 1 {
      InOrderAt(init, last.orig, k);
      assert init[..k] == cs[..k];
    } else if k > 0 {
      assert init[|init| - 1] == cs[k - 1];
    }
  }

  // ---- Reading a section -----------------------------------------------------------------

  predicate EndsSection(s: string) {
    HasPrefix(s, "@@") || HasPrefix(s, "***")
  }

  predicate IsEof(s: string) {
    s == "*** End of File"
  }

  /** The edit a body line asks for; a line without a known prefix is kept whole. */
  function Classify(s: string): Op {
    if s == "" then Op(Keep, "")
    else if s[0] == '+' then Op(Ins, s[1..])
    else if s[0] == '-' then Op(Del, s[1..])
    else if s[0] == ' ' then Op(Keep, s[1..])
    else Op(Keep, s)
  }

  function SectionEnd(lines: seq<string>, i: nat): (e: nat)
    requires i <= |lines|
    ensures i <= e <= |lines|
    ensures e < |lines| ==> EndsSection(lines[e])
    ensures forall k :: i <= k < e ==> !EndsSection(lines[k])
    decreases |lines| - i
  {
    if i < |lines| && !EndsSection(lines[i]) then SectionEnd(lines, i + 1) else i
  }

  function Body(lines: seq<string>, i: nat, j: nat): (ops: seq<Op>)
    requires i <= j <= |lines|
    ensures |ops| == j - i
    decreases j
  {
    if i == j then [] else Body(lines, i, j - 1) + [Classify(lines[j - 1])]
  }

  /** The variables of the scanning loop. */
  datatype Scan = Scan(oldLines: seq<Line>, del: seq<Line>, ins: seq<Line>, chunks: seq<Chunk>, mode: Kind)

  function Pending(s: Scan): seq<Chunk>
    requires |s.del| <= |s.oldLines|
  {
    if s.ins != [] || s.del != [] then [Chunk(|s.oldLines| - |s.del|, s.del, s.ins)] else []
  }

  function Flushed(s: Scan): seq<Chunk>
    requires |s.del| <= |s.oldLines|
  {
    s.chunks + Pending(s)
  }

  function ScanOp(s: Scan, o: Op): (r: Scan)
    requires |s.del| <= |s.oldLines|
    ensures |r.del| <= |r.oldLines|
  {
    var t := if o.kind.Keep? && !s.mode.Keep? then s.(chunks := Flushed(s), del := [], ins := []) else s;
    match o.kind
    case Del => t.(del := t.del + [o.text], oldLines := t.oldLines + [o.text], mode := Del)
    case Ins => t.(ins := t.ins + [o.text], mode := Ins)
    case Keep => t.(oldLines := t.oldLines + [o.text], mode := Keep)
  }

  function ScanAll(ops: seq<Op>): (s: Scan)
    ensures |s.del| <= |s.oldLines|
    decreases |ops|
  {
    if ops == [] then Scan([], [], [], [], Keep)
    else ScanOp(ScanAll(ops[..|ops| - 1]), ops[|ops| - 1])
  }

  lemma ScanNext(lines: seq<string>, i: nat, j: nat)
    requires i <= j < |lines|
    ensures ScanAll(Body(lines, i, j + 1)) == ScanOp(ScanAll(Body(lines, i, j)), Classify(lines[j]))
  {
    var ops := Body(lines, i, j + 1);
    assert ops[..|ops| - 1] == Body(lines, i, j);
  }

  /** peekNextSection: the old side of the section, its chunks, where it ends, and the end-of-file marker. */
  datatype Section = Section(context: seq<Line>, chunks: seq<Chunk>, end: nat, eof: bool)

  function Peek(lines: seq<string>, i: nat): (s: Section)
    requires i <= |lines|
    ensures i <= s.end <= |lines|
  {
    var e := SectionEnd(lines, i);
    var scan := ScanAll(Body(lines, i, e));
    var eof := e < |lines| && IsEof(lines[e]);
    Section(scan.oldLines, Flushed(scan), if eof then e + 1 else e, eof)
  }

  /** The mode of a body line and its text without the mode character. */
  method ReadBodyLine(s: string) returns (mode: Kind, line: string)
    ensures Op(mode, line) == Classify(s)
  {
    mode, line := Keep, s;
    if |line| > 0 {
      match line[0]
      case '+' => mode := Ins;
      case '-' => mode := Del;
      case ' ' => mode := Keep;
      case _ => mode := Keep; line := " " + line;
    } else {
      mode := Keep;
      line := " ";
    }
    line := line[1..];
  }

  /** One pass of the scanning loop over a line of the given mode. */
  method Collect(s: Scan, mode: Kind, line: Line) returns (r: Scan)
    requires |s.del| <= |s.oldLines|
    ensures r == ScanOp(s, Op(mode, line))
  {
    var oldLines, delLines, insLines, chunks := s.oldLines, s.del, s.ins, s.chunks;
    if mode == Keep && s.mode != mode {
      if |insLines| > 0 || |delLines| > 0 {
        chunks := chunks + [Chunk(|oldLines| - |delLines|, delLines, insLines)];
      }
      delLines, insLines := [], [];
    }
    match mode {
      case Del =>
        delLines := delLines + [line];
        oldLines := oldLines + [line];
      case Ins =>
        insLines := insLines + [line];
      case Keep =>
        oldLines := oldLines + [line];
    }
    r := Scan(oldLines, delLines, insLines, chunks, mode);
  }

  method Finish(s: Scan) returns (chunks: seq<Chunk>)
    requires |s.del| <= |s.oldLines|
    ensures chunks == Flushed(s)
  {
    chunks := s.chunks;
    if |s.ins| > 0 || |s.del| > 0 {
      chunks := chunks + [Chunk(|s.oldLines| - |s.del|, s.del, s.ins)];
    }
  }

  method PeekNextSection(lines: seq<string>, initialIndex: nat) returns (s: Section)
    requires initialIndex <= |lines|
    ensures s == Peek(lines, initialIndex)
  {
    var index := initialIndex;
    var scan := Scan([], [], [], [], Keep);
    while index < |lines|
      invariant initialIndex <= index <= |lines|
      invariant SectionEnd(lines, index) == SectionEnd(lines, initialIndex)
      invariant scan == ScanAll(Body(lines, initialIndex, index))
    {
      var line := lines[index];
      if EndsSection(line) { break; }
      ScanNext(lines, initialIndex, index);
      index := index + 1;
      var mode, text := ReadBodyLine(line);
      scan := Collect(scan, mode, text);
    }
    var chunks := Finish(scan);
    if index < |lines| && IsEof(lines[index]) {
      index := index + 1;
      return Section(scan.oldLines, chunks, index, true);
    }
    return Section(scan.oldLines, chunks, index, false);
  }

  // ---- What the chunks of a section say -----------------------------------------------------

  function RunStart(s: Scan): nat
    requires |s.del| <= |s.oldLines|
  {
    |s.oldLines| - |s.del|
  }

  /** The finished chunks, the run of edits being collected after them, and what both make of the lines read so far. */
  ghost predicate ScanOk(s: Scan, ops: seq<Op>)
    requires |s.del| <= |s.oldLines|
  {
    var before := s.oldLines[..RunStart(s)];
    && s.oldLines == OldSide(ops)
    && s.oldLines[RunStart(s)..] == s.del
    && (s.mode.Keep? <==> s.del == [] && s.ins == [])
    && (s.chunks != [] ==> End(s.chunks[|s.chunks| - 1]) < RunStart(s))
    && Faithful(s.chunks, before)
    && Splice(before, s.chunks) + s.ins == NewSide(ops)
  }

  lemma FinalChunk(file: seq<Line>, cs: seq<Chunk>, c: Chunk)
    requires c.orig <= |file| && file[c.orig..] == c.del && Faithful(cs, file[..c.orig])
    requires cs != [] ==> End(cs[|cs| - 1]) < c.orig
    ensures Faithful(cs + [c], file)
    ensures Splice(file, cs + [c]) == Splice(file[..c.orig], cs) + c.ins
  {
    assert End(c) == |file| && file[c.orig..End(c)] == file[c.orig..];
    FaithfulSnoc(file, cs, c);
    SpliceSnoc(file, cs, c);
    assert file[End(c)..] == [];
    var front := Splice(file[..c.orig], cs) + c.ins;
    assert front + [] == front;
  }

  lemma FlushedMeaning(s: Scan, ops: seq<Op>)
    requires |s.del| <= |s.oldLines| && ScanOk(s, ops)
    ensures Faithful(Flushed(s), s.oldLines)
    ensures Splice(s.oldLines, Flushed(s)) == NewSide(ops)
    ensures Flushed(s) != [] ==> End(Flushed(s)[|Flushed(s)| - 1]) <= |s.oldLines|
  {
    if Pending(s) == [] {
      assert Flushed(s) == s.chunks;
      assert s.oldLines[..RunStart(s)] == s.oldLines;
      var front := Splice(s.oldLines, s.chunks);
      assert front + s.ins == front;
    } else {
      FinalChunk(s.oldLines, s.chunks, Pending(s)[0]);
    }
  }

  /** A state with no run being collected. */
  lemma {:induction false} CleanScan(file: seq<Line>, cs: seq<Chunk>, ops: seq<Op>)
    requires file == OldSide(ops) && Faithful(cs, file) && Splice(file, cs) == NewSide(ops)
    requires cs != [] ==> End(cs[|cs| - 1]) < |file|
    ensures ScanOk(Scan(file, [], [], cs, Keep), ops)
  {
    assert file[..|file|] == file && file[|file|..] == [];
    var front := Splice(file, cs);
    assert front + [] == front;
  }

  lemma StepKeeps(s: Scan, ops: seq<Op>, x: Line)
    requires |s.del| <= |s.oldLines| && ScanOk(s, ops)
    ensures ScanOk(ScanOp(s, Op(Keep, x)), ops + [Op(Keep, x)])
  {
    var cs, file := Flushed(s), s.oldLines + [x];
    FlushedMeaning(s, ops);
    FaithfulGrows(s.oldLines, cs, [x]);
    SpliceGrows(s.oldLines, cs, [x]);
    SidesOfSnoc(ops, Op(Keep, x));
    CleanScan(file, cs, ops + [Op(Keep, x)]);
    assert s.mode.Keep? ==> cs == s.chunks;
  }

  /** A deletion or an insertion extends the run being collected. */
  lemma StepEdits(s: Scan, ops: seq<Op>, o: Op)
    requires |s.del| <= |s.oldLines| && ScanOk(s, ops) && !o.kind.Keep?
    ensures ScanOk(ScanOp(s, o), ops + [o])
  {
    var r := ScanOp(s, o);
    assert r.oldLines[..RunStart(r)] == s.oldLines[..RunStart(s)];
    assert r.oldLines[RunStart(r)..] == r.del;
    SidesOfSnoc(ops, o);
    var front := Splice(s.oldLines[..RunStart(s)], s.chunks);
    assert front + (s.ins + [o.text]) == front + s.ins + [o.text];
  }

  lemma {:induction false} ScanMeaning(ops: seq<Op>)
    ensures ScanOk(ScanAll(ops), ops)
    decreases |ops|
  {
    if ops != [] {
      var init, last := ops[..|ops| - 1], ops[|ops| - 1];
      ScanMeaning(init);
      assert ops == init + [last];
      if last.kind.Keep? { StepKeeps(ScanAll(init), init, last.text); } else { StepEdits(ScanAll(init), init, last); }
    }
  }

  /** A section's context is its old side; its chunks are in order with a kept line between neighbours,
      delete what the context has there, and turn the context into the kept and added lines. */
  lemma SectionMeaning(lines: seq<string>, i: nat)
    requires i <= |lines|
    ensures var s, ops := Peek(lines, i), Body(lines, i, SectionEnd(lines, i));
      && s.context == OldSide(ops)
      && Faithful(s.chunks, s.context)
      && Splice(s.context, s.chunks) == NewSide(ops)
  {
    var ops := Body(lines, i, SectionEnd(lines, i));
    ScanMeaning(ops);
    FlushedMeaning(ScanAll(ops), ops);
  }

  // ---- getUpdatedFile ----------------------------------------------------------------------------

  /** Beyond and Overlap are the two errors it returns; Panic is a slice out of bounds. */
  datatype Updated = Updated(text: string) | Beyond | Overlap | Panic

  /** Copying up to a chunk and then its inserted lines extends the splice by that chunk. */
  lemma SpliceStep(file: seq<Line>, cs: seq<Chunk>, i: nat, c: Chunk)
    requires InOrder(cs, i) && i <= c.orig && End(c) <= |file|
    ensures InOrder(cs + [c], End(c))
    ensures Splice(file[..End(c)], cs + [c]) == Splice(file[..i], cs) + file[i..c.orig] + c.ins
  {
    SpliceGrows(file[..i], cs, file[i..c.orig]);
    assert file[..i] + file[i..c.orig] == file[..c.orig] == file[..End(c)][..c.orig];
    SpliceSnoc(file[..End(c)], cs, c);
    var front := Splice(file[..c.orig], cs) + c.ins;
    assert front + file[..End(c)][End(c)..] == front;
  }

  method GetUpdatedFile(text: string, chunks: seq<Chunk>) returns (r: Updated)
    ensures r.Updated? <==> InOrder(chunks, |Split(text, '\n')|)
    ensures r.Updated? ==> r.text == Join(Splice(Split(text, '\n'), chunks), '\n')
    ensures r.Panic? ==> chunks != [] && End(chunks[|chunks| - 1]) > |Split(text, '\n')|
  {
    var origLines := Split(text, '\n');
    var destLines: seq<Line> := [];
    var origIndex: nat := 0;
    for k := 0 to |chunks|
      invariant InOrder(chunks[..k], origIndex)
      invariant origIndex == if k == 0 then 0 else End(chunks[k - 1])
      invariant origIndex <= |origLines| ==> destLines == Splice(origLines[..origIndex], chunks[..k])
    {
      var chunk := chunks[k];
      assert chunks[..k + 1] == chunks[..k] + [chunk] && chunks[..k + 1][..k] == chunks[..k];
      if chunk.orig > |origLines| {
        if InOrder(chunks, |origLines|) { InOrderAt(chunks, |origLines|, k); }
        return Beyond;
      }
      if origIndex > chunk.orig {
        if InOrder(chunks, |origLines|) { InOrderAt(chunks, |origLines|, k); }
        return Overlap;
      }
      if End(chunk) <= |origLines| { SpliceStep(origLines, chunks[..k], origIndex, chunk); }
      destLines := destLines + origLines[origIndex..chunk.orig];
      var delta := chunk.orig - origIndex;
      origIndex := origIndex + delta;
      if |chunk.ins| > 0 {
        destLines := destLines + chunk.ins;
      }
      origIndex := origIndex + |chunk.del|;
    }
    assert chunks[..|chunks|] == chunks;
    if origIndex > |origLines| { return Panic; }
    SpliceGrows(origLines[..origIndex], chunks, origLines[origIndex..]);
    assert origLines[..origIndex] + origLines[origIndex..] == origLines;
    r := Updated(Join(destLines + origLines[origIndex..], '\n'));
  }
}
