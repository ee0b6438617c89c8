/** The order of the chunks of an update, with and without end-of-file markers (cli/internal/diff/patch.go). */
module ChunkOrder {
  import opened Strings
  import opened LineDiff
  import opened PatchSections
  import opened ContextSearch
  import opened ContextParser

  // ---- Chunks put behind others ---------------------------------------------------------------

  /** The chunks end where the next ones start. */
  predicate Follows(cs: seq<Chunk>, more: seq<Chunk>, i: nat) {
    cs == [] || more == [] || End(cs[|cs| - 1]) <= i + more[0].orig
  }

  lemma {:induction false} JoinInOrder(cs: seq<Chunk>, more: seq<Chunk>, n: nat)
    ensures InOrder(cs + more, n)
      <==> InOrder(cs, if more == [] then n else more[0].orig) && InOrder(more, n)
    decreases |more|
  {
    if more == [] {
      assert cs + more == cs;
    } else {
      var init, last := more[..|more| - 1], more[|more| - 1];
      JoinInOrder(cs, init, last.orig);
      var all := cs + more;
      assert all[..|all| - 1] == cs + init;
    }
  }

  lemma {:induction false} ShiftInOrder(cs: seq<Chunk>, n: nat, i: nat)
    ensures InOrder(Shift(cs, i), n + i) <==> InOrder(cs, n)
    decreases |cs|
  {
    if cs != [] {
      var init, last := cs[..|cs| - 1], cs[|cs| - 1];
      ShiftInOrder(init, last.orig, i);
      var moved := Shift(cs, i);
      assert moved[..|cs| - 1] == Shift(init, i) && moved[|cs| - 1] == last.(orig := last.orig + i);
    }
  }

  lemma EndDecides(cs: seq<Chunk>, m: nat, n: nat)
    requires InOrder(cs, m)
    ensures InOrder(cs, n) <==> cs == [] || End(cs[|cs| - 1]) <= n
  {
  }

  /** Chunks of a section put behind those before it are in order exactly when they follow them. */
  lemma AppendInOrder(cs: seq<Chunk>, m: nat, more: seq<Chunk>, length: nat, i: nat, n: nat)
    requires InOrder(cs, m) && InOrder(more, length) && i + length <= n
    requires more == [] ==> InOrder(cs, n)
    ensures InOrder(cs + Shift(more, i), n) <==> Follows(cs, more, i)
  {
    var moved := Shift(more, i);
    ShiftInOrder(more, length, i);
    InOrderWider(moved, i + length, n);
    JoinInOrder(cs, moved, n);
    if more != [] { EndDecides(cs, m, moved[0].orig); }
  }

  // ---- One pass ---------------------------------------------------------------------------------

  function SectionAt(lines: seq<string>, c: Cursor): Section
    requires c.at <= |lines|
  {
    Peek(lines, HeaderAt(lines, c.at).at)
  }

  /** Where a pass looks for its section, and what it finds. */
  function StartAt(lines: seq<string>, file: seq<Line>, c: Cursor): (i: nat)
    requires c.at <= |lines| && c.index <= |file|
    ensures c.index <= i <= |file|
  {
    Seek(file, c.index, HeaderAt(lines, c.at).def).index
  }

  function FoundAt(lines: seq<string>, file: seq<Line>, c: Cursor): Found
    requires c.at <= |lines| && c.index <= |file|
  {
    Search(file, SectionAt(lines, c).context, StartAt(lines, file, c), SectionAt(lines, c).eof)
  }

  lemma PassParts(lines: seq<string>, file: seq<Line>, c: Cursor)
    requires c.at < |lines| && c.index <= |file| && Pass(lines, file, c).Ok?
    ensures var found, section, r := FoundAt(lines, file, c), SectionAt(lines, c), Pass(lines, file, c).value;
      && found.At? && c.index <= found.index + |section.context| <= |file|
      && (!section.eof ==> c.index <= found.index)
      && r.chunks == c.chunks + Shift(section.chunks, found.index)
      && r.index == found.index + |section.context|
  {
    var section := SectionAt(lines, c);
    FoundBehind(file, section.context, StartAt(lines, file, c), section.eof);
    if !section.eof { ForwardSearch(file, section.context, StartAt(lines, file, c)); }
  }

  lemma SectionInOrder(lines: seq<string>, at: nat)
    requires at <= |lines|
    ensures InOrder(Peek(lines, at).chunks, |Peek(lines, at).context|)
  {
    SectionMeaning(lines, at);
  }

  /** After a pass the chunks are in order within the file exactly when those of its section follow those before. */
  lemma PassInOrderIff(lines: seq<string>, file: seq<Line>, c: Cursor)
    requires c.at < |lines| && c.index <= |file| && InOrder(c.chunks, |file|) && Pass(lines, file, c).Ok?
    ensures FoundAt(lines, file, c).At?
    ensures InOrder(Pass(lines, file, c).value.chunks, |file|)
      <==> Follows(c.chunks, SectionAt(lines, c).chunks, FoundAt(lines, file, c).index)
  {
    var section := SectionAt(lines, c);
    PassParts(lines, file, c);
    SectionInOrder(lines, HeaderAt(lines, c.at).at);
    AppendInOrder(c.chunks, |file|, section.chunks, |section.context|, FoundAt(lines, file, c).index, |file|);
  }

  /** A section with an end-of-file marker is put behind the chunks before it; other sections always are. */
  predicate MarkerFits(lines: seq<string>, file: seq<Line>, c: Cursor)
    requires c.at <= |lines| && c.index <= |file|
  {
    var section, found := SectionAt(lines, c), FoundAt(lines, file, c);
    section.eof && found.At? ==> Follows(c.chunks, section.chunks, found.index)
  }

  lemma AppendKeepsOrder(cs: seq<Chunk>, m: nat, more: seq<Chunk>, length: nat, i: nat, n: nat)
    requires InOrder(cs, m) && InOrder(more, length) && m <= i + length <= n
    ensures if Follows(cs, more, i) then InOrder(cs + Shift(more, i), i + length) else !InOrder(cs + Shift(more, i), n)
  {
    InOrderWider(cs, m, i + length);
    InOrderWider(cs, m, n);
    AppendInOrder(cs, m, more, length, i, i + length);
    AppendInOrder(cs, m, more, length, i, n);
  }

  lemma BehindFollows(cs: seq<Chunk>, m: nat, more: seq<Chunk>, i: nat)
    requires InOrder(cs, m) && m <= i
    ensures Follows(cs, more, i)
  {
  }

  lemma PassKeepsOrder(lines: seq<string>, file: seq<Line>, c: Cursor)
    requires c.at < |lines| && c.index <= |file| && InOrder(c.chunks, c.index) && Pass(lines, file, c).Ok?
    ensures var r := Pass(lines, file, c).value;
      if MarkerFits(lines, file, c) then InOrder(r.chunks, r.index) else !InOrder(r.chunks, |file|)
  {
    var section, found := SectionAt(lines, c), FoundAt(lines, file, c);
    PassParts(lines, file, c);
    SectionInOrder(lines, HeaderAt(lines, c.at).at);
    AppendKeepsOrder(c.chunks, c.index, section.chunks, |section.context|, found.index, |file|);
    if !section.eof { BehindFollows(c.chunks, c.index, section.chunks, found.index); }
  }

  // ---- All passes of an update ----------------------------------------------------------------------

  /** Every section with a marker is put behind the chunks before it. */
  predicate MarkersFit(lines: seq<string>, file: seq<Line>, c: Cursor)
    requires c.at <= |lines| && c.index <= |file|
    decreases |lines| - c.at
  {
    UpdateDone(lines, c.at)
    || (var next := Pass(lines, file, c);
        next.Ok? && next.value.at != c.at ==> MarkerFits(lines, file, c) && MarkersFit(lines, file, next.value))
  }

  lemma {:induction false} ChunksGrow(lines: seq<string>, file: seq<Line>, c: Cursor)
    requires c.at <= |lines| && c.index <= |file| && UpdateRun(lines, file, c).Ok?
    ensures c.chunks <= UpdateRun(lines, file, c).value.chunks
    decreases |lines| - c.at
  {
    if !UpdateDone(lines, c.at) {
      PassParts(lines, file, c);
      ChunksGrow(lines, file, Pass(lines, file, c).value);
    }
  }

  lemma BrokenStays(cs: seq<Chunk>, all: seq<Chunk>, n: nat)
    requires cs <= all && InOrder(all, n)
    ensures InOrder(cs, n)
  {
    var more := all[|cs|..];
    assert cs + more == all;
    JoinInOrder(cs, more, n);
    if more != [] {
      InOrderAt(more, n, 0);
      InOrderWider(cs, more[0].orig, n);
    }
  }

  /** The chunks of an update are in order within the file exactly when all its markers fit. */
  lemma {:induction false} UpdateInOrderIff(lines: seq<string>, file: seq<Line>, c: Cursor)
    requires c.at <= |lines| && c.index <= |file| && InOrder(c.chunks, c.index) && UpdateRun(lines, file, c).Ok?
    ensures InOrder(UpdateRun(lines, file, c).value.chunks, |file|) <==> MarkersFit(lines, file, c)
    decreases |lines| - c.at
  {
    if UpdateDone(lines, c.at) {
      InOrderWider(c.chunks, c.index, |file|);
    } else {
      var next := Pass(lines, file, c).value;
      PassKeepsOrder(lines, file, c);
      if MarkerFits(lines, file, c) {
        UpdateInOrderIff(lines, file, next);
      } else if InOrder(UpdateRun(lines, file, c).value.chunks, |file|) {
        ChunksGrow(lines, file, next);
        BrokenStays(next.chunks, UpdateRun(lines, file, c).value.chunks, |file|);
      }
    }
  }

  predicate NoEofMarker(lines: seq<string>) {
    forall k :: 0 <= k < |lines| ==> !IsEof(lines[k])
  }

  lemma {:induction false} NoMarkersFit(lines: seq<string>, file: seq<Line>, c: Cursor)
    requires c.at <= |lines| && c.index <= |file| && NoEofMarker(lines)
    ensures MarkersFit(lines, file, c)
    decreases |lines| - c.at
  {
    if !UpdateDone(lines, c.at) {
      var next := Pass(lines, file, c);
      if next.Ok? && next.value.at != c.at { NoMarkersFit(lines, file, next.value); }
    }
  }

  /** Without an end-of-file marker the chunks of an update, fuzzy or not, are in order within the file. */
  lemma UpdateInOrder(lines: seq<string>, file: seq<Line>, c: Cursor)
    requires c.at <= |lines| && c.index <= |file| && NoEofMarker(lines) && InOrder(c.chunks, c.index)
    ensures var r := UpdateRun(lines, file, c); r.Ok? ==> InOrder(r.value.chunks, |file|)
  {
    NoMarkersFit(lines, file, c);
    if UpdateRun(lines, file, c).Ok? { UpdateInOrderIff(lines, file, c); }
  }

  // ---- A marker that does not fit ----------------------------------------------------------------------

  /** Two sections that each delete the one line of a file, the second with an end-of-file marker. */
  function TwiceTheSame(x: Line): seq<string> {
    ["-" + x, "@@", "-" + x, "*** End of File"]
  }

  lemma ScannedDeletion(x: Line)
    ensures ScanAll([Op(Del, x)]) == Scan([x], [x], [], [], Del)
  {
    assert [Op(Del, x)][..0] == [];
    assert [] + [x] == [x];
  }

  lemma OneDeletion(lines: seq<string>, at: nat, x: Line)
    requires at + 1 < |lines| && lines[at] == "-" + x && EndsSection(lines[at + 1])
    ensures var eof := IsEof(lines[at + 1]);
      Peek(lines, at) == Section([x], [Chunk(0, [x], [])], if eof then at + 2 else at + 1, eof)
  {
    var line := lines[at];
    assert line[0] == '-' && line[1..] == x && !EndsSection(line);
    assert SectionEnd(lines, at + 1) == at + 1 && SectionEnd(lines, at) == at + 1;
    assert Body(lines, at, at) == [] && Body(lines, at, at + 1) == [] + [Op(Del, x)];
    ScannedDeletion(x);
    assert Flushed(Scan([x], [x], [], [], Del)) == [] + [Chunk(0, [x], [])];
  }

  lemma OneLineFound(x: Line, start: nat, eof: bool)
    requires start <= 1 && (start == 1 ==> eof)
    ensures Search([x], [x], start, eof) == At(0, 0)
  {
    assert Occurs([x], [x], 0);
    ForwardSearch([x], [x], 0);
    EndSearch([x], [x], start);
  }

  lemma PassEnters(lines: seq<string>, file: seq<Line>, c: Cursor, section: Section, found: Found)
    requires c.at < |lines| && c.index <= |file|
    requires var h := HeaderAt(lines, c.at); h.def == "" && (h.bare || c.index == 0) && Peek(lines, h.at) == section
    requires Search(file, section.context, c.index, section.eof) == found
    ensures Pass(lines, file, c) == Advance(c, Place(c.index, 0), section, found)
  {
    assert Seek(file, c.index, "") == Place(c.index, 0);
  }

  lemma AdvanceOnce(c: Cursor, x: Line, end: nat, eof: bool)
    ensures Advance(c, Place(c.index, 0), Section([x], [Chunk(0, [x], [])], end, eof), At(0, 0))
      == Ok(Cursor(end, 1, c.fuzz, c.chunks + [Chunk(0, [x], [])]))
  {
    assert Shift([Chunk(0, [x], [])], 0) == [Chunk(0, [x], [])];
  }

  lemma ClashLines(lines: seq<string>, x: Line)
    requires lines == TwiceTheSame(x)
    ensures |lines| == 4 && lines[0] == "-" + x && lines[2] == "-" + x
    ensures EndsSection(lines[1]) && !IsEof(lines[1]) && EndsSection(lines[3]) && IsEof(lines[3])
    ensures HeaderAt(lines, 0) == Header("", false, 0) && HeaderAt(lines, 1) == Header("", true, 2)
    ensures !UpdateDone(lines, 0) && !UpdateDone(lines, 1)
  {
    assert lines[0][0] == '-' && lines[1][0] == '@' && |lines[1]| == 2;
  }

  lemma ClashRuns(lines: seq<string>, x: Line)
    requires lines == TwiceTheSame(x)
    ensures UpdateRun(lines, [x], Cursor(0, 0, 0, [])) == Ok(Cursor(4, 1, 0, [Chunk(0, [x], []), Chunk(0, [x], [])]))
  {
    var once := Chunk(0, [x], []);
    var c0, c1, c2 := Cursor(0, 0, 0, []), Cursor(1, 1, 0, [once]), Cursor(4, 1, 0, [once, once]);
    assert [] + [once] == [once] && [once] + [once] == [once, once];
    ClashLines(lines, x);
    assert Pass(lines, [x], c0) == Ok(c1) by {
      OneDeletion(lines, 0, x);
      OneLineFound(x, 0, false);
      PassEnters(lines, [x], c0, Peek(lines, 0), At(0, 0));
      AdvanceOnce(c0, x, 1, false);
    }
    assert Pass(lines, [x], c1) == Ok(c2) by {
      OneDeletion(lines, 2, x);
      OneLineFound(x, 1, true);
      PassEnters(lines, [x], c1, Peek(lines, 2), At(0, 0));
      AdvanceOnce(c1, x, 4, true);
    }
    TwoPasses(lines, [x], c0, c1, c2);
  }

  lemma TwoPasses(lines: seq<string>, file: seq<Line>, c0: Cursor, c1: Cursor, c2: Cursor)
    requires c0.at < c1.at < c2.at == |lines| && c0.index <= |file| && c1.index <= |file| && c2.index <= |file|
    requires !UpdateDone(lines, c0.at) && !UpdateDone(lines, c1.at)
    requires Pass(lines, file, c0) == Ok(c1) && Pass(lines, file, c1) == Ok(c2)
    ensures UpdateRun(lines, file, c0) == Ok(c2)
  {
    assert UpdateRun(lines, file, c2) == Ok(c2);
    assert UpdateRun(lines, file, c1) == Ok(c2);
  }

  /** It parses without fuzz, but to two chunks at line 0, which are not in order. */
  lemma MarkerClash(x: Line)
    requires '\n' !in x
    ensures var once := Chunk(0, [x], []);
      && UpdateOf(TwiceTheSame(x), 0, x, 0) == Ok(Cursor(4, 1, 0, [once, once]))
      && !InOrder([once, once], |Split(x, '\n')|)
  {
    var once := Chunk(0, [x], []);
    SplitPlain(x, '\n');
    ClashRuns(TwiceTheSame(x), x);
    assert [once, once][..1] == [once];
  }
}
