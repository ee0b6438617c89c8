/** A strict patcher, the independent reader of the diff's hunks. */
module StrictPatch {
  // It believes nothing: positions, counts, prefixes and every kept or deleted line are checked. The hunks of
  // god/edit_diff.go must satisfy it, read forwards and backwards.

  import opened Strings
  import opened LineDiff
  import opened Hunks

  function ParseLine(line: string): Option<Op> {
    if line == "" then None
    else if line[0] == ' ' then Some(Op(Keep, line[1..]))
    else if line[0] == '-' then Some(Op(Del, line[1..]))
    else if line[0] == '+' then Some(Op(Ins, line[1..]))
    else None
  }

  function ParseLines(lines: seq<string>): Option<seq<Op>> {
    if lines == [] then Some([])
    else
      var first, rest := ParseLine(lines[0]), ParseLines(lines[1..]);
      if first.None? || rest.None? then None else Some([first.value] + rest.value)
  }

  /** Where the patcher stands: the first line of the old file not yet read, and the output so far. */
  datatype Progress = Progress(pos: nat, out: seq<Line>)

  function ApplyHunk(h: Hunk, file: seq<Line>, at: Progress): Option<Progress> {
    var ops := ParseLines(h.lines);
    if ops.None? then None
    else if !(at.pos <= h.aStart && h.aStart + h.aCount <= |file|) then None
    else
      var before := at.out + file[at.pos..h.aStart];
      if |before| != h.bStart then None
      else if OldSide(ops.value) != file[h.aStart..h.aStart + h.aCount] then None
      else if |NewSide(ops.value)| != h.bCount then None
      else Some(Progress(h.aStart + h.aCount, before + NewSide(ops.value)))
  }

  function ApplyHunks(hs: seq<Hunk>, file: seq<Line>, at: Progress): Option<seq<Line>> {
    if hs == [] then
      if at.pos <= |file| then Some(at.out + file[at.pos..]) else None
    else
      var next := ApplyHunk(hs[0], file, at);
      if next.None? then None else ApplyHunks(hs[1..], file, next.value)
  }

  function Patch(hs: seq<Hunk>, file: seq<Line>): Option<seq<Line>> {
    ApplyHunks(hs, file, Progress(0, []))
  }

  // ---- The hunks of a script are a patch --------------------------------------------------

  lemma {:induction false} ParseMarked(ops: seq<Op>)
    ensures ParseLines(Marked(ops)) == Some(ops)
  {
    if ops != [] {
      ParseMarked(ops[1..]);
      var line := Marked(ops)[0];
      assert line[1..] == ops[0].text;
      assert ParseLine(line) == Some(ops[0]);
      assert Marked(ops)[1..] == Marked(ops[1..]);
      assert ops == [ops[0]] + ops[1..];
    }
  }

  lemma {:induction false} QuietSides(ops: seq<Op>, lo: nat, hi: nat)
    requires lo <= hi <= |ops| && Quiet(ops, lo, hi)
    ensures OldSide(ops[lo..hi]) == NewSide(ops[lo..hi])
  {
    assert Unchanged(ops[lo..hi]) by {
      forall k | 0 <= k < hi - lo ensures ops[lo..hi][k].kind.Keep? { assert !Changed(ops, lo + k); }
    }
    UnchangedSides(ops[lo..hi]);
  }

  lemma SplitSides(ops: seq<Op>, i: nat)
    requires i <= |ops|
    ensures OldSide(ops) == OldSide(ops[..i]) + OldSide(ops[i..])
    ensures NewSide(ops) == NewSide(ops[..i]) + NewSide(ops[i..])
  {
    assert ops == ops[..i] + ops[i..];
    SideConcat(ops[..i], ops[i..], Ins);
    SideConcat(ops[..i], ops[i..], Del);
  }

  /** The patcher's progress after the first i ops of a script. */
  function After(ops: seq<Op>, i: nat): Progress
    requires i <= |ops|
  {
    Progress(|OldSide(ops[..i])|, NewSide(ops[..i]))
  }

  /** The old file between two op positions. */
  lemma OldSlice(ops: seq<Op>, i: nat, j: nat)
    requires i <= j <= |ops|
    ensures |OldSide(ops[..i])| <= |OldSide(ops[..j])| <= |OldSide(ops)|
    ensures OldSide(ops)[|OldSide(ops[..i])|..|OldSide(ops[..j])|] == OldSide(ops[i..j])
    ensures |OldSide(ops[..j])| == |OldSide(ops[..i])| + |OldSide(ops[i..j])|
    ensures NewSide(ops[..j]) == NewSide(ops[..i]) + NewSide(ops[i..j])
  {
    SplitSides(ops, j);
    SplitSides(ops[..j], i);
    assert ops[..j][..i] == ops[..i] && ops[..j][i..] == ops[i..j];
  }

  lemma HunkApplies(ops: seq<Op>, from: nat, w: Range)
    requires from <= w.start <= w.end <= |ops| && Quiet(ops, from, w.start)
    ensures ApplyHunk(HunkOf(ops, w), OldSide(ops), After(ops, from)) == Some(After(ops, w.end))
  {
    ParseMarked(ops[w.start..w.end]);
    OldSlice(ops, from, w.start);
    OldSlice(ops, w.start, w.end);
    QuietSides(ops, from, w.start);
  }

  /** The windows w[k..] partition the changes from op `from` on. */
  ghost predicate Tiles(ops: seq<Op>, from: nat, ws: seq<Range>)
    decreases |ws|
  {
    if ws == [] then from <= |ops| && Quiet(ops, from, |ops|)
    else
      && from <= ws[0].start <= ws[0].end <= |ops|
      && Quiet(ops, from, ws[0].start)
      && Tiles(ops, ws[0].end, ws[1..])
  }

  lemma {:induction false} TiledHunksApply(ops: seq<Op>, from: nat, ws: seq<Range>)
    requires from <= |ops| && InBounds(ops, ws) && Tiles(ops, from, ws)
    ensures ApplyHunks(HunksOf(ops, ws), OldSide(ops), After(ops, from)) == Some(NewSide(ops))
    decreases |ws|
  {
    if ws == [] {
      OldSlice(ops, from, |ops|);
      QuietSides(ops, from, |ops|);
      assert ops[..|ops|] == ops;
      var pos := |OldSide(ops[..from])|;
      assert OldSide(ops)[pos..] == OldSide(ops)[pos..|OldSide(ops)|];
    } else {
      HunkApplies(ops, from, ws[0]);
      assert InBounds(ops, ws[1..]) by {
        forall k | 0 <= k < |ws[1..]| ensures ws[1..][k] == ws[k + 1] {}
      }
      TiledHunksApply(ops, ws[0].end, ws[1..]);
      assert HunksOf(ops, ws)[1..] == HunksOf(ops, ws[1..]);
    }
  }

  lemma {:induction false} WindowsTile(ops: seq<Op>, from: nat, start: nat, groups: seq<Range>)
    requires Covers(ops, start, groups, 2 * CONTEXT)
    requires start <= from <= |ops| && Quiet(ops, start, from)
    requires groups != [] ==> from + CONTEXT < groups[0].start || from == 0
    ensures Tiles(ops, from, Windows(ops, groups))
    decreases |groups|
  {
    if groups != [] {
      var w := Window(ops, groups[0]);
      if |groups| > 1 { CoveredBlock(ops, start, groups, 2 * CONTEXT, 1); }
      assert Windows(ops, groups)[1..] == Windows(ops, groups[1..]);
      assert Quiet(ops, groups[0].end, w.end) by {
        if |groups| > 1 { assert Quiet(ops, groups[0].end, groups[1].start); }
      }
      WindowsTile(ops, w.end, groups[0].end, groups[1..]);
    }
  }

  /** The hunks of any edit script, as buildHunks forms them, take its old side to its new side. */
  lemma HunksPatch(ops: seq<Op>)
    ensures Patch(HunksOf(ops, Shape(ops)), OldSide(ops)) == Some(NewSide(ops))
  {
    GroupsCover(ops);
    WindowsTile(ops, 0, 0, Groups(ops));
    TiledHunksApply(ops, 0, Shape(ops));
    assert ops[..0] == [];
  }

  // ---- And its reverse -----------------------------------------------------------------------

  function FlipKind(kind: Kind): Kind {
    match kind
    case Keep => Keep
    case Del => Ins
    case Ins => Del
  }

  function FlipOp(o: Op): Op { o.(kind := FlipKind(o.kind)) }

  function FlipOps(ops: seq<Op>): (r: seq<Op>)
    ensures |r| == |ops|
    ensures forall i {:trigger r[i]} :: 0 <= i < |ops| ==> r[i] == FlipOp(ops[i])
  {
    seq(|ops|, i requires 0 <= i < |ops| => FlipOp(ops[i]))
  }

  /** Swapping '-' and '+' in front of a line. */
  function FlipLine(line: string): string {
    if line != "" && line[0] == '-' then "+" + line[1..]
    else if line != "" && line[0] == '+' then "-" + line[1..]
    else line
  }

  function FlipLines(lines: seq<string>): seq<string> {
    if lines == [] then [] else [FlipLine(lines[0])] + FlipLines(lines[1..])
  }

  /** The hunk read the other way round: sides and prefixes swapped. */
  function Flip(h: Hunk): Hunk {
    Hunk(h.bStart, h.bCount, h.aStart, h.aCount, FlipLines(h.lines))
  }

  function FlipAll(hs: seq<Hunk>): seq<Hunk> {
    if hs == [] then [] else [Flip(hs[0])] + FlipAll(hs[1..])
  }

  lemma {:induction false} FlippedSides(ops: seq<Op>)
    ensures OldSide(FlipOps(ops)) == NewSide(ops) && NewSide(FlipOps(ops)) == OldSide(ops)
  {
    if ops != [] {
      FlippedSides(ops[1..]);
      assert FlipOps(ops)[1..] == FlipOps(ops[1..]);
    }
  }

  lemma {:induction false} FlippedMarks(ops: seq<Op>)
    ensures FlipLines(Marked(ops)) == Marked(FlipOps(ops))
  {
    if ops != [] {
      FlippedMarks(ops[1..]);
      assert Marked(ops)[1..] == Marked(ops[1..]);
      assert FlipOps(ops)[1..] == FlipOps(ops[1..]);
      assert Marked(ops)[0][1..] == ops[0].text;
    }
  }

  lemma FlippedSlice(ops: seq<Op>, i: nat, j: nat)
    requires i <= j <= |ops|
    ensures FlipOps(ops)[i..j] == FlipOps(ops[i..j])
  {
  }

  lemma FlippedHunk(ops: seq<Op>, w: Range)
    requires w.start <= w.end <= |ops|
    ensures Flip(HunkOf(ops, w)) == HunkOf(FlipOps(ops), w)
  {
    var before, shown := ops[..w.start], ops[w.start..w.end];
    FlippedSlice(ops, 0, w.start);
    FlippedSlice(ops, w.start, w.end);
    assert before == ops[0..w.start] && FlipOps(ops)[..w.start] == FlipOps(ops)[0..w.start];
    FlippedSides(before);
    FlippedSides(shown);
    FlippedMarks(shown);
  }

  lemma {:induction false} FlippedHunks(ops: seq<Op>, ws: seq<Range>)
    requires InBounds(ops, ws)
    ensures InBounds(FlipOps(ops), ws)
    ensures FlipAll(HunksOf(ops, ws)) == HunksOf(FlipOps(ops), ws)
  {
    if ws != [] {
      assert InBounds(ops, ws[1..]) by {
        forall k | 0 <= k < |ws[1..]| ensures ws[1..][k] == ws[k + 1] {}
      }
      FlippedHunk(ops, ws[0]);
      FlippedHunks(ops, ws[1..]);
      assert HunksOf(ops, ws)[1..] == HunksOf(ops, ws[1..]);
    }
  }

  lemma TiledFlip(ops: seq<Op>, from: nat, ws: seq<Range>)
    requires Tiles(ops, from, ws)
    ensures Tiles(FlipOps(ops), from, ws)
    decreases |ws|
  {
    assert forall i :: Changed(FlipOps(ops), i) <==> Changed(ops, i);
    if ws != [] { TiledFlip(ops, ws[0].end, ws[1..]); }
  }

  /** With the sides swapped the same hunks take the new side back to the old one. */
  lemma {:induction false} HunksUnpatch(ops: seq<Op>)
    ensures Patch(FlipAll(HunksOf(ops, Shape(ops))), NewSide(ops)) == Some(OldSide(ops))
  {
    GroupsCover(ops);
    WindowsTile(ops, 0, 0, Groups(ops));
    TiledFlip(ops, 0, Shape(ops));
    FlippedHunks(ops, Shape(ops));
    TiledHunksApply(FlipOps(ops), 0, Shape(ops));
    FlippedSides(ops);
    assert FlipOps(ops)[..0] == [];
  }

  // ---- unifiedDiff -----------------------------------------------------------------------------

  /** None stands for the empty diff text. The numbers in a printed header are aStart + 1 and bStart + 1. */
  method UnifiedDiff(a: seq<Line>, b: seq<Line>) returns (diff: Option<seq<Hunk>>)
    ensures diff.None? <==> a == b
    ensures diff.Some? ==> diff.value == HunksOf(Diff(a, b), Shape(Diff(a, b)))
    ensures diff.Some? ==> Patch(diff.value, a) == Some(b) && Patch(FlipAll(diff.value), b) == Some(a)
  {
    var ops := ComputeDiff(a, b);
    UnchangedIffEqual(a, b);
    var hasChanges := false;
    for k := 0 to |ops|
      invariant !hasChanges && Unchanged(ops[..k])
    {
      if !ops[k].kind.Keep? {
        hasChanges := true;
        break;
      }
    }
    if !hasChanges {
      assert ops[..|ops|] == ops;
      return None;
    }
    var hunks := BuildHunks(ops);
    DiffIsCorrect(a, b);
    HunksPatch(ops);
    HunksUnpatch(ops);
    if |hunks| == 0 {
      return None;
    }
    diff := Some(hunks);
  }

  // ---- GenerateDiff -----------------------------------------------------------------------------

  /** splitLines: one final newline is not a line of its own; empty text has no lines. */
  function SplitLines(s: string): seq<Line> {
    if s == "" then [] else Split(TrimNewline(s), '\n')
  }

  /** Two texts have the same lines exactly when they differ by at most a final newline and are empty only together. */
  lemma {:induction false} SameLines(s: string, t: string)
    ensures SplitLines(s) == SplitLines(t) <==> (TrimNewline(s) == TrimNewline(t) && (s == "" <==> t == ""))
  {
    JoinSplit(TrimNewline(s), '\n');
    JoinSplit(TrimNewline(t), '\n');
  }

  /** The lines are those of the text: joined, they give it back but for a final newline. */
  lemma LinesMakeText(s: string)
    requires s != ""
    ensures Join(SplitLines(s), '\n') == TrimNewline(s)
    ensures forall k :: 0 <= k < |SplitLines(s)| ==> '\n' !in SplitLines(s)[k]
  {
    JoinSplit(TrimNewline(s), '\n');
  }

  method GenerateDiff(oldContent: string, newContent: string) returns (diff: Option<seq<Hunk>>)
    ensures diff.None? <==>
      (TrimNewline(oldContent) == TrimNewline(newContent) && (oldContent == "" <==> newContent == ""))
    ensures diff.Some? ==> Patch(diff.value, SplitLines(oldContent)) == Some(SplitLines(newContent))
    ensures diff.Some? ==> Patch(FlipAll(diff.value), SplitLines(newContent)) == Some(SplitLines(oldContent))
  {
    SameLines(oldContent, newContent);
    diff := UnifiedDiff(SplitLines(oldContent), SplitLines(newContent));
  }
}
