/** Context hunks of god/edit_diff.go, read back by a strict patcher. */
module Hunks {
  import opened Strings
  import opened LineDiff

  const CONTEXT := 3

  /** A half-open range of op indices. */
  datatype Range = Range(start: nat, end: nat)

  /** Line positions count from 0; each line carries its prefix ' ', '-' or '+'. */
  datatype Hunk = Hunk(aStart: nat, aCount: nat, bStart: nat, bCount: nat, lines: seq<string>)

  predicate Changed(ops: seq<Op>, i: int) {
    0 <= i < |ops| && !ops[i].kind.Keep?
  }

  function Mark(kind: Kind): char {
    match kind
    case Keep => ' '
    case Del => '-'
    case Ins => '+'
  }

  function Marked(ops: seq<Op>): (lines: seq<string>)
    ensures |lines| == |ops|
  {
    if ops == [] then [] else [[Mark(ops[0].kind)] + ops[0].text] + Marked(ops[1..])
  }

  /** A line shows its text behind a blank, a minus or a plus. */
  lemma {:induction false} MarkedLine(ops: seq<Op>, k: nat)
    requires k < |ops|
    ensures Marked(ops)[k]
      == (match ops[k].kind case Keep => " " case Del => "-" case Ins => "+") + ops[k].text
  {
    if k > 0 {
      MarkedLine(ops[1..], k - 1);
      assert Marked(ops)[k] == Marked(ops[1..])[k - 1];
    }
  }

  // ---- The grouping as functions ------------------------------------------------------

  /** The end of the run of changed ops that starts at i. */
  function RunEnd(ops: seq<Op>, i: nat): (e: nat)
    requires i <= |ops|
    ensures i <= e <= |ops|
    decreases |ops| - i
  {
    if Changed(ops, i) then RunEnd(ops, i + 1) else i
  }

  /** The maximal runs of changed ops from i on. */
  function Runs(ops: seq<Op>, i: nat): seq<Range>
    requires i <= |ops|
    decreases |ops| - i
  {
    if i == |ops| then []
    else if Changed(ops, i) then [Range(i, RunEnd(ops, i + 1))] + Runs(ops, RunEnd(ops, i + 1))
    else Runs(ops, i + 1)
  }

  /** Joins a range to the next one when at most 2 * CONTEXT ops lie between them. */
  function Merge(current: Range, rest: seq<Range>): (groups: seq<Range>)
    ensures groups != [] && groups[0].start == current.start
    decreases |rest|
  {
    if rest == [] then [current]
    else if rest[0].start - current.end <= 2 * CONTEXT then Merge(Range(current.start, rest[0].end), rest[1..])
    else [current] + Merge(rest[0], rest[1..])
  }

  function Groups(ops: seq<Op>): seq<Range> {
    var runs := Runs(ops, 0);
    if runs == [] then [] else Merge(runs[0], runs[1..])
  }

  /** A group with up to CONTEXT ops around it. */
  function Window(ops: seq<Op>, g: Range): Range {
    Range(if g.start < CONTEXT then 0 else g.start - CONTEXT,
          if g.end + CONTEXT > |ops| then |ops| else g.end + CONTEXT)
  }

  function Windows(ops: seq<Op>, groups: seq<Range>): (ws: seq<Range>)
    ensures |ws| == |groups|
    ensures forall k :: 0 <= k < |ws| ==> ws[k] == Window(ops, groups[k])
  {
    if groups == [] then [] else [Window(ops, groups[0])] + Windows(ops, groups[1..])
  }

  function HunkOf(ops: seq<Op>, w: Range): Hunk
    requires w.start <= w.end <= |ops|
  {
    var before, shown := ops[..w.start], ops[w.start..w.end];
    Hunk(|OldSide(before)|, |OldSide(shown)|, |NewSide(before)|, |NewSide(shown)|, Marked(shown))
  }

  predicate Shown(w: Range, i: int) {
    w.start <= i < w.end
  }

  predicate InBounds(ops: seq<Op>, ws: seq<Range>) {
    forall k :: 0 <= k < |ws| ==> ws[k].start <= ws[k].end <= |ops|
  }

  function HunksOf(ops: seq<Op>, ws: seq<Range>): (hs: seq<Hunk>)
    requires InBounds(ops, ws)
    ensures |hs| == |ws|
    ensures forall k :: 0 <= k < |ws| ==> hs[k] == HunkOf(ops, ws[k])
  {
    if ws == [] then [] else [HunkOf(ops, ws[0])] + HunksOf(ops, ws[1..])
  }

  // ---- Which ops the groups cover -------------------------------------------------------

  /** A changed op lies within three ops of i. */
  ghost predicate Near(ops: seq<Op>, i: int) {
    exists j :: Changed(ops, j) && j - 3 <= i <= j + 3
  }

  predicate Quiet(ops: seq<Op>, lo: int, hi: int) {
    forall i :: lo <= i < hi ==> !Changed(ops, i)
  }

  ghost predicate Block(ops: seq<Op>, g: Range) {
    && g.start < g.end <= |ops|
    && Changed(ops, g.start) && Changed(ops, g.end - 1)
    && forall i :: g.start <= i < g.end ==> Near(ops, i)
  }

  /** From op `from` on, the groups are blocks more than `gap` ops apart with nothing changed outside them. */
  ghost predicate Covers(ops: seq<Op>, from: nat, groups: seq<Range>, gap: nat)
    decreases |groups|
  {
    if groups == [] then Quiet(ops, from, |ops|)
    else
      && from <= groups[0].start && Quiet(ops, from, groups[0].start)
      && Block(ops, groups[0])
      && (|groups| > 1 ==> groups[1].start > groups[0].end + gap)
      && Covers(ops, groups[0].end, groups[1..], gap)
  }

  lemma {:induction false} RunEndIsRun(ops: seq<Op>, i: nat)
    requires i <= |ops|
    ensures !Changed(ops, RunEnd(ops, i))
    ensures forall k :: i <= k < RunEnd(ops, i) ==> Changed(ops, k)
    decreases |ops| - i
  {
    if Changed(ops, i) { RunEndIsRun(ops, i + 1); }
  }

  lemma {:induction false} RunsCover(ops: seq<Op>, i: nat)
    requires i <= |ops|
    ensures Covers(ops, i, Runs(ops, i), 0)
    ensures !Changed(ops, i) && Runs(ops, i) != [] ==> Runs(ops, i)[0].start > i
    decreases |ops| - i
  {
    if i < |ops| {
      if Changed(ops, i) {
        var e := RunEnd(ops, i + 1);
        RunEndIsRun(ops, i + 1);
        RunsCover(ops, e);
        assert Runs(ops, i)[1..] == Runs(ops, e);
        forall k | i <= k < e ensures Near(ops, k) { assert Changed(ops, k); }
      } else {
        RunsCover(ops, i + 1);
      }
    }
  }

  lemma MergedBlock(ops: seq<Op>, g: Range, h: Range)
    requires Block(ops, g) && Block(ops, h)
    requires g.end <= h.start <= g.end + 2 * CONTEXT
    ensures Block(ops, Range(g.start, h.end))
  {
    forall i | g.end <= i < h.start ensures Near(ops, i) {
      if i < g.end + CONTEXT { assert Changed(ops, g.end - 1); } else { assert Changed(ops, h.start); }
    }
  }

  lemma {:induction false} MergeCovers(ops: seq<Op>, from: nat, current: Range, rest: seq<Range>)
    requires from <= current.start && Quiet(ops, from, current.start) && Block(ops, current)
    requires Covers(ops, current.end, rest, 0)
    ensures Covers(ops, from, Merge(current, rest), 2 * CONTEXT)
    decreases |rest|
  {
    if rest != [] {
      if rest[0].start - current.end <= 2 * CONTEXT {
        MergedBlock(ops, current, rest[0]);
        MergeCovers(ops, from, Range(current.start, rest[0].end), rest[1..]);
      } else {
        MergeCovers(ops, current.end, rest[0], rest[1..]);
        var groups := Merge(current, rest);
        assert groups[1..] == Merge(rest[0], rest[1..]);
      }
    }
  }

  lemma GroupsCover(ops: seq<Op>)
    ensures Covers(ops, 0, Groups(ops), 2 * CONTEXT)
  {
    RunsCover(ops, 0);
    var runs := Runs(ops, 0);
    if runs != [] { MergeCovers(ops, 0, runs[0], runs[1..]); }
  }

  lemma {:induction false} CoveredBlock(ops: seq<Op>, from: nat, groups: seq<Range>, gap: nat, k: nat)
    requires Covers(ops, from, groups, gap) && k < |groups|
    ensures from <= groups[k].start && Block(ops, groups[k])
    decreases k
  {
    if k > 0 { CoveredBlock(ops, groups[0].end, groups[1..], gap, k - 1); }
  }

  lemma {:induction false} CoveredGap(ops: seq<Op>, from: nat, groups: seq<Range>, gap: nat, k: nat, l: nat)
    requires Covers(ops, from, groups, gap) && k < l < |groups|
    ensures groups[k].end + gap < groups[l].start
    decreases l
  {
    if k > 0 {
      CoveredGap(ops, groups[0].end, groups[1..], gap, k - 1, l - 1);
    } else if l > 1 {
      CoveredGap(ops, groups[0].end, groups[1..], gap, 0, l - 1);
      CoveredBlock(ops, from, groups, gap, 1);
    }
  }

  lemma {:induction false} CoveredChange(ops: seq<Op>, from: nat, groups: seq<Range>, gap: nat, i: nat) returns (k: nat)
    requires Covers(ops, from, groups, gap) && from <= i && Changed(ops, i)
    ensures k < |groups| && Shown(groups[k], i)
    decreases |groups|
  {
    if i < groups[0].end {
      k := 0;
    } else {
      k := CoveredChange(ops, groups[0].end, groups[1..], gap, i);
      k := k + 1;
    }
  }

  lemma WindowShowsNeighbours(ops: seq<Op>, g: Range, i: int)
    requires Block(ops, g) && 0 <= i < |ops|
    ensures (exists j :: Shown(g, j) && j - CONTEXT <= i <= j + CONTEXT) ==> Shown(Window(ops, g), i)
    ensures Shown(Window(ops, g), i) ==> Near(ops, i)
  {
    if Shown(Window(ops, g), i) {
      if i < g.start { assert Changed(ops, g.start); } else if i >= g.end { assert Changed(ops, g.end - 1); }
    }
  }

  /** The op ranges that become hunks. */
  function Shape(ops: seq<Op>): (ws: seq<Range>)
    ensures InBounds(ops, ws)
  {
    WindowsInBounds(ops);
    Windows(ops, Groups(ops))
  }

  lemma WindowsInBounds(ops: seq<Op>)
    ensures InBounds(ops, Windows(ops, Groups(ops)))
  {
    GroupsCover(ops);
    var groups := Groups(ops);
    forall k | 0 <= k < |groups| ensures groups[k].start < groups[k].end <= |ops| {
      CoveredBlock(ops, 0, groups, 2 * CONTEXT, k);
    }
  }

  /** Hunks are in order, and at least one op is left out between two of them. */
  lemma HunksLeaveGaps(ops: seq<Op>, k: nat, l: nat)
    requires k < l < |Shape(ops)|
    ensures Shape(ops)[k].end < Shape(ops)[l].start
  {
    GroupsCover(ops);
    CoveredGap(ops, 0, Groups(ops), 2 * CONTEXT, k, l);
  }

  /** An op is shown in a hunk exactly when a changed op lies within three ops of it. */
  lemma HunksShowNeighbourhoods(ops: seq<Op>, i: nat)
    requires i < |ops|
    ensures Near(ops, i) <==> exists k :: 0 <= k < |Shape(ops)| && Shown(Shape(ops)[k], i)
  {
    GroupsCover(ops);
    var groups := Groups(ops);
    if Near(ops, i) {
      var j :| Changed(ops, j) && j - CONTEXT <= i <= j + CONTEXT;
      var k := CoveredChange(ops, 0, groups, 2 * CONTEXT, j);
      CoveredBlock(ops, 0, groups, 2 * CONTEXT, k);
      WindowShowsNeighbours(ops, groups[k], i);
      assert Shown(Shape(ops)[k], i);
    }
    if k :| 0 <= k < |Shape(ops)| && Shown(Shape(ops)[k], i) {
      CoveredBlock(ops, 0, groups, 2 * CONTEXT, k);
      WindowShowsNeighbours(ops, groups[k], i);
    }
  }

  // ---- buildHunks -------------------------------------------------------------------------

  lemma SidesOfSlice(ops: seq<Op>, lo: nat, j: nat)
    requires lo <= j < |ops|
    ensures OldSide(ops[lo..j + 1]) == OldSide(ops[lo..j]) + if ops[j].kind.Ins? then [] else [ops[j].text]
    ensures NewSide(ops[lo..j + 1]) == NewSide(ops[lo..j]) + if ops[j].kind.Del? then [] else [ops[j].text]
  {
    assert ops[lo..j + 1] == ops[lo..j] + [ops[j]];
    SidesOfSnoc(ops[lo..j], ops[j]);
  }

  lemma MarkedCons(o: Op, rest: seq<Op>)
    ensures Marked([o] + rest) == [[Mark(o.kind)] + o.text] + Marked(rest)
  {
    assert ([o] + rest)[1..] == rest;
  }

  lemma {:induction false} MarkedConcat(p: seq<Op>, q: seq<Op>)
    ensures Marked(p + q) == Marked(p) + Marked(q)
  {
    if p == [] {
      assert p + q == q;
    } else {
      MarkedConcat(p[1..], q);
      assert p + q == [p[0]] + (p[1..] + q);
      MarkedCons(p[0], p[1..] + q);
      Regroup([[Mark(p[0].kind)] + p[0].text], Marked(p[1..]), Marked(q));
    }
  }

  method FindRuns(ops: seq<Op>) returns (changes: seq<Range>)
    ensures changes == Runs(ops, 0)
  {
    changes := [];
    var i := 0;
    while i < |ops|
      invariant 0 <= i <= |ops|
      invariant changes + Runs(ops, i) == Runs(ops, 0)
    {
      if !ops[i].kind.Keep? {
        var start := i;
        ghost var e := RunEnd(ops, start + 1);
        i := i + 1;
        while i < |ops| && !ops[i].kind.Keep?
          invariant start < i <= |ops| && RunEnd(ops, i) == e
        {
          i := i + 1;
        }
        assert Runs(ops, start) == [Range(start, i)] + Runs(ops, i);
        assert changes + ([Range(start, i)] + Runs(ops, i)) == (changes + [Range(start, i)]) + Runs(ops, i);
        changes := changes + [Range(start, i)];
      } else {
        i := i + 1;
      }
    }
  }

  method GroupRuns(changes: seq<Range>) returns (groups: seq<Range>)
    requires changes != []
    ensures groups == Merge(changes[0], changes[1..])
  {
    groups := [];
    var current := changes[0];
    var i := 1;
    while i < |changes|
      invariant 1 <= i <= |changes|
      invariant groups + Merge(current, changes[i..]) == Merge(changes[0], changes[1..])
    {
      assert changes[i..][1..] == changes[i + 1..];
      if changes[i].start - current.end <= 2 * CONTEXT {
        current := current.(end := changes[i].end);
      } else {
        groups := groups + [current];
        current := changes[i];
      }
      i := i + 1;
    }
    groups := groups + [current];
  }

  /** The line numbers reached before op `end`, by scanning. */
  method CountBefore(ops: seq<Op>, end: nat) returns (aStart: nat, bStart: nat)
    requires end <= |ops|
    ensures aStart == |OldSide(ops[..end])| && bStart == |NewSide(ops[..end])|
  {
    aStart, bStart := 0, 0;
    for j := 0 to end
      invariant aStart == |OldSide(ops[..j])| && bStart == |NewSide(ops[..j])|
    {
      SidesOfSlice(ops, 0, j);
      assert ops[0..j] == ops[..j] && ops[0..j + 1] == ops[..j + 1];
      match ops[j].kind
      case Keep => aStart, bStart := aStart + 1, bStart + 1;
      case Del => aStart := aStart + 1;
      case Ins => bStart := bStart + 1;
    }
  }

  method Show(ops: seq<Op>, w: Range) returns (aCount: nat, bCount: nat, lines: seq<string>)
    requires w.start <= w.end <= |ops|
    ensures aCount == |OldSide(ops[w.start..w.end])| && bCount == |NewSide(ops[w.start..w.end])|
    ensures lines == Marked(ops[w.start..w.end])
  {
    aCount, bCount, lines := 0, 0, [];
    for j := w.start to w.end
      invariant aCount == |OldSide(ops[w.start..j])| && bCount == |NewSide(ops[w.start..j])|
      invariant lines == Marked(ops[w.start..j])
    {
      SidesOfSlice(ops, w.start, j);
      MarkedConcat(ops[w.start..j], [ops[j]]);
      assert ops[w.start..j + 1] == ops[w.start..j] + [ops[j]];
      match ops[j].kind
      case Keep => lines, aCount, bCount := lines + [" " + ops[j].text], aCount + 1, bCount + 1;
      case Del => lines, aCount := lines + ["-" + ops[j].text], aCount + 1;
      case Ins => lines, bCount := lines + ["+" + ops[j].text], bCount + 1;
    }
  }

  method BuildHunk(ops: seq<Op>, g: Range) returns (h: Hunk)
    requires g.start <= g.end <= |ops|
    ensures h == HunkOf(ops, Window(ops, g))
  {
    var ctxStart: int := g.start - CONTEXT;
    if ctxStart < 0 { ctxStart := 0; }
    var ctxEnd: int := g.end + CONTEXT;
    if ctxEnd > |ops| { ctxEnd := |ops|; }
    var aStart, bStart := CountBefore(ops, ctxStart);
    var aCount, bCount, lines := Show(ops, Range(ctxStart, ctxEnd));
    h := Hunk(aStart, aCount, bStart, bCount, lines);
  }

  method BuildHunks(ops: seq<Op>) returns (hunks: seq<Hunk>)
    ensures hunks == HunksOf(ops, Shape(ops))
  {
    var changes := FindRuns(ops);
    if |changes| == 0 { return []; }
    var groups := GroupRuns(changes);
    hunks := [];
    ghost var all := HunksOf(ops, Shape(ops));
    for i := 0 to |groups|
      invariant hunks == all[..i]
    {
      CoveredGroup(ops, i);
      var h := BuildHunk(ops, groups[i]);
      assert h == all[i] && all[..i + 1] == all[..i] + [all[i]];
      hunks := hunks + [h];
    }
  }

  lemma CoveredGroup(ops: seq<Op>, k: nat)
    requires k < |Groups(ops)|
    ensures Block(ops, Groups(ops)[k])
  {
    GroupsCover(ops);
    CoveredBlock(ops, 0, Groups(ops), 2 * CONTEXT, k);
  }
}
