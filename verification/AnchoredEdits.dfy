/** Span edits guarded by anchor hashes (god/edit_apply.go). */
module AnchoredEdits {
  // With rebaseAnchors of god/integrator.go and fixAnchorHashes of cli/internal/genesis/angel_provider.go.

  import opened Strings
  import opened LineDiff

  /** The hash is any function of the anchor text. */
  type Hash = string -> string

  datatype SpanKind = Replace | Remove

  /** lines is [start, end], counted from 1 and inclusive. */
  datatype EditOp = EditOp(kind: SpanKind, path: string, lines: seq<int>, content: string, anchor: string)

  datatype Fault = BadLines | BadRange | NoFile | PastEnd | AnchorMismatch

  // ---- Files as lines ------------------------------------------------------------------

  /** readFileLines, of a file's content. */
  function LinesOf(content: string): (lines: seq<Line>)
    ensures lines != [] && forall k :: 0 <= k < |lines| ==> '\n' !in lines[k]
  {
    Split(TrimNewline(content), '\n')
  }

  /** What writeFileLines writes. */
  function ContentOf(lines: seq<Line>): string {
    Join(lines, '\n') + "\n"
  }

  /** splitContent: the replacement lines of an op. */
  function NewLines(content: string): (lines: seq<Line>)
    ensures forall k :: 0 <= k < |lines| ==> '\n' !in lines[k]
  {
    if content == "" then [] else Split(TrimNewline(content), '\n')
  }

  /** Lines as they read back: no lines at all come back as one empty line. */
  function ReadBack(lines: seq<Line>): seq<Line> {
    if lines == [] then [""] else lines
  }

  lemma WriteThenRead(lines: seq<Line>)
    requires forall k :: 0 <= k < |lines| ==> '\n' !in lines[k]
    ensures LinesOf(ContentOf(lines)) == ReadBack(lines)
  {
    var text := Join(lines, '\n');
    assert TrimNewline(text + "\n") == text by { assert (text + "\n")[..|text|] == text; }
    if lines == [] { SplitPlain("", '\n'); } else { SplitJoin(lines, '\n'); }
  }

  /** The lines of a text make it up, but for a final newline; those of an op's content likewise, an empty content being
      no line at all. */
  lemma LinesMakeText(content: string)
    ensures Join(LinesOf(content), '\n') == TrimNewline(content)
    ensures content != "" ==> Join(NewLines(content), '\n') == TrimNewline(content) && NewLines(content) != []
    ensures NewLines("") == []
  {
    JoinSplit(TrimNewline(content), '\n');
  }

  // ---- Anchors ---------------------------------------------------------------------------

  /** Lines i to j - 1, those that exist, each with its newline. */
  function Text(lines: seq<Line>, i: int, j: int): string
    decreases j - i
  {
    if i >= j then ""
    else (if 0 <= i < |lines| then lines[i] + "\n" else "") + Text(lines, i + 1, j)
  }

  /** Three lines before the span and three after it. */
  function AnchorText(lines: seq<Line>, start: int, end: int): string {
    Text(lines, start - 4, start - 1) + Text(lines, end, end + 3)
  }

  function AnchorHash(h: Hash, lines: seq<Line>, start: int, end: int): string {
    h(AnchorText(lines, start, end))
  }

  method WriteText(lines: seq<Line>, from: int, stop: int) returns (text: string)
    ensures text == Text(lines, from, stop)
  {
    text := "";
    var i := from;
    while i < stop
      invariant text + Text(lines, i, stop) == Text(lines, from, stop)
    {
      var line := if i >= 0 && i < |lines| then lines[i] + "\n" else "";
      assert text + (line + Text(lines, i + 1, stop)) == text + line + Text(lines, i + 1, stop);
      text := text + line;
      i := i + 1;
    }
  }

  method ComputeAnchorHash(h: Hash, lines: seq<Line>, startLine: int, endLine: int) returns (digest: string)
    ensures digest == AnchorHash(h, lines, startLine, endLine)
  {
    var before := WriteText(lines, startLine - 4, startLine - 1);
    var after := WriteText(lines, endLine, endLine + 3);
    digest := h(before + after);
  }

  // ---- What an anchor tells ---------------------------------------------------------------

  predicate AllLines(lines: seq<Line>) {
    forall k :: 0 <= k < |lines| ==> '\n' !in lines[k]
  }

  function Terminated(lines: seq<Line>): string {
    if lines == [] then "" else lines[0] + "\n" + Terminated(lines[1..])
  }

  lemma {:induction false} SplitTerminated(lines: seq<Line>)
    requires AllLines(lines)
    ensures Split(Terminated(lines), '\n') == lines + [""]
  {
    if lines != [] {
      SplitTerminated(lines[1..]);
      SplitCons(lines[0], Terminated(lines[1..]), '\n');
      assert [lines[0]] + (lines[1..] + [""]) == lines + [""];
    }
  }

  lemma TerminatedInjective(a: seq<Line>, b: seq<Line>)
    requires AllLines(a) && AllLines(b)
    ensures Terminated(a) == Terminated(b) <==> a == b
  {
    SplitTerminated(a);
    SplitTerminated(b);
    if Terminated(a) == Terminated(b) {
      assert a == (a + [""])[..|a|] && b == (b + [""])[..|b|];
    }
  }

  /** The lines after the end-th, at most three. */
  function After(lines: seq<Line>, end: nat): seq<Line>
    requires end <= |lines|
  {
    lines[end..if end + 3 <= |lines| then end + 3 else |lines|]
  }

  lemma {:induction false} TextAfter(lines: seq<Line>, i: nat, j: nat, stop: nat)
    requires i <= stop <= |lines| && stop <= j && (j <= |lines| ==> stop == j) && (j > |lines| ==> stop == |lines|)
    ensures Text(lines, i, j) == Terminated(lines[i..stop])
    decreases j - i
  {
    if i < stop {
      TextAfter(lines, i + 1, j, stop);
      assert lines[i..stop][1..] == lines[i + 1..stop];
    } else {
      TextBeyond(lines, i, j);
    }
  }

  lemma {:induction false} TextBeyond(lines: seq<Line>, i: nat, j: nat)
    requires i >= j || i >= |lines|
    ensures Text(lines, i, j) == ""
    decreases j - i
  {
    if i < j { TextBeyond(lines, i + 1, j); }
  }

  lemma AfterText(lines: seq<Line>, end: nat)
    requires end <= |lines|
    ensures Text(lines, end, end + 3) == Terminated(After(lines, end))
  {
    TextAfter(lines, end, end + 3, if end + 3 <= |lines| then end + 3 else |lines|);
  }

  /** The lines before the start-th, at most three. */
  function Before(lines: seq<Line>, start: nat): seq<Line>
    requires 1 <= start <= |lines| + 1
  {
    lines[if start >= 4 then start - 4 else 0..start - 1]
  }

  lemma {:induction false} TextSkips(lines: seq<Line>, i: int, j: nat)
    requires i <= 0
    ensures Text(lines, i, j) == Text(lines, 0, j)
    decreases -i
  {
    if i < 0 { TextSkips(lines, i + 1, j); }
  }

  lemma BeforeText(lines: seq<Line>, start: nat)
    requires 1 <= start <= |lines| + 1
    ensures Text(lines, start - 4, start - 1) == Terminated(Before(lines, start))
  {
    if start < 4 { TextSkips(lines, start - 4, start - 1); }
    TextAfter(lines, if start >= 4 then start - 4 else 0, start - 1, start - 1);
  }

  lemma {:induction false} TerminatedConcat(a: seq<Line>, b: seq<Line>)
    ensures Terminated(a + b) == Terminated(a) + Terminated(b)
  {
    if a == [] {
      assert a + b == b;
    } else {
      TerminatedConcat(a[1..], b);
      assert (a + b)[1..] == a[1..] + b;
      Regroup(a[0] + "\n", Terminated(a[1..]), Terminated(b));
    }
  }

  lemma Regroup(p: string, q: string, r: string)
    ensures p + (q + r) == p + q + r
  {
  }

  /** The lines around a span, at most three on each side. */
  function Window(lines: seq<Line>, start: nat, end: nat): (w: seq<Line>)
    requires 1 <= start <= end <= |lines|
    ensures AllLines(lines) ==> AllLines(w)
  {
    Before(lines, start) + After(lines, end)
  }

  /** An anchor text is that of the lines around the span. */
  lemma AnchorIsWindow(lines: seq<Line>, start: nat, end: nat)
    requires 1 <= start <= end <= |lines|
    ensures AnchorText(lines, start, end) == Terminated(Window(lines, start, end))
  {
    BeforeText(lines, start);
    AfterText(lines, end);
    TerminatedConcat(Before(lines, start), After(lines, end));
  }

  /** The three lines before the span, or those that exist, are the same in both texts, and so are those after it. */
  predicate SameWindow(a: seq<Line>, b: seq<Line>, start: nat, end: nat)
    requires 1 <= start <= end <= |a| && end <= |b|
  {
    Before(a, start) == Before(b, start) && After(a, end) == After(b, end)
  }

  lemma SameHalves(p: seq<Line>, q: seq<Line>, r: seq<Line>, s: seq<Line>)
    requires |p| == |q|
    ensures p + r == q + s <==> p == q && r == s
  {
    if p + r == q + s {
      assert p == (p + r)[..|p|] && q == (q + s)[..|q|];
      assert r == (p + r)[|p|..] && s == (q + s)[|q|..];
    }
  }

  /** Of any two texts that reach the end of a span, its anchors agree exactly when the lines around it do. */
  lemma WindowIff(a: seq<Line>, b: seq<Line>, start: nat, end: nat)
    requires 1 <= start <= end <= |a| && end <= |b| && AllLines(a) && AllLines(b)
    ensures AnchorText(a, start, end) == AnchorText(b, start, end) <==> SameWindow(a, b, start, end)
  {
    AnchorIsWindow(a, start, end);
    AnchorIsWindow(b, start, end);
    TerminatedInjective(Window(a, start, end), Window(b, start, end));
    SameHalves(Before(a, start), Before(b, start), After(a, end), After(b, end));
  }

  lemma SameBefore(a: seq<Line>, b: seq<Line>, start: nat, end: nat)
    requires 1 <= start <= end <= |a| && end <= |b| && a[..end] == b[..end]
    ensures Before(a, start) == Before(b, start)
  {
    var from := if start >= 4 then start - 4 else 0;
    assert a[from..start - 1] == a[..end][from..start - 1];
    assert b[from..start - 1] == b[..end][from..start - 1];
  }

  /** Of two texts that agree up to the end of a span, its anchors agree exactly when the lines after it do. */
  lemma AnchorIff(file: seq<Line>, now: seq<Line>, start: nat, end: nat)
    requires 1 <= start <= end <= |file| && end <= |now| && now[..end] == file[..end] && AllLines(file) && AllLines(now)
    ensures AnchorText(now, start, end) == AnchorText(file, start, end) <==> After(now, end) == After(file, end)
  {
    WindowIff(now, file, start, end);
    SameBefore(now, file, start, end);
  }

  ghost predicate Injective(h: Hash) {
    forall s, t :: h(s) == h(t) ==> s == t
  }

  /** The text itself, for instance, tells texts apart. */
  lemma TextTellsApart(h: Hash)
    requires forall s :: h(s) == s
    ensures Injective(h)
  {
    forall s, t | h(s) == h(t) ensures s == t { assert h(s) == s && h(t) == t; }
  }

  // ---- One edit ------------------------------------------------------------------------------

  datatype Result<+T> = Done(value: T) | Failed(fault: Fault)

  predicate GoodSpan(op: EditOp) {
    |op.lines| == 2 && 1 <= op.lines[0] <= op.lines[1]
  }

  /** The lines an op puts in place of its span. */
  function Inserted(op: EditOp): seq<Line> {
    match op.kind
    case Replace => NewLines(op.content)
    case Remove => []
  }

  /** applyReplaceSpan and applyDeleteSpan on the lines of the file. */
  function EditLines(h: Hash, lines: seq<Line>, op: EditOp): Result<seq<Line>> {
    if |op.lines| != 2 then Failed(BadLines)
    else
      var start, end := op.lines[0], op.lines[1];
      if start < 1 || end < start then Failed(BadRange)
      else if end > |lines| then Failed(PastEnd)
      else if AnchorHash(h, lines, start, end) != op.anchor then Failed(AnchorMismatch)
      else Done(lines[..start - 1] + Inserted(op) + lines[end..])
  }

  /** One op on the repository: the line checks come before the file is read. */
  function ApplyOp(h: Hash, files: map<string, string>, op: EditOp): Result<map<string, string>> {
    if |op.lines| != 2 then Failed(BadLines)
    else if !GoodSpan(op) then Failed(BadRange)
    else if op.path !in files then Failed(NoFile)
    else
      var edited := EditLines(h, LinesOf(files[op.path]), op);
      match edited
      case Done(lines) => Done(files[op.path := ContentOf(lines)])
      case Failed(f) => Failed(f)
  }

  /** The files after all the ops, if all of them succeed. */
  function ApplyAll(h: Hash, files: map<string, string>, ops: seq<EditOp>): Result<map<string, string>> {
    if ops == [] then Done(files)
    else
      var before := ApplyAll(h, files, ops[..|ops| - 1]);
      match before
      case Done(files') => ApplyOp(h, files', ops[|ops| - 1])
      case Failed(f) => Failed(f)
  }

  /** What an edit that goes through leaves: the lines before and after its span, with the lines of a replacement's
      content between them and nothing for a removal. */
  lemma EditResult(h: Hash, lines: seq<Line>, op: EditOp)
    requires EditLines(h, lines, op).Done?
    ensures var r, start, end := EditLines(h, lines, op).value, op.lines[0], op.lines[1];
      var new0 := if op.kind == Replace then NewLines(op.content) else [];
      && 1 <= start <= end <= |lines| && |r| == |lines| - (end - start + 1) + |new0|
      && r[..start - 1] == lines[..start - 1] && r[start - 1..start - 1 + |new0|] == new0
      && r[start - 1 + |new0|..] == lines[end..]
  {
  }

  predicate InFile(files: map<string, string>, op: EditOp) {
    GoodSpan(op) && op.path in files && op.lines[1] <= |LinesOf(files[op.path])|
  }

  /** Which ops fail, and how. */
  lemma FaultIff(h: Hash, files: map<string, string>, op: EditOp)
    ensures var r := ApplyOp(h, files, op);
      && (r == Failed(BadLines) <==> |op.lines| != 2)
      && (r == Failed(BadRange) <==> |op.lines| == 2 && !(1 <= op.lines[0] <= op.lines[1]))
      && (r == Failed(NoFile) <==> GoodSpan(op) && op.path !in files)
      && (r == Failed(PastEnd) <==> GoodSpan(op) && op.path in files && !InFile(files, op))
      && (r == Failed(AnchorMismatch)
          <==> InFile(files, op) && op.anchor != AnchorHash(h, LinesOf(files[op.path]), op.lines[0], op.lines[1]))
  {
  }

  lemma {:induction false} ApplyNext(h: Hash, files: map<string, string>, ops: seq<EditOp>, n: nat,
                                     now: map<string, string>)
    requires n < |ops| && ApplyAll(h, files, ops[..n]) == Done(now)
    ensures ApplyAll(h, files, ops[..n + 1]) == ApplyOp(h, now, ops[n])
  {
    assert ops[..n + 1][..n] == ops[..n];
  }

  /** rebaseAnchors: every anchor is computed on the files as they are now. */
  function RebaseOp(h: Hash, files: map<string, string>, op: EditOp): Result<EditOp> {
    if op.path !in files then Failed(NoFile)
    else if |op.lines| != 2 then Failed(BadLines)
    else if op.lines[1] > |LinesOf(files[op.path])| then Failed(PastEnd)
    else Done(op.(anchor := AnchorHash(h, LinesOf(files[op.path]), op.lines[0], op.lines[1])))
  }

  /** Which ops cannot be rebased, and why; of the others only the anchor changes. */
  lemma RebaseIff(h: Hash, files: map<string, string>, op: EditOp)
    ensures var r := RebaseOp(h, files, op);
      && (r == Failed(NoFile) <==> op.path !in files)
      && (r == Failed(BadLines) <==> op.path in files && |op.lines| != 2)
      && (r == Failed(PastEnd)
          <==> op.path in files && |op.lines| == 2 && op.lines[1] > |LinesOf(files[op.path])|)
      && (r.Done? ==> r.value == op.(anchor := r.value.anchor))
      && (r.Done? ==> r.value.anchor == AnchorHash(h, LinesOf(files[op.path]), op.lines[0], op.lines[1]))
  {
  }

  // ---- The repository --------------------------------------------------------------------------

  class Repository {
    var files: map<string, string>

    constructor (files: map<string, string>)
      ensures this.files == files
    {
      this.files := files;
    }

    method ReadFileLines(path: string) returns (r: Option<seq<Line>>)
      ensures r == if path in files then Some(LinesOf(files[path])) else None
    {
      if path !in files { return None; }
      r := Some(LinesOf(files[path]));
    }

    method WriteFileLines(path: string, lines: seq<Line>)
      modifies this
      ensures files == old(files)[path := ContentOf(lines)]
    {
      files := files[path := ContentOf(lines)];
    }

    /** applyReplaceSpan and applyDeleteSpan. */
    method ApplySpan(h: Hash, op: EditOp) returns (fault: Option<Fault>)
      modifies this
      ensures match ApplyOp(h, old(files), op)
        case Done(files') => fault.None? && files == files'
        case Failed(f) => fault == Some(f) && files == old(files)
    {
      if |op.lines| != 2 { return Some(BadLines); }
      var startLine, endLine := op.lines[0], op.lines[1];
      if startLine < 1 || endLine < startLine { return Some(BadRange); }
      var read := ReadFileLines(op.path);
      if read.None? { return Some(NoFile); }
      var lines := read.value;
      if endLine > |lines| { return Some(PastEnd); }
      var actual := ComputeAnchorHash(h, lines, startLine, endLine);
      if actual != op.anchor { return Some(AnchorMismatch); }
      var result := lines[..startLine - 1];
      if op.kind == Replace { result := result + NewLines(op.content); }
      assert result == lines[..startLine - 1] + Inserted(op);
      result := result + lines[endLine..];
      WriteFileLines(op.path, result);
      fault := None;
    }

    /** ApplyEditIR: stops at the first fault and leaves the earlier ops applied. */
    method ApplyEditIR(h: Hash, ops: seq<EditOp>) returns (applied: nat, fault: Option<Fault>)
      modifies this
      ensures applied <= |ops| && ApplyAll(h, old(files), ops[..applied]) == Done(files)
      ensures fault.None? <==> applied == |ops|
      ensures fault.Some? ==> ApplyOp(h, files, ops[applied]) == Failed(fault.value)
    {
      applied := 0;
      while applied < |ops|
        invariant applied <= |ops| && ApplyAll(h, old(files), ops[..applied]) == Done(files)
      {
        ApplyNext(h, old(files), ops, applied, files);
        fault := ApplySpan(h, ops[applied]);
        if fault.Some? { return; }
        applied := applied + 1;
      }
      fault := None;
    }

    method RebaseAnchors(h: Hash, ops: seq<EditOp>) returns (r: Result<seq<EditOp>>)
      ensures match r
        case Done(rebased) => |rebased| == |ops| &&
          forall k :: 0 <= k < |ops| ==> RebaseOp(h, files, ops[k]) == Done(rebased[k])
        case Failed(f) => exists k :: 0 <= k < |ops| && RebaseOp(h, files, ops[k]) == Failed(f)
    {
      var rebased := ops;
      var cache: map<string, seq<Line>> := map[];
      for i := 0 to |ops|
        invariant |rebased| == |ops| && rebased[i..] == ops[i..]
        invariant forall p :: p in cache ==> p in files && cache[p] == LinesOf(files[p])
        invariant forall k :: 0 <= k < i ==> RebaseOp(h, files, ops[k]) == Done(rebased[k])
      {
        var op := ops[i];
        assert rebased[i] == rebased[i..][0] == op;
        if op.path !in cache {
          var read := ReadFileLines(op.path);
          if read.None? { assert RebaseOp(h, files, ops[i]) == Failed(NoFile); return Failed(NoFile); }
          cache := cache[op.path := read.value];
        }
        var lines := cache[op.path];
        if |op.lines| != 2 { assert RebaseOp(h, files, ops[i]) == Failed(BadLines); return Failed(BadLines); }
        if op.lines[1] > |lines| { assert RebaseOp(h, files, ops[i]) == Failed(PastEnd); return Failed(PastEnd); }
        var digest := ComputeAnchorHash(h, lines, op.lines[0], op.lines[1]);
        rebased := rebased[i := op.(anchor := digest)];
      }
      r := Done(rebased);
    }

    /** fixAnchorHashes: the same anchors, but an op that cannot be rebased keeps its own. */
    method FixAnchors(h: Hash, ops: seq<EditOp>) returns (fixed: seq<EditOp>)
      ensures |fixed| == |ops|
      ensures forall k :: 0 <= k < |ops| ==>
        fixed[k] == match RebaseOp(h, files, ops[k]) case Done(op) => op case Failed(_) => ops[k]
    {
      fixed := ops;
      for i := 0 to |ops|
        invariant |fixed| == |ops| && fixed[i..] == ops[i..]
        invariant forall k :: 0 <= k < i ==>
          fixed[k] == match RebaseOp(h, files, ops[k]) case Done(op) => op case Failed(_) => ops[k]
      {
        var op := ops[i];
        assert fixed[i] == fixed[i..][0] == op;
        if |op.lines| == 2 {
          var read := ReadFileLines(op.path);
          if read.Some? && op.lines[1] <= |read.value| {
            var digest := ComputeAnchorHash(h, read.value, op.lines[0], op.lines[1]);
            fixed := fixed[i := op.(anchor := digest)];
          }
        }
      }
    }
  }

  // ---- An op whose file changed below its span -----------------------------------------------

  /** An op anchored on one text applies to another, which reaches the end of its span, when the lines around the span
      are the same in both; with a hash that tells texts apart, only then. */
  lemma MovedEditIff(h: Hash, file: seq<Line>, now: seq<Line>, op: EditOp)
    requires GoodSpan(op) && op.lines[1] <= |file| && op.lines[1] <= |now| && AllLines(file) && AllLines(now)
    requires op.anchor == AnchorHash(h, file, op.lines[0], op.lines[1])
    ensures SameWindow(file, now, op.lines[0], op.lines[1]) ==> EditLines(h, now, op).Done?
    ensures Injective(h) ==>
        if SameWindow(file, now, op.lines[0], op.lines[1]) then EditLines(h, now, op).Done?
        else EditLines(h, now, op) == Failed(AnchorMismatch)
  {
    WindowIff(file, now, op.lines[0], op.lines[1]);
  }

  /** An op anchored on a file applies to a text that agrees with it up to the end of the op's span when the lines
      after the span are the same; with a hash that tells texts apart, only then. */
  lemma AnchoredEditIff(h: Hash, file: seq<Line>, now: seq<Line>, op: EditOp)
    requires GoodSpan(op) && op.lines[1] <= |file| && op.lines[1] <= |now| && now[..op.lines[1]] == file[..op.lines[1]]
    requires AllLines(file) && AllLines(now) && op.anchor == AnchorHash(h, file, op.lines[0], op.lines[1])
    ensures After(now, op.lines[1]) == After(file, op.lines[1]) ==> EditLines(h, now, op).Done?
    ensures Injective(h) ==>
        if After(now, op.lines[1]) == After(file, op.lines[1]) then EditLines(h, now, op).Done?
        else EditLines(h, now, op) == Failed(AnchorMismatch)
  {
    AnchorIff(file, now, op.lines[0], op.lines[1]);
  }
}
