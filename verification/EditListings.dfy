/** Listings of anchored edits applied one after another (god/edit_apply.go). */
module EditListings {
  // The edits of a listing are anchored on the files as they were before the first of them, as rebaseAnchors of
  // god/integrator.go leaves them.

  import opened Strings
  import opened LineDiff
  import opened PatchSections
  import opened AnchoredEdits

  // ---- Edits listed bottom-up --------------------------------------------------------------------

  /** Of two ops on one file, the span of the later one ends above that of the earlier one, with a gap of lines. */
  predicate Above(later: EditOp, earlier: EditOp, gap: nat) {
    GoodSpan(later) && GoodSpan(earlier) && later.path == earlier.path ==> later.lines[1] + gap < earlier.lines[0]
  }

  /** In each file the spans are listed bottom-up, with at least that many lines between them. */
  predicate BottomUp(ops: seq<EditOp>, gap: nat) {
    forall i, j :: 0 <= i < j < |ops| ==> Above(ops[j], ops[i], gap)
  }

  /** Every op names a span of a file as it is in the repository. */
  predicate Fits(files: map<string, string>, op: EditOp) {
    op.path in files && GoodSpan(op) && op.lines[1] <= |LinesOf(files[op.path])|
  }

  function ChunkOf(file: seq<Line>, op: EditOp): Chunk
    requires GoodSpan(op) && op.lines[1] <= |file|
  {
    Chunk(op.lines[0] - 1, file[op.lines[0] - 1..op.lines[1]], Inserted(op))
  }

  /** The chunks of one file, top-down: the reverse of the listing. */
  function ChunksOf(files: map<string, string>, ops: seq<EditOp>, path: string): seq<Chunk>
    requires path in files && forall k :: 0 <= k < |ops| ==> Fits(files, ops[k])
  {
    if ops == [] then []
    else
      var init, last := ops[..|ops| - 1], ops[|ops| - 1];
      assert Fits(files, ops[|ops| - 1]);
      if last.path == path then [ChunkOf(LinesOf(files[path]), last)] + ChunksOf(files, init, path)
      else ChunksOf(files, init, path)
  }

  // ---- Splicing one more chunk in front ------------------------------------------------------------

  /** All chunks start at or after line n. */
  predicate From(cs: seq<Chunk>, n: nat) {
    cs == [] || n <= cs[0].orig
  }

  lemma {:induction false} InOrderFrom(cs: seq<Chunk>, n: nat, m: nat)
    requires InOrder(cs, m) && From(cs, n) && n <= m
    ensures forall k :: 0 <= k < |cs| ==> n <= cs[k].orig
  {
    forall k | 0 <= k < |cs| ensures n <= cs[k].orig { FirstIsLowest(cs, m, k); }
  }

  lemma {:induction false} FirstIsLowest(cs: seq<Chunk>, m: nat, k: nat)
    requires InOrder(cs, m) && k < |cs|
    ensures cs[0].orig <= cs[k].orig
    decreases k
  {
    if k > 0 {
      InOrderAt(cs, m, k);
      FirstIsLowest(cs, m, k - 1);
    }
  }

  /** Lines before the first chunk are as they were. */
  lemma {:induction false} SplicePrefix(file: seq<Line>, cs: seq<Chunk>, n: nat)
    requires InOrder(cs, |file|) && From(cs, n) && n <= |file|
    ensures n <= |Splice(file, cs)| && Splice(file, cs)[..n] == file[..n]
    decreases |cs|
  {
    if cs != [] {
      var init, c := cs[..|cs| - 1], cs[|cs| - 1];
      InOrderFrom(cs, n, |file|);
      SplicePrefix(file[..c.orig], init, n);
      assert file[..c.orig][..n] == file[..n];
    }
  }

  lemma {:induction false} InOrderCons(c: Chunk, cs: seq<Chunk>, m: nat)
    requires InOrder(cs, m) && From(cs, End(c)) && End(c) <= m
    ensures InOrder([c] + cs, m)
    decreases |cs|
  {
    var all := [c] + cs;
    if cs != [] {
      var init, last := cs[..|cs| - 1], cs[|cs| - 1];
      InOrderFrom(cs, End(c), m);
      InOrderCons(c, init, last.orig);
      assert all[..|all| - 1] == [c] + init;
    } else {
      assert all[..|all| - 1] == [];
    }
  }

  /** Replacing a span above all other chunks, after they were spliced, splices all of them. */
  lemma {:induction false} SpliceCons(file: seq<Line>, c: Chunk, cs: seq<Chunk>)
    requires InOrder(cs, |file|) && From(cs, End(c)) && End(c) <= |file|
    ensures InOrder([c] + cs, |file|) && End(c) <= |Splice(file, cs)|
    ensures Splice(file, [c] + cs) == file[..c.orig] + c.ins + Splice(file, cs)[End(c)..]
    decreases |cs|
  {
    InOrderCons(c, cs, |file|);
    SplicePrefix(file, cs, End(c));
    var all := [c] + cs;
    if cs == [] {
      assert all == [c] && all[..0] == [];
    } else {
      var init, last := cs[..|cs| - 1], cs[|cs| - 1];
      InOrderFrom(cs, End(c), |file|);
      SpliceCons(file[..last.orig], c, init);
      assert all[..|all| - 1] == [c] + init;
      assert file[..last.orig][..c.orig] == file[..c.orig];
      SplicePrefix(file[..last.orig], init, End(c));
      var inner, tail := Splice(file[..last.orig], init), last.ins + file[End(last)..];
      assert Splice(file, cs) == inner + tail;
      assert (inner + tail)[End(c)..] == inner[End(c)..] + tail;
    }
  }

  // ---- The result of a listing ------------------------------------------------------------------------

  ghost predicate AllFit(files: map<string, string>, ops: seq<EditOp>) {
    forall k :: 0 <= k < |ops| ==> Fits(files, ops[k])
  }

  /** Ops that name disjoint spans of the files as they are, bottom-up in each file. */
  ghost predicate Listing(files: map<string, string>, ops: seq<EditOp>) {
    AllFit(files, ops) && BottomUp(ops, 0)
  }

  predicate AnchoredOp(h: Hash, files: map<string, string>, op: EditOp)
    requires Fits(files, op)
  {
    op.anchor == AnchorHash(h, LinesOf(files[op.path]), op.lines[0], op.lines[1])
  }

  /** Every anchor is the one of the span in the file as it is in the repository. */
  ghost predicate Anchored(h: Hash, files: map<string, string>, ops: seq<EditOp>)
    requires AllFit(files, ops)
  {
    forall k :: 0 <= k < |ops| ==> AnchoredOp(h, files, ops[k])
  }

  lemma ListingInit(files: map<string, string>, ops: seq<EditOp>)
    requires Listing(files, ops) && ops != []
    ensures Listing(files, ops[..|ops| - 1])
  {
    InitBottomUp(ops, 0);
  }

  lemma InitBottomUp(ops: seq<EditOp>, gap: nat)
    requires BottomUp(ops, gap) && ops != []
    ensures BottomUp(ops[..|ops| - 1], gap)
  {
    var init := ops[..|ops| - 1];
    forall i, j | 0 <= i < j < |init| ensures Above(init[j], init[i], gap) { assert Above(ops[j], ops[i], gap); }
  }

  /** An op above every other one of its file. */
  ghost predicate AboveAll(op: EditOp, ops: seq<EditOp>, gap: nat) {
    forall k :: 0 <= k < |ops| ==> Above(op, ops[k], gap)
  }

  /** All chunks lie that many lines below an op listed after them. */
  lemma {:induction false} ChunksBelow(files: map<string, string>, ops: seq<EditOp>, op: EditOp, gap: nat)
    requires AllFit(files, ops) && op.path in files && GoodSpan(op) && AboveAll(op, ops, gap)
    ensures From(ChunksOf(files, ops, op.path), op.lines[1] + gap)
  {
    if ops != [] {
      var init, last := ops[..|ops| - 1], ops[|ops| - 1];
      assert AboveAll(op, init, gap) by {
        forall k | 0 <= k < |init| ensures Above(op, init[k], gap) { assert init[k] == ops[k]; }
      }
      ChunksBelow(files, init, op, gap);
      assert Above(op, last, gap) && Fits(files, last);
    }
  }

  lemma {:induction false} ChunksInOrder(files: map<string, string>, ops: seq<EditOp>, path: string)
    requires Listing(files, ops) && path in files
    ensures InOrder(ChunksOf(files, ops, path), |LinesOf(files[path])|)
  {
    if ops != [] {
      var init, last := ops[..|ops| - 1], ops[|ops| - 1];
      ListingInit(files, ops);
      ChunksInOrder(files, init, path);
      assert Fits(files, last);
      if last.path == path {
        LastAboveAll(ops, 0);
        ChunksBelow(files, init, last, 0);
        InOrderCons(ChunkOf(LinesOf(files[path]), last), ChunksOf(files, init, path), |LinesOf(files[path])|);
      }
    }
  }

  lemma LastAboveAll(ops: seq<EditOp>, gap: nat)
    requires BottomUp(ops, gap) && ops != []
    ensures AboveAll(ops[|ops| - 1], ops[..|ops| - 1], gap)
  {
    var init, last := ops[..|ops| - 1], ops[|ops| - 1];
    forall k | 0 <= k < |init| ensures Above(last, init[k], gap) { assert Above(ops[|ops| - 1], ops[k], gap); }
  }

  /** The lines of a file after a listing: all its spans replaced at once. */
  ghost function Target(files: map<string, string>, ops: seq<EditOp>, path: string): seq<Line>
    requires path in files && Listing(files, ops)
  {
    ChunksInOrder(files, ops, path);
    Splice(LinesOf(files[path]), ChunksOf(files, ops, path))
  }

  /** Every file reads as its target; a file whose lines are all removed reads as one empty line. */
  ghost predicate Reached(files: map<string, string>, now: map<string, string>, ops: seq<EditOp>)
    requires Listing(files, ops)
  {
    && now.Keys == files.Keys
    && forall path {:trigger path in files} :: path in files ==> ReachedFile(files, now[path], ops, path)
  }

  ghost predicate ReachedFile(files: map<string, string>, content: string, ops: seq<EditOp>, path: string)
    requires Listing(files, ops) && path in files
  {
    LinesOf(content) == ReadBack(Target(files, ops, path))
  }

  // ---- When the next op of a listing applies ------------------------------------------------------------

  /** The lines after the op's span are, once the chunks below are in place, what they were. */
  predicate Undisturbed(file: seq<Line>, cs: seq<Chunk>, op: EditOp)
    requires InOrder(cs, |file|) && GoodSpan(op) && op.lines[1] <= |file| && From(cs, op.lines[1])
  {
    SplicePrefix(file, cs, op.lines[1]);
    After(Splice(file, cs), op.lines[1]) == After(file, op.lines[1])
  }

  lemma {:induction false} SplicedLines(file: seq<Line>, cs: seq<Chunk>)
    requires InOrder(cs, |file|) && AllLines(file) && forall k :: 0 <= k < |cs| ==> AllLines(cs[k].ins)
    ensures AllLines(Splice(file, cs))
    decreases |cs|
  {
    if cs != [] {
      var init, c := cs[..|cs| - 1], cs[|cs| - 1];
      SplicedLines(file[..c.orig], init);
    }
  }

  /** What an edit that goes through makes of a text that agrees with a file up to the end of its span. */
  lemma EditedText(h: Hash, file: seq<Line>, now: seq<Line>, op: EditOp)
    requires GoodSpan(op) && op.lines[1] <= |file| && op.lines[1] <= |now| && now[..op.lines[1]] == file[..op.lines[1]]
    requires EditLines(h, now, op).Done?
    ensures EditLines(h, now, op).value == file[..op.lines[0] - 1] + Inserted(op) + now[op.lines[1]..]
  {
    assert now[..op.lines[0] - 1] == now[..op.lines[1]][..op.lines[0] - 1];
    assert file[..op.lines[0] - 1] == file[..op.lines[1]][..op.lines[0] - 1];
  }

  /** An op above all chunks, on a file in which they are in place: with its lines undisturbed it puts its own chunk in
      place; otherwise a hash that tells texts apart stops it. */
  lemma NextEditIff(h: Hash, file: seq<Line>, cs: seq<Chunk>, op: EditOp)
    requires InOrder(cs, |file|) && GoodSpan(op) && op.lines[1] <= |file| && From(cs, op.lines[1])
    requires AllLines(file) && AllLines(Splice(file, cs)) && op.anchor == AnchorHash(h, file, op.lines[0], op.lines[1])
    ensures InOrder([ChunkOf(file, op)] + cs, |file|)
    ensures Undisturbed(file, cs, op) ==>
        EditLines(h, ReadBack(Splice(file, cs)), op) == Done(Splice(file, [ChunkOf(file, op)] + cs))
    ensures Injective(h) && !Undisturbed(file, cs, op) ==>
        EditLines(h, ReadBack(Splice(file, cs)), op) == Failed(AnchorMismatch)
  {
    var now := Splice(file, cs);
    SplicePrefix(file, cs, op.lines[1]);
    AnchoredEditIff(h, file, now, op);
    SpliceCons(file, ChunkOf(file, op), cs);
    if Undisturbed(file, cs, op) { EditedText(h, file, now, op); }
  }

  /** Three lines between the spans are enough. */
  lemma SpacedIsUndisturbed(file: seq<Line>, cs: seq<Chunk>, op: EditOp)
    requires InOrder(cs, |file|) && GoodSpan(op) && op.lines[1] <= |file| && From(cs, op.lines[1] + 3)
    ensures Undisturbed(file, cs, op)
  {
    var end := op.lines[1];
    if cs != [] {
      FirstIsLowest(cs, |file|, |cs| - 1);
      SplicePrefix(file, cs, end + 3);
      var now := Splice(file, cs);
      assert After(now, end) == now[..end + 3][end..] && After(file, end) == file[..end + 3][end..];
    }
  }

  lemma EditedReadsBack(h: Hash, lines: seq<Line>, op: EditOp)
    requires EditLines(h, lines, op).Done? && forall i :: 0 <= i < |lines| ==> '\n' !in lines[i]
    ensures var r := EditLines(h, lines, op).value; LinesOf(ContentOf(r)) == ReadBack(r)
  {
    WriteThenRead(EditLines(h, lines, op).value);
  }

  lemma OtherTarget(files: map<string, string>, ops: seq<EditOp>, path: string)
    requires Listing(files, ops) && ops != [] && Listing(files, ops[..|ops| - 1])
    requires path in files && path != ops[|ops| - 1].path
    ensures Target(files, ops, path) == Target(files, ops[..|ops| - 1], path)
  {
    assert ChunksOf(files, ops, path) == ChunksOf(files, ops[..|ops| - 1], path);
  }

  lemma {:induction false} ChunksAreLines(files: map<string, string>, ops: seq<EditOp>, path: string)
    requires AllFit(files, ops) && path in files
    ensures forall k :: 0 <= k < |ChunksOf(files, ops, path)| ==> AllLines(ChunksOf(files, ops, path)[k].ins)
  {
    if ops != [] { ChunksAreLines(files, ops[..|ops| - 1], path); }
  }

  /** The op finds the lines after its span as they were, once the ops listed before it are applied. */
  ghost predicate FindsItsLines(files: map<string, string>, ops: seq<EditOp>, op: EditOp)
    requires Listing(files, ops) && Fits(files, op) && AboveAll(op, ops, 0)
  {
    ChunksInOrder(files, ops, op.path);
    ChunksBelow(files, ops, op, 0);
    Undisturbed(LinesOf(files[op.path]), ChunksOf(files, ops, op.path), op)
  }

  /** Every op of the listing does. */
  ghost predicate AllFind(files: map<string, string>, ops: seq<EditOp>)
    requires Listing(files, ops)
  {
    ops == []
    || (ListingInit(files, ops);
        LastAboveAll(ops, 0);
        AllFind(files, ops[..|ops| - 1]) && FindsItsLines(files, ops[..|ops| - 1], ops[|ops| - 1]))
  }

  lemma LastEdit(h: Hash, files: map<string, string>, content: string, ops: seq<EditOp>)
    requires Listing(files, ops) && ops != [] && Listing(files, ops[..|ops| - 1])
    requires Fits(files, ops[|ops| - 1]) && AnchoredOp(h, files, ops[|ops| - 1])
    requires AboveAll(ops[|ops| - 1], ops[..|ops| - 1], 0)
    requires LinesOf(content) == ReadBack(Target(files, ops[..|ops| - 1], ops[|ops| - 1].path))
    ensures FindsItsLines(files, ops[..|ops| - 1], ops[|ops| - 1]) ==>
        EditLines(h, LinesOf(content), ops[|ops| - 1]) == Done(Target(files, ops, ops[|ops| - 1].path))
    ensures Injective(h) && !FindsItsLines(files, ops[..|ops| - 1], ops[|ops| - 1]) ==>
        EditLines(h, LinesOf(content), ops[|ops| - 1]) == Failed(AnchorMismatch)
  {
    var init, op := ops[..|ops| - 1], ops[|ops| - 1];
    var file, cs := LinesOf(files[op.path]), ChunksOf(files, init, op.path);
    ChunksInOrder(files, init, op.path);
    ChunksBelow(files, init, op, 0);
    ChunksAreLines(files, init, op.path);
    SplicedLines(file, cs);
    NextEditIff(h, file, cs, op);
  }

  lemma {:induction false} StepApplies(h: Hash, files: map<string, string>, now: map<string, string>, ops: seq<EditOp>)
    requires Listing(files, ops) && ops != [] && Listing(files, ops[..|ops| - 1])
    requires Fits(files, ops[|ops| - 1]) && AnchoredOp(h, files, ops[|ops| - 1])
    requires AboveAll(ops[|ops| - 1], ops[..|ops| - 1], 0)
    requires FindsItsLines(files, ops[..|ops| - 1], ops[|ops| - 1])
    requires var op := ops[|ops| - 1]; op.path in now && ReachedFile(files, now[op.path], ops[..|ops| - 1], op.path)
    ensures var op := ops[|ops| - 1]; var r := ApplyOp(h, now, op);
      r.Done? && r.value.Keys == now.Keys && ReachedFile(files, r.value[op.path], ops, op.path)
    ensures var op := ops[|ops| - 1]; var r := ApplyOp(h, now, op);
      forall path :: path in now && path != op.path ==> r.value[path] == now[path]
  {
    var op := ops[|ops| - 1];
    LastEdit(h, files, now[op.path], ops);
    EditedReadsBack(h, LinesOf(now[op.path]), op);
  }

  lemma {:induction false} StepReaches(h: Hash, files: map<string, string>, now: map<string, string>, ops: seq<EditOp>)
    requires Listing(files, ops) && ops != [] && Listing(files, ops[..|ops| - 1])
    requires Fits(files, ops[|ops| - 1]) && AnchoredOp(h, files, ops[|ops| - 1])
    requires AboveAll(ops[|ops| - 1], ops[..|ops| - 1], 0) && Reached(files, now, ops[..|ops| - 1])
    ensures FindsItsLines(files, ops[..|ops| - 1], ops[|ops| - 1]) ==>
        ApplyOp(h, now, ops[|ops| - 1]).Done? && Reached(files, ApplyOp(h, now, ops[|ops| - 1]).value, ops)
    ensures Injective(h) && !FindsItsLines(files, ops[..|ops| - 1], ops[|ops| - 1]) ==>
        ApplyOp(h, now, ops[|ops| - 1]) == Failed(AnchorMismatch)
  {
    var init, op := ops[..|ops| - 1], ops[|ops| - 1];
    LastEdit(h, files, now[op.path], ops);
    if FindsItsLines(files, init, op) {
      StepApplies(h, files, now, ops);
      var next := ApplyOp(h, now, op).value;
      forall path | path in files ensures ReachedFile(files, next[path], ops, path) {
        if path != op.path { OtherTarget(files, ops, path); }
      }
    }
  }

  /** A listing anchored on the repository as it is applies, through all the reading and writing in between, when every
      op finds its lines; each file then ends with all its spans replaced at once. With a hash that tells texts apart
      it applies only then, and otherwise stops with an anchor mismatch. */
  lemma {:induction false} ListingIff(h: Hash, files: map<string, string>, ops: seq<EditOp>)
    requires Listing(files, ops) && Anchored(h, files, ops)
    ensures AllFind(files, ops) ==> ApplyAll(h, files, ops).Done? && Reached(files, ApplyAll(h, files, ops).value, ops)
    ensures Injective(h) && !AllFind(files, ops) ==> ApplyAll(h, files, ops) == Failed(AnchorMismatch)
  {
    if ops != [] {
      ListingInit(files, ops);
      LastAboveAll(ops, 0);
      ListingIff(h, files, ops[..|ops| - 1]);
      assert Fits(files, ops[|ops| - 1]) && AnchoredOp(h, files, ops[|ops| - 1]);
      if AllFind(files, ops[..|ops| - 1]) { StepReaches(h, files, ApplyAll(h, files, ops[..|ops| - 1]).value, ops); }
    }
  }

  lemma {:induction false} SpacedFind(files: map<string, string>, ops: seq<EditOp>)
    requires Listing(files, ops) && BottomUp(ops, 3)
    ensures AllFind(files, ops)
  {
    if ops != [] {
      var init, op := ops[..|ops| - 1], ops[|ops| - 1];
      ListingInit(files, ops);
      InitBottomUp(ops, 3);
      SpacedFind(files, init);
      LastAboveAll(ops, 3);
      LastAboveAll(ops, 0);
      assert Fits(files, op);
      ChunksInOrder(files, init, op.path);
      ChunksBelow(files, init, op, 3);
      ChunksBelow(files, init, op, 0);
      SpacedIsUndisturbed(LinesOf(files[op.path]), ChunksOf(files, init, op.path), op);
    }
  }

  /** With three lines between neighbouring spans, every op passes its anchor check, whatever the hash. */
  lemma BottomUpApplies(h: Hash, files: map<string, string>, ops: seq<EditOp>)
    requires Listing(files, ops) && BottomUp(ops, 3) && Anchored(h, files, ops)
    ensures ApplyAll(h, files, ops).Done? && Reached(files, ApplyAll(h, files, ops).value, ops)
  {
    SpacedFind(files, ops);
    ListingIff(h, files, ops);
  }

  // ---- Runs ------------------------------------------------------------------------------------------------

  /** If a whole list of ops succeeds then so does every first part of it. */
  lemma {:induction false} PrefixApplies(h: Hash, files: map<string, string>, ops: seq<EditOp>, n: nat)
    requires n <= |ops| && ApplyAll(h, files, ops).Done?
    ensures ApplyAll(h, files, ops[..n]).Done?
  {
    if n < |ops| {
      PrefixApplies(h, files, ops[..|ops| - 1], n);
      assert ops[..|ops| - 1][..n] == ops[..n];
    } else {
      assert ops[..n] == ops;
    }
  }

  /** Applying a listing whose ops find their lines never stops half way. */
  lemma ListingNeverStops(h: Hash, files: map<string, string>, ops: seq<EditOp>, n: nat, now: map<string, string>)
    requires Listing(files, ops) && Anchored(h, files, ops) && AllFind(files, ops)
    requires n < |ops| && ApplyAll(h, files, ops[..n]) == Done(now)
    ensures ApplyOp(h, now, ops[n]).Done?
  {
    ListingIff(h, files, ops);
    PrefixApplies(h, files, ops, n + 1);
    ApplyNext(h, files, ops, n, now);
  }

  /** A fault is the fault of the whole list. */
  lemma {:induction false} FaultStays(h: Hash, files: map<string, string>, ops: seq<EditOp>, n: nat)
    requires n <= |ops| && ApplyAll(h, files, ops[..n]).Failed?
    ensures ApplyAll(h, files, ops) == ApplyAll(h, files, ops[..n])
  {
    if n < |ops| {
      assert ops[..|ops| - 1][..n] == ops[..n];
      FaultStays(h, files, ops[..|ops| - 1], n);
    } else {
      assert ops[..n] == ops;
    }
  }

  /** How a run of ApplyEditIR ends. */
  ghost predicate Ran(h: Hash, files: map<string, string>, now: map<string, string>, ops: seq<EditOp>, applied: nat,
                      fault: Option<Fault>)
  {
    && applied <= |ops| && ApplyAll(h, files, ops[..applied]) == Done(now)
    && (fault.None? <==> applied == |ops|)
    && (fault.Some? ==> ApplyOp(h, now, ops[applied]) == Failed(fault.value))
  }

  lemma RunIs(h: Hash, files: map<string, string>, now: map<string, string>, ops: seq<EditOp>, applied: nat,
              fault: Option<Fault>)
    requires Ran(h, files, now, ops, applied, fault)
    ensures ApplyAll(h, files, ops) == match fault case None => Done(now) case Some(f) => Failed(f)
  {
    if fault.Some? {
      ApplyNext(h, files, ops, applied, now);
      FaultStays(h, files, ops, applied + 1);
    } else {
      assert ops[..applied] == ops;
    }
  }

  // ---- Rebasing before applying --------------------------------------------------------------------------------

  ghost predicate Rebased(h: Hash, files: map<string, string>, ops: seq<EditOp>, rebased: seq<EditOp>) {
    |rebased| == |ops| && forall k :: 0 <= k < |ops| ==> RebaseOp(h, files, ops[k]) == Done(rebased[k])
  }

  lemma ListingRebases(h: Hash, files: map<string, string>, ops: seq<EditOp>)
    requires Listing(files, ops)
    ensures forall k :: 0 <= k < |ops| ==> RebaseOp(h, files, ops[k]).Done?
  {
    forall k | 0 <= k < |ops| ensures RebaseOp(h, files, ops[k]).Done? { assert Fits(files, ops[k]); }
  }

  /** The anchors do not matter for what a listing is. */
  lemma RebasedListing(h: Hash, files: map<string, string>, ops: seq<EditOp>, rebased: seq<EditOp>)
    requires Listing(files, ops) && Rebased(h, files, ops, rebased)
    ensures Listing(files, rebased) && Anchored(h, files, rebased)
  {
    forall k | 0 <= k < |ops| ensures Fits(files, rebased[k]) && AnchoredOp(h, files, rebased[k]) {
      assert Fits(files, ops[k]);
    }
    forall i, j | 0 <= i < j < |rebased| ensures Above(rebased[j], rebased[i], 0) {
      assert Above(ops[j], ops[i], 0);
    }
  }

  lemma {:induction false} RebasedChunks(h: Hash, files: map<string, string>, ops: seq<EditOp>, rebased: seq<EditOp>,
                                         path: string)
    requires AllFit(files, ops) && AllFit(files, rebased) && Rebased(h, files, ops, rebased) && path in files
    ensures ChunksOf(files, rebased, path) == ChunksOf(files, ops, path)
  {
    if ops != [] {
      RebasedChunks(h, files, ops[..|ops| - 1], rebased[..|ops| - 1], path);
      assert Fits(files, ops[|ops| - 1]) && RebaseOp(h, files, ops[|ops| - 1]) == Done(rebased[|ops| - 1]);
    }
  }

  lemma RebasedFinds(h: Hash, files: map<string, string>, ops: seq<EditOp>, rebased: seq<EditOp>, op: EditOp,
                     anchor: string)
    requires Listing(files, ops) && Listing(files, rebased) && Rebased(h, files, ops, rebased)
    requires Fits(files, op) && AboveAll(op, ops, 0) && AboveAll(op.(anchor := anchor), rebased, 0)
    ensures FindsItsLines(files, rebased, op.(anchor := anchor)) == FindsItsLines(files, ops, op)
  {
    RebasedChunks(h, files, ops, rebased, op.path);
  }

  /** Nor whether its ops find their lines. */
  lemma {:induction false} RebasedFind(h: Hash, files: map<string, string>, ops: seq<EditOp>, rebased: seq<EditOp>)
    requires Listing(files, ops) && Listing(files, rebased) && Rebased(h, files, ops, rebased)
    ensures AllFind(files, rebased) == AllFind(files, ops)
  {
    if ops != [] {
      var n := |ops| - 1;
      ListingInit(files, ops);
      ListingInit(files, rebased);
      LastAboveAll(ops, 0);
      LastAboveAll(rebased, 0);
      RebasedFind(h, files, ops[..n], rebased[..n]);
      assert Fits(files, ops[n]) && RebaseOp(h, files, ops[n]) == Done(rebased[n]);
      RebasedFinds(h, files, ops[..n], rebased[..n], ops[n], rebased[n].anchor);
    }
  }

  /** Nor where it leads. */
  lemma RebasedReaches(h: Hash, files: map<string, string>, now: map<string, string>, ops: seq<EditOp>,
                       rebased: seq<EditOp>)
    requires Listing(files, ops) && Listing(files, rebased) && Rebased(h, files, ops, rebased)
    requires Reached(files, now, rebased)
    ensures Reached(files, now, ops)
  {
    forall path | path in files ensures ReachedFile(files, now[path], ops, path) {
      assert ReachedFile(files, now[path], rebased, path);
      RebasedChunks(h, files, ops, rebased, path);
    }
  }

  lemma RebasedRun(h: Hash, files: map<string, string>, now: map<string, string>, ops: seq<EditOp>,
                   rebased: seq<EditOp>, applied: nat, fault: Option<Fault>)
    requires Listing(files, ops) && Rebased(h, files, ops, rebased) && Ran(h, files, now, rebased, applied, fault)
    ensures AllFind(files, ops) ==> fault.None? && Reached(files, now, ops)
    ensures Injective(h) && !AllFind(files, ops) ==> fault == Some(AnchorMismatch)
  {
    RebasedListing(h, files, ops, rebased);
    RebasedFind(h, files, ops, rebased);
    RunIs(h, files, now, rebased, applied, fault);
    ListingIff(h, files, rebased);
    if AllFind(files, ops) { RebasedReaches(h, files, now, ops, rebased); }
  }

  /** The drift branch of Integrate: rebase on the files as they are, then apply. A listing goes through when every op
      finds its lines; otherwise a hash that tells texts apart stops it. */
  method RebaseAndApply(repo: Repository, h: Hash, ops: seq<EditOp>) returns (fault: Option<Fault>)
    modifies repo
    ensures Listing(old(repo.files), ops) && AllFind(old(repo.files), ops) ==>
        fault.None? && Reached(old(repo.files), repo.files, ops)
    ensures Listing(old(repo.files), ops) && Injective(h) && !AllFind(old(repo.files), ops) ==>
        fault == Some(AnchorMismatch)
  {
    ghost var files := repo.files;
    if Listing(files, ops) { ListingRebases(h, files, ops); }
    var rebased := repo.RebaseAnchors(h, ops);
    if rebased.Failed? { return Some(rebased.fault); }
    var newOps := rebased.value;
    var applied;
    applied, fault := repo.ApplyEditIR(h, newOps);
    if Listing(files, ops) { RebasedRun(h, files, repo.files, ops, newOps, applied, fault); }
  }

  // ---- Spans too close to each other -----------------------------------------------------------------------------

  lemma SecondLineTaken(files: map<string, string>, lower: EditOp, upper: EditOp, y: Line)
    requires Listing(files, [lower]) && Fits(files, upper) && AboveAll(upper, [lower], 0)
    requires lower.path == upper.path && lower.lines == [2, 2] && upper.lines == [1, 1]
    requires |LinesOf(files[lower.path])| == 2 && Inserted(lower) == [y] && y != LinesOf(files[lower.path])[1]
    ensures !FindsItsLines(files, [lower], upper)
  {
    var file, c := LinesOf(files[lower.path]), ChunkOf(LinesOf(files[lower.path]), lower);
    assert [lower][..0] == [];
    assert ChunksOf(files, [lower], lower.path) == [c];
    assert Splice(file, [c]) == file[..1] + [y] + file[2..] by { assert [c][..0] == [] && file[..1][..1] == file[..1]; }
    assert After(Splice(file, [c]), 1)[0] == y && After(file, 1)[0] == file[1];
  }

  /** Two lines of a file rewritten one after the other, both edits anchored on the file as it was: once the second
      line reads otherwise, a hash that tells texts apart stops the edit of the first. */
  lemma CloseSpansClash(h: Hash, files: map<string, string>, lower: EditOp, upper: EditOp, y: Line)
    requires Injective(h) && lower.path == upper.path && lower.path in files && |LinesOf(files[lower.path])| == 2
    requires lower.lines == [2, 2] && lower.kind == Replace && NewLines(lower.content) == [y]
    requires y != LinesOf(files[lower.path])[1] && upper.lines == [1, 1]
    requires AnchoredOp(h, files, lower) && AnchoredOp(h, files, upper)
    ensures Listing(files, [lower, upper]) && ApplyAll(h, files, [lower, upper]) == Failed(AnchorMismatch)
  {
    var ops := [lower, upper];
    assert Above(ops[1], ops[0], 0);
    assert Listing(files, ops) && ops[..1] == [lower];
    ListingInit(files, ops);
    LastAboveAll(ops, 0);
    SecondLineTaken(files, lower, upper, y);
    ListingIff(h, files, ops);
  }
}
