/** The line diff of god/edit_diff.go: an LCS table and the edit script traced back from it. */
module LineDiff {

  type Line = string

  datatype Kind = Keep | Del | Ins
  datatype Op = Op(kind: Kind, text: Line)

  // ---- Reading a script ---------------------------------------------------------

  function Side(ops: seq<Op>, skip: Kind): seq<Line> {
    if ops == [] then []
    else if ops[0].kind == skip then Side(ops[1..], skip)
    else [ops[0].text] + Side(ops[1..], skip)
  }

  /** The file a script starts from: its kept and deleted texts, in order. */
  function OldSide(ops: seq<Op>): seq<Line> { Side(ops, Ins) }

  /** The file a script produces: its kept and inserted texts, in order. */
  function NewSide(ops: seq<Op>): seq<Line> { Side(ops, Del) }

  function Kept(ops: seq<Op>): seq<Line> {
    if ops == [] then []
    else if ops[0].kind.Keep? then [ops[0].text] + Kept(ops[1..])
    else Kept(ops[1..])
  }

  /** The number of insertions and deletions. */
  function Edits(ops: seq<Op>): nat {
    if ops == [] then 0 else (if ops[0].kind.Keep? then 0 else 1) + Edits(ops[1..])
  }

  lemma Regroup(a: seq<Line>, b: seq<Line>, c: seq<Line>)
    ensures a + (b + c) == a + b + c
  {
  }

  lemma SideCons(o: Op, rest: seq<Op>, skip: Kind)
    ensures Side([o] + rest, skip) == if o.kind == skip then Side(rest, skip) else [o.text] + Side(rest, skip)
  {
    assert ([o] + rest)[1..] == rest;
  }

  lemma {:induction false} SideConcat(p: seq<Op>, q: seq<Op>, skip: Kind)
    ensures Side(p + q, skip) == Side(p, skip) + Side(q, skip)
  {
    if p == [] {
      assert p + q == q;
    } else {
      SideConcat(p[1..], q, skip);
      assert p + q == [p[0]] + (p[1..] + q);
      SideCons(p[0], p[1..] + q, skip);
      Regroup([p[0].text], Side(p[1..], skip), Side(q, skip));
    }
  }

  lemma SidesOfSnoc(ops: seq<Op>, o: Op)
    ensures OldSide(ops + [o]) == OldSide(ops) + if o.kind.Ins? then [] else [o.text]
    ensures NewSide(ops + [o]) == NewSide(ops) + if o.kind.Del? then [] else [o.text]
  {
    SideConcat(ops, [o], Ins);
    SideConcat(ops, [o], Del);
  }

  lemma SidesOfCons(o: Op, rest: seq<Op>)
    ensures OldSide([o] + rest) == if o.kind.Ins? then OldSide(rest) else [o.text] + OldSide(rest)
    ensures NewSide([o] + rest) == if o.kind.Del? then NewSide(rest) else [o.text] + NewSide(rest)
    ensures Kept([o] + rest) == if o.kind.Keep? then [o.text] + Kept(rest) else Kept(rest)
  {
    assert ([o] + rest)[1..] == rest;
  }

  lemma {:induction false} EditCount(ops: seq<Op>)
    ensures Edits(ops) + 2 * |Kept(ops)| == |OldSide(ops)| + |NewSide(ops)|
  {
    if ops != [] { EditCount(ops[1..]); }
  }

  // ---- Common subsequences --------------------------------------------------------

  /** s arises from a by dropping some lines. */
  predicate IsSubseq(s: seq<Line>, a: seq<Line>) {
    s == [] || (a != [] && ((s[0] == a[0] && IsSubseq(s[1..], a[1..])) || IsSubseq(s, a[1..])))
  }

  lemma {:induction false} SubseqOfLonger(s: seq<Line>, x: Line, a: seq<Line>)
    requires IsSubseq(s, a)
    ensures IsSubseq(s, [x] + a)
  {
    assert ([x] + a)[1..] == a;
  }

  lemma {:induction false} SubseqTail(s: seq<Line>, a: seq<Line>)
    requires s != [] && a != [] && IsSubseq(s, a)
    ensures IsSubseq(s[1..], a[1..])
  {
    if !(s[0] == a[0] && IsSubseq(s[1..], a[1..])) {
      SubseqTail(s, a[1..]);
      SubseqOfLonger(s[1..], a[1], a[2..]);
      assert a[1..] == [a[1]] + a[2..];
      assert a[1..][1..] == a[2..];
    }
  }

  /** What a script keeps is a common subsequence of its two sides. */
  lemma {:induction false} KeptIsCommon(ops: seq<Op>)
    ensures IsSubseq(Kept(ops), OldSide(ops)) && IsSubseq(Kept(ops), NewSide(ops))
  {
    if ops != [] {
      var o, rest := ops[0], ops[1..];
      KeptIsCommon(rest);
      if o.kind.Keep? {
        assert Kept(ops)[1..] == Kept(rest);
        assert OldSide(ops)[1..] == OldSide(rest) && NewSide(ops)[1..] == NewSide(rest);
      } else if o.kind.Del? {
        SubseqOfLonger(Kept(rest), o.text, OldSide(rest));
      } else {
        SubseqOfLonger(Kept(rest), o.text, NewSide(rest));
      }
    }
  }

  // ---- The table and the script as functions ------------------------------------------

  /** The entry lcs[i][j] of the table for the suffixes a[i..] and b[j..]. */
  function Lcs(a: seq<Line>, b: seq<Line>, i: nat, j: nat): nat
    requires i <= |a| && j <= |b|
    decreases |a| - i + |b| - j
  {
    if i == |a| || j == |b| then 0
    else if a[i] == b[j] then Lcs(a, b, i + 1, j + 1) + 1
    else if Lcs(a, b, i + 1, j) >= Lcs(a, b, i, j + 1) then Lcs(a, b, i + 1, j)
    else Lcs(a, b, i, j + 1)
  }

  /** The script traced from (i, j): on a tie a deletion goes first. */
  function Script(a: seq<Line>, b: seq<Line>, i: nat, j: nat): seq<Op>
    requires i <= |a| && j <= |b|
    decreases |a| - i + |b| - j
  {
    if i < |a| && j < |b| then
      if a[i] == b[j] then [Op(Keep, a[i])] + Script(a, b, i + 1, j + 1)
      else if Lcs(a, b, i + 1, j) >= Lcs(a, b, i, j + 1) then [Op(Del, a[i])] + Script(a, b, i + 1, j)
      else [Op(Ins, b[j])] + Script(a, b, i, j + 1)
    else if i < |a| then [Op(Del, a[i])] + Script(a, b, i + 1, j)
    else if j < |b| then [Op(Ins, b[j])] + Script(a, b, i, j + 1)
    else []
  }

  /** The edit script of two files. */
  function Diff(a: seq<Line>, b: seq<Line>): seq<Op> { Script(a, b, 0, 0) }

  // ---- computeDiff ---------------------------------------------------------------------

  ghost predicate IsTable(lcs: array2<int>, a: seq<Line>, b: seq<Line>)
    reads lcs
  {
    && lcs.Length0 == |a| + 1 && lcs.Length1 == |b| + 1
    && forall i, j {:trigger lcs[i, j]} :: 0 <= i <= |a| && 0 <= j <= |b| ==> lcs[i, j] == Lcs(a, b, i, j)
  }

  method FillTable(a: seq<Line>, b: seq<Line>) returns (lcs: array2<int>)
    ensures IsTable(lcs, a, b)
  {
    var n, m := |a|, |b|;
    lcs := new int[n + 1, m + 1]((i, j) => 0);
    var i := n - 1;
    while i >= 0
      invariant -1 <= i < n
      invariant forall p, q {:trigger lcs[p, q]} :: i < p <= n && 0 <= q <= m ==> lcs[p, q] == Lcs(a, b, p, q)
      invariant forall p :: 0 <= p <= n ==> lcs[p, m] == 0
    {
      var j := m - 1;
      while j >= 0
        invariant -1 <= j < m
        invariant forall p, q {:trigger lcs[p, q]} :: i < p <= n && 0 <= q <= m ==> lcs[p, q] == Lcs(a, b, p, q)
        invariant forall q {:trigger lcs[i, q]} :: j < q <= m ==> lcs[i, q] == Lcs(a, b, i, q)
        invariant forall p :: 0 <= p <= n ==> lcs[p, m] == 0
      {
        if a[i] == b[j] {
          lcs[i, j] := lcs[i + 1, j + 1] + 1;
        } else if lcs[i + 1, j] >= lcs[i, j + 1] {
          lcs[i, j] := lcs[i + 1, j];
        } else {
          lcs[i, j] := lcs[i, j + 1];
        }
        j := j - 1;
      }
      i := i - 1;
    }
  }

  lemma ConsAppend(ops: seq<Op>, o: Op, rest: seq<Op>)
    ensures ops + ([o] + rest) == (ops + [o]) + rest
  {
  }

  lemma TraceKeep(ops: seq<Op>, a: seq<Line>, b: seq<Line>, i: nat, j: nat)
    requires i < |a| && j < |b| && a[i] == b[j]
    ensures ops + Script(a, b, i, j) == (ops + [Op(Keep, a[i])]) + Script(a, b, i + 1, j + 1)
  {
    ConsAppend(ops, Op(Keep, a[i]), Script(a, b, i + 1, j + 1));
  }

  lemma TraceDel(ops: seq<Op>, a: seq<Line>, b: seq<Line>, i: nat, j: nat)
    requires i < |a| && j <= |b| && (j < |b| ==> a[i] != b[j] && Lcs(a, b, i + 1, j) >= Lcs(a, b, i, j + 1))
    ensures ops + Script(a, b, i, j) == (ops + [Op(Del, a[i])]) + Script(a, b, i + 1, j)
  {
    ConsAppend(ops, Op(Del, a[i]), Script(a, b, i + 1, j));
  }

  lemma TraceIns(ops: seq<Op>, a: seq<Line>, b: seq<Line>, i: nat, j: nat)
    requires i <= |a| && j < |b| && (i < |a| ==> a[i] != b[j] && Lcs(a, b, i + 1, j) < Lcs(a, b, i, j + 1))
    ensures ops + Script(a, b, i, j) == (ops + [Op(Ins, b[j])]) + Script(a, b, i, j + 1)
  {
    ConsAppend(ops, Op(Ins, b[j]), Script(a, b, i, j + 1));
  }

  method ComputeDiff(a: seq<Line>, b: seq<Line>) returns (ops: seq<Op>)
    ensures ops == Diff(a, b)
  {
    var n, m := |a|, |b|;
    var lcs := FillTable(a, b);
    ops := [];
    var i, j := 0, 0;
    while i < n && j < m
      invariant 0 <= i <= n && 0 <= j <= m && IsTable(lcs, a, b)
      invariant ops + Script(a, b, i, j) == Diff(a, b)
    {
      if a[i] == b[j] {
        TraceKeep(ops, a, b, i, j);
        ops := ops + [Op(Keep, a[i])];
        i, j := i + 1, j + 1;
      } else if lcs[i + 1, j] >= lcs[i, j + 1] {
        TraceDel(ops, a, b, i, j);
        ops := ops + [Op(Del, a[i])];
        i := i + 1;
      } else {
        TraceIns(ops, a, b, i, j);
        ops := ops + [Op(Ins, b[j])];
        j := j + 1;
      }
    }
    while i < n
      invariant 0 <= i <= n && 0 <= j <= m && (i == n || j == m)
      invariant ops + Script(a, b, i, j) == Diff(a, b)
    {
      TraceDel(ops, a, b, i, j);
      ops := ops + [Op(Del, a[i])];
      i := i + 1;
    }
    while j < m
      invariant i == n && 0 <= j <= m
      invariant ops + Script(a, b, i, j) == Diff(a, b)
    {
      TraceIns(ops, a, b, i, j);
      ops := ops + [Op(Ins, b[j])];
      j := j + 1;
    }
  }

  // ---- What the script means --------------------------------------------------------------

  lemma {:induction false} ScriptSides(a: seq<Line>, b: seq<Line>, i: nat, j: nat)
    requires i <= |a| && j <= |b|
    ensures OldSide(Script(a, b, i, j)) == a[i..]
    ensures NewSide(Script(a, b, i, j)) == b[j..]
    ensures |Kept(Script(a, b, i, j))| == Lcs(a, b, i, j)
    decreases |a| - i + |b| - j
  {
    var ops := Script(a, b, i, j);
    assert i < |a| ==> a[i..] == [a[i]] + a[i + 1..];
    assert j < |b| ==> b[j..] == [b[j]] + b[j + 1..];
    if ops != [] {
      var i', j' := if ops[0].kind.Ins? then i else i + 1, if ops[0].kind.Del? then j else j + 1;
      assert ops == [ops[0]] + Script(a, b, i', j');
      ScriptSides(a, b, i', j');
      SidesOfCons(ops[0], Script(a, b, i', j'));
    }
  }

  /** No common subsequence is longer than the table entry. */
  lemma {:induction false} LcsIsLongest(s: seq<Line>, a: seq<Line>, b: seq<Line>, i: nat, j: nat)
    requires i <= |a| && j <= |b|
    requires IsSubseq(s, a[i..]) && IsSubseq(s, b[j..])
    ensures |s| <= Lcs(a, b, i, j)
    decreases |a| - i + |b| - j
  {
    if s != [] {
      assert a[i..][1..] == a[i + 1..] && b[j..][1..] == b[j + 1..];
      if a[i] == b[j] {
        SubseqTail(s, a[i..]);
        SubseqTail(s, b[j..]);
        LcsIsLongest(s[1..], a, b, i + 1, j + 1);
      } else if s[0] != a[i] {
        LcsIsLongest(s, a, b, i + 1, j);
      } else {
        LcsIsLongest(s, a, b, i, j + 1);
      }
    }
  }

  /** The script takes a to b, and its kept lines are a longest common subsequence. */
  lemma DiffIsCorrect(a: seq<Line>, b: seq<Line>)
    ensures OldSide(Diff(a, b)) == a && NewSide(Diff(a, b)) == b
    ensures IsSubseq(Kept(Diff(a, b)), a) && IsSubseq(Kept(Diff(a, b)), b)
    ensures forall s :: IsSubseq(s, a) && IsSubseq(s, b) ==> |s| <= |Kept(Diff(a, b))|
  {
    ScriptSides(a, b, 0, 0);
    assert a[0..] == a && b[0..] == b;
    KeptIsCommon(Diff(a, b));
    forall s | IsSubseq(s, a) && IsSubseq(s, b) ensures |s| <= |Kept(Diff(a, b))| {
      LcsIsLongest(s, a, b, 0, 0);
    }
  }

  /** No script from a to b has fewer insertions and deletions. */
  lemma DiffIsMinimal(a: seq<Line>, b: seq<Line>, other: seq<Op>)
    requires OldSide(other) == a && NewSide(other) == b
    ensures Edits(Diff(a, b)) <= Edits(other)
  {
    DiffIsCorrect(a, b);
    KeptIsCommon(other);
    EditCount(other);
    EditCount(Diff(a, b));
  }

  predicate Unchanged(ops: seq<Op>) {
    forall k :: 0 <= k < |ops| ==> ops[k].kind.Keep?
  }

  lemma {:induction false} UnchangedSides(ops: seq<Op>)
    requires Unchanged(ops)
    ensures OldSide(ops) == NewSide(ops)
  {
    if ops != [] { UnchangedSides(ops[1..]); }
  }

  lemma {:induction false} ScriptOfEqual(a: seq<Line>, i: nat)
    requires i <= |a|
    ensures Unchanged(Script(a, a, i, i))
    decreases |a| - i
  {
    if i < |a| { ScriptOfEqual(a, i + 1); }
  }

  /** A script without changes means equal files, and equal files get one. */
  lemma UnchangedIffEqual(a: seq<Line>, b: seq<Line>)
    ensures Unchanged(Diff(a, b)) <==> a == b
  {
    DiffIsCorrect(a, b);
    if Unchanged(Diff(a, b)) { UnchangedSides(Diff(a, b)); }
    if a == b { ScriptOfEqual(a, 0); }
  }

  // ---- Which script it is -----------------------------------------------------------------------

  /** Of the scripts that take the lines left over to each other, this step is the one computeDiff chooses: equal heads
      are kept, and a line is inserted only where no shortest script begins with a deletion. */
  ghost predicate Preferred(ops: seq<Op>)
    requires ops != []
  {
    var old0, new0 := OldSide(ops), NewSide(ops);
    && (old0 != [] && new0 != [] && old0[0] == new0[0] ==> ops[0].kind.Keep?)
    && (ops[0].kind.Ins? ==> !DeletionFirst(ops))
  }

  /** Some script from the same lines to the same lines begins with a deletion and has no more edits. */
  ghost predicate DeletionFirst(ops: seq<Op>) {
    exists other: seq<Op> ::
      && other != [] && other[0].kind.Del?
      && OldSide(other) == OldSide(ops) && NewSide(other) == NewSide(ops) && Edits(other) <= Edits(ops)
  }

  /** Every step is the preferred one for what is left. */
  ghost predicate Canonical(ops: seq<Op>) {
    ops == [] || (Preferred(ops) && Canonical(ops[1..]))
  }

  /** No script of two suffixes has fewer edits than the one traced from their cell. */
  lemma ScriptIsMinimal(a: seq<Line>, b: seq<Line>, i: nat, j: nat, other: seq<Op>)
    requires i <= |a| && j <= |b| && OldSide(other) == a[i..] && NewSide(other) == b[j..]
    ensures Edits(Script(a, b, i, j)) <= Edits(other)
  {
    ScriptSides(a, b, i, j);
    KeptIsCommon(other);
    EditCount(other);
    EditCount(Script(a, b, i, j));
    LcsIsLongest(Kept(other), a, b, i, j);
  }

  /** Where the table does not send the trace down, a script that begins with a deletion has more edits. */
  lemma DeletingCosts(a: seq<Line>, b: seq<Line>, i: nat, j: nat, other: seq<Op>)
    requires i < |a| && j < |b| && a[i] != b[j] && Lcs(a, b, i + 1, j) < Lcs(a, b, i, j + 1)
    requires other != [] && other[0].kind.Del? && OldSide(other) == a[i..] && NewSide(other) == b[j..]
    ensures Edits(Script(a, b, i, j)) < Edits(other)
  {
    var rest := other[1..];
    Peeled(other);
    assert a[i..][1..] == a[i + 1..];
    ScriptIsMinimal(a, b, i + 1, j, rest);
    ScriptSides(a, b, i, j);
    ScriptSides(a, b, i + 1, j);
    EditCount(Script(a, b, i, j));
    EditCount(Script(a, b, i + 1, j));
  }

  /** The sides and edits of a script without its first step. */
  lemma Peeled(ops: seq<Op>)
    requires ops != []
    ensures Edits(ops) == Edits(ops[1..]) + if ops[0].kind.Keep? then 0 else 1
    ensures if ops[0].kind.Ins? then OldSide(ops) == OldSide(ops[1..])
      else OldSide(ops) != [] && OldSide(ops)[0] == ops[0].text && OldSide(ops)[1..] == OldSide(ops[1..])
    ensures if ops[0].kind.Del? then NewSide(ops) == NewSide(ops[1..])
      else NewSide(ops) != [] && NewSide(ops)[0] == ops[0].text && NewSide(ops)[1..] == NewSide(ops[1..])
  {
  }

  lemma ScriptPrefers(a: seq<Line>, b: seq<Line>, i: nat, j: nat)
    requires i <= |a| && j <= |b| && Script(a, b, i, j) != []
    ensures Preferred(Script(a, b, i, j))
  {
    var ops := Script(a, b, i, j);
    ScriptSides(a, b, i, j);
    if ops[0].kind.Ins? {
      forall other: seq<Op>
        | other != [] && other[0].kind.Del? && OldSide(other) == OldSide(ops) && NewSide(other) == NewSide(ops)
        ensures Edits(other) > Edits(ops)
      {
        Peeled(other);
        if i < |a| { DeletingCosts(a, b, i, j, other); }
      }
    }
  }

  lemma {:induction false} ScriptIsCanonical(a: seq<Line>, b: seq<Line>, i: nat, j: nat)
    requires i <= |a| && j <= |b|
    ensures Canonical(Script(a, b, i, j))
    decreases |a| - i + |b| - j
  {
    var ops := Script(a, b, i, j);
    if ops != [] {
      var i', j' := if ops[0].kind.Ins? then i else i + 1, if ops[0].kind.Del? then j else j + 1;
      assert ops[1..] == Script(a, b, i', j');
      ScriptPrefers(a, b, i, j);
      ScriptIsCanonical(a, b, i', j');
    }
  }

  ghost predicate Minimal(ops: seq<Op>) {
    forall other: seq<Op> ::
      OldSide(other) == OldSide(ops) && NewSide(other) == NewSide(ops) ==> Edits(ops) <= Edits(other)
  }

  lemma {:induction false} MinimalRest(ops: seq<Op>)
    requires ops != [] && Minimal(ops)
    ensures Minimal(ops[1..])
  {
    var o, rest := ops[0], ops[1..];
    assert ops == [o] + rest;
    SidesOfCons(o, rest);
    forall other: seq<Op> | OldSide(other) == OldSide(rest) && NewSide(other) == NewSide(rest)
      ensures Edits(rest) <= Edits(other)
    {
      SidesOfCons(o, other);
      assert ([o] + other)[1..] == other;
      assert Edits([o] + other) >= Edits(ops);
    }
  }

  lemma StartsWithDeletion(p: seq<Op>, q: seq<Op>)
    requires OldSide(p) == OldSide(q) && NewSide(p) == NewSide(q) && Minimal(q) && q != []
    ensures q[0].kind.Del? ==> DeletionFirst(p)
  {
    assert Edits(q) <= Edits(p);
  }

  /** Two shortest scripts for the same lines that both choose the preferred step begin alike. */
  lemma {:induction false} SameStep(p: seq<Op>, q: seq<Op>)
    requires OldSide(p) == OldSide(q) && NewSide(p) == NewSide(q) && Minimal(p) && Minimal(q) && p != [] && q != []
    requires Preferred(p) && Preferred(q)
    ensures p[0] == q[0]
  {
    Peeled(p);
    Peeled(q);
    StartsWithDeletion(p, q);
    StartsWithDeletion(q, p);
  }

  lemma {:induction false} CanonicalIsUnique(p: seq<Op>, q: seq<Op>)
    requires OldSide(p) == OldSide(q) && NewSide(p) == NewSide(q) && Minimal(p) && Minimal(q)
    requires Canonical(p) && Canonical(q)
    ensures p == q
  {
    EditCount(p);
    EditCount(q);
    if p != [] && q != [] {
      SameStep(p, q);
      Peeled(p);
      Peeled(q);
      assert p == [p[0]] + p[1..] && q == [q[0]] + q[1..];
      MinimalRest(p);
      MinimalRest(q);
      CanonicalIsUnique(p[1..], q[1..]);
    }
  }

  /** A script from a to b is the one computeDiff finds exactly when it is minimal and chooses the preferred step
      everywhere: this settles every tie. */
  lemma DiffIffCanonical(a: seq<Line>, b: seq<Line>, ops: seq<Op>)
    requires OldSide(ops) == a && NewSide(ops) == b
    ensures ops == Diff(a, b) <==> Minimal(ops) && Canonical(ops)
  {
    DiffIsCorrect(a, b);
    ScriptIsCanonical(a, b, 0, 0);
    forall other: seq<Op> | OldSide(other) == a && NewSide(other) == b ensures Edits(Diff(a, b)) <= Edits(other) {
      DiffIsMinimal(a, b, other);
    }
    assert Minimal(Diff(a, b));
    if Minimal(ops) && Canonical(ops) { CanonicalIsUnique(ops, Diff(a, b)); }
  }

  lemma {:induction false} LcsShrinks(a: seq<Line>, b: seq<Line>, i: nat, j: nat)
    requires i <= |a| && j < |b|
    ensures Lcs(a, b, i, j + 1) <= Lcs(a, b, i, j)
  {
    ScriptSides(a, b, i, j + 1);
    var s := Kept(Script(a, b, i, j + 1));
    KeptIsCommon(Script(a, b, i, j + 1));
    SubseqOfLonger(s, b[j], b[j + 1..]);
    assert b[j..] == [b[j]] + b[j + 1..];
    LcsIsLongest(s, a, b, i, j);
  }

  lemma InsThenNoDel(a: seq<Line>, b: seq<Line>, i: nat, j: nat)
    requires i <= |a| && j <= |b| && |Script(a, b, i, j)| >= 2
    requires Script(a, b, i, j)[0].kind.Ins?
    ensures !Script(a, b, i, j)[1].kind.Del?
  {
    assert Script(a, b, i, j)[1..] == Script(a, b, i, j + 1);
    if i < |a| && j + 1 < |b| && a[i] != b[j + 1] {
      LcsShrinks(a, b, i + 1, j);
      assert Lcs(a, b, i + 1, j + 1) < Lcs(a, b, i, j + 1);
    }
  }

  lemma {:induction false} ScriptDeletesFirst(a: seq<Line>, b: seq<Line>, i: nat, j: nat, k: nat)
    requires i <= |a| && j <= |b| && k + 1 < |Script(a, b, i, j)| && Script(a, b, i, j)[k].kind.Ins?
    ensures !Script(a, b, i, j)[k + 1].kind.Del?
    decreases k
  {
    var ops := Script(a, b, i, j);
    if k == 0 {
      InsThenNoDel(a, b, i, j);
    } else {
      var i', j' := if ops[0].kind.Ins? then i else i + 1, if ops[0].kind.Del? then j else j + 1;
      assert ops[1..] == Script(a, b, i', j');
      ScriptDeletesFirst(a, b, i', j', k - 1);
    }
  }

  /** A replaced line is deleted before its replacement is inserted: no deletion follows an insertion directly. */
  lemma DeletionsGoFirst(a: seq<Line>, b: seq<Line>, k: nat)
    requires k + 1 < |Diff(a, b)| && Diff(a, b)[k].kind.Ins?
    ensures !Diff(a, b)[k + 1].kind.Del?
  {
    ScriptDeletesFirst(a, b, 0, 0, k);
  }
}
