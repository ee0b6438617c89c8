/** The delta language of god/patch_v1.go: the new text of a span, told as kept, skipped and literal lines. */
module DeltaPatch {
  import opened Strings
  import opened LineDiff

  // ---- Reading a line ------------------------------------------------------------------------

  datatype Directive = KeepLines(n: int) | SkipLines(n: int) | BadCount | Literal(text: string)

  /** "@K{N}" and "@S{N}" without their braces; any other line only trimmed. */
  function Normalize(line: string): string {
    var t := TrimSpace(line);
    if (HasPrefix(t, "@K{") || HasPrefix(t, "@S{")) && t[|t| - 1] == '}' then t[..2] + t[3..|t| - 1] else t
  }

  function Count(keep: bool, n: int): Directive {
    if keep then KeepLines(n) else SkipLines(n)
  }

  function One(keep: bool): Directive {
    Count(keep, 1)
  }

  function Counted(digits: string, keep: bool): Directive {
    var n := ParseInt(digits);
    if n.None? || n.value < 1 then BadCount
    else Count(keep, n.value)
  }

  /** A count is from 1 up to the largest 64-bit integer. */
  predicate Counts(d: Directive) {
    match d
    case KeepLines(n) => 1 <= n <= MAX_INT64
    case SkipLines(n) => 1 <= n <= MAX_INT64
    case _ => true
  }

  predicate AllCounts(ds: seq<Directive>) {
    forall k :: 0 <= k < |ds| ==> Counts(ds[k])
  }

  predicate HasCount(t: string, prefix: string) {
    HasPrefix(t, prefix) && |t| > 2 && IsDigit(t[2])
  }

  function ParseLine(line: string): Directive {
    var t := Normalize(line);
    if t == "@K" then KeepLines(1)
    else if HasCount(t, "@K") then Counted(t[2..], true)
    else if t == "@S" then SkipLines(1)
    else if HasCount(t, "@S") then Counted(t[2..], false)
    else if HasPrefix(line, "@@") then Literal(line[1..])
    else Literal(line)
  }

  function ParseAll(lines: seq<string>): (ds: seq<Directive>)
    ensures |ds| == |lines|
    ensures forall k {:trigger ds[k]} :: 0 <= k < |lines| ==> ds[k] == ParseLine(lines[k])
  {
    seq(|lines|, k requires 0 <= k < |lines| => ParseLine(lines[k]))
  }

  lemma ParsedCounts(lines: seq<string>)
    ensures AllCounts(ParseAll(lines))
  {
    forall k | 0 <= k < |lines| ensures Counts(ParseAll(lines)[k]) { ParsedCount(lines[k]); }
  }

  lemma ParsedCount(line: string)
    ensures Counts(ParseLine(line))
  {
  }

  // ---- Which lines are directives ----------------------------------------------------------------

  /** "@K" or "@S" with the digits behind it, in braces or not. */
  function Spelled(keep: bool, digits: string, braces: bool): string {
    (if keep then "@K" else "@S") + if braces then "{" + digits + "}" else digits
  }

  /** No digits, or a text that starts with one: what the decoder takes for a count. */
  predicate CountLike(digits: string) {
    digits == "" || IsDigit(digits[0])
  }

  lemma SpelledNormal(line: string, keep: bool, digits: string, braces: bool)
    requires TrimSpace(line) == Spelled(keep, digits, braces) && CountLike(digits)
    ensures Normalize(line) == (if keep then "@K" else "@S") + digits
  {
    var t := TrimSpace(line);
    if braces {
      assert t[..2] == (if keep then "@K" else "@S") && t[3..|t| - 1] == digits;
    } else if digits != "" {
      assert t[2] == digits[0];
    }
  }

  /** A line is a directive when, trimmed, it is "@K" or "@S" followed by nothing, which means one line, or by what
      starts with a digit, in braces or not; that must be a number from 1 up within 64 bits. */
  lemma DirectiveMeaning(line: string, keep: bool, digits: string, braces: bool)
    requires TrimSpace(line) == Spelled(keep, digits, braces) && CountLike(digits)
    ensures ParseLine(line)
      == if digits == "" then Count(keep, 1)
         else if ParseInt(digits).None? || ParseInt(digits).value < 1 then BadCount
         else Count(keep, ParseInt(digits).value)
  {
    SpelledNormal(line, keep, digits, braces);
    var t := Normalize(line);
    assert t[1] == if keep then 'K' else 'S';
    if digits != "" { assert t[2] == digits[0] && t[2..] == digits; }
  }

  ghost predicate Spells(line: string) {
    exists keep, digits, braces :: CountLike(digits) && TrimSpace(line) == Spelled(keep, digits, braces)
  }

  lemma NormalSpells(line: string, keep: bool)
    requires HasPrefix(Normalize(line), if keep then "@K" else "@S") && CountLike(Normalize(line)[2..])
    ensures Spells(line)
  {
    var t, n := TrimSpace(line), Normalize(line);
    if n == t {
      assert t == Spelled(keep, n[2..], false);
    } else {
      assert t[2] == '{' && t[|t| - 1] == '}' && n[2..] == t[3..|t| - 1];
      assert t == Spelled(keep, n[2..], true);
    }
  }

  /** Any other line is literal, a doubled "@" at its start standing for one. */
  lemma LiteralMeaning(line: string)
    requires !Spells(line)
    ensures ParseLine(line) == Literal(if HasPrefix(line, "@@") then line[1..] else line)
  {
    var n := Normalize(line);
    if n == "@K" || HasCount(n, "@K") { NormalSpells(line, true); }
    if n == "@S" || HasCount(n, "@S") { NormalSpells(line, false); }
  }

  // ---- Running directives ----------------------------------------------------------------------

  /** Where decoding stands. Positions are 64-bit integers; Go panics on a slice with a bad bound. */
  datatype State = At(pos: int, out: seq<string>) | Rejected | Panic

  function Step(d: Directive, span: seq<string>, pos: int, out: seq<string>): State
    requires pos <= |span|
  {
    match d
    case BadCount => Rejected
    case Literal(text) => At(pos, out + [text])
    case KeepLines(n) =>
      var end := Wrap1(pos + n);
      if end > |span| then Rejected
      else if pos < 0 || end < pos then Panic
      else At(end, out + span[pos..end])
    case SkipLines(n) =>
      var end := Wrap1(pos + n);
      if end > |span| then Rejected else At(end, out)
  }

  function Exec(ds: seq<Directive>, span: seq<string>, st: State): (r: State)
    requires st.At? ==> st.pos <= |span|
    ensures r.At? ==> r.pos <= |span|
    decreases |ds|
  {
    if ds == [] || !st.At? then st else Exec(ds[1..], span, Step(ds[0], span, st.pos, st.out))
  }

  datatype Result = Ok(text: string) | Error | GoPanic

  function Finish(st: State): Result {
    match st
    case At(_, out) => Ok(Join(out, '\n'))
    case Rejected => Error
    case Panic => GoPanic
  }

  /** What encoded content decodes to, over the lines of the span that it replaces. */
  function Decoded(encoded: string, span: seq<string>): Result {
    if encoded == "" then Ok("") else Finish(Exec(ParseAll(Split(encoded, '\n')), span, At(0, [])))
  }

  /** One round of the loop: what one line does to the position and the output. */
  method DecodeLine(line: string, origSpan: seq<string>, origPos: int, output: seq<string>) returns (st: State)
    requires |origSpan| < MAX_INT64 && MIN_INT64 <= origPos <= |origSpan|
    ensures st == Step(ParseLine(line), origSpan, origPos, output)
    ensures st.At? ==> MIN_INT64 <= st.pos <= |origSpan|
  {
    var trimmed := Normalize(line);
    if trimmed == "@K" {
      if origPos >= |origSpan| { return Rejected; }
      if origPos < 0 { return Panic; }
      assert origSpan[origPos..origPos + 1] == [origSpan[origPos]];
      return At(origPos + 1, output + [origSpan[origPos]]);
    } else if HasCount(trimmed, "@K") {
      var n := ParseInt(trimmed[2..]);
      if n.None? || n.value < 1 { return Rejected; }
      var end := Wrap1(origPos + n.value);
      if end > |origSpan| { return Rejected; }
      if origPos < 0 || end < origPos { return Panic; }
      return At(end, output + origSpan[origPos..end]);
    } else if trimmed == "@S" {
      if origPos >= |origSpan| { return Rejected; }
      return At(origPos + 1, output);
    } else if HasCount(trimmed, "@S") {
      var n := ParseInt(trimmed[2..]);
      if n.None? || n.value < 1 { return Rejected; }
      var end := Wrap1(origPos + n.value);
      if end > |origSpan| { return Rejected; }
      return At(end, output);
    } else if HasPrefix(line, "@@") {
      return At(origPos, output + [line[1..]]);
    } else {
      return At(origPos, output + [line]);
    }
  }

  lemma ExecStep(ds: seq<Directive>, k: nat, span: seq<string>, pos: int, out: seq<string>)
    requires k < |ds| && pos <= |span|
    ensures Exec(ds[k..], span, At(pos, out)) == Exec(ds[k + 1..], span, Step(ds[k], span, pos, out))
  {
    assert ds[k..][1..] == ds[k + 1..];
  }

  method DecodePatchV1Content(encoded: string, origSpan: seq<string>) returns (r: Result)
    requires |origSpan| < MAX_INT64
    ensures r == Decoded(encoded, origSpan)
  {
    if encoded == "" { return Ok(""); }
    var lines := Split(encoded, '\n');
    ghost var ds := ParseAll(lines);
    var output: seq<string> := [];
    var origPos := 0;
    assert ds[0..] == ds;
    for k := 0 to |lines|
      invariant MIN_INT64 <= origPos <= |origSpan|
      invariant Exec(ds[k..], origSpan, At(origPos, output)) == Exec(ds, origSpan, At(0, []))
    {
      ExecStep(ds, k, origSpan, origPos, output);
      var st := DecodeLine(lines[k], origSpan, origPos, output);
      match st {
        case At(pos, out) => origPos, output := pos, out;
        case Rejected => return Error;
        case Panic => return GoPanic;
      }
    }
    r := Ok(Join(output, '\n'));
  }

  // ---- Spelling ---------------------------------------------------------------------------------------

  lemma {:induction false} TrimKeepsHead(s: string, k: nat)
    requires 0 < k <= |s| && !IsSpace(s[k - 1])
    ensures |TrimRight(s, IsSpace)| >= k
  {
    if IsSpace(s[|s| - 1]) { TrimKeepsHead(s[..|s| - 1], k); }
  }

  function Escape(text: string): string {
    if HasPrefix(text, "@") then "@" + text else text
  }

  predicate IsDirective(line: string) {
    !ParseLine(line).Literal?
  }

  /** The texts that some line stands for literally: all but the directives with blanks before them. */
  predicate Expressible(text: string) {
    HasPrefix(text, "@") || !IsDirective(text)
  }

  lemma DoubledAtIsLiteral(text: string)
    requires HasPrefix(text, "@")
    ensures ParseLine("@" + text) == Literal(text)
  {
    var line := "@" + text;
    TrimKeepsHead(line, 2);
    var t := TrimRight(line, IsSpace);
    assert t[0] == '@' && t[1] == '@';
    assert TrimSpace(line) == t;
    assert line[1..] == text;
  }

  lemma EscapeIsLiteral(text: string)
    requires Expressible(text)
    ensures ParseLine(Escape(text)) == Literal(text)
  {
    if HasPrefix(text, "@") {
      DoubledAtIsLiteral(text);
    } else {
      assert !HasPrefix(text, "@@");
    }
  }

  /** What a line stands for literally is expressible. */
  lemma LiteralIsExpressible(line: string)
    requires ParseLine(line).Literal?
    ensures Expressible(ParseLine(line).text)
  {
    if HasPrefix(line, "@@") { assert line[1..][0] == '@'; }
  }

  /** Escaping finds a line for a text whenever there is one. */
  lemma ExpressibleIff(text: string)
    ensures Expressible(text) <==> exists line: string :: ParseLine(line) == Literal(text)
  {
    if Expressible(text) { EscapeIsLiteral(text); }
    forall line: string | ParseLine(line) == Literal(text) ensures Expressible(text) {
      LiteralIsExpressible(line);
    }
  }

  /** "@KN", "@K{N}", "@SN" or "@S{N}". */
  function CountLine(keep: bool, n: nat, braces: bool): string {
    (if keep then "@K" else "@S") + (if braces then "{" + NatText(n) + "}" else NatText(n))
  }

  lemma {:induction false} CountLineNormal(keep: bool, n: nat, braces: bool)
    ensures Normalize(CountLine(keep, n, braces)) == (if keep then "@K" else "@S") + NatText(n)
  {
    var line := CountLine(keep, n, braces);
    var digits := NatText(n);
    assert IsDigit(digits[|digits| - 1]);
    TrimNothing(line);
    if braces {
      assert line[..3] == if keep then "@K{" else "@S{";
      assert line[3..|line| - 1] == digits;
    }
  }

  lemma CountParses(keep: bool, n: nat)
    requires 1 <= n <= MAX_INT64
    ensures Counted(NatText(n), keep) == Count(keep, n)
  {
    ParsePlain(n);
  }

  lemma {:induction false} CountLineParses(keep: bool, n: nat, braces: bool)
    requires 1 <= n <= MAX_INT64
    ensures ParseLine(CountLine(keep, n, braces)) == Count(keep, n)
  {
    var digits := NatText(n);
    CountLineNormal(keep, n, braces);
    CountParses(keep, n);
    var t := Normalize(CountLine(keep, n, braces));
    assert t[2..] == digits && IsDigit(digits[0]);
    assert t[0] == '@' && t[1] == (if keep then 'K' else 'S') && t[2] == digits[0];
  }

  lemma SingleParses(keep: bool)
    ensures ParseLine(if keep then "@K" else "@S") == One(keep)
  {
    TrimNothing("@K");
    TrimNothing("@S");
  }

  // ---- Counts are shorthand -----------------------------------------------------------------------------

  function Repeat<T>(x: T, n: nat): (s: seq<T>)
    ensures |s| == n && forall k {:trigger s[k]} :: 0 <= k < n ==> s[k] == x
  {
    seq(n, _ => x)
  }

  lemma {:induction false} ExecJoin(a: seq<Directive>, b: seq<Directive>, span: seq<string>, st: State)
    requires st.At? ==> st.pos <= |span|
    ensures Exec(a + b, span, st) == Exec(b, span, Exec(a, span, st))
    decreases |a|
  {
    if a == [] {
      assert a + b == b;
    } else if st.At? {
      assert (a + b)[1..] == a[1..] + b;
      ExecJoin(a[1..], b, span, Step(a[0], span, st.pos, st.out));
    }
  }

  /** The output after n span lines from pos on, when they are kept. */
  function Took(keep: bool, span: seq<string>, pos: int, n: nat, out: seq<string>): seq<string>
    requires (keep ==> pos >= 0) && pos + n <= |span|
  {
    if keep then out + span[pos..pos + n] else out
  }

  lemma TookMore(keep: bool, span: seq<string>, pos: int, n: nat, out: seq<string>)
    requires (keep ==> pos >= 0) && 0 < n && pos + n <= |span|
    ensures Took(keep, span, pos + 1, n - 1, Took(keep, span, pos, 1, out)) == Took(keep, span, pos, n, out)
  {
    if keep {
      var first, rest := span[pos..pos + 1], span[pos + 1..pos + n];
      assert first + rest == span[pos..pos + n];
      assert out + first + rest == out + (first + rest);
    }
  }

  lemma OneMoreSingle(keep: bool, n: nat, span: seq<string>, pos: int, out: seq<string>)
    requires MIN_INT64 <= pos <= |span| < MAX_INT64 && (keep ==> pos >= 0) && n > 0
    ensures Exec(Repeat(One(keep), n), span, At(pos, out))
      == if pos == |span| then Rejected
         else Exec(Repeat(One(keep), n - 1), span, At(pos + 1, Took(keep, span, pos, 1, out)))
  {
    assert Repeat(One(keep), n)[1..] == Repeat(One(keep), n - 1);
  }

  /** Keeping or skipping one line n times. */
  lemma {:induction false} Singles(keep: bool, n: nat, span: seq<string>, pos: int, out: seq<string>)
    requires MIN_INT64 <= pos <= |span| < MAX_INT64 && (keep ==> pos >= 0)
    ensures Exec(Repeat(One(keep), n), span, At(pos, out))
      == if pos + n <= |span| then At(pos + n, Took(keep, span, pos, n, out)) else Rejected
    decreases n
  {
    if n == 0 {
      if keep { assert out + span[pos..pos] == out; }
    } else {
      OneMoreSingle(keep, n, span, pos, out);
      if pos < |span| {
        Singles(keep, n - 1, span, pos + 1, Took(keep, span, pos, 1, out));
        if pos + n <= |span| { TookMore(keep, span, pos, n, out); }
      }
    }
  }

  /** Keeping a line before the start of the span panics. */
  lemma KeepBehindPanics(n: nat, span: seq<string>, pos: int, out: seq<string>)
    requires MIN_INT64 <= pos < 0 && n > 0
    ensures Exec(Repeat(One(true), n), span, At(pos, out)) == Panic
  {
    assert Repeat(One(true), n)[1..] == Repeat(One(true), n - 1);
  }

  /** The count overflows no position; one that keeps lines from before the start does not go past the end either. */
  predicate Plain(keep: bool, n: int, size: nat, pos: int) {
    pos + n <= if keep && pos < 0 then size else MAX_INT64
  }

  /** At any position, a count means as many single directives exactly when it is plain there. */
  lemma CountIsSingles(keep: bool, n: nat, span: seq<string>, pos: int, out: seq<string>)
    requires MIN_INT64 <= pos <= |span| < MAX_INT64 && 1 <= n <= MAX_INT64
    ensures Step(Count(keep, n), span, pos, out) == Exec(Repeat(One(keep), n), span, At(pos, out))
      <==> Plain(keep, n, |span|, pos)
  {
    if keep && pos < 0 { KeepBehindPanics(n, span, pos, out); } else { Singles(keep, n, span, pos, out); }
  }

  /** A count that overflows the position: single directives are rejected, "@KN" panics, and "@SN" moves the position
      before the start of the span. */
  lemma OverflowIsNotSingles(keep: bool, n: nat, span: seq<string>, pos: nat, out: seq<string>)
    requires pos <= |span| < MAX_INT64 && n <= MAX_INT64 < pos + n
    ensures Exec(Repeat(One(keep), n), span, At(pos, out)) == Rejected
    ensures Step(KeepLines(n), span, pos, out) == Panic
    ensures Step(SkipLines(n), span, pos, out) == At(pos + n - TWO_TO_64, out) && pos + n - TWO_TO_64 < 0
  {
    Singles(keep, n, span, pos, out);
  }

  lemma ParseJoin(a: seq<string>, b: seq<string>)
    ensures ParseAll(a + b) == ParseAll(a) + ParseAll(b)
  {
  }

  lemma ShortAndLong(keep: bool, n: nat, braces: bool)
    requires 1 <= n <= MAX_INT64
    ensures ParseAll([CountLine(keep, n, braces)]) == [Count(keep, n)]
    ensures ParseAll(Repeat(if keep then "@K" else "@S", n)) == Repeat(One(keep), n)
  {
    CountLineParses(keep, n, braces);
    SingleParses(keep);
  }

  lemma ExecOne(d: Directive, span: seq<string>, st: State)
    requires st.At? ==> st.pos <= |span|
    ensures Exec([d], span, st) == if st.At? then Step(d, span, st.pos, st.out) else st
  {
    assert [d][1..] == [];
  }

  lemma {:induction false} StepInt64(d: Directive, span: seq<string>, pos: int, out: seq<string>)
    requires MIN_INT64 <= pos <= |span| < MAX_INT64 && Counts(d)
    ensures Step(d, span, pos, out).At? ==> Step(d, span, pos, out).pos >= MIN_INT64
  {
  }

  lemma {:induction false} ExecInt64(ds: seq<Directive>, span: seq<string>, pos: int, out: seq<string>)
    requires MIN_INT64 <= pos <= |span| < MAX_INT64 && AllCounts(ds)
    ensures Exec(ds, span, At(pos, out)).At? ==> Exec(ds, span, At(pos, out)).pos >= MIN_INT64
    decreases |ds|
  {
    if ds != [] {
      StepInt64(ds[0], span, pos, out);
      var st := Step(ds[0], span, pos, out);
      if st.At? { ExecInt64(ds[1..], span, st.pos, st.out); }
    }
  }

  lemma ShortIsLong(keep: bool, n: nat, span: seq<string>, st: State)
    requires |span| < MAX_INT64 && 1 <= n <= MAX_INT64
    requires st.At? ==> MIN_INT64 <= st.pos <= |span| && Plain(keep, n, |span|, st.pos)
    ensures Exec([Count(keep, n)], span, st) == Exec(Repeat(One(keep), n), span, st)
  {
    ExecOne(Count(keep, n), span, st);
    if st.At? { CountIsSingles(keep, n, span, st.pos, st.out); }
  }

  /** In any content, "@KN" and "@K{N}" may be replaced by n times "@K", and likewise for "@S", wherever the count is
      plain. */
  lemma {:induction false} CountsAreShorthand(before: seq<string>, keep: bool, n: nat, braces: bool, rest: seq<string>,
                                              span: seq<string>)
    requires |span| < MAX_INT64 && 1 <= n <= MAX_INT64
    requires var st := Exec(ParseAll(before), span, At(0, [])); st.At? ==> Plain(keep, n, |span|, st.pos)
    ensures Exec(ParseAll(before + [CountLine(keep, n, braces)] + rest), span, At(0, []))
      == Exec(ParseAll(before + Repeat(if keep then "@K" else "@S", n) + rest), span, At(0, []))
  {
    ParseParts(before, [CountLine(keep, n, braces)], rest, span);
    ParseParts(before, Repeat(if keep then "@K" else "@S", n), rest, span);
    ShortAndLong(keep, n, braces);
    ParsedCounts(before);
    ExecInt64(ParseAll(before), span, 0, []);
    ShortIsLong(keep, n, span, Exec(ParseAll(before), span, At(0, [])));
  }

  lemma ParseCons(line: string, rest: seq<string>)
    ensures ParseAll([line]) == [ParseLine(line)]
    ensures ParseAll([line] + rest) == [ParseLine(line)] + ParseAll(rest)
  {
    var one, d := ParseAll([line]), ParseLine(line);
    assert one[0] == d;
    assert one == [d];
    ParseJoin([line], rest);
  }

  lemma ExecCons(d: Directive, rest: seq<Directive>, span: seq<string>, pos: int, out: seq<string>)
    requires pos <= |span|
    ensures Exec([d] + rest, span, At(pos, out)) == Exec(rest, span, Step(d, span, pos, out))
  {
    assert ([d] + rest)[1..] == rest;
  }

  lemma {:induction false} ParseParts(a: seq<string>, b: seq<string>, c: seq<string>, span: seq<string>)
    ensures Exec(ParseAll(a + b + c), span, At(0, []))
      == Exec(ParseAll(c), span, Exec(ParseAll(b), span, Exec(ParseAll(a), span, At(0, []))))
  {
    ParseJoin(a + b, c);
    ParseJoin(a, b);
    ExecJoin(ParseAll(a + b), ParseAll(c), span, At(0, []));
    ExecJoin(ParseAll(a), ParseAll(b), span, At(0, []));
  }

  // ---- Decoding is reading a script ------------------------------------------------------------------------

  /** The span lines that a directive consumes. */
  function Length(d: Directive): int {
    match d
    case KeepLines(n) => n
    case SkipLines(n) => n
    case _ => 0
  }

  /** No count met before decoding stops overflows the position, which starts at pos in a span of the given size. */
  predicate InRange(ds: seq<Directive>, size: nat, pos: nat)
    requires pos <= size
    decreases |ds|
  {
    ds == [] || ds[0].BadCount?
    || (&& pos + Length(ds[0]) <= MAX_INT64
        && (0 <= Length(ds[0]) <= size - pos ==> InRange(ds[1..], size, pos + Length(ds[0]))))
  }

  function OpsOf(kind: Kind, lines: seq<string>): (ops: seq<Op>)
    ensures |ops| == |lines| && forall k {:trigger ops[k]} :: 0 <= k < |lines| ==> ops[k] == Op(kind, lines[k])
  {
    seq(|lines|, k requires 0 <= k < |lines| => Op(kind, lines[k]))
  }

  lemma {:induction false} SideOfOps(kind: Kind, lines: seq<string>, skip: Kind)
    ensures Side(OpsOf(kind, lines), skip) == if kind == skip then [] else lines
  {
    if lines != [] {
      SideOfOps(kind, lines[1..], skip);
      assert OpsOf(kind, lines)[1..] == OpsOf(kind, lines[1..]);
    }
  }

  /** The part of an edit script that a directive stands for. */
  function OpsOfDirective(d: Directive, span: seq<string>, pos: nat): seq<Op>
    requires 0 <= Length(d) <= |span| - pos
  {
    match d
    case KeepLines(n) => OpsOf(Keep, span[pos..pos + n])
    case SkipLines(n) => OpsOf(Del, span[pos..pos + n])
    case Literal(text) => [Op(Ins, text)]
    case BadCount => []
  }

  lemma SidesOfDirective(d: Directive, span: seq<string>, pos: nat)
    requires 0 <= Length(d) <= |span| - pos
    ensures OldSide(OpsOfDirective(d, span, pos)) == span[pos..pos + Length(d)]
    ensures NewSide(OpsOfDirective(d, span, pos))
      == match d case Literal(text) => [text] case KeepLines(n) => span[pos..pos + n] case _ => []
  {
    var lines := span[pos..pos + Length(d)];
    match d {
      case KeepLines(_) =>
        SideOfOps(Keep, lines, Ins);
        SideOfOps(Keep, lines, Del);
      case SkipLines(_) =>
        SideOfOps(Del, lines, Ins);
        SideOfOps(Del, lines, Del);
      case Literal(text) =>
        SidesOfCons(Op(Ins, text), []);
        assert [Op(Ins, text)] + [] == [Op(Ins, text)];
      case BadCount =>
    }
  }

  /** One directive, within the span, does what its part of the script says; beyond the span it is rejected. */
  lemma StepIsScript(d: Directive, span: seq<string>, pos: nat, out: seq<string>)
    requires Counts(d) && pos + Length(d) <= MAX_INT64 && pos <= |span| < MAX_INT64
    ensures Step(d, span, pos, out)
      == if d.BadCount? || pos + Length(d) > |span| then Rejected
         else At(pos + Length(d), out + NewSide(OpsOfDirective(d, span, pos)))
    ensures !d.BadCount? && pos + Length(d) <= |span| ==>
        OldSide(OpsOfDirective(d, span, pos)) == span[pos..pos + Length(d)]
  {
    if pos + Length(d) <= |span| {
      SidesOfDirective(d, span, pos);
      assert out + [] == out;
    }
  }

  predicate InsertsExpressible(ops: seq<Op>) {
    forall k :: 0 <= k < |ops| && ops[k].kind.Ins? ==> Expressible(ops[k].text)
  }

  predicate LiteralsExpressible(ds: seq<Directive>) {
    forall k :: 0 <= k < |ds| && ds[k].Literal? ==> Expressible(ds[k].text)
  }

  lemma PutBefore(p: seq<Op>, q: seq<Op>, span: seq<string>, pos: nat, mid: nat, out: seq<string>, new0: seq<string>)
    requires pos <= mid <= |span| && OldSide(p) == span[pos..mid] && OldSide(q) == span[mid..]
    requires new0 == out + NewSide(p) + NewSide(q)
    ensures OldSide(p + q) == span[pos..] && new0 == out + NewSide(p + q)
  {
    SideConcat(p, q, Ins);
    SideConcat(p, q, Del);
    assert span[pos..mid] + span[mid..] == span[pos..];
    assert out + NewSide(p) + NewSide(q) == out + (NewSide(p) + NewSide(q));
  }

  /** Whatever decodes, without overflow, is the new side of a script over the whole span: span lines are kept or
      dropped in order, the unread ones at the end dropped, and every other line is one that can be told. */
  lemma {:induction false} ScriptBehind(ds: seq<Directive>, span: seq<string>, pos: nat, out: seq<string>)
    returns (ops: seq<Op>)
    requires pos <= |span| < MAX_INT64 && InRange(ds, |span|, pos) && AllCounts(ds) && LiteralsExpressible(ds)
    ensures !Exec(ds, span, At(pos, out)).Panic?
    ensures var st := Exec(ds, span, At(pos, out));
      st.At? ==> OldSide(ops) == span[pos..] && st.out == out + NewSide(ops) && InsertsExpressible(ops)
    decreases |ds|
  {
    if ds == [] {
      ops := OpsOf(Del, span[pos..]);
      SideOfOps(Del, span[pos..], Ins);
      SideOfOps(Del, span[pos..], Del);
      assert out + [] == out;
    } else {
      StepIsScript(ds[0], span, pos, out);
      var st := Step(ds[0], span, pos, out);
      ops := [];
      if st.At? {
        ops := ScriptBehind(ds[1..], span, st.pos, st.out);
        var first := OpsOfDirective(ds[0], span, pos);
        if Exec(ds, span, At(pos, out)).At? {
          PutBefore(first, ops, span, pos, st.pos, out, Exec(ds, span, At(pos, out)).out);
        }
        ops := first + ops;
      }
    }
  }

  // ---- Every script can be told -------------------------------------------------------------------------------

  function RenderOp(o: Op): string {
    match o.kind
    case Keep => "@K"
    case Del => "@S"
    case Ins => Escape(o.text)
  }

  function Render(ops: seq<Op>): (lines: seq<string>)
    ensures |lines| == |ops|
    ensures forall k {:trigger lines[k]} :: 0 <= k < |ops| ==> lines[k] == RenderOp(ops[k])
  {
    seq(|ops|, k requires 0 <= k < |ops| => RenderOp(ops[k]))
  }

  function DirectiveOf(o: Op): Directive {
    match o.kind
    case Keep => KeepLines(1)
    case Del => SkipLines(1)
    case Ins => Literal(o.text)
  }

  lemma RenderOpParses(o: Op)
    requires o.kind.Ins? ==> Expressible(o.text)
    ensures ParseLine(RenderOp(o)) == DirectiveOf(o)
  {
    if o.kind.Ins? { EscapeIsLiteral(o.text); } else { SingleParses(o.kind.Keep?); }
  }

  lemma StepOfOp(o: Op, span: seq<string>, pos: nat, out: seq<string>)
    requires pos <= |span| < MAX_INT64
    requires o.kind.Ins? || (pos < |span| && span[pos] == o.text)
    ensures Step(DirectiveOf(o), span, pos, out)
      == At(if o.kind.Ins? then pos else pos + 1, if o.kind.Del? then out else out + [o.text])
  {
    if pos < |span| { assert span[pos..pos + 1] == [span[pos]]; }
  }

  lemma RenderParses(o: Op, rest: seq<Op>)
    requires o.kind.Ins? ==> Expressible(o.text)
    ensures ParseAll(Render([o] + rest)) == [DirectiveOf(o)] + ParseAll(Render(rest))
  {
    RenderOpParses(o);
    var line := RenderOp(o);
    assert Render([o] + rest) == [line] + Render(rest);
    ParseCons(line, Render(rest));
  }

  lemma {:induction false} RenderStep(o: Op, rest: seq<Op>, span: seq<string>, pos: nat, out: seq<string>)
    requires pos <= |span| < MAX_INT64 && (o.kind.Ins? ==> Expressible(o.text))
    requires o.kind.Ins? || (pos < |span| && span[pos] == o.text)
    ensures Exec(ParseAll(Render([o] + rest)), span, At(pos, out))
      == Exec(ParseAll(Render(rest)), span,
           At(if o.kind.Ins? then pos else pos + 1, if o.kind.Del? then out else out + [o.text]))
  {
    RenderParses(o, rest);
    StepOfOp(o, span, pos, out);
    ExecCons(DirectiveOf(o), ParseAll(Render(rest)), span, pos, out);
  }

  /** Decoding a rendered script of the rest of a span appends its new side. */
  lemma {:induction false} RenderRuns(ops: seq<Op>, span: seq<string>, pos: nat, out: seq<string>)
    requires InsertsExpressible(ops) && pos <= |span| < MAX_INT64 && OldSide(ops) == span[pos..]
    ensures Exec(ParseAll(Render(ops)), span, At(pos, out)) == At(|span|, out + NewSide(ops))
    decreases |ops|
  {
    if ops == [] {
      assert out + [] == out;
    } else {
      var o, rest := ops[0], ops[1..];
      assert ops == [o] + rest;
      SidesOfCons(o, rest);
      if !o.kind.Ins? {
        assert span[pos] == o.text && OldSide(rest) == span[pos..][1..];
        assert span[pos..][1..] == span[pos + 1..];
      }
      RenderStep(o, rest, span, pos, out);
      RenderRuns(rest, span, if o.kind.Ins? then pos else pos + 1, if o.kind.Del? then out else out + [o.text]);
      if !o.kind.Del? { assert out + ([o.text] + NewSide(rest)) == out + [o.text] + NewSide(rest); }
    }
  }

  // ---- What can be told ------------------------------------------------------------------------------------------

  lemma {:induction false} ParsedLiterals(lines: seq<string>)
    ensures LiteralsExpressible(ParseAll(lines))
  {
    forall k | 0 <= k < |lines| && ParseAll(lines)[k].Literal? ensures Expressible(ParseAll(lines)[k].text) {
      LiteralIsExpressible(lines[k]);
    }
  }

  /** Decoding is sound: without overflow it never panics, and its output is the new side of a script from the span,
      so that the kept lines are an ordered subsequence of the span. */
  lemma {:induction false} DecodingIsSound(lines: seq<string>, span: seq<string>) returns (ops: seq<Op>)
    requires |span| < MAX_INT64 && InRange(ParseAll(lines), |span|, 0)
    ensures !Exec(ParseAll(lines), span, At(0, [])).Panic?
    ensures var st := Exec(ParseAll(lines), span, At(0, []));
      st.At? ==> OldSide(ops) == span && NewSide(ops) == st.out && InsertsExpressible(ops) && IsSubseq(Kept(ops), span)
  {
    ParsedLiterals(lines);
    ParsedCounts(lines);
    ops := ScriptBehind(ParseAll(lines), span, 0, []);
    KeptIsCommon(ops);
    assert span[0..] == span && [] + NewSide(ops) == NewSide(ops);
  }

  lemma {:induction false} ShortInRange(ds: seq<Directive>, size: nat, pos: nat)
    requires pos <= size < MAX_INT64 && forall k :: 0 <= k < |ds| ==> 0 <= Length(ds[k]) <= 1
    ensures InRange(ds, size, pos)
    decreases |ds|
  {
    if ds != [] && pos + Length(ds[0]) <= size { ShortInRange(ds[1..], size, pos + Length(ds[0])); }
  }

  /** Decoding is complete: every script whose inserted lines can be told decodes from its rendering. */
  lemma {:induction false} DecodingIsComplete(ops: seq<Op>)
    requires InsertsExpressible(ops) && |OldSide(ops)| < MAX_INT64
    ensures Exec(ParseAll(Render(ops)), OldSide(ops), At(0, [])) == At(|OldSide(ops)|, NewSide(ops))
    ensures InRange(ParseAll(Render(ops)), |OldSide(ops)|, 0)
  {
    RenderRuns(ops, OldSide(ops), 0, []);
    assert OldSide(ops)[0..] == OldSide(ops) && [] + NewSide(ops) == NewSide(ops);
    forall k | 0 <= k < |ops| ensures 0 <= Length(ParseAll(Render(ops))[k]) <= 1 { RenderOpParses(ops[k]); }
    ShortInRange(ParseAll(Render(ops)), |OldSide(ops)|, 0);
  }

  /** The lines that cannot be told literally. */
  function Untold(b: seq<string>): seq<string> {
    if b == [] then []
    else if Expressible(b[0]) then Untold(b[1..])
    else [b[0]] + Untold(b[1..])
  }

  lemma UntoldCons(x: string, b: seq<string>)
    ensures Untold([x] + b) == if Expressible(x) then Untold(b) else [x] + Untold(b)
  {
    assert ([x] + b)[1..] == b;
  }

  lemma SubseqKeep(x: string, s: seq<string>, a: seq<string>)
    requires IsSubseq(s, a)
    ensures IsSubseq([x] + s, [x] + a)
  {
    assert ([x] + s)[1..] == s && ([x] + a)[1..] == a;
  }

  lemma {:induction false} UntoldAreKept(ops: seq<Op>)
    requires InsertsExpressible(ops)
    ensures IsSubseq(Untold(NewSide(ops)), OldSide(ops))
  {
    if ops != [] {
      var o, rest := ops[0], ops[1..];
      assert ops == [o] + rest;
      UntoldAreKept(rest);
      SidesOfCons(o, rest);
      UntoldCons(o.text, NewSide(rest));
      var s, a := Untold(NewSide(rest)), OldSide(rest);
      if !o.kind.Ins? {
        SubseqOfLonger(s, o.text, a);
        SubseqKeep(o.text, s, a);
      }
    }
  }

  /** The first op towards b: insert its first line, or else keep it as soon as the rest can still be told. */
  function TellOp(a: seq<string>, b: seq<string>): Op
    requires b != [] && IsSubseq(Untold(b), a)
  {
    if Expressible(b[0]) then Op(Ins, b[0])
    else
      assert Untold(b)[1..] == Untold(b[1..]);
      if a[0] == b[0] && IsSubseq(Untold(b[1..]), a[1..]) then Op(Keep, a[0]) else Op(Del, a[0])
  }

  /** What is left of the lines when the first one was used, or was not. */
  function Rest(lines: seq<string>, used: bool): seq<string> {
    if used && lines != [] then lines[1..] else lines
  }

  lemma TellOpFits(a: seq<string>, b: seq<string>)
    requires b != [] && IsSubseq(Untold(b), a)
    ensures var o := TellOp(a, b);
      && (o.kind.Ins? ==> Expressible(o.text))
      && a == (if o.kind.Ins? then [] else [o.text]) + Rest(a, !o.kind.Ins?)
      && b == (if o.kind.Del? then [] else [o.text]) + Rest(b, !o.kind.Del?)
      && IsSubseq(Untold(Rest(b, !o.kind.Del?)), Rest(a, !o.kind.Ins?))
      && |Rest(a, !o.kind.Ins?)| + |Rest(b, !o.kind.Del?)| < |a| + |b|
  {
    assert b == [b[0]] + b[1..];
    if !Expressible(b[0]) { assert Untold(b)[1..] == Untold(b[1..]) && a == [a[0]] + a[1..]; }
  }

  /** A script from a to b that inserts only lines that can be told. */
  function Tell(a: seq<string>, b: seq<string>): seq<Op>
    requires IsSubseq(Untold(b), a)
    decreases |a| + |b|
  {
    if b == [] then OpsOf(Del, a)
    else
      TellOpFits(a, b);
      var o := TellOp(a, b);
      [o] + Tell(Rest(a, !o.kind.Ins?), Rest(b, !o.kind.Del?))
  }

  lemma InsertsCons(o: Op, rest: seq<Op>)
    requires InsertsExpressible(rest) && (o.kind.Ins? ==> Expressible(o.text))
    ensures InsertsExpressible([o] + rest)
  {
  }

  lemma {:induction false} TellTells(a: seq<string>, b: seq<string>)
    requires IsSubseq(Untold(b), a)
    ensures OldSide(Tell(a, b)) == a && NewSide(Tell(a, b)) == b && InsertsExpressible(Tell(a, b))
    decreases |a| + |b|
  {
    if b == [] {
      SideOfOps(Del, a, Ins);
      SideOfOps(Del, a, Del);
    } else {
      TellOpFits(a, b);
      var o := TellOp(a, b);
      var rest := Tell(Rest(a, !o.kind.Ins?), Rest(b, !o.kind.Del?));
      TellTells(Rest(a, !o.kind.Ins?), Rest(b, !o.kind.Del?));
      SidesOfCons(o, rest);
      InsertsCons(o, rest);
    }
  }

  /** The content decodes to the lines b over the span a. */
  predicate Tells(lines: seq<string>, a: seq<string>, b: seq<string>) {
    var st := Exec(ParseAll(lines), a, At(0, []));
    st.At? && st.out == b
  }

  /** Some content, without overflowing counts, does. */
  ghost predicate CanTell(a: seq<string>, b: seq<string>)
    requires |a| < MAX_INT64
  {
    exists lines: seq<string> :: InRange(ParseAll(lines), |a|, 0) && Tells(lines, a, b)
  }

  /** Without overflow any change of a span can be told, provided only that the directives with blanks before them among
      the new lines are, in order, lines of the span. */
  lemma {:induction false} CanTellIff(a: seq<string>, b: seq<string>)
    requires |a| < MAX_INT64
    ensures CanTell(a, b) <==> IsSubseq(Untold(b), a)
  {
    if CanTell(a, b) {
      var lines: seq<string> :| InRange(ParseAll(lines), |a|, 0) && Tells(lines, a, b);
      var ops := DecodingIsSound(lines, a);
      UntoldAreKept(ops);
    }
    if IsSubseq(Untold(b), a) {
      TellTells(a, b);
      DecodingIsComplete(Tell(a, b));
      assert Tells(Render(Tell(a, b)), a, b);
    }
  }

  // ---- With overflow -----------------------------------------------------------------------------------------------

  /** At the k-th directive the decoder slices the span with a bad bound: the position stands before the span, or the
      count overflows it. */
  predicate PanicsAt(ds: seq<Directive>, span: seq<string>, k: nat)
    requires k < |ds|
  {
    var st := Exec(ds[..k], span, At(0, []));
    && st.At? && ds[k].KeepLines?
    && if st.pos < 0 then st.pos + ds[k].n <= |span| else st.pos + ds[k].n > MAX_INT64
  }

  predicate Panics(ds: seq<Directive>, span: seq<string>) {
    exists k :: 0 <= k < |ds| && PanicsAt(ds, span, k)
  }

  lemma PanicStep(d: Directive, span: seq<string>, pos: int, out: seq<string>)
    requires MIN_INT64 <= pos <= |span| < MAX_INT64 && Counts(d)
    ensures Step(d, span, pos, out).Panic?
      <==> d.KeepLines? && if pos < 0 then pos + d.n <= |span| else pos + d.n > MAX_INT64
  {
  }

  lemma ExecLast(ds: seq<Directive>, span: seq<string>)
    requires ds != []
    ensures Exec(ds, span, At(0, [])) == Exec([ds[|ds| - 1]], span, Exec(ds[..|ds| - 1], span, At(0, [])))
  {
    assert ds == ds[..|ds| - 1] + [ds[|ds| - 1]];
    ExecJoin(ds[..|ds| - 1], [ds[|ds| - 1]], span, At(0, []));
  }

  lemma {:induction false} RunPanicsIff(ds: seq<Directive>, span: seq<string>)
    requires |span| < MAX_INT64 && AllCounts(ds)
    ensures Exec(ds, span, At(0, [])).Panic? <==> Panics(ds, span)
    decreases |ds|
  {
    if ds != [] {
      var init, d := ds[..|ds| - 1], ds[|ds| - 1];
      RunPanicsIff(init, span);
      forall k | 0 <= k < |init| ensures PanicsAt(ds, span, k) == PanicsAt(init, span, k) {
        assert ds[..k] == init[..k];
      }
      ExecLast(ds, span);
      var st := Exec(init, span, At(0, []));
      ExecOne(d, span, st);
      ExecInt64(init, span, 0, []);
      if st.At? {
        PanicStep(d, span, st.pos, st.out);
      }
      assert PanicsAt(ds, span, |ds| - 1) == (st.At? && Exec(ds, span, At(0, [])).Panic?);
    }
  }

  lemma FinishPanics(st: State)
    ensures Finish(st) == GoPanic <==> st.Panic?
  {
  }

  lemma EmptyIsLiteral()
    ensures forall k {:trigger ParseAll(Split("", '\n'))[k]} ::
        0 <= k < |Split("", '\n')| ==> ParseAll(Split("", '\n'))[k].Literal?
  {
    SplitPlain("", '\n');
  }

  /** Content panics exactly when one of its counts does, at the position that the lines before it lead to. */
  lemma PanicsIff(encoded: string, span: seq<string>)
    requires |span| < MAX_INT64
    ensures Decoded(encoded, span) == GoPanic <==> Panics(ParseAll(Split(encoded, '\n')), span)
  {
    var ds := ParseAll(Split(encoded, '\n'));
    ParsedCounts(Split(encoded, '\n'));
    RunPanicsIff(ds, span);
    FinishPanics(Exec(ds, span, At(0, [])));
    if encoded == "" { EmptyIsLiteral(); }
  }

  /** A line that stands for a directive. */
  predicate HasLine(d: Directive) {
    match d
    case Literal(text) => Expressible(text)
    case BadCount => false
    case _ => Counts(d)
  }

  function LineOf(d: Directive): string {
    match d
    case Literal(text) => Escape(text)
    case KeepLines(n) => CountLine(true, if n < 0 then 0 else n, false)
    case SkipLines(n) => CountLine(false, if n < 0 then 0 else n, false)
    case BadCount => ""
  }

  lemma LineOfParses(d: Directive)
    requires HasLine(d)
    ensures ParseLine(LineOf(d)) == d
  {
    match d {
      case Literal(text) => EscapeIsLiteral(text);
      case KeepLines(n) => CountLineParses(true, n, false);
      case SkipLines(n) => CountLineParses(false, n, false);
      case BadCount =>
    }
  }

  predicate HaveLines(ds: seq<Directive>) {
    forall k :: 0 <= k < |ds| ==> HasLine(ds[k])
  }

  lemma LinesOf(ds: seq<Directive>) returns (lines: seq<string>)
    requires HaveLines(ds)
    ensures ParseAll(lines) == ds
  {
    lines := seq(|ds|, k requires 0 <= k < |ds| => LineOf(ds[k]));
    forall k | 0 <= k < |ds| ensures ParseAll(lines)[k] == ds[k] { LineOfParses(ds[k]); }
  }

  /** The directives that move the position anywhere in the span: backwards by overflowing it. */
  function Move(pos: nat, target: nat): seq<Directive> {
    if target == pos then []
    else if target > pos then [SkipLines(target - pos)]
    else [SkipLines(MAX_INT64), SkipLines(MAX_INT64 + 1 - (pos - target)), SkipLines(1)]
  }

  lemma {:induction false} MoveMoves(span: seq<string>, pos: nat, target: nat, out: seq<string>)
    requires pos <= |span| < MAX_INT64 && target <= |span|
    ensures Exec(Move(pos, target), span, At(pos, out)) == At(target, out) && HaveLines(Move(pos, target))
  {
    if target > pos {
      ExecOne(SkipLines(target - pos), span, At(pos, out));
    } else if target < pos {
      MoveBack(span, pos, target, MAX_INT64, MAX_INT64 + 1 - (pos - target), out);
    }
  }

  lemma {:induction false} MoveBack(span: seq<string>, pos: nat, target: nat, m: int, n: int, out: seq<string>)
    requires target < pos <= |span| < MAX_INT64 && m == MAX_INT64 && n == MAX_INT64 + 1 - (pos - target)
    ensures Exec([SkipLines(m), SkipLines(n), SkipLines(1)], span, At(pos, out)) == At(target, out)
  {
    var three := [SkipLines(m)] + ([SkipLines(n)] + [SkipLines(1)]);
    assert [SkipLines(m), SkipLines(n), SkipLines(1)] == three;
    ExecCons(SkipLines(m), [SkipLines(n)] + [SkipLines(1)], span, pos, out);
    ExecCons(SkipLines(n), [SkipLines(1)], span, pos + m - TWO_TO_64, out);
    ExecOne(SkipLines(1), span, At(target - 1, out));
  }

  /** Every line of b can be told literally or stands somewhere in a. */
  predicate Sources(a: seq<string>, b: seq<string>) {
    forall x :: x in b ==> Expressible(x) || x in a
  }

  lemma StepHasSources(d: Directive, a: seq<string>, pos: int, out: seq<string>)
    requires pos <= |a| && (d.Literal? ==> Expressible(d.text)) && Sources(a, out)
    ensures Step(d, a, pos, out).At? ==> Sources(a, Step(d, a, pos, out).out)
  {
  }

  lemma {:induction false} OutputHasSources(ds: seq<Directive>, a: seq<string>, pos: int, out: seq<string>)
    requires pos <= |a| && LiteralsExpressible(ds) && Sources(a, out)
    ensures Exec(ds, a, At(pos, out)).At? ==> Sources(a, Exec(ds, a, At(pos, out)).out)
    decreases |ds|
  {
    if ds != [] {
      StepHasSources(ds[0], a, pos, out);
      var st := Step(ds[0], a, pos, out);
      if st.At? { OutputHasSources(ds[1..], a, st.pos, st.out); }
    }
  }

  /** The directives for one new line: literally, or kept from wherever it stands. */
  lemma {:induction false} TellLine(a: seq<string>, pos: nat, x: string, out: seq<string>)
    returns (ds: seq<Directive>, next: nat)
    requires pos <= |a| < MAX_INT64 && (Expressible(x) || x in a)
    ensures HaveLines(ds) && next <= |a| && Exec(ds, a, At(pos, out)) == At(next, out + [x])
  {
    if Expressible(x) {
      ds, next := [Literal(x)], pos;
      ExecOne(Literal(x), a, At(pos, out));
    } else {
      var j :| 0 <= j < |a| && a[j] == x;
      ds, next := Move(pos, j) + [KeepLines(1)], j + 1;
      MoveMoves(a, pos, j, out);
      ExecJoin(Move(pos, j), [KeepLines(1)], a, At(pos, out));
      ExecOne(KeepLines(1), a, At(j, out));
      assert a[j..j + 1] == [x];
    }
  }

  lemma {:induction false} TellAll(a: seq<string>, pos: nat, b: seq<string>, out: seq<string>)
    returns (ds: seq<Directive>)
    requires pos <= |a| < MAX_INT64 && Sources(a, b)
    ensures HaveLines(ds) && Exec(ds, a, At(pos, out)).At? && Exec(ds, a, At(pos, out)).out == out + b
    decreases |b|
  {
    if b == [] {
      ds := [];
      assert out + b == out;
    } else {
      var first, next := TellLine(a, pos, b[0], out);
      var rest := TellAll(a, next, b[1..], out + [b[0]]);
      ds := first + rest;
      ExecJoin(first, rest, a, At(pos, out));
      assert out + [b[0]] + b[1..] == out + b;
    }
  }

  /** With overflowing counts the order of the span is no constraint: some content tells b exactly when each of its
      lines can be told literally or stands somewhere in the span, in whatever order and however often. */
  lemma {:induction false} CanTellAnyIff(a: seq<string>, b: seq<string>)
    requires |a| < MAX_INT64
    ensures (exists lines: seq<string> :: Tells(lines, a, b)) <==> Sources(a, b)
  {
    if lines: seq<string> :| Tells(lines, a, b) {
      ParsedLiterals(lines);
      OutputHasSources(ParseAll(lines), a, 0, []);
    }
    if Sources(a, b) {
      var ds := TellAll(a, 0, b, []);
      var lines := LinesOf(ds);
      assert [] + b == b;
      assert Tells(lines, a, b);
    }
  }

  // ---- Text in, text out -------------------------------------------------------------------------------------------

  predicate InsertsAreLines(ops: seq<Op>) {
    forall k :: 0 <= k < |ops| && ops[k].kind.Ins? ==> '\n' !in ops[k].text
  }

  lemma RenderedAreLines(ops: seq<Op>)
    requires InsertsAreLines(ops)
    ensures forall k :: 0 <= k < |ops| ==> '\n' !in Render(ops)[k]
  {
  }

  lemma EmptyRendering(ops: seq<Op>)
    requires ops != [] && Join(Render(ops), '\n') == "" && Split("", '\n') == Render(ops)
    ensures NewSide(ops) == [""]
  {
    var o := ops[0];
    assert Render(ops)[0] == "" && ops == [o] + [];
    assert o == Op(Ins, "");
    SidesOfCons(o, []);
  }

  /** The text that a script renders to decodes to the text of its new side. */
  lemma RenderedTextDecodes(ops: seq<Op>)
    requires InsertsExpressible(ops) && InsertsAreLines(ops) && |OldSide(ops)| < MAX_INT64
    ensures Decoded(Join(Render(ops), '\n'), OldSide(ops)) == Ok(Join(NewSide(ops), '\n'))
  {
    var encoded := Join(Render(ops), '\n');
    if ops != [] {
      RenderedAreLines(ops);
      SplitJoin(Render(ops), '\n');
      DecodingIsComplete(ops);
      if encoded == "" { EmptyRendering(ops); }
    }
  }

  lemma {:induction false} InsertedAreNew(ops: seq<Op>, k: nat)
    requires k < |ops| && ops[k].kind.Ins?
    ensures ops[k].text in NewSide(ops)
  {
    var o, rest := ops[0], ops[1..];
    assert ops == [o] + rest;
    SidesOfCons(o, rest);
    if k > 0 { InsertedAreNew(rest, k - 1); }
  }

  /** The minimal edit script of any a and b, rendered with escapes, decodes over a to b. */
  lemma DiffDecodes(a: seq<string>, b: seq<string>)
    requires |a| < MAX_INT64 && forall x :: x in b ==> Expressible(x) && '\n' !in x
    ensures Decoded(Join(Render(Diff(a, b)), '\n'), a) == Ok(Join(b, '\n'))
  {
    var ops := Diff(a, b);
    DiffIsCorrect(a, b);
    forall k | 0 <= k < |ops| && ops[k].kind.Ins? ensures Expressible(ops[k].text) && '\n' !in ops[k].text {
      InsertedAreNew(ops, k);
    }
    RenderedTextDecodes(ops);
  }

  lemma BackAgain(x: string, n: nat)
    requires n == MAX_INT64
    ensures var ds := [KeepLines(1)] + ([SkipLines(n)] + ([SkipLines(n)] + ([SkipLines(1)] + [KeepLines(1)])));
      Exec(ds, [x], At(0, [])) == At(1, [x, x])
  {
    var back := SkipLines(n);
    ExecCons(KeepLines(1), [back] + ([back] + ([SkipLines(1)] + [KeepLines(1)])), [x], 0, []);
    assert [] + [x][0..1] == [x] && [x] + [x][0..1] == [x, x];
    ExecCons(back, [back] + ([SkipLines(1)] + [KeepLines(1)]), [x], 1, [x]);
    ExecCons(back, [SkipLines(1)] + [KeepLines(1)], [x], 1 + n - TWO_TO_64, [x]);
    ExecCons(SkipLines(1), [KeepLines(1)], [x], -1, [x]);
    ExecOne(KeepLines(1), [x], At(0, [x]));
  }

  /** Counts that overflow can move the position back, and a line of the span be kept twice. */
  lemma {:induction false} OverflowRereads(x: string, n: nat)
    requires n == MAX_INT64
    ensures var back := CountLine(false, n, false);
      Exec(ParseAll(["@K"] + ([back] + ([back] + (["@S"] + ["@K"])))), [x], At(0, [])) == At(1, [x, x])
  {
    var back := CountLine(false, n, false);
    SingleParses(true);
    SingleParses(false);
    CountLineParses(false, n, false);
    ParseCons("@K", [back] + ([back] + (["@S"] + ["@K"])));
    ParseCons(back, [back] + (["@S"] + ["@K"]));
    ParseCons(back, ["@S"] + ["@K"]);
    ParseCons("@S", ["@K"]);
    ParseCons("@K", []);
    BackAgain(x, n);
  }
}
