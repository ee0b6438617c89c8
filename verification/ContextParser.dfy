/** What the patch parser of cli/internal/diff/patch.go computes, as functions of the lines and the current files. */
module ContextParser {
  import opened Strings
  import opened LineDiff
  import opened PatchSections
  import opened ContextSearch

  datatype Error =
    | InvalidLine | InvalidContext | DuplicatePath | MissingFile | FileExists
    | UnknownLine | MissingEnd | InvalidAddLine | InvalidPatch | Fuzzy | BadChunk

  /** Panics is an index out of range; Loops is a pass that changes nothing and so repeats forever. */
  datatype Outcome<+T> = Ok(value: T) | Rejected(error: Error) | Panics | Loops

  datatype Action = Update(chunks: seq<Chunk>, moveTo: Option<string>) | Delete | Add(content: string)

  const UPDATE_FILE := "*** Update File: "
  const DELETE_FILE := "*** Delete File: "
  const ADD_FILE := "*** Add File: "
  const MOVE_TO := "*** Move to: "
  const END_PATCH := "*** End Patch"

  predicate EndsAdd(line: string) {
    || HasPrefix(line, END_PATCH)
    || HasPrefix(line, "*** Update File:")
    || HasPrefix(line, "*** Delete File:")
    || HasPrefix(line, "*** Add File:")
  }

  predicate EndsUpdate(line: string) {
    EndsAdd(line) || HasPrefix(line, "*** End of File")
  }

  // ---- Seeking a definition line ---------------------------------------------------------

  /** The first line from i on, before `stop`, that equals the definition at the given level. */
  function LineFrom(file: seq<Line>, i: nat, stop: nat, def: Line, level: Level): Option<nat>
    requires i <= stop <= |file|
    decreases stop - i
  {
    if i >= stop then None
    else if Same(level, file[i], def) then Some(i)
    else LineFrom(file, i + 1, stop, def, level)
  }

  datatype Place = Place(index: nat, fuzz: nat)

  function Seek(file: seq<Line>, index: nat, def: Line): (p: Place)
    requires index <= |file|
    ensures index <= p.index <= |file| && p.fuzz <= 1
  {
    if TrimSpace(def) == "" || LineFrom(file, 0, index, def, Exact).Some? then Place(index, 0)
    else
      var exact := LineFrom(file, index, |file|, def, Exact);
      LineFromBounds(file, index, |file|, def, Exact);
      if exact.Some? then Place(exact.value + 1, 0)
      else if LineFrom(file, 0, index, def, Trimmed).Some? then Place(index, 0)
      else
        var trimmed := LineFrom(file, index, |file|, def, Trimmed);
        LineFromBounds(file, index, |file|, def, Trimmed);
        if trimmed.Some? then Place(trimmed.value + 1, 1) else Place(index, 0)
  }

  lemma {:induction false} LineFromBounds(file: seq<Line>, i: nat, stop: nat, def: Line, level: Level)
    requires i <= stop <= |file|
    ensures var r := LineFrom(file, i, stop, def, level);
      && (r.Some? ==> i <= r.value < stop && Same(level, file[r.value], def))
      && forall k :: i <= k < (if r.Some? then r.value else stop) ==> !Same(level, file[k], def)
    decreases stop - i
  {
    if i < stop && !Same(level, file[i], def) { LineFromBounds(file, i + 1, stop, def, level); }
  }

  predicate Contains(file: seq<Line>, i: nat, stop: nat, def: Line, level: Level)
    requires stop <= |file|
  {
    exists k :: i <= k < stop && Same(level, file[k], def)
  }

  /** The first line from i on that equals the definition at the level is line k. */
  predicate FirstLine(file: seq<Line>, i: nat, k: nat, def: Line, level: Level) {
    i <= k < |file| && Same(level, file[k], def) && forall j :: i <= j < k ==> !Same(level, file[j], def)
  }

  /** A definition moves the position behind its first line from there on: one that equals it, at no cost, unless a line
      before the position does; failing that one that equals it trimmed, at fuzz 1, unless a line before the position
      does. In all other cases, and when it is blank, the position stays. */
  lemma SeekMeaning(file: seq<Line>, index: nat, def: Line)
    requires index <= |file|
    ensures var r, n := Seek(file, index, def), |file|;
      if TrimSpace(def) == "" || Contains(file, 0, index, def, Exact) then r == Place(index, 0)
      else if Contains(file, index, n, def, Exact) then
        r.fuzz == 0 && r.index > 0 && FirstLine(file, index, r.index - 1, def, Exact)
      else if Contains(file, 0, index, def, Trimmed) || !Contains(file, index, n, def, Trimmed) then
        r == Place(index, 0)
      else r.fuzz == 1 && r.index > 0 && FirstLine(file, index, r.index - 1, def, Trimmed)
  {
    LineFromBounds(file, 0, index, def, Exact);
    LineFromBounds(file, index, |file|, def, Exact);
    LineFromBounds(file, 0, index, def, Trimmed);
    LineFromBounds(file, index, |file|, def, Trimmed);
  }

  method FindLine(file: seq<Line>, from: nat, stop: nat, def: Line, level: Level) returns (r: Option<nat>)
    requires from <= stop <= |file|
    ensures r == LineFrom(file, from, stop, def, level)
  {
    var i := from;
    while i < stop
      invariant from <= i <= stop
      invariant LineFrom(file, i, stop, def, level) == LineFrom(file, from, stop, def, level)
    {
      if Same(level, file[i], def) { return Some(i); }
      i := i + 1;
    }
    return None;
  }

  method SeekDefinition(file: seq<Line>, start: nat, def: Line) returns (index: nat, fuzz: nat)
    requires start <= |file|
    ensures Place(index, fuzz) == Seek(file, start, def)
  {
    index, fuzz := start, 0;
    if TrimSpace(def) != "" {
      var hit := FindLine(file, 0, index, def, Exact);
      var found := hit.Some?;
      if !found {
        hit := FindLine(file, index, |file|, def, Exact);
        if hit.Some? { index, found := hit.value + 1, true; }
      }
      if !found {
        hit := FindLine(file, 0, index, def, Trimmed);
        found := hit.Some?;
      }
      if !found {
        hit := FindLine(file, index, |file|, def, Trimmed);
        if hit.Some? { index, fuzz := hit.value + 1, 1; }
      }
    }
  }

  // ---- One update as a function -------------------------------------------------------------

  /** What readStr returns, and where it leaves the parser. */
  datatype Read = Read(text: string, at: nat)

  function ReadAt(lines: seq<string>, at: nat, prefix: string): (r: Read)
    requires at <= |lines|
    ensures at <= r.at <= |lines|
    ensures r.text != "" ==> at < r.at
  {
    if at < |lines| && HasPrefix(lines[at], prefix) then Read(lines[at][|prefix|..], at + 1) else Read("", at)
  }

  /** Positions in the patch and in the file, the fuzz and the chunks so far. */
  datatype Cursor = Cursor(at: nat, index: nat, fuzz: nat, chunks: seq<Chunk>)

  function Shift(cs: seq<Chunk>, offset: nat): (r: seq<Chunk>)
    ensures |r| == |cs|
    ensures forall k :: 0 <= k < |cs| ==> r[k] == cs[k].(orig := cs[k].orig + offset)
  {
    seq(|cs|, k requires 0 <= k < |cs| => cs[k].(orig := cs[k].orig + offset))
  }

  /** The lines that open a section: a definition after "@@ ", or a bare "@@". */
  datatype Header = Header(def: string, bare: bool, at: nat)

  function HeaderAt(lines: seq<string>, at: nat): (h: Header)
    requires at <= |lines|
    ensures at <= h.at <= |lines|
    ensures h.def != "" || h.bare ==> at < h.at
  {
    var def := ReadAt(lines, at, "@@ ");
    var bare := def.text == "" && def.at < |lines| && lines[def.at] == "@@";
    Header(def.text, bare, if bare then def.at + 1 else def.at)
  }

  /** The cursor after a section was found at a place, or not. */
  function Advance(c: Cursor, place: Place, section: Section, found: Found): (r: Outcome<Cursor>)
    ensures !r.Loops?
  {
    match found
    case Missing => Rejected(InvalidContext)
    case Panic => Panics
    case At(i, fuzz) =>
      Ok(Cursor(section.end, i + |section.context|, c.fuzz + place.fuzz + fuzz, c.chunks + Shift(section.chunks, i)))
  }

  /** The rest of a pass once its opening lines are read: the section found in the file and its chunks. */
  function Enter(lines: seq<string>, file: seq<Line>, c: Cursor, header: Header): (r: Outcome<Cursor>)
    requires header.at <= |lines| && c.index <= |file|
    ensures r.Ok? ==> header.at <= r.value.at <= |lines| && r.value.index <= |file| && c.fuzz <= r.value.fuzz
    ensures !r.Loops?
  {
    var place := Seek(file, c.index, header.def);
    var section := Peek(lines, header.at);
    SearchBounds(file, section.context, place.index, section.eof);
    Advance(c, place, section, Search(file, section.context, place.index, section.eof))
  }

  /** One pass of the loop of parseUpdateFile. */
  function Pass(lines: seq<string>, file: seq<Line>, c: Cursor): (r: Outcome<Cursor>)
    requires c.at < |lines| && c.index <= |file|
    ensures r.Ok? ==> c.at <= r.value.at <= |lines| && r.value.index <= |file| && c.fuzz <= r.value.fuzz
    ensures !r.Loops?
  {
    var header := HeaderAt(lines, c.at);
    if header.def == "" && !header.bare && c.index != 0 then
      if header.at < |lines| then Rejected(InvalidLine) else Panics
    else Enter(lines, file, c, header)
  }

  /** A pass leaves the file behind the section's place, and costs nothing exactly when its definition, if it moves the
      position, and its context are both found as they are. */
  lemma PassCosts(lines: seq<string>, file: seq<Line>, c: Cursor)
    requires c.at < |lines| && c.index <= |file| && Pass(lines, file, c).Ok?
    ensures var h, r := HeaderAt(lines, c.at), Pass(lines, file, c).value;
      var place, section := Seek(file, c.index, h.def), Peek(lines, h.at);
      var found := Search(file, section.context, place.index, section.eof);
      && found.At? && r.index == found.index + |section.context| && r.at == section.end
      && (r.fuzz == c.fuzz <==> place.fuzz == 0 && found.fuzz == 0)
      && (h.def != "" || h.bare || c.index == 0)
  {
  }

  /** Behind the start of the file, a section must be headed: a line that is no header is an error, and so is a "@@ "
      without a definition, except that the code panics when no line follows it. */
  lemma HeaderMissing(lines: seq<string>, file: seq<Line>, c: Cursor)
    requires c.at < |lines| && 0 < c.index <= |file| && lines[c.at] != "@@"
    ensures !HasPrefix(lines[c.at], "@@ ") ==> Pass(lines, file, c) == Rejected(InvalidLine)
    ensures lines[c.at] == "@@ " && c.at + 1 == |lines| ==> Pass(lines, file, c) == Panics
    ensures lines[c.at] == "@@ " && c.at + 1 < |lines| && lines[c.at + 1] != "@@" ==>
        Pass(lines, file, c) == Rejected(InvalidLine)
  {
  }

  /** A pass with a header fails exactly when its section is not found, and panics exactly when the search does. */
  lemma PassFails(lines: seq<string>, file: seq<Line>, c: Cursor)
    requires c.at < |lines| && c.index <= |file|
    requires c.index == 0 || HeaderAt(lines, c.at).def != "" || HeaderAt(lines, c.at).bare
    ensures var h, r := HeaderAt(lines, c.at), Pass(lines, file, c);
      var section := Peek(lines, h.at);
      var found := Search(file, section.context, Seek(file, c.index, h.def).index, section.eof);
      && (found.Missing? <==> r == Rejected(InvalidContext))
      && (found.Panic? <==> r == Panics)
      && (found.At? <==> r.Ok?)
  {
  }

  lemma SearchBounds(lines: seq<Line>, context: seq<Line>, start: nat, eof: bool)
    requires start <= |lines|
    ensures var r := Search(lines, context, start, eof); r.At? ==> r.index + |context| <= |lines|
  {
    if eof { EndSearch(lines, context, start); } else { ForwardSearch(lines, context, start); }
  }

  predicate UpdateDone(lines: seq<string>, at: nat) {
    at >= |lines| || EndsUpdate(lines[at])
  }

  /** All passes of the loop of parseUpdateFile. */
  function UpdateRun(lines: seq<string>, file: seq<Line>, c: Cursor): (r: Outcome<Cursor>)
    requires c.at <= |lines| && c.index <= |file|
    ensures r.Ok? ==> c.at <= r.value.at <= |lines| && c.fuzz <= r.value.fuzz
    decreases |lines| - c.at
  {
    if UpdateDone(lines, c.at) then Ok(c)
    else
      var next := Pass(lines, file, c);
      if !next.Ok? then next
      else if next.value.at == c.at then Loops
      else UpdateRun(lines, file, next.value)
  }

  /** The whole of parseUpdateFile for a file text, from line `at` of the patch with the given fuzz. */
  function UpdateOf(lines: seq<string>, at: nat, text: string, fuzz: nat): (r: Outcome<Cursor>)
    requires at <= |lines|
    ensures r.Ok? ==> at <= r.value.at <= |lines| && fuzz <= r.value.fuzz
  {
    UpdateRun(lines, Split(text, '\n'), Cursor(at, 0, fuzz, []))
  }

  // ---- The whole patch as a function ------------------------------------------------------------

  /** The loop of parseAddFile, with the body lines read so far. */
  function AddRun(lines: seq<string>, at: nat, body: seq<string>): (r: Outcome<(seq<string>, nat)>)
    requires at <= |lines|
    ensures r.Ok? ==> at <= r.value.1 <= |lines|
    decreases |lines| - at
  {
    if at == |lines| || EndsAdd(lines[at]) then Ok((body, at))
    else if !HasPrefix(lines[at], "+") then Rejected(InvalidAddLine)
    else AddRun(lines, at + 1, body + [lines[at][1..]])
  }

  /** The first line from `at` on that opens a file or ends the patch. */
  function FileEnd(lines: seq<string>, at: nat): (e: nat)
    requires at <= |lines|
    ensures at <= e <= |lines| && (e < |lines| ==> EndsAdd(lines[e]))
    ensures forall k :: at <= k < e ==> !EndsAdd(lines[k])
    decreases |lines| - at
  {
    if at == |lines| || EndsAdd(lines[at]) then at else FileEnd(lines, at + 1)
  }

  /** The lines without their first character. */
  function Tails(lines: seq<string>): (r: seq<string>)
    requires forall k :: 0 <= k < |lines| ==> lines[k] != ""
    ensures |r| == |lines| && forall k {:trigger r[k]} :: 0 <= k < |r| ==> r[k] == lines[k][1..]
  {
    seq(|lines|, k requires 0 <= k < |lines| => lines[k][1..])
  }

  predicate Added(lines: seq<string>) {
    forall k :: 0 <= k < |lines| ==> HasPrefix(lines[k], "+")
  }

  lemma {:induction false} AddRunMeaning(lines: seq<string>, at: nat, body: seq<string>)
    requires at <= |lines|
    ensures var r, added := AddRun(lines, at, body), lines[at..FileEnd(lines, at)];
      && (r.Ok? <==> Added(added))
      && (!r.Ok? ==> r == Rejected(InvalidAddLine))
      && (r.Ok? ==> r.value == (body + Tails(added), FileEnd(lines, at)))
    decreases |lines| - at
  {
    var end := FileEnd(lines, at);
    var added := lines[at..end];
    if at == end {
      assert body + Tails(added) == body;
    } else {
      var first, rest := lines[at], lines[at + 1..end];
      assert added == [first] + rest && added[0] == first;
      if HasPrefix(first, "+") {
        AddRunMeaning(lines, at + 1, body + [first[1..]]);
        assert Added(added) <==> Added(rest) by {
          assert forall k :: 0 <= k < |rest| ==> rest[k] == added[k + 1];
        }
        if Added(rest) { assert body + [first[1..]] + Tails(rest) == body + Tails(added); }
      }
    }
  }

  /** The lines of an added file are read exactly when all of them start with a plus. */
  lemma AddedFile(lines: seq<string>, at: nat)
    requires at <= |lines|
    ensures var r, added := AddRun(lines, at, []), lines[at..FileEnd(lines, at)];
      && (r.Ok? <==> Added(added))
      && (!r.Ok? ==> r == Rejected(InvalidAddLine))
      && (r.Ok? ==> r.value == (Tails(added), FileEnd(lines, at)))
  {
    var added := lines[at..FileEnd(lines, at)];
    AddRunMeaning(lines, at, []);
    if Added(added) { assert [] + Tails(added) == Tails(added); }
  }

  datatype Parsed = Parsed(at: nat, actions: map<string, Action>, fuzz: nat)

  /** One pass of the loop of Parse. */
  function Directive(lines: seq<string>, files: map<string, string>, p: Parsed): (r: Outcome<Parsed>)
    requires p.at < |lines|
    ensures r.Ok? ==> p.at < r.value.at <= |lines| && p.fuzz <= r.value.fuzz
  {
    var update := ReadAt(lines, p.at, UPDATE_FILE);
    if update.text != "" then
      var path := update.text;
      var move := ReadAt(lines, update.at, MOVE_TO);
      if path in p.actions then Rejected(DuplicatePath)
      else if path !in files then Rejected(MissingFile)
      else
        var run := UpdateOf(lines, move.at, files[path], p.fuzz);
        match run
        case Ok(c) =>
          var moveTo := if move.text == "" then None else Some(move.text);
          Ok(Parsed(c.at, p.actions[path := Update(c.chunks, moveTo)], c.fuzz))
        case Rejected(e) => Rejected(e)
        case Panics => Panics
        case Loops => Loops
    else
      var delete := ReadAt(lines, update.at, DELETE_FILE);
      if delete.text != "" then
        var path := delete.text;
        if path in p.actions then Rejected(DuplicatePath)
        else if path !in files then Rejected(MissingFile)
        else Ok(Parsed(delete.at, p.actions[path := Delete], p.fuzz))
      else
        var add := ReadAt(lines, delete.at, ADD_FILE);
        if add.text != "" then
          var path := add.text;
          if path in p.actions then Rejected(DuplicatePath)
          else if path in files then Rejected(FileExists)
          else
            var run := AddRun(lines, add.at, []);
            match run
            case Ok((body, at)) => Ok(Parsed(at, p.actions[path := Add(Join(body, '\n'))], p.fuzz))
            case Rejected(e) => Rejected(e)
            case Panics => Panics
            case Loops => Loops
        else if add.at < |lines| then Rejected(UnknownLine) else Panics
  }

  function ParseRun(lines: seq<string>, files: map<string, string>, p: Parsed): (r: Outcome<Parsed>)
    requires p.at <= |lines|
    ensures r.Ok? ==> p.fuzz <= r.value.fuzz
    decreases |lines| - p.at
  {
    if p.at == |lines| then Panics
    else if HasPrefix(lines[p.at], END_PATCH) then Ok(p.(at := p.at + 1))
    else
      var next := Directive(lines, files, p);
      if !next.Ok? then next else ParseRun(lines, files, next.value)
  }
}
