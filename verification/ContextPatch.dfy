/** The Parser object of cli/internal/diff/patch.go, method by method. */
module ContextPatch {
  import opened Strings
  import opened LineDiff
  import opened PatchSections
  import opened ContextSearch
  import opened ContextParser

  class Parser {
    const currentFiles: map<string, string>
    const lines: seq<string>
    var index: nat
    var actions: map<string, Action>
    var fuzz: nat

    constructor (currentFiles: map<string, string>, lines: seq<string>)
      ensures this.currentFiles == currentFiles && this.lines == lines
      ensures index == 0 && actions == map[] && fuzz == 0
    {
      this.currentFiles, this.lines := currentFiles, lines;
      index, actions, fuzz := 0, map[], 0;
    }

    method ReadStr(prefix: string) returns (text: string)
      requires index <= |lines|
      modifies this`index
      ensures index <= |lines| && Read(text, index) == ReadAt(lines, old(index), prefix)
    {
      if index >= |lines| { return ""; }
      if HasPrefix(lines[index], prefix) {
        text := lines[index][|prefix|..];
        index := index + 1;
        return;
      }
      return "";
    }

    method ReadHeader() returns (def: string, bare: bool)
      requires index <= |lines|
      modifies this`index
      ensures index <= |lines| && Header(def, bare, index) == HeaderAt(lines, old(index))
    {
      def := ReadStr("@@ ");
      bare := false;
      if def == "" && index < |lines| && lines[index] == "@@" {
        bare := true;
        index := index + 1;
      }
    }

    method EnterSection(fileLines: seq<Line>, c: Cursor, header: Header) returns (r: Outcome<Cursor>)
      requires header.at <= |lines| && c.index <= |fileLines|
      ensures r == Enter(lines, fileLines, c, header)
    {
      var place, seekFuzz := SeekDefinition(fileLines, c.index, header.def);
      var section := PeekNextSection(lines, header.at);
      var found := FindContext(fileLines, section.context, place, section.eof);
      match found
      case Missing => r := Rejected(InvalidContext);
      case Panic => r := Panics;
      case At(i, f) =>
        r := Ok(Cursor(section.end, i + |section.context|, c.fuzz + seekFuzz + f, c.chunks + Shift(section.chunks, i)));
    }

    /** One pass of the loop of parseUpdateFile: the new position in the file and the chunks. */
    method UpdatePass(fileLines: seq<Line>, at: nat, chunks: seq<Chunk>) returns (r: Outcome<(nat, seq<Chunk>)>)
      requires index < |lines| && at <= |fileLines|
      modifies this`index, this`fuzz
      ensures index <= |lines|
      ensures match Pass(lines, fileLines, Cursor(old(index), at, old(fuzz), chunks))
        case Ok(c) => r == Ok((c.index, c.chunks)) && index == c.at && fuzz == c.fuzz
        case Rejected(e) => r == Rejected(e)
        case Panics => r == Panics
        case Loops => true
    {
      var cursor := Cursor(index, at, fuzz, chunks);
      var def, bare := ReadHeader();
      if def == "" && !bare && at != 0 {
        if index < |lines| { return Rejected(InvalidLine); }
        return Panics;
      }
      var next := EnterSection(fileLines, cursor, Header(def, bare, index));
      match next
      case Ok(c) =>
        fuzz, index := c.fuzz, c.at;
        r := Ok((c.index, c.chunks));
      case Rejected(e) => return Rejected(e);
      case _ => return Panics;
    }

    /** A pass that leaves the cursor where it was repeats forever; here it ends with Loops. */
    method ParseUpdateFile(text: string) returns (r: Outcome<seq<Chunk>>)
      requires index <= |lines|
      modifies this`index, this`fuzz
      ensures index <= |lines|
      ensures match UpdateOf(lines, old(index), text, old(fuzz))
        case Ok(c) => r == Ok(c.chunks) && index == c.at && fuzz == c.fuzz
        case Rejected(e) => r == Rejected(e)
        case Panics => r == Panics
        case Loops => r == Loops
    {
      var chunks: seq<Chunk> := [];
      var fileLines := Split(text, '\n');
      var at: nat := 0;
      ghost var whole := UpdateOf(lines, index, text, fuzz);
      while index < |lines| && !EndsUpdate(lines[index])
        invariant index <= |lines| && at <= |fileLines|
        invariant UpdateRun(lines, fileLines, Cursor(index, at, fuzz, chunks)) == whole
        decreases |lines| - index
      {
        var before := index;
        var pass := UpdatePass(fileLines, at, chunks);
        match pass
        case Ok((newAt, newChunks)) =>
          if index == before { return Loops; }
          at, chunks := newAt, newChunks;
        case Rejected(e) => return Rejected(e);
        case Panics => return Panics;
        case Loops => return Loops;
      }
      r := Ok(chunks);
    }

    /** The added file is the `+` lines up to the next marker, without the plus; any other line is an error. */
    method ParseAddFile() returns (r: Outcome<string>)
      requires index <= |lines|
      modifies this`index
      ensures index <= |lines|
      ensures var end := FileEnd(lines, old(index));
        && (r.Ok? <==> Added(lines[old(index)..end]))
        && (r.Ok? ==> r.value == Join(Tails(lines[old(index)..end]), '\n') && index == end)
        && (!r.Ok? ==> r == Rejected(InvalidAddLine))
      ensures match AddRun(lines, old(index), [])
        case Ok((body, at)) => r == Ok(Join(body, '\n')) && index == at
        case Rejected(e) => r == Rejected(e)
        case Panics => r == Panics
        case Loops => r == Loops
    {
      var body: seq<string> := [];
      AddedFile(lines, index);
      while index < |lines| && !EndsAdd(lines[index])
        invariant index <= |lines|
        invariant AddRun(lines, index, body) == AddRun(lines, old(index), [])
        decreases |lines| - index
      {
        var s := lines[index];
        index := index + 1;
        if !HasPrefix(s, "+") { return Rejected(InvalidAddLine); }
        body := body + [s[1..]];
      }
      r := Ok(Join(body, '\n'));
    }

    /** The steps of Parse for one file; each directive leaves the parser at the next one. */
    method ParseDirective() returns (r: Outcome<()>)
      requires index < |lines|
      modifies this
      ensures index <= |lines|
      ensures match Directive(lines, currentFiles, Parsed(old(index), old(actions), old(fuzz)))
        case Ok(p) => r == Ok(()) && Parsed(index, actions, fuzz) == p
        case Rejected(e) => r == Rejected(e)
        case Panics => r == Panics
        case Loops => r == Loops
    {
      var path := ReadStr(UPDATE_FILE);
      if path != "" {
        if path in actions { return Rejected(DuplicatePath); }
        var moveTo := ReadStr(MOVE_TO);
        if path !in currentFiles { return Rejected(MissingFile); }
        var run := ParseUpdateFile(currentFiles[path]);
        match run
        case Ok(chunks) =>
          actions := actions[path := Update(chunks, if moveTo != "" then Some(moveTo) else None)];
          return Ok(());
        case Rejected(e) => return Rejected(e);
        case Panics => return Panics;
        case Loops => return Loops;
      }
      path := ReadStr(DELETE_FILE);
      if path != "" {
        if path in actions { return Rejected(DuplicatePath); }
        if path !in currentFiles { return Rejected(MissingFile); }
        actions := actions[path := Delete];
        return Ok(());
      }
      path := ReadStr(ADD_FILE);
      if path != "" {
        if path in actions { return Rejected(DuplicatePath); }
        if path in currentFiles { return Rejected(FileExists); }
        var run := ParseAddFile();
        match run
        case Ok(content) =>
          actions := actions[path := Add(content)];
          return Ok(());
        case Rejected(e) => return Rejected(e);
        case Panics => return Panics;
        case Loops => return Loops;
      }
      if index < |lines| { return Rejected(UnknownLine); }
      return Panics;
    }

    method Parse() returns (r: Outcome<()>)
      requires index <= |lines|
      modifies this
      ensures match ParseRun(lines, currentFiles, Parsed(old(index), old(actions), old(fuzz)))
        case Ok(p) => r == Ok(()) && Parsed(index, actions, fuzz) == p
        case Rejected(e) => r == Rejected(e)
        case Panics => r == Panics
        case Loops => r == Loops
    {
      ghost var whole := ParseRun(lines, currentFiles, Parsed(index, actions, fuzz));
      while index < |lines| && !HasPrefix(lines[index], END_PATCH)
        invariant index <= |lines|
        invariant ParseRun(lines, currentFiles, Parsed(index, actions, fuzz)) == whole
        decreases |lines| - index
      {
        var step := ParseDirective();
        if !step.Ok? { return step; }
      }
      if index == |lines| { return Panics; }
      index := index + 1;
      r := Ok(());
    }
  }
}
