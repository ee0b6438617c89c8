/** What the lines of a context patch ask for (cli/internal/diff/patch.go). */
module PatchText {
  // Each file of a patch is headed by a line of its own; the actions of a parsed patch are read off those lines.

  import opened Strings
  import opened LineDiff
  import opened PatchSections
  import opened ContextSearch
  import opened ContextParser

  /** The line heads the part of the patch about a file. */
  predicate Heads(line: string, path: string) {
    path != "" && (line == UPDATE_FILE + path || line == DELETE_FILE + path || line == ADD_FILE + path)
  }

  /** The new name that a line after the header of an update gives the file, if it gives one. */
  function MoveOf(lines: seq<string>, at: nat): (m: Option<string>)
    ensures forall name :: m == Some(name) <==> name != "" && at < |lines| && lines[at] == MOVE_TO + name
  {
    if at < |lines| && HasPrefix(lines[at], MOVE_TO) && |lines[at]| > |MOVE_TO| then
      assert lines[at] == MOVE_TO + lines[at][|MOVE_TO|..];
      Some(lines[at][|MOVE_TO|..])
    else None
  }

  /** The first line of the body of the update headed at line k. */
  function BodyStart(lines: seq<string>, k: nat): (at: nat)
    requires k < |lines|
    ensures k < at <= |lines|
  {
    if k + 1 < |lines| && HasPrefix(lines[k + 1], MOVE_TO) then k + 2 else k + 1
  }

  /** The action that the header at line k, and the lines it heads, tell for the path. */
  ghost predicate Told(lines: seq<string>, files: map<string, string>, k: nat, path: string, action: Action)
    requires k < |lines|
  {
    && path != ""
    && (|| ToldDelete(lines, files, k, path, action)
        || ToldAdd(lines, files, k, path, action)
        || ToldUpdate(lines, files, k, path, action))
  }

  predicate ToldDelete(lines: seq<string>, files: map<string, string>, k: nat, path: string, action: Action)
    requires k < |lines|
  {
    lines[k] == DELETE_FILE + path && path in files && action == Delete
  }

  /** The lines up to the next header are those of the new file, each with a plus before it. */
  predicate ToldAdd(lines: seq<string>, files: map<string, string>, k: nat, path: string, action: Action)
    requires k < |lines|
  {
    && lines[k] == ADD_FILE + path && path !in files && Added(lines[k + 1..FileEnd(lines, k + 1)])
    && action == Add(Join(Tails(lines[k + 1..FileEnd(lines, k + 1)]), '\n'))
  }

  predicate ToldUpdate(lines: seq<string>, files: map<string, string>, k: nat, path: string, action: Action)
    requires k < |lines|
  {
    && lines[k] == UPDATE_FILE + path && path in files
    && UpdateOf(lines, BodyStart(lines, k), files[path], 0).Ok?
    && action == Update(UpdateOf(lines, BodyStart(lines, k), files[path], 0).value.chunks, MoveOf(lines, k + 1))
  }

  lemma HeaderKinds(line: string)
    ensures HasPrefix(line, UPDATE_FILE) ==> !HasPrefix(line, DELETE_FILE) && !HasPrefix(line, ADD_FILE)
    ensures HasPrefix(line, DELETE_FILE) ==> !HasPrefix(line, ADD_FILE)
    ensures HasPrefix(line, END_PATCH) || HasPrefix(line, MOVE_TO) ==>
        !HasPrefix(line, UPDATE_FILE) && !HasPrefix(line, DELETE_FILE) && !HasPrefix(line, ADD_FILE)
    ensures HasPrefix(line, END_PATCH) ==> !HasPrefix(line, MOVE_TO)
  {
    if HasPrefix(line, UPDATE_FILE) { assert line[4] == 'U'; }
    if HasPrefix(line, DELETE_FILE) { assert line[4] == 'D'; }
    if HasPrefix(line, ADD_FILE) { assert line[4] == 'A'; }
    if HasPrefix(line, MOVE_TO) { assert line[4] == 'M'; }
    if HasPrefix(line, END_PATCH) { assert line[4] == 'E'; }
  }

  lemma PrefixedBy(line: string, prefix: string, path: string)
    ensures line == prefix + path <==> HasPrefix(line, prefix) && line[|prefix|..] == path
  {
  }

  /** A line heads one path only, and only lines with a header's prefix do. */
  lemma HeadsOne(line: string, path: string, other: string)
    requires Heads(line, path) && Heads(line, other)
    ensures path == other
  {
    HeaderKinds(line);
    HeadsPrefix(line, path);
    HeadsPrefix(line, other);
  }

  lemma HeadsPrefix(line: string, path: string)
    ensures Heads(line, path) <==>
      && path != ""
      && (|| (HasPrefix(line, UPDATE_FILE) && line[|UPDATE_FILE|..] == path)
          || (HasPrefix(line, DELETE_FILE) && line[|DELETE_FILE|..] == path)
          || (HasPrefix(line, ADD_FILE) && line[|ADD_FILE|..] == path))
  {
    PrefixedBy(line, UPDATE_FILE, path);
    PrefixedBy(line, DELETE_FILE, path);
    PrefixedBy(line, ADD_FILE, path);
  }

  // ---- Updates do not run past a header ------------------------------------------------------------

  /** No line opens a file or ends the patch. */
  predicate Clear(lines: seq<string>, i: nat, j: nat)
    requires j <= |lines|
  {
    forall k :: i <= k < j ==> !EndsAdd(lines[k])
  }

  lemma NotAdd(line: string)
    ensures !HasPrefix(line, "***") || IsEof(line) || HasPrefix(line, MOVE_TO) ==> !EndsAdd(line)
  {
    if HasPrefix(line, "*** End of File") { assert line[8] == 'o'; }
    if HasPrefix(line, END_PATCH) { assert line[4] == 'E' && line[8] == 'P' && line[..3] == "***"; }
    if HasPrefix(line, "*** Update File:") { assert line[4] == 'U' && line[..3] == "***"; }
    if HasPrefix(line, "*** Delete File:") { assert line[4] == 'D' && line[..3] == "***"; }
    if HasPrefix(line, "*** Add File:") { assert line[4] == 'A' && line[..3] == "***"; }
    if HasPrefix(line, MOVE_TO) { assert line[4] == 'M'; }
  }

  lemma HeaderClear(lines: seq<string>, at: nat)
    requires at <= |lines|
    ensures Clear(lines, at, HeaderAt(lines, at).at)
  {
    forall k | at <= k < HeaderAt(lines, at).at ensures !EndsAdd(lines[k]) {
      assert lines[k][0] == '@';
      NotAdd(lines[k]);
    }
  }

  lemma SectionClear(lines: seq<string>, at: nat)
    requires at <= |lines|
    ensures Clear(lines, at, Peek(lines, at).end)
  {
    forall k | at <= k < Peek(lines, at).end ensures !EndsAdd(lines[k]) { NotAdd(lines[k]); }
  }

  lemma PassClear(lines: seq<string>, file: seq<Line>, c: Cursor)
    requires c.at < |lines| && c.index <= |file| && Pass(lines, file, c).Ok?
    ensures Clear(lines, c.at, Pass(lines, file, c).value.at)
  {
    HeaderClear(lines, c.at);
    SectionClear(lines, HeaderAt(lines, c.at).at);
  }

  lemma {:induction false} UpdateClear(lines: seq<string>, file: seq<Line>, c: Cursor)
    requires c.at <= |lines| && c.index <= |file| && UpdateRun(lines, file, c).Ok?
    ensures Clear(lines, c.at, UpdateRun(lines, file, c).value.at)
    decreases |lines| - c.at
  {
    if !UpdateDone(lines, c.at) {
      PassClear(lines, file, c);
      UpdateClear(lines, file, Pass(lines, file, c).value);
    }
  }

  // ---- Fuzz is only counted ----------------------------------------------------------------------------

  /** The same outcome, with that much more fuzz. */
  function Fuzzier(r: Outcome<Cursor>, more: nat): Outcome<Cursor> {
    match r
    case Ok(c) => Ok(c.(fuzz := c.fuzz + more))
    case _ => r
  }

  lemma PassFuzzier(lines: seq<string>, file: seq<Line>, c: Cursor, more: nat)
    requires c.at < |lines| && c.index <= |file|
    ensures Pass(lines, file, c.(fuzz := c.fuzz + more)) == Fuzzier(Pass(lines, file, c), more)
  {
  }

  lemma RunStep(lines: seq<string>, file: seq<Line>, c: Cursor, next: Outcome<Cursor>)
    requires c.at <= |lines| && c.index <= |file| && !UpdateDone(lines, c.at) && next == Pass(lines, file, c)
    ensures UpdateRun(lines, file, c)
      == if !next.Ok? then next else if next.value.at == c.at then Loops else UpdateRun(lines, file, next.value)
  {
  }

  lemma {:induction false} RunFuzzier(lines: seq<string>, file: seq<Line>, c: Cursor, d: Cursor, more: nat)
    requires c.at <= |lines| && c.index <= |file| && d == c.(fuzz := c.fuzz + more)
    ensures UpdateRun(lines, file, d) == Fuzzier(UpdateRun(lines, file, c), more)
    decreases |lines| - c.at
  {
    if !UpdateDone(lines, c.at) {
      PassFuzzier(lines, file, c, more);
      var next := Pass(lines, file, c);
      RunStep(lines, file, c, next);
      RunStep(lines, file, d, Fuzzier(next, more));
      if next.Ok? && next.value.at > c.at {
        RunFuzzier(lines, file, next.value, Fuzzier(next, more).value, more);
      }
    }
  }

  // ---- One header ---------------------------------------------------------------------------------------

  /** What a directive does: it is headed by one line, and adds the action told there. */
  ghost predicate Does(lines: seq<string>, files: map<string, string>, p: Parsed, r: Parsed, k: nat, path: string)
    requires r.at <= |lines|
  {
    && p.at <= k < r.at && path !in p.actions && path in r.actions
    && r.actions == p.actions[path := r.actions[path]]
    && Told(lines, files, k, path, r.actions[path])
    && forall j :: p.at <= j < r.at ==> !HasPrefix(lines[j], END_PATCH) && (j != k ==> HeadsNothing(lines[j]))
  }

  ghost predicate HeadsNothing(line: string) {
    forall path :: !Heads(line, path)
  }

  lemma EmptyHeader(line: string)
    requires line == UPDATE_FILE || line == DELETE_FILE
    ensures HeadsNothing(line) && !HasPrefix(line, END_PATCH)
  {
    HeaderKinds(line);
    forall path ensures !Heads(line, path) { HeadsPrefix(line, path); }
  }

  lemma PrefixEndsAdd(line: string)
    ensures HasPrefix(line, UPDATE_FILE) || HasPrefix(line, DELETE_FILE) || HasPrefix(line, ADD_FILE) ==> EndsAdd(line)
  {
    if HasPrefix(line, UPDATE_FILE) { assert line[..16] == UPDATE_FILE[..16] == "*** Update File:"; }
    if HasPrefix(line, DELETE_FILE) { assert line[..16] == DELETE_FILE[..16] == "*** Delete File:"; }
    if HasPrefix(line, ADD_FILE) { assert line[..13] == ADD_FILE[..13] == "*** Add File:"; }
  }

  lemma ClearHeadsNothing(line: string)
    requires !EndsAdd(line)
    ensures HeadsNothing(line) && !HasPrefix(line, END_PATCH)
  {
    PrefixEndsAdd(line);
    forall path ensures !Heads(line, path) { HeadsPrefix(line, path); }
  }

  ghost predicate NothingHeaded(lines: seq<string>, i: nat, j: nat)
    requires j <= |lines|
  {
    forall k :: i <= k < j ==> !HasPrefix(lines[k], END_PATCH) && HeadsNothing(lines[k])
  }

  lemma ClearHeadNothing(lines: seq<string>, i: nat, j: nat)
    requires j <= |lines| && Clear(lines, i, j)
    ensures NothingHeaded(lines, i, j)
  {
    forall k | i <= k < j ensures !HasPrefix(lines[k], END_PATCH) && HeadsNothing(lines[k]) {
      ClearHeadsNothing(lines[k]);
    }
  }

  lemma UpdateTells(lines: seq<string>, files: map<string, string>, p: Parsed)
    requires p.at < |lines| && Directive(lines, files, p).Ok? && ReadAt(lines, p.at, UPDATE_FILE).text != ""
    ensures var path, r := ReadAt(lines, p.at, UPDATE_FILE).text, Directive(lines, files, p).value;
      && path !in p.actions && path in r.actions && r.actions == p.actions[path := r.actions[path]]
      && ToldUpdate(lines, files, p.at, path, r.actions[path])
  {
    var path := ReadAt(lines, p.at, UPDATE_FILE).text;
    var body := BodyStart(lines, p.at);
    PrefixedBy(lines[p.at], UPDATE_FILE, path);
    assert body == ReadAt(lines, p.at + 1, MOVE_TO).at;
    RunFuzzier(lines, Split(files[path], '\n'), Cursor(body, 0, 0, []), Cursor(body, 0, p.fuzz, []), p.fuzz);
  }

  lemma RunOfUpdate(lines: seq<string>, files: map<string, string>, p: Parsed)
    requires p.at < |lines| && Directive(lines, files, p).Ok? && ReadAt(lines, p.at, UPDATE_FILE).text != ""
    ensures var path, r := ReadAt(lines, p.at, UPDATE_FILE).text, Directive(lines, files, p).value;
      path in files && UpdateOf(lines, BodyStart(lines, p.at), files[path], p.fuzz).Ok?
      && UpdateOf(lines, BodyStart(lines, p.at), files[path], p.fuzz).value.at == r.at
  {
    assert BodyStart(lines, p.at) == ReadAt(lines, p.at + 1, MOVE_TO).at;
  }

  lemma StartClear(lines: seq<string>, k: nat, end: nat)
    requires k < |lines| && BodyStart(lines, k) <= end <= |lines| && Clear(lines, BodyStart(lines, k), end)
    ensures Clear(lines, k + 1, end)
  {
    if BodyStart(lines, k) == k + 2 { NotAdd(lines[k + 1]); }
  }

  lemma BodyHeadsNothing(lines: seq<string>, k: nat, text: string, fuzz: nat)
    requires k < |lines| && UpdateOf(lines, BodyStart(lines, k), text, fuzz).Ok?
    ensures NothingHeaded(lines, k + 1, UpdateOf(lines, BodyStart(lines, k), text, fuzz).value.at)
  {
    var body, end := BodyStart(lines, k), UpdateOf(lines, BodyStart(lines, k), text, fuzz).value.at;
    UpdateClear(lines, Split(text, '\n'), Cursor(body, 0, fuzz, []));
    StartClear(lines, k, end);
    ClearHeadNothing(lines, k + 1, end);
  }

  lemma UpdateHeads(lines: seq<string>, files: map<string, string>, p: Parsed)
    requires p.at < |lines| && Directive(lines, files, p).Ok? && ReadAt(lines, p.at, UPDATE_FILE).text != ""
    ensures NothingHeaded(lines, p.at + 1, Directive(lines, files, p).value.at)
  {
    RunOfUpdate(lines, files, p);
    BodyHeadsNothing(lines, p.at, files[ReadAt(lines, p.at, UPDATE_FILE).text], p.fuzz);
  }

  /** Where the header of a directive that is no update stands: headers without a path before it are skipped. */
  function HeaderLine(lines: seq<string>, at: nat): nat
    requires at <= |lines|
  {
    var update := ReadAt(lines, at, UPDATE_FILE).at;
    if ReadAt(lines, update, DELETE_FILE).text != "" then update else ReadAt(lines, update, DELETE_FILE).at
  }

  lemma SkippedHeaders(lines: seq<string>, at: nat)
    requires at <= |lines| && ReadAt(lines, at, UPDATE_FILE).text == ""
    ensures at <= HeaderLine(lines, at) <= |lines| && NothingHeaded(lines, at, HeaderLine(lines, at))
  {
    var update := ReadAt(lines, at, UPDATE_FILE).at;
    forall k | at <= k < HeaderLine(lines, at) ensures !HasPrefix(lines[k], END_PATCH) && HeadsNothing(lines[k]) {
      EmptyHeader(lines[k]);
    }
  }

  lemma DeleteTells(lines: seq<string>, files: map<string, string>, p: Parsed, k: nat, path: string)
    requires p.at < |lines| && Directive(lines, files, p).Ok? && ReadAt(lines, p.at, UPDATE_FILE).text == ""
    requires k == ReadAt(lines, p.at, UPDATE_FILE).at && path == ReadAt(lines, k, DELETE_FILE).text != ""
    ensures var r := Directive(lines, files, p).value;
      && r.at == k + 1 && path !in p.actions && r.actions == p.actions[path := Delete]
      && ToldDelete(lines, files, k, path, Delete)
  {
    PrefixedBy(lines[k], DELETE_FILE, path);
  }

  /** A directive whose header, at line k, adds a file. */
  lemma AddDirective(lines: seq<string>, files: map<string, string>, p: Parsed, k: nat, path: string)
    requires p.at < |lines| && ReadAt(lines, p.at, UPDATE_FILE).text == "" && k < |lines|
    requires ReadAt(lines, ReadAt(lines, p.at, UPDATE_FILE).at, DELETE_FILE) == Read("", k)
    requires path != "" && ReadAt(lines, k, ADD_FILE) == Read(path, k + 1)
    ensures Directive(lines, files, p)
      == if path in p.actions then Rejected(DuplicatePath)
         else if path in files then Rejected(FileExists)
         else match AddRun(lines, k + 1, [])
           case Ok((body, at)) => Ok(Parsed(at, p.actions[path := Add(Join(body, '\n'))], p.fuzz))
           case Rejected(e) => Rejected(e)
           case Panics => Panics
           case Loops => Loops
  {
  }

  /** What an add header at line k comes to: it is refused exactly for a path that has an action or a file already, or
      when a line it heads has no plus. */
  function AddAt(lines: seq<string>, files: map<string, string>, p: Parsed, k: nat, path: string): Outcome<Parsed>
    requires k < |lines|
  {
    var end := FileEnd(lines, k + 1);
    if path in p.actions then Rejected(DuplicatePath)
    else if path in files then Rejected(FileExists)
    else if !Added(lines[k + 1..end]) then Rejected(InvalidAddLine)
    else Ok(Parsed(end, p.actions[path := Add(Join(Tails(lines[k + 1..end]), '\n'))], p.fuzz))
  }

  lemma AddHeaded(lines: seq<string>, files: map<string, string>, p: Parsed, k: nat, path: string)
    requires p.at < |lines| && ReadAt(lines, p.at, UPDATE_FILE).text == "" && k < |lines|
    requires ReadAt(lines, ReadAt(lines, p.at, UPDATE_FILE).at, DELETE_FILE) == Read("", k)
    requires path != "" && ReadAt(lines, k, ADD_FILE) == Read(path, k + 1)
    ensures Directive(lines, files, p) == AddAt(lines, files, p, k, path)
  {
    AddDirective(lines, files, p, k, path);
    AddedFile(lines, k + 1);
  }

  lemma NoHeader(lines: seq<string>, files: map<string, string>, p: Parsed, k: nat)
    requires p.at < |lines| && ReadAt(lines, p.at, UPDATE_FILE).text == ""
    requires ReadAt(lines, ReadAt(lines, p.at, UPDATE_FILE).at, DELETE_FILE) == Read("", k)
    requires k == |lines| || ReadAt(lines, k, ADD_FILE).text == ""
    ensures !Directive(lines, files, p).Ok?
  {
  }

  lemma AddTells(lines: seq<string>, files: map<string, string>, p: Parsed, k: nat, path: string)
    requires p.at < |lines| && Directive(lines, files, p).Ok? && ReadAt(lines, p.at, UPDATE_FILE).text == ""
    requires ReadAt(lines, ReadAt(lines, p.at, UPDATE_FILE).at, DELETE_FILE) == Read("", k) && k <= |lines|
    requires path == ReadAt(lines, k, ADD_FILE).text
    ensures k < |lines|
    ensures var r := Directive(lines, files, p).value;
      && path != "" && path !in p.actions && path in r.actions && r.actions == p.actions[path := r.actions[path]]
      && r.at == FileEnd(lines, k + 1) && ToldAdd(lines, files, k, path, r.actions[path])
  {
    if k == |lines| || path == "" {
      NoHeader(lines, files, p, k);
    } else {
      AddHeaded(lines, files, p, k, path);
      PrefixedBy(lines[k], ADD_FILE, path);
    }
  }

  lemma OtherTells(lines: seq<string>, files: map<string, string>, p: Parsed) returns (path: string)
    requires p.at < |lines| && Directive(lines, files, p).Ok? && ReadAt(lines, p.at, UPDATE_FILE).text == ""
    ensures var k, r := HeaderLine(lines, p.at), Directive(lines, files, p).value;
      && p.at <= k < r.at && path != "" && path !in p.actions && path in r.actions
      && r.actions == p.actions[path := r.actions[path]]
      && (ToldDelete(lines, files, k, path, r.actions[path]) || ToldAdd(lines, files, k, path, r.actions[path]))
      && NothingHeaded(lines, k + 1, r.at)
  {
    var delete := ReadAt(lines, ReadAt(lines, p.at, UPDATE_FILE).at, DELETE_FILE);
    var k := HeaderLine(lines, p.at);
    if delete.text != "" {
      path := delete.text;
      DeleteTells(lines, files, p, k, path);
    } else {
      path := ReadAt(lines, delete.at, ADD_FILE).text;
      AddTells(lines, files, p, k, path);
      ClearHeadNothing(lines, k + 1, FileEnd(lines, k + 1));
    }
  }

  lemma ToldHeads(lines: seq<string>, files: map<string, string>, k: nat, path: string, action: Action)
    requires k < |lines| && Told(lines, files, k, path, action)
    ensures Heads(lines[k], path) && !HasPrefix(lines[k], END_PATCH)
  {
    HeaderKinds(lines[k]);
    HeadsPrefix(lines[k], path);
  }

  /** Each directive that parses is headed by one line, and adds the action told there. */
  lemma DirectiveDoes(lines: seq<string>, files: map<string, string>, p: Parsed) returns (k: nat, path: string)
    requires p.at < |lines| && Directive(lines, files, p).Ok?
    ensures Does(lines, files, p, Directive(lines, files, p).value, k, path)
  {
    var r := Directive(lines, files, p).value;
    if ReadAt(lines, p.at, UPDATE_FILE).text != "" {
      k, path := p.at, ReadAt(lines, p.at, UPDATE_FILE).text;
      UpdateTells(lines, files, p);
      UpdateHeads(lines, files, p);
    } else {
      k := HeaderLine(lines, p.at);
      path := OtherTells(lines, files, p);
      SkippedHeaders(lines, p.at);
    }
    ToldHeads(lines, files, k, path, r.actions[path]);
  }

  // ---- A whole patch ---------------------------------------------------------------------------------------

  /** The first line from `at` on that ends the patch. */
  function PatchEnd(lines: seq<string>, at: nat): (e: nat)
    requires at <= |lines|
    ensures at <= e <= |lines| && (e < |lines| ==> HasPrefix(lines[e], END_PATCH))
    ensures forall k :: at <= k < e ==> !HasPrefix(lines[k], END_PATCH)
    decreases |lines| - at
  {
    if at == |lines| || HasPrefix(lines[at], END_PATCH) then at else PatchEnd(lines, at + 1)
  }

  /** Some line of the patch, before its end, tells the action for the path. */
  ghost predicate Tells(lines: seq<string>, files: map<string, string>, at: nat, path: string, action: Action)
    requires at <= |lines|
  {
    exists k :: at <= k < PatchEnd(lines, at) && Told(lines, files, k, path, action)
  }

  predicate Has(actions: map<string, Action>, path: string, action: Action) {
    path in actions && actions[path] == action
  }

  lemma ToldOnce(lines: seq<string>, files: map<string, string>, k: nat, path: string, action: Action,
                 other: string, second: Action)
    requires k < |lines| && Told(lines, files, k, path, action) && Told(lines, files, k, other, second)
    ensures path == other && action == second
  {
    ToldHeads(lines, files, k, path, action);
    ToldHeads(lines, files, k, other, second);
    HeadsOne(lines[k], path, other);
    HeaderKinds(lines[k]);
    HeadsPrefix(lines[k], path);
  }

  lemma {:induction false} EndBeyond(lines: seq<string>, at: nat, next: nat)
    requires at <= next <= |lines| && forall k :: at <= k < next ==> !HasPrefix(lines[k], END_PATCH)
    ensures PatchEnd(lines, at) == PatchEnd(lines, next)
    decreases next - at
  {
    if at < next { EndBeyond(lines, at + 1, next); }
  }

  lemma TellsOne(lines: seq<string>, files: map<string, string>, p: Parsed, r: Parsed, k: nat, path: string,
                 other: string, action: Action)
    requires p.at <= |lines| && r.at <= |lines| && Does(lines, files, p, r, k, path)
    ensures Tells(lines, files, p.at, other, action) <==>
      (other == path && action == r.actions[path]) || Tells(lines, files, r.at, other, action)
  {
    EndBeyond(lines, p.at, r.at);
    if j :| p.at <= j < PatchEnd(lines, p.at) && Told(lines, files, j, other, action) {
      ToldHeads(lines, files, j, other, action);
      if j < r.at {
        assert j == k;
        ToldOnce(lines, files, k, path, r.actions[path], other, action);
      }
    }
  }

  /** The actions of a patch that parses are exactly those its lines tell, up to the line that ends it. */
  lemma {:induction false} ParseTells(lines: seq<string>, files: map<string, string>, p: Parsed,
                                      path: string, action: Action)
    requires p.at <= |lines| && ParseRun(lines, files, p).Ok?
    ensures Has(ParseRun(lines, files, p).value.actions, path, action) <==>
      Has(p.actions, path, action) || Tells(lines, files, p.at, path, action)
    ensures PatchEnd(lines, p.at) < |lines|
    decreases |lines| - p.at
  {
    if !HasPrefix(lines[p.at], END_PATCH) {
      var k, head := DirectiveDoes(lines, files, p);
      var next := Directive(lines, files, p).value;
      ParseTells(lines, files, next, path, action);
      TellsOne(lines, files, p, next, k, head, path, action);
      EndBeyond(lines, p.at, next.at);
    }
  }

  lemma HeaderOfDirective(lines: seq<string>, files: map<string, string>, p: Parsed, r: Parsed, k: nat, head: string,
                          i: nat, path: string)
    requires r.at <= |lines| && Does(lines, files, p, r, k, head) && p.at <= i < r.at && Heads(lines[i], path)
    ensures i == k && path == head
  {
    ToldHeads(lines, files, k, head, r.actions[head]);
    if i == k { HeadsOne(lines[k], path, head); }
  }

  /** A header before the end of a patch that parses names a path without an action. */
  lemma {:induction false} HeaderIsNew(lines: seq<string>, files: map<string, string>, p: Parsed, path: string, i: nat)
    requires p.at <= |lines| && p.at <= i < PatchEnd(lines, p.at) && ParseRun(lines, files, p).Ok?
    requires Heads(lines[i], path)
    ensures path !in p.actions
    decreases |lines| - p.at
  {
    var k, head := DirectiveDoes(lines, files, p);
    var next := Directive(lines, files, p).value;
    EndBeyond(lines, p.at, next.at);
    if i < next.at {
      HeaderOfDirective(lines, files, p, next, k, head, i, path);
    } else {
      HeaderIsNew(lines, files, next, path, i);
    }
  }

  /** No two headers before the end of a patch that parses name the same path. */
  lemma {:induction false} HeadersDiffer(lines: seq<string>, files: map<string, string>, p: Parsed, path: string,
                                         i: nat, j: nat)
    requires p.at <= |lines| && p.at <= i <= j < PatchEnd(lines, p.at) && ParseRun(lines, files, p).Ok?
    requires Heads(lines[i], path) && Heads(lines[j], path)
    ensures i == j
    decreases |lines| - p.at
  {
    var k, head := DirectiveDoes(lines, files, p);
    var next := Directive(lines, files, p).value;
    EndBeyond(lines, p.at, next.at);
    if next.at <= i {
      HeadersDiffer(lines, files, next, path, i, j);
    } else {
      HeaderOfDirective(lines, files, p, next, k, head, i, path);
      if next.at <= j {
        HeaderIsNew(lines, files, next, path, j);
      } else {
        HeaderOfDirective(lines, files, p, next, k, head, j, path);
      }
    }
  }

  /** A delete header is refused exactly for a path that has an action already or no file. */
  lemma DeleteOutcome(lines: seq<string>, files: map<string, string>, p: Parsed, path: string)
    requires p.at < |lines| && path != "" && lines[p.at] == DELETE_FILE + path
    ensures Directive(lines, files, p)
      == if path in p.actions then Rejected(DuplicatePath)
         else if path !in files then Rejected(MissingFile)
         else Ok(Parsed(p.at + 1, p.actions[path := Delete], p.fuzz))
  {
    HeaderKinds(lines[p.at]);
    PrefixedBy(lines[p.at], DELETE_FILE, path);
  }

  lemma AddReads(lines: seq<string>, at: nat, path: string)
    requires at < |lines| && lines[at] == ADD_FILE + path
    ensures ReadAt(lines, at, UPDATE_FILE) == Read("", at) && ReadAt(lines, at, DELETE_FILE) == Read("", at)
    ensures ReadAt(lines, at, ADD_FILE) == Read(path, at + 1)
  {
    HeaderKinds(lines[at]);
    PrefixedBy(lines[at], ADD_FILE, path);
  }

  lemma AddOutcome(lines: seq<string>, files: map<string, string>, p: Parsed, path: string)
    requires p.at < |lines| && path != "" && lines[p.at] == ADD_FILE + path
    ensures Directive(lines, files, p) == AddAt(lines, files, p, p.at, path)
  {
    AddReads(lines, p.at, path);
    AddHeaded(lines, files, p, p.at, path);
  }

  /** An update header exactly for a path that has an action already or no file, or when its update fails. */
  lemma UpdateOutcome(lines: seq<string>, files: map<string, string>, p: Parsed, path: string)
    requires p.at < |lines| && path != "" && lines[p.at] == UPDATE_FILE + path
    ensures var r := Directive(lines, files, p);
      && (path in p.actions ==> r == Rejected(DuplicatePath))
      && (path !in p.actions && path !in files ==> r == Rejected(MissingFile))
      && (path !in p.actions && path in files ==>
            match UpdateOf(lines, BodyStart(lines, p.at), files[path], p.fuzz)
            case Ok(c) => r == Ok(Parsed(c.at, p.actions[path := Update(c.chunks, MoveOf(lines, p.at + 1))], c.fuzz))
            case Rejected(e) => r == Rejected(e)
            case Panics => r == Panics
            case Loops => r == Loops)
  {
    PrefixedBy(lines[p.at], UPDATE_FILE, path);
    assert BodyStart(lines, p.at) == ReadAt(lines, p.at + 1, MOVE_TO).at;
  }

  /** A line that heads nothing, and is not the header of an empty path, is refused. */
  lemma UnknownRefused(lines: seq<string>, files: map<string, string>, p: Parsed)
    requires p.at < |lines| && HeadsNothing(lines[p.at])
    requires lines[p.at] != UPDATE_FILE && lines[p.at] != DELETE_FILE && lines[p.at] != ADD_FILE
    ensures Directive(lines, files, p) == Rejected(UnknownLine)
  {
    var line := lines[p.at];
    if HasPrefix(line, UPDATE_FILE) { HeadsPrefix(line, line[|UPDATE_FILE|..]); }
    if HasPrefix(line, DELETE_FILE) { HeadsPrefix(line, line[|DELETE_FILE|..]); }
    if HasPrefix(line, ADD_FILE) { HeadsPrefix(line, line[|ADD_FILE|..]); }
  }
}
