/** What an accepted context patch does to the files. */
module AcceptedPatch {
  // TextToPatch, PatchToCommit and the fuzz gate of ProcessPatch in cli/internal/diff/patch.go.

  import opened Strings
  import opened LineDiff
  import opened PatchSections
  import opened ContextSearch
  import opened ContextParser
  import opened ContextPatch
  import opened PatchText
  import opened ChunkOrder

  // ---- Fuzz 0 deletes what it names ---------------------------------------------------------

  lemma ShiftNames(cs: seq<Chunk>, context: seq<Line>, file: seq<Line>, i: nat)
    requires AllNamed(cs, context) && Occurs(file, context, i)
    ensures AllNamed(Shift(cs, i), file)
  {
    forall k | 0 <= k < |cs| ensures Names(Shift(cs, i)[k], file) {
      var c := cs[k];
      assert Names(c, context);
      SliceOfSlice(file, i, i + |context|, c.orig, End(c));
    }
  }

  lemma SectionNames(lines: seq<string>, at: nat)
    requires at <= |lines|
    ensures AllNamed(Peek(lines, at).chunks, Peek(lines, at).context)
  {
    SectionMeaning(lines, at);
    var s := Peek(lines, at);
    forall k | 0 <= k < |s.chunks| ensures Names(s.chunks[k], s.context) { FaithfulAt(s.chunks, s.context, k); }
  }

  /** A pass without fuzz adds only chunks that delete what they name. */
  lemma PassNames(lines: seq<string>, file: seq<Line>, c: Cursor)
    requires c.at < |lines| && c.index <= |file| && AllNamed(c.chunks, file)
    requires Pass(lines, file, c).Ok? && Pass(lines, file, c).value.fuzz == c.fuzz
    ensures AllNamed(Pass(lines, file, c).value.chunks, file)
  {
    var header := HeaderAt(lines, c.at);
    var place := Seek(file, c.index, header.def);
    var section := Peek(lines, header.at);
    var found := Search(file, section.context, place.index, section.eof);
    assert found.At? && found.fuzz == 0;
    if section.eof {
      EndSearch(file, section.context, place.index);
    } else {
      ForwardSearch(file, section.context, place.index);
    }
    SectionNames(lines, header.at);
    ShiftNames(section.chunks, section.context, file, found.index);
  }

  lemma {:induction false} UpdateNames(lines: seq<string>, file: seq<Line>, c: Cursor)
    requires c.at <= |lines| && c.index <= |file| && AllNamed(c.chunks, file)
    requires UpdateRun(lines, file, c).Ok? && UpdateRun(lines, file, c).value.fuzz == c.fuzz
    ensures AllNamed(UpdateRun(lines, file, c).value.chunks, file)
    decreases |lines| - c.at
  {
    if !UpdateDone(lines, c.at) {
      PassNames(lines, file, c);
      UpdateNames(lines, file, Pass(lines, file, c).value);
    }
  }

  /** Every update among the actions deletes exactly the lines it names. */
  ghost predicate ActionsNamed(actions: map<string, Action>, files: map<string, string>) {
    forall path :: path in actions && actions[path].Update? ==>
      path in files && AllNamed(actions[path].chunks, Split(files[path], '\n'))
  }

  lemma DirectiveNames(lines: seq<string>, files: map<string, string>, p: Parsed)
    requires p.at < |lines| && ActionsNamed(p.actions, files)
    requires Directive(lines, files, p).Ok? && Directive(lines, files, p).value.fuzz == p.fuzz
    ensures ActionsNamed(Directive(lines, files, p).value.actions, files)
  {
    var update := ReadAt(lines, p.at, UPDATE_FILE);
    if update.text != "" {
      var move := ReadAt(lines, update.at, MOVE_TO);
      UpdateNames(lines, Split(files[update.text], '\n'), Cursor(move.at, 0, p.fuzz, []));
    }
  }

  /** A patch parsed without fuzz: each chunk of each update deletes exactly the lines it names. */
  lemma {:induction false} PatchNames(lines: seq<string>, files: map<string, string>, p: Parsed)
    requires p.at <= |lines| && ActionsNamed(p.actions, files)
    requires ParseRun(lines, files, p).Ok? && ParseRun(lines, files, p).value.fuzz == p.fuzz
    ensures ActionsNamed(ParseRun(lines, files, p).value.actions, files)
    decreases |lines| - p.at
  {
    if !HasPrefix(lines[p.at], END_PATCH) {
      DirectiveNames(lines, files, p);
      PatchNames(lines, files, Directive(lines, files, p).value);
    }
  }

  // ---- The chunks of a patch are in order exactly when its markers fit ----------------------------

  ghost predicate ActionsInOrder(actions: map<string, Action>, files: map<string, string>) {
    forall path :: path in actions ==> ActionInOrder(actions, files, path)
  }

  predicate ActionInOrder(actions: map<string, Action>, files: map<string, string>, path: string)
    requires path in actions
  {
    actions[path].Update? ==> path in files && InOrder(actions[path].chunks, |Split(files[path], '\n')|)
  }

  /** Where the update that a directive starts begins, before any of its sections. */
  function UpdateStart(lines: seq<string>, p: Parsed): (c: Cursor)
    requires p.at < |lines|
    ensures c.at <= |lines| && c.index == 0 && c.chunks == []
  {
    Cursor(ReadAt(lines, ReadAt(lines, p.at, UPDATE_FILE).at, MOVE_TO).at, 0, p.fuzz, [])
  }

  /** The markers of the update that a directive starts, if it starts one. */
  predicate DirectiveFits(lines: seq<string>, files: map<string, string>, p: Parsed)
    requires p.at < |lines|
  {
    var path := ReadAt(lines, p.at, UPDATE_FILE).text;
    path != "" && path in files ==> MarkersFit(lines, Split(files[path], '\n'), UpdateStart(lines, p))
  }

  /** Every section with an end-of-file marker, in every update from here on, is put behind the chunks before it. */
  predicate PatchFits(lines: seq<string>, files: map<string, string>, p: Parsed)
    requires p.at <= |lines|
    decreases |lines| - p.at
  {
    p.at == |lines| || HasPrefix(lines[p.at], END_PATCH)
    || (&& DirectiveFits(lines, files, p)
        && (Directive(lines, files, p).Ok? ==> PatchFits(lines, files, Directive(lines, files, p).value)))
  }

  /** The action is the update that a directive starts. */
  predicate IsUpdate(lines: seq<string>, files: map<string, string>, p: Parsed, path: string, action: Action)
    requires p.at < |lines|
  {
    && path == ReadAt(lines, p.at, UPDATE_FILE).text && path in files && action.Update?
    && UpdateRun(lines, Split(files[path], '\n'), UpdateStart(lines, p)).Ok?
    && action.chunks == UpdateRun(lines, Split(files[path], '\n'), UpdateStart(lines, p)).value.chunks
  }

  /** A directive adds one action, for a path that had none. */
  lemma DirectiveAdds(lines: seq<string>, files: map<string, string>, p: Parsed) returns (path: string)
    requires p.at < |lines| && Directive(lines, files, p).Ok?
    ensures var r := Directive(lines, files, p).value;
      && path !in p.actions && path in r.actions && r.actions == p.actions[path := r.actions[path]]
      && (r.actions[path].Update? ==> path == ReadAt(lines, p.at, UPDATE_FILE).text && path in files)
      && (ReadAt(lines, p.at, UPDATE_FILE).text != "" ==> IsUpdate(lines, files, p, path, r.actions[path]))
  {
    var update := ReadAt(lines, p.at, UPDATE_FILE);
    var delete := ReadAt(lines, update.at, DELETE_FILE);
    path := if update.text != "" then update.text
      else if delete.text != "" then delete.text
      else ReadAt(lines, delete.at, ADD_FILE).text;
  }

  lemma DirectiveInOrderIff(lines: seq<string>, files: map<string, string>, p: Parsed)
    requires p.at < |lines| && ActionsInOrder(p.actions, files) && Directive(lines, files, p).Ok?
    ensures ActionsInOrder(Directive(lines, files, p).value.actions, files) <==> DirectiveFits(lines, files, p)
  {
    var path := DirectiveAdds(lines, files, p);
    var r := Directive(lines, files, p).value;
    if ReadAt(lines, p.at, UPDATE_FILE).text != "" {
      UpdateInOrderIff(lines, Split(files[path], '\n'), UpdateStart(lines, p));
    }
    assert ActionInOrder(r.actions, files, path) <==> DirectiveFits(lines, files, p);
    forall other | other in r.actions && other != path ensures ActionInOrder(r.actions, files, other) {
      assert ActionInOrder(p.actions, files, other);
    }
  }

  lemma {:induction false} ActionsStay(lines: seq<string>, files: map<string, string>, p: Parsed, path: string)
    requires p.at <= |lines| && ParseRun(lines, files, p).Ok? && path in p.actions
    ensures path in ParseRun(lines, files, p).value.actions
    ensures ParseRun(lines, files, p).value.actions[path] == p.actions[path]
    decreases |lines| - p.at
  {
    if !HasPrefix(lines[p.at], END_PATCH) {
      var _ := DirectiveAdds(lines, files, p);
      ActionsStay(lines, files, Directive(lines, files, p).value, path);
    }
  }

  /** A patch, fuzzy or not, parses to chunks that getUpdatedFile accepts exactly when all its markers fit. */
  lemma {:induction false} PatchInOrderIff(lines: seq<string>, files: map<string, string>, p: Parsed)
    requires p.at <= |lines| && ActionsInOrder(p.actions, files) && ParseRun(lines, files, p).Ok?
    ensures ActionsInOrder(ParseRun(lines, files, p).value.actions, files) <==> PatchFits(lines, files, p)
    decreases |lines| - p.at
  {
    if !HasPrefix(lines[p.at], END_PATCH) {
      var next, all := Directive(lines, files, p).value, ParseRun(lines, files, p).value.actions;
      DirectiveInOrderIff(lines, files, p);
      if DirectiveFits(lines, files, p) {
        PatchInOrderIff(lines, files, next);
      } else {
        var path :| path in next.actions && !ActionInOrder(next.actions, files, path);
        ActionsStay(lines, files, next, path);
        assert !ActionInOrder(all, files, path);
      }
    }
  }

  lemma {:induction false} NoMarkersInPatch(lines: seq<string>, files: map<string, string>, p: Parsed)
    requires p.at <= |lines| && NoEofMarker(lines)
    ensures PatchFits(lines, files, p)
    decreases |lines| - p.at
  {
    if p.at < |lines| && !HasPrefix(lines[p.at], END_PATCH) {
      var path := ReadAt(lines, p.at, UPDATE_FILE).text;
      if path != "" && path in files { NoMarkersFit(lines, Split(files[path], '\n'), UpdateStart(lines, p)); }
      if Directive(lines, files, p).Ok? { NoMarkersInPatch(lines, files, Directive(lines, files, p).value); }
    }
  }

  /** A patch without an end-of-file marker, fuzzy or not, parses only to chunks that getUpdatedFile accepts. */
  lemma PatchInOrder(lines: seq<string>, files: map<string, string>, p: Parsed)
    requires p.at <= |lines| && ActionsInOrder(p.actions, files) && NoEofMarker(lines)
    requires ParseRun(lines, files, p).Ok?
    ensures ActionsInOrder(ParseRun(lines, files, p).value.actions, files)
  {
    NoMarkersInPatch(lines, files, p);
    PatchInOrderIff(lines, files, p);
  }

  // ---- The pipeline ------------------------------------------------------------------------------

  const BEGIN_PATCH := "*** Begin Patch"

  /** TextToPatch as a function. */
  function PatchOf(text: string, files: map<string, string>): Outcome<Parsed> {
    var lines := Split(TrimSpace(text), '\n');
    if |lines| < 2 || !HasPrefix(lines[0], BEGIN_PATCH) || lines[|lines| - 1] != END_PATCH then Rejected(InvalidPatch)
    else ParseRun(lines, files, Parsed(1, map[], 0))
  }

  /** A patch is parsed when it has a line that begins it and a last line that ends it, and refused otherwise. */
  lemma FrameChecked(text: string, files: map<string, string>)
    ensures var lines := Split(TrimSpace(text), '\n');
      if HasPrefix(lines[0], "*** Begin Patch") && lines[|lines| - 1] == "*** End Patch" then
        PatchOf(text, files) == ParseRun(lines, files, Parsed(1, map[], 0))
      else
        PatchOf(text, files) == Rejected(InvalidPatch)
  {
    var lines := Split(TrimSpace(text), '\n');
    if |lines| == 1 && lines[0] == "*** End Patch" { assert lines[0][4] == 'E' && BEGIN_PATCH[4] == 'B'; }
  }

  method TextToPatch(text: string, orig: map<string, string>) returns (r: Outcome<(map<string, Action>, nat)>)
    ensures match PatchOf(text, orig)
      case Ok(p) => r == Ok((p.actions, p.fuzz))
      case Rejected(e) => r == Rejected(e)
      case Panics => r == Panics
      case Loops => r == Loops
  {
    var lines := Split(TrimSpace(text), '\n');
    if |lines| < 2 || !HasPrefix(lines[0], BEGIN_PATCH) || lines[|lines| - 1] != END_PATCH {
      return Rejected(InvalidPatch);
    }
    var parser := new Parser(orig, lines);
    parser.index := 1;
    var parsed := parser.Parse();
    match parsed
    case Ok(_) => r := Ok((parser.actions, parser.fuzz));
    case Rejected(e) => r := Rejected(e);
    case Panics => r := Panics;
    case Loops => r := Loops;
  }

  datatype Change =
    | Deleted(oldContent: string)
    | Added(newContent: string)
    | Rewritten(oldContent: string, newContent: string, moveTo: Option<string>)

  /** A map lookup in Go: a missing key reads as the empty string. */
  function Lookup(files: map<string, string>, path: string): string {
    if path in files then files[path] else ""
  }

  predicate Applicable(action: Action, content: string) {
    action.Update? ==> InOrder(action.chunks, |Split(content, '\n')|)
  }

  /** The change an action stands for: an update replaces every deleted span by its inserted lines, all at once. */
  function ChangeOf(action: Action, content: string): Change
    requires Applicable(action, content)
  {
    match action
    case Delete => Deleted(content)
    case Add(newContent) => Added(newContent)
    case Update(chunks, moveTo) => Rewritten(content, Join(Splice(Split(content, '\n'), chunks), '\n'), moveTo)
  }

  ghost predicate IsCommit(commit: map<string, Change>, actions: map<string, Action>, files: map<string, string>) {
    && commit.Keys == actions.Keys
    && forall path :: path in actions ==>
         Applicable(actions[path], Lookup(files, path)) && commit[path] == ChangeOf(actions[path], Lookup(files, path))
  }

  /** PatchToCommit visits the actions in any order; it succeeds exactly when every update is applicable. */
  method PatchToCommit(actions: map<string, Action>, orig: map<string, string>)
    returns (r: Outcome<map<string, Change>>)
    ensures r.Ok? ==> IsCommit(r.value, actions, orig)
    ensures !r.Ok? ==> exists path :: path in actions && !Applicable(actions[path], Lookup(orig, path))
  {
    var commit: map<string, Change> := map[];
    var todo := actions.Keys;
    while todo != {}
      invariant todo <= actions.Keys && commit.Keys == actions.Keys - todo
      invariant forall path :: path in commit ==>
        Applicable(actions[path], Lookup(orig, path)) && commit[path] == ChangeOf(actions[path], Lookup(orig, path))
      decreases todo
    {
      var path :| path in todo;
      todo := todo - {path};
      var content := Lookup(orig, path);
      match actions[path]
      case Delete => commit := commit[path := Deleted(content)];
      case Add(newFile) => commit := commit[path := Added(newFile)];
      case Update(chunks, moveTo) =>
        var updated := GetUpdatedFile(content, chunks);
        match updated
        case Updated(newContent) => commit := commit[path := Rewritten(content, newContent, moveTo)];
        case Panic => return Panics;
        case _ => return Rejected(BadChunk);
    }
    r := Ok(commit);
  }

  /** The line asks for an update or a deletion of the path. */
  predicate Asks(line: string, path: string) {
    line == UPDATE_FILE + path || line == DELETE_FILE + path
  }

  ghost predicate Asked(lines: seq<string>, path: string) {
    exists k :: 0 <= k < |lines| && Asks(lines[k], path)
  }

  /** The path that a line asks for, if it asks for one. */
  function AskedBy(line: string): (paths: set<string>)
    ensures forall path :: path in paths <==> Asks(line, path)
  {
    if HasPrefix(line, UPDATE_FILE) then
      assert line[4] == 'U';
      {line[|UPDATE_FILE|..]}
    else if HasPrefix(line, DELETE_FILE) then {line[|DELETE_FILE|..]}
    else {}
  }

  /** The files a patch says it updates or deletes. */
  function Needed(lines: seq<string>): (paths: set<string>)
    ensures forall path :: path in paths <==> Asked(lines, path)
  {
    if lines == [] then {}
    else
      var init, last := lines[..|lines| - 1], lines[|lines| - 1];
      AskedSnoc(init, last);
      assert init + [last] == lines;
      Needed(init) + AskedBy(last)
  }

  lemma AskedSnoc(lines: seq<string>, line: string)
    ensures forall path :: Asked(lines + [line], path) <==> Asked(lines, path) || Asks(line, path)
  {
    var more := lines + [line];
    forall path ensures Asked(more, path) <==> Asked(lines, path) || Asks(line, path) {
      assert forall k :: 0 <= k < |lines| ==> more[k] == lines[k];
      if Asked(lines, path) {
        var k :| 0 <= k < |lines| && Asks(lines[k], path);
        assert Asks(more[k], path);
      }
      if Asks(line, path) { assert Asks(more[|lines|], path); }
    }
  }

  method IdentifyFilesNeeded(text: string) returns (paths: set<string>)
    ensures forall path :: path in paths <==> Asked(Split(TrimSpace(text), '\n'), path)
  {
    var lines := Split(TrimSpace(text), '\n');
    paths := {};
    for k := 0 to |lines|
      invariant forall path :: path in paths <==> Asked(lines[..k], path)
    {
      var line := lines[k];
      assert lines[..k + 1] == lines[..k] + [line];
      AskedSnoc(lines[..k], line);
      ghost var before, more := paths, AskedBy(line);
      if HasPrefix(line, UPDATE_FILE) {
        paths := paths + {line[|UPDATE_FILE|..]};
      }
      if HasPrefix(line, DELETE_FILE) {
        assert line[4] == 'D';
        paths := paths + {line[|DELETE_FILE|..]};
      }
      assert paths == before + more;
    }
    assert lines[..|lines|] == lines;
  }

  /** The files ProcessPatch loads. */
  function Loaded(text: string, repo: map<string, string>): map<string, string> {
    map path | path in Needed(Split(TrimSpace(text), '\n')) && path in repo :: repo[path]
  }

  /** They are those of the repository that the patch asks for. */
  lemma LoadedIff(text: string, repo: map<string, string>, path: string)
    ensures path in Loaded(text, repo) <==> path in repo && Asked(Split(TrimSpace(text), '\n'), path)
    ensures path in Loaded(text, repo) ==> Loaded(text, repo)[path] == repo[path]
  {
  }

  /** Every section with an end-of-file marker is put behind the chunks before it. */
  predicate MarkersInPlace(text: string, files: map<string, string>) {
    PatchFits(Split(TrimSpace(text), '\n'), files, Parsed(1, map[], 0))
  }

  /** The chunks of a patch that parses are in order exactly when its markers are in place. */
  lemma ParsedInOrderIff(text: string, files: map<string, string>)
    requires PatchOf(text, files).Ok?
    ensures ActionsInOrder(PatchOf(text, files).value.actions, files) <==> MarkersInPlace(text, files)
  {
    PatchInOrderIff(Split(TrimSpace(text), '\n'), files, Parsed(1, map[], 0));
  }

  /** So they are whenever it has no marker. */
  lemma CleanPatchApplies(text: string, files: map<string, string>)
    requires NoEofMarker(Split(TrimSpace(text), '\n'))
    ensures MarkersInPlace(text, files)
    ensures PatchOf(text, files).Ok? ==> ActionsInOrder(PatchOf(text, files).value.actions, files)
  {
    NoMarkersInPatch(Split(TrimSpace(text), '\n'), files, Parsed(1, map[], 0));
    if PatchOf(text, files).Ok? { ParsedInOrderIff(text, files); }
  }

  lemma ApplicableIff(actions: map<string, Action>, files: map<string, string>, path: string)
    requires path in actions && (actions[path].Update? ==> path in files)
    ensures Applicable(actions[path], Lookup(files, path)) <==> ActionInOrder(actions, files, path)
  {
  }

  /** The change that the header at line k, and the lines it heads, ask for. */
  ghost predicate AsksFor(lines: seq<string>, files: map<string, string>, k: nat, path: string, change: Change)
    requires k < |lines|
  {
    && path != ""
    && match change
       case Deleted(oldContent) => lines[k] == DELETE_FILE + path && path in files && oldContent == files[path]
       case Added(newContent) => ToldAdd(lines, files, k, path, Action.Add(newContent))
       case Rewritten(oldContent, newContent, moveTo) =>
         && lines[k] == UPDATE_FILE + path && path in files && oldContent == files[path]
         && moveTo == MoveOf(lines, k + 1) && RewritesTo(lines, k, oldContent, newContent)
  }

  /** The update headed at line k turns the one text into the other: its chunks are replaced all at once. */
  predicate RewritesTo(lines: seq<string>, k: nat, text: string, newText: string)
    requires k < |lines|
  {
    var run := UpdateOf(lines, BodyStart(lines, k), text, 0);
    && run.Ok? && InOrder(run.value.chunks, |Split(text, '\n')|)
    && newText == Join(Splice(Split(text, '\n'), run.value.chunks), '\n')
  }

  ghost predicate AsksSomewhere(lines: seq<string>, files: map<string, string>, path: string, change: Change)
    requires |lines| >= 1
  {
    exists k :: 1 <= k < PatchEnd(lines, 1) && AsksFor(lines, files, k, path, change)
  }

  /** The commit makes exactly the changes that the lines of the patch ask for. */
  ghost predicate AsAsked(commit: map<string, Change>, lines: seq<string>, files: map<string, string>)
    requires |lines| >= 1
  {
    forall path, change :: (path in commit && commit[path] == change) <==> AsksSomewhere(lines, files, path, change)
  }

  lemma AsksForIff(lines: seq<string>, files: map<string, string>, k: nat, path: string, change: Change)
    requires k < |lines|
    ensures AsksFor(lines, files, k, path, change) <==>
      exists action :: Told(lines, files, k, path, action) && Applicable(action, Lookup(files, path))
        && change == ChangeOf(action, Lookup(files, path))
  {
    if AsksFor(lines, files, k, path, change) {
      var action := match change
        case Deleted(_) => Delete
        case Added(newContent) => Action.Add(newContent)
        case Rewritten(oldContent, _, moveTo) =>
          Update(UpdateOf(lines, BodyStart(lines, k), oldContent, 0).value.chunks, moveTo);
      assert Told(lines, files, k, path, action);
    }
  }

  lemma MadeIsAsked(commit: map<string, Change>, lines: seq<string>, files: map<string, string>, p: Parsed,
                    path: string)
    requires |lines| >= 1 && p.at == 1 && p.actions == map[] && ParseRun(lines, files, p).Ok?
    requires IsCommit(commit, ParseRun(lines, files, p).value.actions, files) && path in commit
    ensures AsksSomewhere(lines, files, path, commit[path])
  {
    var action := ParseRun(lines, files, p).value.actions[path];
    ParseTells(lines, files, p, path, action);
    var k :| 1 <= k < PatchEnd(lines, 1) && Told(lines, files, k, path, action);
    AsksForIff(lines, files, k, path, commit[path]);
  }

  lemma AskedIsMade(commit: map<string, Change>, lines: seq<string>, files: map<string, string>, p: Parsed,
                    path: string, change: Change)
    requires |lines| >= 1 && p.at == 1 && p.actions == map[] && ParseRun(lines, files, p).Ok?
    requires IsCommit(commit, ParseRun(lines, files, p).value.actions, files)
    requires AsksSomewhere(lines, files, path, change)
    ensures path in commit && commit[path] == change
  {
    var k :| 1 <= k < PatchEnd(lines, 1) && AsksFor(lines, files, k, path, change);
    AsksForIff(lines, files, k, path, change);
    var action :| Told(lines, files, k, path, action) && Applicable(action, Lookup(files, path))
      && change == ChangeOf(action, Lookup(files, path));
    ParseTells(lines, files, p, path, action);
  }

  lemma CommitIsAsked(commit: map<string, Change>, lines: seq<string>, files: map<string, string>, p: Parsed)
    requires |lines| >= 1 && p.at == 1 && p.actions == map[] && ParseRun(lines, files, p).Ok?
    requires IsCommit(commit, ParseRun(lines, files, p).value.actions, files)
    ensures AsAsked(commit, lines, files)
  {
    forall path, change
      ensures (path in commit && commit[path] == change) <==> AsksSomewhere(lines, files, path, change)
    {
      if path in commit && commit[path] == change { MadeIsAsked(commit, lines, files, p, path); }
      if AsksSomewhere(lines, files, path, change) { AskedIsMade(commit, lines, files, p, path, change); }
    }
  }

  /** ProcessPatch up to its commit. It succeeds exactly when the text starts as a patch, the files it asks for exist,
      it parses without fuzz, and its markers are in place. Then every update deletes exactly the lines it names, the
      commit replaces each deleted span by its inserted lines and changes nothing else, and its changes are exactly
      those that the lines of the patch ask for. */
  method ProcessPatch(text: string, repo: map<string, string>) returns (r: Outcome<map<string, Change>>)
    ensures r.Ok? <==>
      && HasPrefix(text, BEGIN_PATCH)
      && (forall path :: Asked(Split(TrimSpace(text), '\n'), path) ==> path in repo)
      && PatchOf(text, Loaded(text, repo)).Ok? && PatchOf(text, Loaded(text, repo)).value.fuzz == 0
      && MarkersInPlace(text, Loaded(text, repo))
    ensures r.Ok? ==>
      var actions := PatchOf(text, Loaded(text, repo)).value.actions;
      ActionsNamed(actions, repo) && IsCommit(r.value, actions, Loaded(text, repo))
    ensures r.Ok? ==> AsAsked(r.value, Split(TrimSpace(text), '\n'), Loaded(text, repo))
  {
    if !HasPrefix(text, BEGIN_PATCH) { return Rejected(InvalidPatch); }
    var paths := IdentifyFilesNeeded(text);
    assert paths == Needed(Split(TrimSpace(text), '\n'));
    if !(paths <= repo.Keys) { return Rejected(MissingFile); }
    var orig := map path | path in paths :: repo[path];
    assert orig == Loaded(text, repo);
    var patch := TextToPatch(text, orig);
    match patch
    case Rejected(e) => return Rejected(e);
    case Panics => return Panics;
    case Loops => return Loops;
    case Ok((actions, fuzz)) =>
      if fuzz > 0 { return Rejected(Fuzzy); }
      PatchNames(Split(TrimSpace(text), '\n'), orig, Parsed(1, map[], 0));
      ParsedInOrderIff(text, orig);
      AllApplicable(actions, orig);
      r := PatchToCommit(actions, orig);
      if r.Ok? { CommitIsAsked(r.value, Split(TrimSpace(text), '\n'), orig, Parsed(1, map[], 0)); }
  }

  lemma AllApplicable(actions: map<string, Action>, files: map<string, string>)
    requires ActionsNamed(actions, files)
    ensures ActionsInOrder(actions, files) <==>
      forall path :: path in actions ==> Applicable(actions[path], Lookup(files, path))
  {
    forall path | path in actions
      ensures Applicable(actions[path], Lookup(files, path)) <==> ActionInOrder(actions, files, path)
    {
      ApplicableIff(actions, files, path);
    }
  }
}
