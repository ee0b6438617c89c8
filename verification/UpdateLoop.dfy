/** When parseUpdateFile runs forever (cli/internal/diff/patch.go). */
module UpdateLoop {
  import opened Strings
  import opened LineDiff
  import opened PatchSections
  import opened ContextSearch
  import opened ContextParser

  /** A line that ends a section but opens none and ends no update. */
  predicate Stray(line: string) {
    EndsSection(line) && !EndsUpdate(line) && !HasPrefix(line, "@@ ") && line != "@@"
  }

  /** A line that leaves the position at the start of the file: an added line, or the start of a section whose
      definition, if any, is not found in the file. */
  predicate Passive(line: string, file: seq<Line>) {
    HasPrefix(line, "+") || line == "@@" || (HasPrefix(line, "@@ ") && Seek(file, 0, line[3..]) == Place(0, 0))
  }

  lemma SeekNothing(file: seq<Line>, index: nat)
    requires index <= |file|
    ensures Seek(file, index, "") == Place(index, 0)
  {
  }

  /** A pass makes no progress exactly on a stray line at file position 0, and then it changes nothing at all. */
  lemma NoProgress(lines: seq<string>, file: seq<Line>, c: Cursor)
    requires c.at < |lines| && c.index <= |file| && !EndsUpdate(lines[c.at])
    ensures Stray(lines[c.at]) && c.index == 0 ==> Pass(lines, file, c) == Ok(c)
    ensures var r := Pass(lines, file, c);
      r.Ok? && r.value.at == c.at ==> Stray(lines[c.at]) && c.index == 0
  {
    var line, header := lines[c.at], HeaderAt(lines, c.at);
    if Stray(line) && c.index == 0 {
      var section := Peek(lines, c.at);
      assert section == Section([], [], c.at, false) by { SeekNothing(file, c.index); }
      assert Seek(file, 0, "") == Place(0, 0);
      assert c.chunks + Shift([], 0) == c.chunks;
    }
  }

  // ---- Reaching a stray line over passive ones ---------------------------------------------------

  predicate AllPassive(lines: seq<string>, file: seq<Line>, i: nat, j: nat)
    requires j <= |lines|
  {
    forall k :: i <= k < j ==> Passive(lines[k], file)
  }

  predicate NoneStray(lines: seq<string>, i: nat, j: nat)
    requires j <= |lines|
  {
    forall k :: i <= k < j ==> !Stray(lines[k])
  }

  predicate ReachesStray(lines: seq<string>, file: seq<Line>, at: nat)
    requires at <= |lines|
    decreases |lines| - at
  {
    at < |lines| && (Stray(lines[at]) || (Passive(lines[at], file) && ReachesStray(lines, file, at + 1)))
  }

  predicate StrayAfterPassive(lines: seq<string>, file: seq<Line>, at: nat, k: nat)
    requires k < |lines|
  {
    Stray(lines[k]) && AllPassive(lines, file, at, k)
  }

  lemma {:induction false} ReachesIff(lines: seq<string>, file: seq<Line>, at: nat)
    requires at <= |lines|
    ensures ReachesStray(lines, file, at) <==> exists k :: at <= k < |lines| && StrayAfterPassive(lines, file, at, k)
    decreases |lines| - at
  {
    if at < |lines| {
      ReachesIff(lines, file, at + 1);
      if Stray(lines[at]) {
        assert StrayAfterPassive(lines, file, at, at);
      } else if ReachesStray(lines, file, at) {
        var k :| at + 1 <= k < |lines| && StrayAfterPassive(lines, file, at + 1, k);
        assert StrayAfterPassive(lines, file, at, k);
      } else if k :| at <= k < |lines| && StrayAfterPassive(lines, file, at, k) {
        assert StrayAfterPassive(lines, file, at + 1, k);
      }
    }
  }

  lemma {:induction false} PassiveRun(lines: seq<string>, file: seq<Line>, at: nat, end: nat)
    requires at <= end <= |lines| && AllPassive(lines, file, at, end) && NoneStray(lines, at, end)
    ensures ReachesStray(lines, file, at) == ReachesStray(lines, file, end)
    decreases end - at
  {
    if at < end { PassiveRun(lines, file, at + 1, end); }
  }

  lemma {:induction false} Blocked(lines: seq<string>, file: seq<Line>, at: nat, j: nat)
    requires at <= j < |lines| && !Passive(lines[j], file) && NoneStray(lines, at, j + 1)
    ensures !ReachesStray(lines, file, at)
    decreases j - at
  {
    if at < j { Blocked(lines, file, at + 1, j); }
  }

  lemma EndedIsBlocked(lines: seq<string>, file: seq<Line>, at: nat)
    requires at <= |lines| && UpdateDone(lines, at)
    ensures !ReachesStray(lines, file, at)
  {
    if at < |lines| { assert lines[at][0] == '*'; }
  }

  // ---- The lines of one pass ------------------------------------------------------------------------

  /** Staying at the start of the file costs no fuzz. */
  lemma SeekStays(file: seq<Line>, def: Line)
    ensures Seek(file, 0, def).index == 0 <==> Seek(file, 0, def) == Place(0, 0)
  {
  }

  lemma DefinitionLine(line: string, file: seq<Line>)
    requires HasPrefix(line, "@@ ")
    ensures !Stray(line) && (Passive(line, file) <==> Seek(file, 0, line[3..]).index == 0)
  {
    SeekStays(file, line[3..]);
    assert line[0] == '@' && |line| >= 3;
  }

  lemma HeaderLines(lines: seq<string>, file: seq<Line>, at: nat)
    requires at <= |lines|
    ensures var h := HeaderAt(lines, at);
      NoneStray(lines, at, h.at) && (AllPassive(lines, file, at, h.at) <==> Seek(file, 0, h.def).index == 0)
  {
    SeekNothing(file, 0);
    var h, def := HeaderAt(lines, at), ReadAt(lines, at, "@@ ");
    if at < def.at {
      DefinitionLine(lines[at], file);
      assert h.def == lines[at][3..] && def.at == at + 1;
    }
    if h.bare { assert Passive(lines[def.at], file) && h.at == def.at + 1; }
    forall k | at <= k < h.at ensures !Stray(lines[k]) && (k > at ==> Passive(lines[k], file)) {
    }
  }

  predicate AllAdded(lines: seq<string>, i: nat, j: nat)
    requires j <= |lines|
  {
    forall k :: i <= k < j ==> HasPrefix(lines[k], "+")
  }

  lemma AddedLine(line: string)
    ensures Classify(line).kind.Ins? <==> HasPrefix(line, "+")
    ensures !EndsSection(line) ==> forall file :: Passive(line, file) <==> HasPrefix(line, "+")
  {
  }

  lemma {:induction false} AddedLines(lines: seq<string>, i: nat, j: nat)
    requires i <= j <= |lines|
    ensures OldSide(Body(lines, i, j)) == [] <==> AllAdded(lines, i, j)
    decreases j
  {
    if i < j {
      AddedLines(lines, i, j - 1);
      AddedLine(lines[j - 1]);
      SidesOfSnoc(Body(lines, i, j - 1), Classify(lines[j - 1]));
    }
  }

  lemma SectionLines(lines: seq<string>, file: seq<Line>, i: nat)
    requires i <= |lines|
    ensures NoneStray(lines, i, SectionEnd(lines, i))
    ensures Peek(lines, i).context == [] <==> AllPassive(lines, file, i, SectionEnd(lines, i))
  {
    var e := SectionEnd(lines, i);
    SectionMeaning(lines, i);
    AddedLines(lines, i, e);
    forall k | i <= k < e ensures Passive(lines[k], file) <==> HasPrefix(lines[k], "+") { AddedLine(lines[k]); }
  }

  /** A pass never comes back to the start of the file. */
  lemma StaysBehind(lines: seq<string>, file: seq<Line>, c: Cursor)
    requires c.at < |lines| && 0 < c.index <= |file|
    ensures Pass(lines, file, c).Ok? ==> Pass(lines, file, c).value.index > 0
  {
    var header := HeaderAt(lines, c.at);
    var section := Peek(lines, header.at);
    FoundBehind(file, section.context, Seek(file, c.index, header.def).index, section.eof);
  }

  /** The lines of a pass up to where its section ends. */
  lemma PassLines(lines: seq<string>, file: seq<Line>, at: nat)
    requires at < |lines|
    ensures var h := HeaderAt(lines, at);
      var end := SectionEnd(lines, h.at);
      && NoneStray(lines, at, end)
      && (AllPassive(lines, file, at, end) <==> Seek(file, 0, h.def).index == 0 && Peek(lines, h.at).context == [])
  {
    var h := HeaderAt(lines, at);
    HeaderLines(lines, file, at);
    SectionLines(lines, file, h.at);
  }

  /** A section is found at the start of the file, and ends there, exactly when it has no context and no marker. */
  lemma FoundAtStart(file: seq<Line>, context: seq<Line>, start: nat, eof: bool)
    requires start <= |file| && file != []
    ensures var r := Search(file, context, start, eof);
      r.At? && r.index + |context| == 0 <==> context == [] && start == 0 && !eof
  {
    FoundBehind(file, context, start, eof);
  }

  lemma PassAdvances(lines: seq<string>, file: seq<Line>, c: Cursor)
    requires c.at < |lines| && c.index == 0
    ensures var h := HeaderAt(lines, c.at);
      var r, section, start := Pass(lines, file, c), Peek(lines, h.at), Seek(file, 0, h.def).index;
      var found := Search(file, section.context, start, section.eof);
      && (r.Ok? <==> found.At?)
      && (r.Ok? ==> r.value.index == found.index + |section.context| && r.value.at == section.end)
  {
  }

  /** A pass from the start of the file stays there exactly over passive lines without an end-of-file marker. */
  lemma PassAtStart(lines: seq<string>, file: seq<Line>, c: Cursor)
    requires c.at < |lines| && c.index == 0 && file != []
    ensures var h := HeaderAt(lines, c.at);
      var r, section, end := Pass(lines, file, c), Peek(lines, h.at), SectionEnd(lines, h.at);
      && (r.Ok? && r.value.index == 0 <==> !section.eof && AllPassive(lines, file, c.at, end))
      && (r.Ok? && r.value.index == 0 ==> r.value.at == end)
  {
    var h := HeaderAt(lines, c.at);
    var section, place := Peek(lines, h.at), Seek(file, 0, h.def);
    PassLines(lines, file, c.at);
    FoundAtStart(file, section.context, place.index, section.eof);
    PassAdvances(lines, file, c);
  }

  lemma StepKeeps(lines: seq<string>, file: seq<Line>, c: Cursor)
    requires c.at < |lines| && c.index == 0 && file != []
    ensures var r := Pass(lines, file, c);
      ReachesStray(lines, file, c.at) == (r.Ok? && r.value.index == 0 && ReachesStray(lines, file, r.value.at))
  {
    var h := HeaderAt(lines, c.at);
    var section, end := Peek(lines, h.at), SectionEnd(lines, h.at);
    PassAtStart(lines, file, c);
    PassLines(lines, file, c.at);
    if AllPassive(lines, file, c.at, end) {
      PassiveRun(lines, file, c.at, end);
      if section.eof { EndedIsBlocked(lines, file, end); }
    } else {
      var j :| c.at <= j < end && !Passive(lines[j], file);
      Blocked(lines, file, c.at, j);
    }
  }

  lemma {:induction false} RunLoopsIff(lines: seq<string>, file: seq<Line>, c: Cursor)
    requires c.at <= |lines| && c.index <= |file| && file != []
    ensures UpdateRun(lines, file, c).Loops? <==> c.index == 0 && ReachesStray(lines, file, c.at)
    decreases |lines| - c.at
  {
    if UpdateDone(lines, c.at) {
      EndedIsBlocked(lines, file, c.at);
    } else {
      NoProgress(lines, file, c);
      if c.index > 0 { StaysBehind(lines, file, c); } else { StepKeeps(lines, file, c); }
      var next := Pass(lines, file, c);
      if next.Ok? && next.value.at > c.at { RunLoopsIff(lines, file, next.value); }
    }
  }

  /** An update runs forever exactly when its lines come to a stray one over passive ones only. */
  lemma LoopsIff(lines: seq<string>, at: nat, text: string, fuzz: nat)
    requires at <= |lines|
    ensures UpdateOf(lines, at, text, fuzz).Loops?
      <==> exists k ::
        at <= k < |lines| && Stray(lines[k]) && forall j :: at <= j < k ==> Passive(lines[j], Split(text, '\n'))
  {
    var file := Split(text, '\n');
    RunLoopsIff(lines, file, Cursor(at, 0, fuzz, []));
    ReachesIff(lines, file, at);
    if k :| at <= k < |lines| && Stray(lines[k]) && forall j :: at <= j < k ==> Passive(lines[j], file) {
      assert StrayAfterPassive(lines, file, at, k);
    }
  }
}
