/** Locating a section's context in a file: findContext, findContextCore and tryFindMatch
    of cli/internal/diff/patch.go. */
module ContextSearch {
  import opened Strings
  import opened LineDiff

  datatype Level = Exact | RightTrimmed | Trimmed

  predicate Same(level: Level, a: Line, b: Line) {
    match level
    case Exact => a == b
    case RightTrimmed => TrimRight(a, IsBlank) == TrimRight(b, IsBlank)
    case Trimmed => TrimSpace(a) == TrimSpace(b)
  }

  /** The fuzz a match reports: the code probes the comparison it was given. */
  function FuzzOf(level: Level): nat {
    if Same(level, "a ", "a") && !Same(level, "a", "b") then 1
    else if Same(level, "a  ", "a") then 100
    else 0
  }

  lemma TrimsToA(tail: string)
    requires tail in {"a", "a ", "b"}
    ensures TrimRight(tail, IsBlank) == tail[..1] == TrimSpace(tail)
  {
    assert TrimRight(tail, IsBlank) == tail[..1] by {
      if tail == "a " { assert tail[..1] == "a"; }
    }
    assert TrimRight(tail, IsSpace) == tail[..1] by {
      if tail == "a " { assert tail[..1] == "a"; }
    }
  }

  /** An exact match costs nothing; either trimming costs 1, so the 100 is never reached. */
  lemma FuzzLevels(level: Level)
    ensures FuzzOf(level) == if level.Exact? then 0 else 1
  {
    TrimsToA("a");
    TrimsToA("a ");
    TrimsToA("b");
    assert "a"[..1] == "a" && "a "[..1] == "a" && "b"[..1] == "b";
    assert "a "[1] == ' ';
  }

  predicate MatchesAt(lines: seq<Line>, context: seq<Line>, i: nat, level: Level) {
    i + |context| <= |lines| && forall j :: 0 <= j < |context| ==> Same(level, lines[i + j], context[j])
  }

  /** Panic is the index out of range met when the search starts before the file. */
  datatype Found = Missing | At(index: nat, fuzz: nat) | Panic

  function FirstMatch(lines: seq<Line>, context: seq<Line>, start: int, level: Level): Found
    requires context != []
    decreases |lines| - start
  {
    if start >= |lines| then Missing
    else if start + |context| > |lines| then FirstMatch(lines, context, start + 1, level)
    else if start < 0 then Panic
    else if MatchesAt(lines, context, start, level) then At(start, FuzzOf(level))
    else FirstMatch(lines, context, start + 1, level)
  }

  function CoreSearch(lines: seq<Line>, context: seq<Line>, start: int): Found
    requires context == [] ==> start >= 0
  {
    if context == [] then At(start, 0)
    else
      var exact := FirstMatch(lines, context, start, Exact);
      if !exact.Missing? then exact
      else
        var right := FirstMatch(lines, context, start, RightTrimmed);
        if !right.Missing? then right else FirstMatch(lines, context, start, Trimmed)
  }

  function Search(lines: seq<Line>, context: seq<Line>, start: nat, eof: bool): Found {
    if !eof then CoreSearch(lines, context, start)
    else
      var last := CoreSearch(lines, context, |lines| - |context|);
      if !last.Missing? then last
      else
        var anywhere := CoreSearch(lines, context, start);
        if anywhere.At? then At(anywhere.index, anywhere.fuzz + 10000) else anywhere
  }

  // ---- The code ---------------------------------------------------------------------------

  method TryFindMatch(lines: seq<Line>, context: seq<Line>, start: int, level: Level) returns (r: Found)
    requires context != []
    ensures r == FirstMatch(lines, context, start, level)
  {
    var i := start;
    while i < |lines|
      invariant FirstMatch(lines, context, i, level) == FirstMatch(lines, context, start, level)
    {
      if i + |context| <= |lines| {
        if i < 0 { return Panic; }
        var matches := true;
        for j := 0 to |context|
          invariant matches && forall k :: 0 <= k < j ==> Same(level, lines[i + k], context[k])
        {
          if !Same(level, lines[i + j], context[j]) {
            matches := false;
            break;
          }
        }
        if matches {
          return At(i, FuzzOf(level));
        }
      }
      i := i + 1;
    }
    return Missing;
  }

  method FindContextCore(lines: seq<Line>, context: seq<Line>, start: int) returns (r: Found)
    requires context == [] ==> start >= 0
    ensures r == CoreSearch(lines, context, start)
  {
    if |context| == 0 { return At(start, 0); }
    r := TryFindMatch(lines, context, start, Exact);
    if !r.Missing? { return; }
    r := TryFindMatch(lines, context, start, RightTrimmed);
    if !r.Missing? { return; }
    r := TryFindMatch(lines, context, start, Trimmed);
  }

  method FindContext(lines: seq<Line>, context: seq<Line>, start: nat, eof: bool) returns (r: Found)
    ensures r == Search(lines, context, start, eof)
  {
    if eof {
      r := FindContextCore(lines, context, |lines| - |context|);
      if !r.Missing? { return; }
      r := FindContextCore(lines, context, start);
      if r.At? { r := At(r.index, r.fuzz + 10000); }
      return;
    }
    r := FindContextCore(lines, context, start);
  }

  // ---- What a search finds -------------------------------------------------------------------

  lemma {:induction false} FirstMatchMeaning(lines: seq<Line>, context: seq<Line>, start: nat, level: Level)
    requires context != []
    ensures var r := FirstMatch(lines, context, start, level);
      match r
      case At(i, fuzz) => start <= i && fuzz == FuzzOf(level) && MatchesAt(lines, context, i, level)
        && forall k: nat :: start <= k < i ==> !MatchesAt(lines, context, k, level)
      case Missing => forall k: nat :: start <= k ==> !MatchesAt(lines, context, k, level)
      case Panic => false
    decreases |lines| - start
  {
    if start < |lines| && !MatchesAt(lines, context, start, level) {
      FirstMatchMeaning(lines, context, start + 1, level);
      assert FirstMatch(lines, context, start, level) == FirstMatch(lines, context, start + 1, level);
    } else if start < |lines| {
      assert FirstMatch(lines, context, start, level) == At(start, FuzzOf(level));
    }
  }

  /** The context stands in the file at i, line for line. */
  predicate Occurs(lines: seq<Line>, context: seq<Line>, i: nat) {
    i + |context| <= |lines| && lines[i..i + |context|] == context
  }

  lemma OccursIsExact(lines: seq<Line>, context: seq<Line>, i: nat)
    ensures Occurs(lines, context, i) <==> MatchesAt(lines, context, i, Exact)
  {
    if MatchesAt(lines, context, i, Exact) {
      forall j | 0 <= j < |context| ensures lines[i..i + |context|][j] == context[j] {
        assert Same(Exact, lines[i + j], context[j]);
      }
    }
    if Occurs(lines, context, i) {
      forall j | 0 <= j < |context| ensures lines[i + j] == context[j] {
        assert lines[i..i + |context|][j] == lines[i + j];
      }
    }
  }

  /** Without an end-of-file marker a search never goes back or panics; it reports fuzz 0 exactly
      when the context occurs at or after the start, and then at the first such place. */
  lemma ForwardSearch(lines: seq<Line>, context: seq<Line>, start: nat)
    requires start <= |lines|
    ensures var r := Search(lines, context, start, false);
      && !r.Panic?
      && (r.At? ==> start <= r.index && r.index + |context| <= |lines|)
      && (r.At? && r.fuzz == 0 ==> Occurs(lines, context, r.index))
      && (r.At? && r.fuzz == 0 ==> forall k: nat :: start <= k < r.index ==> !Occurs(lines, context, k))
      && ((exists k: nat :: start <= k && Occurs(lines, context, k)) ==> r.At? && r.fuzz == 0)
  {
    if context != [] {
      FirstMatchMeaning(lines, context, start, Exact);
      FirstMatchMeaning(lines, context, start, RightTrimmed);
      FirstMatchMeaning(lines, context, start, Trimmed);
      forall k: nat ensures Occurs(lines, context, k) <==> MatchesAt(lines, context, k, Exact) {
        OccursIsExact(lines, context, k);
      }
      FuzzLevels(Exact);
      FuzzLevels(RightTrimmed);
      FuzzLevels(Trimmed);
    }
  }

  /** With the marker it reports fuzz 0 exactly when the file ends with the context, whatever the start was;
      it panics exactly when the context is longer than the file. */
  lemma EndSearch(lines: seq<Line>, context: seq<Line>, start: nat)
    requires start <= |lines|
    ensures var r := Search(lines, context, start, true);
      && (r.Panic? <==> |context| > |lines|)
      && (r.At? ==> r.index + |context| <= |lines|)
      && (r.At? && r.fuzz == 0 <==> |context| <= |lines| && Occurs(lines, context, |lines| - |context|))
      && (r.At? && r.fuzz == 0 ==> r.index == |lines| - |context|)
  {
    var from := |lines| - |context|;
    if from >= 0 && context != [] {
      ForwardSearch(lines, context, from);
      ForwardSearch(lines, context, start);
      assert forall k: nat :: from < k ==> !Occurs(lines, context, k);
    } else if context != [] {
      PanicBeforeFile(lines, context, from, Exact);
    }
  }

  /** Wherever a section is found, the position behind it is not before the start of the search. */
  lemma FoundBehind(file: seq<Line>, context: seq<Line>, start: nat, eof: bool)
    requires start <= |file|
    ensures var r := Search(file, context, start, eof); r.At? ==> start <= r.index + |context| <= |file|
    ensures context == [] ==> Search(file, context, start, eof) == At(if eof then |file| else start, 0)
  {
    ForwardSearch(file, context, start);
    if eof {
      EndSearch(file, context, start);
      if |context| <= |file| { ForwardSearch(file, context, |file| - |context|); }
    }
  }

  lemma PanicBeforeFile(lines: seq<Line>, context: seq<Line>, start: int, level: Level)
    requires context != [] && start < 0 && start + |context| <= |lines|
    ensures FirstMatch(lines, context, start, level).Panic?
  {
  }

  lemma {:induction false} NoRoomLeft(lines: seq<Line>, context: seq<Line>, start: int, level: Level)
    requires context != [] && start + |context| > |lines|
    ensures FirstMatch(lines, context, start, level) == Missing
    decreases |lines| - start
  {
    if start < |lines| { NoRoomLeft(lines, context, start + 1, level); }
  }

  lemma MatchAtEnd(lines: seq<Line>, context: seq<Line>, level: Level)
    requires context != [] && |context| <= |lines|
    ensures var from := |lines| - |context|;
      FirstMatch(lines, context, from, level)
      == if MatchesAt(lines, context, from, level) then At(from, FuzzOf(level)) else Missing
  {
    NoRoomLeft(lines, context, |lines| - |context| + 1, level);
  }

  /** A section with the marker is placed before the start of its search exactly when the file ends with its context,
      exactly or after trimming, and the context reaches back that far. */
  lemma EndSearchGoesBack(lines: seq<Line>, context: seq<Line>, start: nat)
    requires start <= |lines|
    ensures var r, from := Search(lines, context, start, true), |lines| - |context|;
      r.At? && r.index < start <==>
        0 <= from < start && exists level :: MatchesAt(lines, context, from, level)
  {
    var from := |lines| - |context|;
    if context != [] && from >= 0 {
      MatchAtEnd(lines, context, Exact);
      MatchAtEnd(lines, context, RightTrimmed);
      MatchAtEnd(lines, context, Trimmed);
      ForwardSearch(lines, context, start);
    }
  }

  // ---- The levels in turn ------------------------------------------------------------------------

  /** The level is looked at before the other one. */
  predicate Earlier(level: Level, other: Level) {
    (level.Exact? && !other.Exact?) || (level.RightTrimmed? && other.Trimmed?)
  }

  ghost predicate MatchesFrom(lines: seq<Line>, context: seq<Line>, start: nat, level: Level) {
    exists k: nat :: start <= k && MatchesAt(lines, context, k, level)
  }

  /** The first place from the start on at which the context matches, at the first level at which it does anywhere. */
  ghost predicate FoundFirst(lines: seq<Line>, context: seq<Line>, start: nat, index: nat, level: Level) {
    && start <= index && MatchesAt(lines, context, index, level)
    && (forall k: nat :: start <= k < index ==> !MatchesAt(lines, context, k, level))
    && (forall other: Level :: Earlier(other, level) ==> !MatchesFrom(lines, context, start, other))
  }

  lemma LevelMeaning(lines: seq<Line>, context: seq<Line>, start: nat, level: Level)
    requires context != []
    ensures var r := FirstMatch(lines, context, start, level);
      && !r.Panic? && (r.At? <==> MatchesFrom(lines, context, start, level))
      && (r.At? ==> r.fuzz == (if level.Exact? then 0 else 1) && start <= r.index)
      && (r.At? ==> MatchesAt(lines, context, r.index, level))
      && (r.At? ==> forall k: nat :: start <= k < r.index ==> !MatchesAt(lines, context, k, level))
  {
    FirstMatchMeaning(lines, context, start, level);
    FuzzLevels(level);
  }

  lemma LevelWins(lines: seq<Line>, context: seq<Line>, start: nat, level: Level)
    requires context != [] && MatchesFrom(lines, context, start, level)
    requires forall other: Level :: Earlier(other, level) ==> !MatchesFrom(lines, context, start, other)
    ensures var r := Search(lines, context, start, false);
      r.At? && r.fuzz == (if level.Exact? then 0 else 1) && FoundFirst(lines, context, start, r.index, level)
  {
    LevelMeaning(lines, context, start, Exact);
    if !level.Exact? { LevelMeaning(lines, context, start, RightTrimmed); }
    if level.Trimmed? { LevelMeaning(lines, context, start, Trimmed); }
  }

  /** A search without a marker finds the context at the first of the three levels at which it matches anywhere, there
      at its first place, and fails only when it matches at none. */
  lemma SearchMeaning(lines: seq<Line>, context: seq<Line>, start: nat)
    requires context != []
    ensures match Search(lines, context, start, false)
      case At(i, fuzz) =>
        exists level: Level :: FoundFirst(lines, context, start, i, level) && fuzz == if level.Exact? then 0 else 1
      case Missing => forall level: Level :: !MatchesFrom(lines, context, start, level)
      case Panic => false
  {
    if MatchesFrom(lines, context, start, Exact) {
      LevelWins(lines, context, start, Exact);
    } else if MatchesFrom(lines, context, start, RightTrimmed) {
      LevelWins(lines, context, start, RightTrimmed);
    } else if MatchesFrom(lines, context, start, Trimmed) {
      LevelWins(lines, context, start, Trimmed);
    } else {
      LevelMeaning(lines, context, start, Exact);
      LevelMeaning(lines, context, start, RightTrimmed);
      LevelMeaning(lines, context, start, Trimmed);
    }
  }

  /** The context matches the last lines of the file at the level. */
  predicate EndsAtLevel(lines: seq<Line>, context: seq<Line>, level: Level) {
    |context| <= |lines| && MatchesAt(lines, context, |lines| - |context|, level)
  }

  /** A search with the marker looks at the end of the file first. Found there, the context costs what its level costs;
      found elsewhere, from the start on, 10000 more. */
  lemma MarkerMeaning(lines: seq<Line>, context: seq<Line>, start: nat)
    requires context != [] && |context| <= |lines|
    ensures var r, plain := Search(lines, context, start, true), Search(lines, context, start, false);
      if exists level: Level :: EndsAtLevel(lines, context, level) then
        r == At(|lines| - |context|, if EndsAtLevel(lines, context, Exact) then 0 else 1)
      else
        r == if plain.At? then At(plain.index, plain.fuzz + 10000) else plain
  {
    MatchAtEnd(lines, context, Exact);
    MatchAtEnd(lines, context, RightTrimmed);
    MatchAtEnd(lines, context, Trimmed);
    FuzzLevels(Exact);
    FuzzLevels(RightTrimmed);
    FuzzLevels(Trimmed);
    var last := CoreSearch(lines, context, |lines| - |context|);
    assert last.Missing? == !(EndsAtLevel(lines, context, Exact) || EndsAtLevel(lines, context, RightTrimmed)
                              || EndsAtLevel(lines, context, Trimmed));
  }
}
