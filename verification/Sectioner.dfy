/** The prompt sectioner (heaven/sectioner.go): a raw prompt is cut into sections that make it up byte for byte.
    Headings outside code fences start sections, and sections over a limit are split at paragraphs. */
module Sectioner {
  import opened Strings

  /** A section; index, sha, offset and length are filled in last. */
  datatype Section = Section(index: nat, kind: string, title: string, content: string, sha: string, offset: nat,
                             length: nat)

  function Fresh(kind: string, title: string, content: string): Section {
    Section(0, kind, title, content, "", 0, 0)
  }

  // ---- Text in pieces --------------------------------------------------------------------

  function Concat(parts: seq<string>): string {
    if parts == [] then "" else Concat(parts[..|parts| - 1]) + parts[|parts| - 1]
  }

  lemma ConcatSnoc(parts: seq<string>, p: string)
    ensures Concat(parts + [p]) == Concat(parts) + p
  {
    assert (parts + [p])[..|parts|] == parts;
  }

  lemma {:induction false} ConcatJoin(a: seq<string>, b: seq<string>)
    ensures Concat(a + b) == Concat(a) + Concat(b)
  {
    if b == [] {
      assert a + b == a;
    } else {
      var last := |b| - 1;
      ConcatJoin(a, b[..last]);
      assert (a + b)[..|a| + last] == a + b[..last];
      assert Concat(a + b) == Concat(a + b[..last]) + b[last];
    }
  }

  lemma ConcatOne(p: string)
    ensures Concat([p]) == p
  {
    ConcatSnoc([], p);
    assert [] + [p] == [p];
  }

  lemma ConcatCons(p: string, parts: seq<string>)
    ensures Concat([p] + parts) == p + Concat(parts)
  {
    ConcatOne(p);
    ConcatJoin([p], parts);
  }

  /** strings.SplitAfter with a newline. */
  function SplitAfter(s: string): (lines: seq<string>)
    ensures lines != []
  {
    if s == "" then [""]
    else
      var rest := SplitAfter(s[1..]);
      if s[0] == '\n' then ["\n"] + rest else [[s[0]] + rest[0]] + rest[1..]
  }

  lemma ConcatPut(c: char, head: string, tail: seq<string>)
    ensures Concat([[c] + head] + tail) == [c] + Concat([head] + tail)
  {
    ConcatCons([c] + head, tail);
    ConcatCons(head, tail);
    var rest := Concat(tail);
    assert ([c] + head) + rest == [c] + (head + rest);
  }

  lemma {:induction false} SplitAfterConcat(s: string)
    ensures Concat(SplitAfter(s)) == s
  {
    if s == "" {
      ConcatOne("");
    } else {
      var rest := SplitAfter(s[1..]);
      SplitAfterConcat(s[1..]);
      assert s == [s[0]] + s[1..];
      if s[0] == '\n' {
        ConcatCons("\n", rest);
      } else {
        ConcatPut(s[0], rest[0], rest[1..]);
        assert [rest[0]] + rest[1..] == rest;
      }
    }
  }

  /** A line ends at its one newline; only the last line has none. */
  predicate IsLine(line: string, last: bool) {
    if last then '\n' !in line else line != "" && line[|line| - 1] == '\n' && '\n' !in line[..|line| - 1]
  }

  predicate AllLines(lines: seq<string>) {
    forall k :: 0 <= k < |lines| ==> IsLine(lines[k], false)
  }

  lemma {:induction false} SplitAfterLines(s: string, k: nat)
    requires k < |SplitAfter(s)|
    ensures IsLine(SplitAfter(s)[k], k == |SplitAfter(s)| - 1)
    ensures k == 0 && s != "" ==> SplitAfter(s)[0] != ""
  {
    if s != "" {
      var rest := SplitAfter(s[1..]);
      if s[0] == '\n' {
        if k > 0 { SplitAfterLines(s[1..], k - 1); }
      } else {
        SplitAfterLines(s[1..], k);
        if k == 0 && rest[0] != "" { assert ([s[0]] + rest[0])[..|rest[0]|] == [s[0]] + rest[0][..|rest[0]| - 1]; }
      }
    }
  }

  // ---- Headings and code fences ------------------------------------------------------------

  predicate IsHeading(line: string) {
    var t := TrimSpace(line);
    HasPrefix(t, "# ") || HasPrefix(t, "## ") || HasPrefix(t, "### ")
  }

  predicate IsFence(line: string) {
    HasPrefix(TrimSpace(line), "```")
  }

  predicate IsMark(c: char) { c == '#' }

  function HeadingTitle(line: string): string {
    TrimSpace(TrimLeft(TrimSpace(line), IsMark))
  }

  lemma FenceIsNoHeading(line: string)
    requires IsFence(line)
    ensures !IsHeading(line)
  {
    assert TrimSpace(line)[0] == '`';
  }

  /** What a heading of level one to three is, and its title: the text behind the marks and a blank. */
  lemma HeadingText(line: string, marks: string, title: string)
    requires marks in {"# ", "## ", "### "} && TrimSpace(line) == marks + title
    requires title != "" && !IsSpace(title[0]) && !IsSpace(title[|title| - 1]) && title[0] != '#'
    ensures IsHeading(line) && HeadingTitle(line) == title
  {
    var t := marks + title;
    var n := |marks| - 1;
    assert marks <= t;
    assert forall k :: 0 <= k < n ==> t[k] == '#';
    MarksDropped(t, n);
    assert t[n..] == " " + title;
    TrimBlank(title);
  }

  lemma TrimBlank(title: string)
    requires title != "" && !IsSpace(title[0]) && !IsSpace(title[|title| - 1])
    ensures TrimSpace(" " + title) == title
  {
    var s := " " + title;
    assert s[|s| - 1] == title[|title| - 1] && s[1..] == title;
    assert TrimRight(s, IsSpace) == s;
    assert TrimLeft(s, IsSpace) == TrimLeft(title, IsSpace) == title;
  }

  lemma {:induction false} MarksDropped(t: string, n: nat)
    requires n < |t| && (forall k :: 0 <= k < n ==> t[k] == '#') && t[n] != '#'
    ensures TrimLeft(t, IsMark) == t[n..]
  {
    if n > 0 {
      assert forall k :: 0 <= k < n - 1 ==> t[1..][k] == t[k + 1];
      MarksDropped(t[1..], n - 1);
    }
  }

  /** No other line is a heading. */
  lemma HeadingIff(line: string)
    ensures IsHeading(line) <==> exists marks, rest :: marks in {"# ", "## ", "### "} && TrimSpace(line) == marks + rest
  {
    var t := TrimSpace(line);
    if HasPrefix(t, "# ") { assert t == "# " + t[2..]; }
    if HasPrefix(t, "## ") { assert t == "## " + t[3..]; }
    if HasPrefix(t, "### ") { assert t == "### " + t[4..]; }
  }

  /** The number of fence lines among the first k lines. */
  function Fences(lines: seq<string>, k: nat): nat
    requires k <= |lines|
  {
    if k == 0 then 0 else Fences(lines, k - 1) + (if IsFence(lines[k - 1]) then 1 else 0)
  }

  /** A heading outside all code fences. */
  predicate OpensSection(lines: seq<string>, i: nat)
    requires i < |lines|
  {
    IsHeading(lines[i]) && Fences(lines, i) % 2 == 0
  }

  /** The lines at which sections start, among the first k. */
  function Starts(lines: seq<string>, k: nat): (starts: seq<nat>)
    requires 0 < k <= |lines|
    ensures starts != [] && starts[0] == 0
    ensures forall j :: 0 <= j < |starts| ==> starts[j] < k
  {
    if k == 1 then [0]
    else Starts(lines, k - 1) + if OpensSection(lines, k - 1) then [k - 1] else []
  }

  lemma {:induction false} StartsIncrease(lines: seq<string>, k: nat, j: nat)
    requires 0 < k <= |lines| && 0 < j < |Starts(lines, k)|
    ensures Starts(lines, k)[j - 1] < Starts(lines, k)[j]
  {
    if k > 1 {
      var before := Starts(lines, k - 1);
      if j < |before| { StartsIncrease(lines, k - 1, j); }
    }
  }

  /** Sections start at the first line and at exactly the headings outside code fences. */
  lemma {:induction false} StartsAreHeadings(lines: seq<string>, k: nat, i: nat)
    requires 0 < k <= |lines| && i < k
    ensures i in Starts(lines, k) <==> i == 0 || OpensSection(lines, i)
  {
    if k > 1 {
      var before := Starts(lines, k - 1);
      if i < k - 1 {
        StartsAreHeadings(lines, k - 1, i);
      } else {
        assert i !in before;
      }
    } else {
      assert [0 as nat][0] == 0;
    }
  }

  function TitleAt(lines: seq<string>, i: nat): string
    requires i < |lines|
  {
    if OpensSection(lines, i) then HeadingTitle(lines[i]) else ""
  }

  function EndOf(starts: seq<nat>, k: nat, j: nat): nat
    requires j < |starts|
  {
    if j + 1 < |starts| then starts[j + 1] else k
  }

  lemma SectionBounds(lines: seq<string>, k: nat, j: nat)
    requires 0 < k <= |lines| && j < |Starts(lines, k)|
    ensures Starts(lines, k)[j] < EndOf(Starts(lines, k), k, j) <= |lines|
  {
    if j + 1 < |Starts(lines, k)| { StartsIncrease(lines, k, j + 1); }
  }

  /** The section that takes the lines from i to j. */
  function SectionOf(lines: seq<string>, i: nat, j: nat): Section
    requires i < j <= |lines|
  {
    Fresh("", TitleAt(lines, i), Concat(lines[i..j]))
  }

  /** The sections of the first k lines, each from its start to the next one. */
  function Sections(lines: seq<string>, k: nat): (sections: seq<Section>)
    requires 0 < k <= |lines|
    ensures |sections| == |Starts(lines, k)|
  {
    var starts := Starts(lines, k);
    seq(|starts|, j requires 0 <= j < |starts| =>
      SectionBounds(lines, k, j);
      SectionOf(lines, starts[j], EndOf(starts, k, j)))
  }

  lemma SectionsAt(lines: seq<string>, k: nat, j: nat)
    requires 0 < k <= |lines| && j < |Starts(lines, k)|
    ensures Starts(lines, k)[j] < EndOf(Starts(lines, k), k, j) <= |lines|
    ensures Sections(lines, k)[j] == SectionOf(lines, Starts(lines, k)[j], EndOf(Starts(lines, k), k, j))
  {
    SectionBounds(lines, k, j);
  }

  lemma OneLine(lines: seq<string>, i: nat)
    requires i < |lines|
    ensures SectionOf(lines, i, i + 1) == Fresh("", TitleAt(lines, i), lines[i])
  {
    var span := lines[i..i + 1];
    assert span == [lines[i]];
    ConcatOne(lines[i]);
  }

  /** A line starts a section, or extends the last one. */
  function Extend(sections: seq<Section>, line: string, opens: bool): seq<Section>
    requires sections != []
  {
    if opens then sections + [Fresh("", HeadingTitle(line), line)]
    else var last := |sections| - 1; sections[last := sections[last].(content := sections[last].content + line)]
  }

  lemma SectionGrows(lines: seq<string>, i: nat, k: nat)
    requires i < k < |lines|
    ensures var s := SectionOf(lines, i, k); SectionOf(lines, i, k + 1) == s.(content := s.content + lines[k])
  {
    assert lines[i..k + 1] == lines[i..k] + [lines[k]];
    ConcatSnoc(lines[i..k], lines[k]);
  }

  lemma NextLine(lines: seq<string>, k: nat)
    requires 0 < k < |lines|
    ensures Sections(lines, k + 1) == Extend(Sections(lines, k), lines[k], OpensSection(lines, k))
  {
    var starts, more := Starts(lines, k), Starts(lines, k + 1);
    var want := Extend(Sections(lines, k), lines[k], OpensSection(lines, k));
    forall j | 0 <= j < |more| ensures Sections(lines, k + 1)[j] == want[j] {
      SectionsAt(lines, k + 1, j);
      if j < |starts| {
        SectionsAt(lines, k, j);
        if j == |starts| - 1 && !OpensSection(lines, k) { SectionGrows(lines, starts[j], k); }
      } else {
        OneLine(lines, k);
      }
    }
  }

  lemma FirstLine(lines: seq<string>)
    requires lines != []
    ensures Sections(lines, 1) == [Fresh("", TitleAt(lines, 0), lines[0])]
  {
    SectionsAt(lines, 1, 0);
    OneLine(lines, 0);
  }

  /** What a line does to the closed sections and to the current one. */
  lemma LineStep(lines: seq<string>, k: nat, sections: seq<Section>, title: string, content: string)
    requires 0 < k < |lines| && sections + [Fresh("", title, content)] == Sections(lines, k)
    ensures OpensSection(lines, k) ==>
        Sections(lines, k + 1) == sections + [Fresh("", title, content)] + [Fresh("", HeadingTitle(lines[k]), lines[k])]
    ensures !OpensSection(lines, k) ==> Sections(lines, k + 1) == sections + [Fresh("", title, content + lines[k])]
  {
    NextLine(lines, k);
  }

  lemma FenceParity(lines: seq<string>, k: nat)
    requires k < |lines|
    ensures Fences(lines, k + 1) % 2 == if IsFence(lines[k]) then 1 - Fences(lines, k) % 2 else Fences(lines, k) % 2
    ensures OpensSection(lines, k) <==> Fences(lines, k + 1) % 2 == 0 && IsHeading(lines[k])
  {
    if IsFence(lines[k]) { FenceIsNoHeading(lines[k]); }
  }

  /** The text cut at its headings. */
  function Cut(text: string): seq<Section> {
    var lines := SplitAfter(text);
    Sections(lines, |lines|)
  }

  method SplitOnHeadings(text: string) returns (sections: seq<Section>)
    requires text != ""
    ensures sections == Cut(text)
  {
    var lines := SplitAfter(text);
    sections := [];
    var currentContent, currentTitle, inCodeFence := "", "", false;
    SplitAfterLines(text, 0);
    for k := 0 to |lines|
      invariant inCodeFence <==> Fences(lines, k) % 2 == 1
      invariant k == 0 ==> sections == [] && currentContent == "" && currentTitle == ""
      invariant k > 0 ==> currentContent != ""
      invariant k > 0 ==> sections + [Fresh("", currentTitle, currentContent)] == Sections(lines, k)
    {
      var line := lines[k];
      FenceParity(lines, k);
      if k == 0 { FirstLine(lines); } else { LineStep(lines, k, sections, currentTitle, currentContent); }
      if IsFence(line) { inCodeFence := !inCodeFence; }
      var opens := !inCodeFence && IsHeading(line);
      assert opens == OpensSection(lines, k);
      if opens && |currentContent| > 0 {
        sections := sections + [Fresh("", currentTitle, currentContent)];
        currentContent := "";
        currentTitle := HeadingTitle(line);
      } else if opens && |currentContent| == 0 {
        currentTitle := HeadingTitle(line);
      }
      currentContent := currentContent + line;
    }
    if |currentContent| > 0 {
      sections := sections + [Fresh("", currentTitle, currentContent)];
    }
    if |sections| == 0 {
      sections := sections + [Fresh("", "", text)];
    }
  }

  // ---- What the cut at headings means ---------------------------------------------------------------

  function Contents(sections: seq<Section>): (contents: seq<string>)
    ensures |contents| == |sections|
    ensures forall k {:trigger contents[k]} :: 0 <= k < |sections| ==> contents[k] == sections[k].content
  {
    seq(|sections|, k requires 0 <= k < |sections| => sections[k].content)
  }

  lemma ContentsJoin(a: seq<Section>, b: seq<Section>)
    ensures Concat(Contents(a + b)) == Concat(Contents(a)) + Concat(Contents(b))
  {
    ConcatJoin(Contents(a), Contents(b));
    assert Contents(a + b) == Contents(a) + Contents(b);
  }

  lemma OneContent(s: Section)
    ensures Concat(Contents([s])) == s.content
  {
    ConcatOne(s.content);
    assert Contents([s]) == [s.content];
  }

  lemma ExtendConcat(sections: seq<Section>, line: string, opens: bool)
    requires sections != []
    ensures Concat(Contents(Extend(sections, line, opens))) == Concat(Contents(sections)) + line
  {
    var last := |sections| - 1;
    if opens {
      ContentsJoin(sections, [Fresh("", HeadingTitle(line), line)]);
      OneContent(Fresh("", HeadingTitle(line), line));
    } else {
      var grown := sections[last].(content := sections[last].content + line);
      assert Extend(sections, line, opens) == sections[..last] + [grown];
      assert sections == sections[..last] + [sections[last]];
      ContentsJoin(sections[..last], [grown]);
      ContentsJoin(sections[..last], [sections[last]]);
      OneContent(grown);
      OneContent(sections[last]);
    }
  }

  lemma ConcatTo(lines: seq<string>, k: nat)
    requires k < |lines|
    ensures Concat(lines[..k + 1]) == Concat(lines[..k]) + lines[k]
  {
    assert lines[..k + 1] == lines[..k] + [lines[k]];
    ConcatSnoc(lines[..k], lines[k]);
  }

  lemma FirstConcat(lines: seq<string>)
    requires lines != []
    ensures Concat(Contents(Sections(lines, 1))) == Concat(lines[..1])
  {
    FirstLine(lines);
    OneContent(Fresh("", TitleAt(lines, 0), lines[0]));
    ConcatTo(lines, 0);
  }

  lemma {:induction false} SectionsConcat(lines: seq<string>, k: nat)
    requires 0 < k <= |lines|
    ensures Concat(Contents(Sections(lines, k))) == Concat(lines[..k])
  {
    if k == 1 {
      FirstConcat(lines);
    } else {
      SectionsConcat(lines, k - 1);
      NextConcat(lines, k - 1);
      ConcatTo(lines, k - 1);
    }
  }

  lemma {:induction false} NextConcat(lines: seq<string>, k: nat)
    requires 0 < k < |lines|
    ensures Concat(Contents(Sections(lines, k + 1))) == Concat(Contents(Sections(lines, k))) + lines[k]
  {
    NextLine(lines, k);
    ExtendConcat(Sections(lines, k), lines[k], OpensSection(lines, k));
  }

  /** The cut loses nothing. */
  lemma CutConcat(text: string)
    ensures Concat(Contents(Cut(text))) == text
  {
    var lines := SplitAfter(text);
    SectionsConcat(lines, |lines|);
    assert lines[..|lines|] == lines;
    SplitAfterConcat(text);
  }

  lemma {:induction false} ConcatEmpty(parts: seq<string>, k: nat)
    requires k < |parts| && parts[k] != ""
    ensures Concat(parts) != ""
  {
    if k < |parts| - 1 { ConcatEmpty(parts[..|parts| - 1], k); }
  }

  /** No section is empty: each one has its first line, and only the text's last line may be empty. */
  lemma CutIsNotEmpty(text: string, j: nat)
    requires text != "" && j < |Cut(text)|
    ensures Cut(text)[j].content != ""
  {
    var lines := SplitAfter(text);
    var starts := Starts(lines, |lines|);
    SectionsAt(lines, |lines|, j);
    SplitAfterLines(text, 0);
    if j > 0 {
      StartsIncrease(lines, |lines|, j);
      StartsAreHeadings(lines, |lines|, starts[j]);
    }
    ConcatEmpty(lines[starts[j]..EndOf(starts, |lines|, j)], 0);
  }

  // ---- Sections but the last have balanced code fences ---------------------------------------------

  lemma {:induction false} FencesOfSlice(lines: seq<string>, i: nat, j: nat, n: nat)
    requires i <= j <= |lines| && n <= j - i
    ensures Fences(lines[i..j], n) == Fences(lines, i + n) - Fences(lines, i)
  {
    if n > 0 { FencesOfSlice(lines, i, j, n - 1); }
  }

  lemma {:induction false} FencesPrefix(lines: seq<string>, more: seq<string>, k: nat)
    requires k <= |lines|
    ensures Fences(lines + more, k) == Fences(lines, k)
  {
    if k > 0 { FencesPrefix(lines, more, k - 1); }
  }

  lemma {:induction false} LineThenRest(line: string, rest: string)
    requires IsLine(line, false)
    ensures SplitAfter(line + rest) == [line] + SplitAfter(rest)
  {
    var s := line + rest;
    assert s[0] == line[0];
    if |line| == 1 {
      assert line == "\n" && s[1..] == rest;
    } else {
      assert line[0] == line[..|line| - 1][0] && line[0] != '\n';
      var tail := line[1..];
      assert tail[..|tail| - 1] == line[..|line| - 1][1..];
      LineThenRest(tail, rest);
      assert s[1..] == tail + rest;
      assert [line[0]] + tail == line;
    }
  }

  /** Lines put together and cut again are the same lines. */
  lemma {:induction false} SplitAfterBack(lines: seq<string>)
    requires AllLines(lines)
    ensures SplitAfter(Concat(lines)) == lines + [""]
  {
    if lines != [] {
      SplitAfterBack(lines[1..]);
      ConcatCons(lines[0], lines[1..]);
      assert [lines[0]] + lines[1..] == lines;
      LineThenRest(lines[0], Concat(lines[1..]));
      assert [lines[0]] + (lines[1..] + [""]) == lines + [""];
    }
  }

  predicate Balanced(text: string) {
    var lines := SplitAfter(text);
    Fences(lines, |lines|) % 2 == 0
  }

  lemma {:induction false} FencesAtStart(lines: seq<string>, k: nat, j: nat)
    requires 0 < k <= |lines| && j < |Starts(lines, k)|
    ensures Fences(lines, Starts(lines, k)[j]) % 2 == 0
  {
    var start := Starts(lines, k)[j];
    StartsAreHeadings(lines, k, start);
  }

  lemma EmptyIsNoFence()
    ensures !IsFence("")
  {
  }

  lemma {:induction false} WholeLinesBalance(lines: seq<string>)
    requires AllLines(lines) && Fences(lines, |lines|) % 2 == 0
    ensures Balanced(Concat(lines))
  {
    SplitAfterBack(lines);
    FencesPrefix(lines, [""], |lines|);
    EmptyIsNoFence();
  }

  lemma LinesOfSlice(text: string, i: nat, j: nat)
    requires i <= j < |SplitAfter(text)|
    ensures AllLines(SplitAfter(text)[i..j])
  {
    forall k | 0 <= k < j - i ensures IsLine(SplitAfter(text)[i..j][k], false) {
      SplitAfterLines(text, i + k);
    }
  }

  lemma SpanParity(lines: seq<string>, i: nat, j: nat)
    requires i <= j <= |lines| && Fences(lines, i) % 2 == 0 && Fences(lines, j) % 2 == 0
    ensures Fences(lines[i..j], |lines[i..j]|) % 2 == 0
  {
    FencesOfSlice(lines, i, j, j - i);
    EvenDifference(Fences(lines, i), Fences(lines, j));
  }

  lemma EvenDifference(m: int, n: int)
    requires m % 2 == 0 && n % 2 == 0
    ensures (n - m) % 2 == 0
  {
  }

  lemma {:induction false} SpanBalances(lines: seq<string>, i: nat, j: nat)
    requires i <= j < |lines| && AllLines(lines[i..j])
    requires Fences(lines, i) % 2 == 0 && Fences(lines, j) % 2 == 0
    ensures Balanced(Concat(lines[i..j]))
  {
    var span := lines[i..j];
    SpanParity(lines, i, j);
    WholeLinesBalance(span);
  }

  /** Before the size limit is applied, every section but the last closes the code fences it opens. */
  lemma CutKeepsFences(text: string, j: nat)
    requires j + 1 < |Cut(text)|
    ensures Balanced(Cut(text)[j].content)
  {
    var lines := SplitAfter(text);
    SectionsAt(lines, |lines|, j);
    FencesAtStart(lines, |lines|, j);
    FencesAtStart(lines, |lines|, j + 1);
    LinesOfSlice(text, Starts(lines, |lines|)[j], Starts(lines, |lines|)[j + 1]);
    SpanBalances(lines, Starts(lines, |lines|)[j], Starts(lines, |lines|)[j + 1]);
  }

  // ---- Splitting large sections ------------------------------------------------------------------------

  predicate Occurs(s: string, sub: string, i: int) {
    0 <= i && i + |sub| <= |s| && s[i..i + |sub|] == sub
  }

  /** strings.LastIndex, among the positions up to i. */
  function LastIndexFrom(s: string, sub: string, i: int): (r: int)
    ensures r == -1 || (0 <= r <= i && Occurs(s, sub, r))
    ensures forall k {:trigger Occurs(s, sub, k)} :: r < k <= i ==> !Occurs(s, sub, k)
    decreases i + 1
  {
    if i < 0 then -1 else if Occurs(s, sub, i) then i else LastIndexFrom(s, sub, i - 1)
  }

  function LastIndex(s: string, sub: string): int {
    LastIndexFrom(s, sub, |s|)
  }

  const PARAGRAPH := "\n\n"
  const NEWLINE := "\n"

  /** Where a text longer than the limit is cut. */
  function SplitIndex(text: string, limit: nat): nat
    requires limit < |text|
  {
    var cutoff := text[..limit];
    var p := LastIndex(cutoff, PARAGRAPH);
    var at := if p <= 0 then LastIndex(cutoff, NEWLINE) else p;
    if at <= 0 then limit
    else if at + 1 < |cutoff| && cutoff[at + 1] == '\n' then at + 2
    else at + 1
  }

  /** The position of a paragraph or line end after the first byte and within the limit. */
  predicate EndsAt(text: string, limit: nat, ending: string, e: int)
    requires limit <= |text|
  {
    |ending| < e <= limit && text[e - |ending|..e] == ending
  }

  lemma EndsWhereOccurs(text: string, limit: nat, ending: string, e: int)
    requires limit <= |text|
    ensures EndsAt(text, limit, ending, e) <==> e > |ending| && Occurs(text[..limit], ending, e - |ending|)
  {
    if |ending| < e <= limit {
      SliceOfSlice(text, 0, limit, e - |ending|, e);
      assert text[0..limit] == text[..limit];
    }
  }

  lemma LastEnd(text: string, limit: nat, ending: string)
    requires limit <= |text| && ending != ""
    ensures var p := LastIndex(text[..limit], ending);
      && (p > 0 ==> EndsAt(text, limit, ending, p + |ending|))
      && (forall e {:trigger EndsAt(text, limit, ending, e)} ::
            EndsAt(text, limit, ending, e) ==> 0 < e <= p + |ending|)
      && (p <= 0 ==> forall e {:trigger EndsAt(text, limit, ending, e)} :: !EndsAt(text, limit, ending, e))
  {
    var cutoff := text[..limit];
    var p := LastIndex(cutoff, ending);
    EndsWhereOccurs(text, limit, ending, p + |ending|);
    forall e ensures EndsAt(text, limit, ending, e) ==> 0 < e <= p + |ending| && p > 0 {
      EndsWhereOccurs(text, limit, ending, e);
    }
  }

  /** A text is cut after the last paragraph end within the limit; failing that, after the last line end; failing
      that, at the limit. Ends at the very first byte do not count. */
  predicate BestCut(text: string, limit: nat, e: nat)
    requires limit <= |text|
  {
    if exists c: nat :: c <= limit && EndsAt(text, limit, PARAGRAPH, c) then
      EndsAt(text, limit, PARAGRAPH, e) && forall c: nat :: c <= limit && EndsAt(text, limit, PARAGRAPH, c) ==> c <= e
    else if exists c: nat :: c <= limit && EndsAt(text, limit, NEWLINE, c) then
      EndsAt(text, limit, NEWLINE, e) && forall c: nat :: c <= limit && EndsAt(text, limit, NEWLINE, c) ==> c <= e
    else
      e == limit
  }

  lemma SplitIndexValue(text: string, limit: nat)
    requires limit < |text|
    ensures var p, n := LastIndex(text[..limit], PARAGRAPH), LastIndex(text[..limit], NEWLINE);
      SplitIndex(text, limit) == if p > 0 then p + 2 else if n > 0 then n + 1 else limit
  {
    var cutoff := text[..limit];
    var p, n := LastIndex(cutoff, PARAGRAPH), LastIndex(cutoff, NEWLINE);
    if p > 0 {
      assert cutoff[p..p + 2][1] == '\n';
    } else if n > 0 && n + 1 < |cutoff| {
      assert !Occurs(cutoff, NEWLINE, n + 1);
      assert cutoff[n + 1..n + 2] == [cutoff[n + 1]];
    }
  }

  /** The code's cut is that cut; it lies within the limit, and makes progress exactly when the limit is not 0. */
  lemma SplitsBest(text: string, limit: nat)
    requires limit < |text|
    ensures BestCut(text, limit, SplitIndex(text, limit))
    ensures SplitIndex(text, limit) <= limit
    ensures SplitIndex(text, limit) == 0 <==> limit == 0
  {
    SplitIndexValue(text, limit);
    LastEnd(text, limit, PARAGRAPH);
    LastEnd(text, limit, NEWLINE);
  }

  /** The pieces of a text that is longer than the limit. */
  function Parts(text: string, limit: nat): seq<string>
    requires limit >= 1
    decreases |text|
  {
    if |text| > limit then
      SplitsBest(text, limit);
      var e := SplitIndex(text, limit);
      [text[..e]] + Parts(text[e..], limit)
    else if text != "" then [text]
    else []
  }

  lemma PartsSplit(text: string, limit: nat)
    requires 1 <= limit < |text|
    ensures 0 < SplitIndex(text, limit) <= limit
    ensures Parts(text, limit) == [text[..SplitIndex(text, limit)]] + Parts(text[SplitIndex(text, limit)..], limit)
  {
    SplitsBest(text, limit);
  }

  lemma PartsStep(done: seq<string>, text: string, limit: nat)
    requires 1 <= limit < |text|
    ensures 0 < SplitIndex(text, limit) <= limit
    ensures var e := SplitIndex(text, limit);
      done + Parts(text, limit) == done + [text[..e]] + Parts(text[e..], limit)
  {
    PartsSplit(text, limit);
  }

  lemma PartsEnd(done: seq<string>, text: string, limit: nat)
    requires limit >= 1 && |text| <= limit
    ensures done + Parts(text, limit) == if text != "" then done + [text] else done
  {
  }

  method SplitAtParagraphs(text: string, maxBytes: nat) returns (parts: seq<string>)
    requires maxBytes >= 1
    ensures parts == if |text| <= maxBytes then [text] else Parts(text, maxBytes)
  {
    if |text| <= maxBytes { return [text]; }
    parts := [];
    var remaining := text;
    while |remaining| > maxBytes
      invariant parts + Parts(remaining, maxBytes) == Parts(text, maxBytes)
      decreases |remaining|
    {
      PartsStep(parts, remaining, maxBytes);
      var splitIdx := SplitIndex(remaining, maxBytes);
      parts := parts + [remaining[..splitIdx]];
      remaining := remaining[splitIdx..];
    }
    PartsEnd(parts, remaining, maxBytes);
    if |remaining| > 0 { parts := parts + [remaining]; }
  }

  /** The pieces make up the text. */
  lemma {:induction false} PartsConcat(text: string, limit: nat)
    requires limit >= 1
    ensures Concat(Parts(text, limit)) == text
    decreases |text|
  {
    if |text| > limit {
      PartsSplit(text, limit);
      var e := SplitIndex(text, limit);
      PartsConcat(text[e..], limit);
      ConcatCons(text[..e], Parts(text[e..], limit));
    } else if text != "" {
      ConcatOne(text);
    }
  }

  /** None of the pieces is empty or longer than the limit. */
  lemma {:induction false} PartsFit(text: string, limit: nat, k: nat)
    requires limit >= 1 && k < |Parts(text, limit)|
    ensures 0 < |Parts(text, limit)[k]| <= limit
    decreases |text|
  {
    if |text| > limit {
      PartsSplit(text, limit);
      if k > 0 { PartsFit(text[SplitIndex(text, limit)..], limit, k - 1); }
    }
  }

  /** The text that is left after the first k pieces. */
  function Left(text: string, limit: nat, k: nat): string
    requires limit >= 1 && k <= |Parts(text, limit)|
    decreases k
  {
    if k == 0 then text
    else if |text| <= limit then ""
    else
      PartsSplit(text, limit);
      Left(text[SplitIndex(text, limit)..], limit, k - 1)
  }

  /** Every piece but the last ends at the best cut of the text that was left. */
  lemma {:induction false} PartsCutBest(text: string, limit: nat, k: nat)
    requires limit >= 1 && k + 1 < |Parts(text, limit)|
    ensures var left, piece := Left(text, limit, k), Parts(text, limit)[k];
      |left| > limit && piece <= left && BestCut(left, limit, |piece|) && Left(text, limit, k + 1) == left[|piece|..]
    decreases |text|
  {
    PartsSplit(text, limit);
    var e := SplitIndex(text, limit);
    if k == 0 {
      SplitsBest(text, limit);
    } else {
      PartsCutBest(text[e..], limit, k - 1);
    }
  }

  // ---- Sections within the limit ------------------------------------------------------------------------

  /** A piece of a section keeps its kind; all but the first have a continued title. */
  function Piece(s: Section, part: string, i: nat): Section {
    Fresh(s.kind, if i > 0 then s.title + " (cont.)" else s.title, part)
  }

  function Pieces(s: Section, parts: seq<string>): (pieces: seq<Section>)
    ensures |pieces| == |parts|
    ensures forall i {:trigger pieces[i]} :: 0 <= i < |parts| ==> pieces[i] == Piece(s, parts[i], i)
  {
    seq(|parts|, i requires 0 <= i < |parts| => Piece(s, parts[i], i))
  }

  function SplitSection(s: Section, limit: nat): seq<Section>
    requires limit >= 1
  {
    if |s.content| <= limit then [s] else Pieces(s, Parts(s.content, limit))
  }

  function SplitLarge(sections: seq<Section>, limit: nat): seq<Section>
    requires limit >= 1
  {
    if sections == [] then []
    else SplitLarge(sections[..|sections| - 1], limit) + SplitSection(sections[|sections| - 1], limit)
  }

  lemma SplitLargeTo(sections: seq<Section>, k: nat, limit: nat)
    requires limit >= 1 && k < |sections|
    ensures SplitLarge(sections[..k + 1], limit) == SplitLarge(sections[..k], limit) + SplitSection(sections[k], limit)
  {
    assert sections[..k + 1][..k] == sections[..k];
  }

  lemma MorePieces(s: Section, parts: seq<string>, i: nat)
    requires i < |parts|
    ensures Pieces(s, parts)[..i + 1] == Pieces(s, parts)[..i] + [Piece(s, parts[i], i)]
  {
    var pieces := Pieces(s, parts);
    assert pieces[i] == Piece(s, parts[i], i);
  }

  /** The pieces of one section, in the order in which they are appended. */
  method SplitOne(sec: Section, maxBytes: nat) returns (result: seq<Section>)
    requires maxBytes >= 1
    ensures result == SplitSection(sec, maxBytes)
  {
    if |sec.content| <= maxBytes { return [sec]; }
    var parts := SplitAtParagraphs(sec.content, maxBytes);
    ghost var pieces := Pieces(sec, parts);
    result := [];
    for i := 0 to |parts|
      invariant result == pieces[..i]
    {
      MorePieces(sec, parts, i);
      var title := sec.title;
      if i > 0 { title := sec.title + " (cont.)"; }
      result := result + [Fresh(sec.kind, title, parts[i])];
    }
    assert pieces[..|parts|] == pieces;
  }

  method SplitLargeSections(sections: seq<Section>, maxBytes: nat) returns (result: seq<Section>)
    requires maxBytes >= 1
    ensures result == SplitLarge(sections, maxBytes)
  {
    result := [];
    for k := 0 to |sections|
      invariant result == SplitLarge(sections[..k], maxBytes)
    {
      SplitLargeTo(sections, k, maxBytes);
      var pieces := SplitOne(sections[k], maxBytes);
      result := result + pieces;
    }
    assert sections[..|sections|] == sections;
  }

  lemma SplitSectionConcat(s: Section, limit: nat)
    requires limit >= 1
    ensures Concat(Contents(SplitSection(s, limit))) == s.content
  {
    if |s.content| <= limit {
      OneContent(s);
    } else {
      PartsConcat(s.content, limit);
      assert Contents(SplitSection(s, limit)) == Parts(s.content, limit);
    }
  }

  lemma ContentsSplit(sections: seq<Section>)
    requires sections != []
    ensures var last := |sections| - 1;
      Concat(Contents(sections)) == Concat(Contents(sections[..last])) + sections[last].content
  {
    var last := |sections| - 1;
    ContentsTo(sections, last);
    assert sections[..last + 1] == sections;
  }

  lemma {:induction false} SplitLargeConcat(sections: seq<Section>, limit: nat)
    requires limit >= 1
    ensures Concat(Contents(SplitLarge(sections, limit))) == Concat(Contents(sections))
  {
    if sections != [] {
      var last := |sections| - 1;
      SplitLargeConcat(sections[..last], limit);
      SplitSectionConcat(sections[last], limit);
      ContentsJoin(SplitLarge(sections[..last], limit), SplitSection(sections[last], limit));
      ContentsSplit(sections);
    }
  }

  predicate Fits(s: Section, limit: nat) {
    0 < |s.content| <= limit
  }

  lemma SplitSectionFits(s: Section, limit: nat, k: nat)
    requires limit >= 1 && s.content != "" && k < |SplitSection(s, limit)|
    ensures Fits(SplitSection(s, limit)[k], limit)
  {
    if |s.content| > limit { PartsFit(s.content, limit, k); }
  }

  lemma {:induction false} SplitLargeFits(sections: seq<Section>, limit: nat, k: nat)
    requires limit >= 1 && k < |SplitLarge(sections, limit)|
    requires forall j :: 0 <= j < |sections| ==> sections[j].content != ""
    ensures Fits(SplitLarge(sections, limit)[k], limit)
  {
    var last := |sections| - 1;
    var before := SplitLarge(sections[..last], limit);
    if k < |before| {
      SplitLargeFits(sections[..last], limit, k);
    } else {
      SplitSectionFits(sections[last], limit, k - |before|);
    }
  }

  // ---- The sectioner ---------------------------------------------------------------------------------------

  /** The section with its index, its place in the prompt and its hash filled in. */
  function Numbered(sections: seq<Section>, k: nat, hash: string -> string): Section
    requires k < |sections|
  {
    var s := sections[k];
    s.(index := k, offset := |Concat(Contents(sections[..k]))|, length := |s.content|, sha := hash(s.content))
  }

  function Classified(sections: seq<Section>, classify: string -> string): (r: seq<Section>)
    ensures |r| == |sections|
    ensures forall k {:trigger r[k]} ::
      0 <= k < |sections| ==> r[k] == sections[k].(kind := classify(sections[k].title))
  {
    seq(|sections|, k requires 0 <= k < |sections| => sections[k].(kind := classify(sections[k].title)))
  }

  /** The sections of a prompt before they are numbered. */
  function Sectioned(raw: string, limit: nat, classify: string -> string): seq<Section>
    requires limit >= 1
  {
    if raw == "" then [Fresh("other", "", "")] else SplitLarge(Classified(Cut(raw), classify), limit)
  }

  method ClassifyAll(sections: seq<Section>, classify: string -> string) returns (chunks: seq<Section>)
    ensures chunks == Classified(sections, classify)
  {
    chunks := sections;
    for i := 0 to |chunks|
      invariant |chunks| == |sections|
      invariant forall k {:trigger chunks[k]} ::
        0 <= k < i ==> chunks[k] == sections[k].(kind := classify(sections[k].title))
      invariant forall k {:trigger chunks[k]} :: i <= k < |chunks| ==> chunks[k] == sections[k]
    {
      chunks := chunks[i := chunks[i].(kind := classify(chunks[i].title))];
    }
  }

  method NumberAll(sections: seq<Section>, hash: string -> string) returns (chunks: seq<Section>)
    ensures |chunks| == |sections| && forall k :: 0 <= k < |sections| ==> chunks[k] == Numbered(sections, k, hash)
  {
    chunks := sections;
    var offset := 0;
    for i := 0 to |chunks|
      invariant |chunks| == |sections| && offset == |Concat(Contents(sections[..i]))|
      invariant forall k {:trigger chunks[k]} :: 0 <= k < i ==> chunks[k] == Numbered(sections, k, hash)
      invariant forall k {:trigger chunks[k]} :: i <= k < |chunks| ==> chunks[k] == sections[k]
    {
      ContentsTo(sections, i);
      var s := chunks[i];
      chunks := chunks[i := s.(index := i, offset := offset, length := |s.content|, sha := hash(s.content))];
      offset := offset + |s.content|;
    }
  }

  /** Section: the layers one after the other. */
  method SectionPrompt(raw: string, maxSectionBytes: nat, classify: string -> string, hash: string -> string)
    returns (chunks: seq<Section>)
    requires maxSectionBytes >= 1
    ensures var want := Sectioned(raw, maxSectionBytes, classify);
      |chunks| == |want| && forall k :: 0 <= k < |want| ==> chunks[k] == Numbered(want, k, hash)
    ensures forall k :: 0 <= k < |chunks| ==>
      && chunks[k].index == k && chunks[k].length == |chunks[k].content| && chunks[k].sha == hash(chunks[k].content)
    ensures raw == "" ==> chunks == [Section(0, "other", "", "", hash(""), 0, 0)]
  {
    if |raw| == 0 {
      return [Section(0, "other", "", "", hash(""), 0, 0)];
    }
    chunks := SplitOnHeadings(raw);
    chunks := ClassifyAll(chunks, classify);
    chunks := SplitLargeSections(chunks, maxSectionBytes);
    chunks := NumberAll(chunks, hash);
  }

  lemma ContentsTo(sections: seq<Section>, k: nat)
    requires k < |sections|
    ensures Concat(Contents(sections[..k + 1])) == Concat(Contents(sections[..k])) + sections[k].content
  {
    assert sections[..k + 1] == sections[..k] + [sections[k]];
    ContentsJoin(sections[..k], [sections[k]]);
    OneContent(sections[k]);
  }

  lemma ClassifiedContents(sections: seq<Section>, classify: string -> string)
    ensures Contents(Classified(sections, classify)) == Contents(sections)
  {
  }

  /** The sections of a prompt make it up byte for byte. */
  lemma {:induction false} SectionedConcat(raw: string, limit: nat, classify: string -> string)
    requires limit >= 1
    ensures Concat(Contents(Sectioned(raw, limit, classify))) == raw
  {
    if raw == "" {
      OneContent(Fresh("other", "", ""));
    } else {
      SplitLargeConcat(Classified(Cut(raw), classify), limit);
      ClassifiedContents(Cut(raw), classify);
      CutConcat(raw);
    }
  }

  /** Sections of a prompt that is not empty are neither empty nor too long. */
  lemma {:induction false} SectionedFits(raw: string, limit: nat, classify: string -> string, k: nat)
    requires limit >= 1 && raw != "" && k < |Sectioned(raw, limit, classify)|
    ensures Fits(Sectioned(raw, limit, classify)[k], limit)
  {
    var cut := Cut(raw);
    forall j | 0 <= j < |cut| ensures Classified(cut, classify)[j].content != "" {
      CutIsNotEmpty(raw, j);
    }
    SplitLargeFits(Classified(cut, classify), limit, k);
  }

  lemma ConcatSlice(sections: seq<Section>, k: nat)
    requires k < |sections|
    ensures var all, before := Concat(Contents(sections)), |Concat(Contents(sections[..k]))|;
      before + |sections[k].content| <= |all| && all[before..before + |sections[k].content|] == sections[k].content
  {
    ContentsTo(sections, k);
    ContentsJoin(sections[..k + 1], sections[k + 1..]);
    assert sections[..k + 1] + sections[k + 1..] == sections;
  }

  lemma NumberedTile(sections: seq<Section>, hash: string -> string, k: nat)
    requires k < |sections|
    ensures var all, s := Concat(Contents(sections)), Numbered(sections, k, hash);
      s.offset + s.length <= |all| && all[s.offset..s.offset + s.length] == s.content
    ensures k == 0 ==> Numbered(sections, k, hash).offset == 0
    ensures var end := Numbered(sections, k, hash).offset + Numbered(sections, k, hash).length;
      end == if k + 1 < |sections| then Numbered(sections, k + 1, hash).offset else |Concat(Contents(sections))|
  {
    ConcatSlice(sections, k);
    ContentsTo(sections, k);
    assert sections[..|sections|] == sections;
  }

  /** Every section is the part of the prompt at its offset, the first one starts the prompt, the next one starts where
      one ends, and the last one ends the prompt. */
  lemma {:induction false} SectionsTile(raw: string, limit: nat, classify: string -> string, hash: string -> string,
                                        k: nat)
    requires limit >= 1 && k < |Sectioned(raw, limit, classify)|
    ensures var s := Numbered(Sectioned(raw, limit, classify), k, hash);
      s.offset + s.length <= |raw| && raw[s.offset..s.offset + s.length] == s.content
    ensures k == 0 ==> Numbered(Sectioned(raw, limit, classify), k, hash).offset == 0
    ensures var sections, s := Sectioned(raw, limit, classify), Numbered(Sectioned(raw, limit, classify), k, hash);
      s.offset + s.length == if k + 1 < |sections| then Numbered(sections, k + 1, hash).offset else |raw|
  {
    SectionedConcat(raw, limit, classify);
    NumberedTile(Sectioned(raw, limit, classify), hash, k);
  }

  // ---- Where a section comes from -----------------------------------------------------------------------------

  /** The j-th part cut at headings: its lines, and the title of the heading it starts with, if it starts with one. */
  lemma CutAre(text: string, j: nat)
    requires j < |Cut(text)|
    ensures var lines := SplitAfter(text);
      var starts := Starts(lines, |lines|);
      var i, end := starts[j], if j + 1 < |starts| then starts[j + 1] else |lines|;
      && i < end <= |lines| && Cut(text)[j].content == Concat(lines[i..end])
      && Cut(text)[j].title == if OpensSection(lines, i) then HeadingTitle(lines[i]) else ""
  {
    SectionsAt(SplitAfter(text), |SplitAfter(text)|, j);
  }

  /** A section of the prompt is a piece of a part cut at headings, or all of it; its kind is that of the part's title,
      which it has itself, continued after the first piece. */
  ghost predicate ComesFrom(s: Section, part: Section, limit: nat, classify: string -> string, i: nat)
    requires limit >= 1
  {
    && s.kind == classify(part.title) && s.title == (if i == 0 then part.title else part.title + " (cont.)")
    && if |part.content| <= limit then i == 0 && s.content == part.content
       else i < |Parts(part.content, limit)| && s.content == Parts(part.content, limit)[i]
  }

  lemma {:induction false} LargeComesFrom(sections: seq<Section>, limit: nat, k: nat) returns (j: nat, i: nat)
    requires limit >= 1 && k < |SplitLarge(sections, limit)|
    ensures j < |sections| && i < |SplitSection(sections[j], limit)|
    ensures SplitLarge(sections, limit)[k] == SplitSection(sections[j], limit)[i]
  {
    var last := |sections| - 1;
    var before := SplitLarge(sections[..last], limit);
    if k < |before| {
      j, i := LargeComesFrom(sections[..last], limit, k);
    } else {
      j, i := last, k - |before|;
    }
  }

  lemma SectionedAre(raw: string, limit: nat, classify: string -> string, k: nat) returns (j: nat, i: nat)
    requires limit >= 1 && raw != "" && k < |Sectioned(raw, limit, classify)|
    ensures j < |Cut(raw)| && ComesFrom(Sectioned(raw, limit, classify)[k], Cut(raw)[j], limit, classify, i)
  {
    var parts := Classified(Cut(raw), classify);
    j, i := LargeComesFrom(parts, limit, k);
    assert parts[j] == Cut(raw)[j].(kind := classify(Cut(raw)[j].title));
  }
}
