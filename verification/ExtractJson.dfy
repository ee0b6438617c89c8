/** extractJSON of cli/internal/genesis/angel_provider.go, against the JSON grammar of RFC 8259. */
module ExtractJson {
  import opened Strings

  // ---- The scan ----------------------------------------------------------------------

  /** Where skipping string contents from i stops: at a closing quote, or past the end. */
  function StringEnd(s: string, i: nat): (e: nat)
    ensures i <= e
    decreases |s| - i
  {
    if i >= |s| || s[i] == '"' then i
    else if s[i] == '\\' then StringEnd(s, i + 2)
    else StringEnd(s, i + 1)
  }

  /** The end of the object whose scan stands at i with the given number of open braces. */
  function Close(s: string, i: nat, depth: int): (e: Option<nat>)
    ensures e.Some? ==> i < e.value <= |s|
    decreases |s| - i
  {
    if i >= |s| then None
    else if s[i] == '{' then Close(s, i + 1, depth + 1)
    else if s[i] == '}' then if depth == 1 then Some(i + 1) else Close(s, i + 1, depth - 1)
    else if s[i] == '"' then Close(s, StringEnd(s, i + 1) + 1, depth)
    else Close(s, i + 1, depth)
  }

  /** strings.Index(s, "{") */
  function FirstBrace(s: string, i: nat): Option<nat>
    decreases |s| - i
  {
    if i >= |s| then None else if s[i] == '{' then Some(i) else FirstBrace(s, i + 1)
  }

  lemma {:induction false} FirstBraceAt(s: string, i: nat, k: nat)
    requires i <= k < |s| && s[k] == '{' && forall j :: i <= j < k ==> s[j] != '{'
    ensures FirstBrace(s, i) == Some(k)
    decreases k - i
  {
    if i < k { FirstBraceAt(s, i + 1, k); }
  }

  function Extract(s: string): string {
    var start := FirstBrace(s, 0);
    FirstBraceBound(s, 0);
    if start.None? then s
    else
      var e := Close(s, start.value, 0);
      if e.Some? then s[start.value..e.value] else s[start.value..]
  }

  lemma {:induction false} FirstBraceBound(s: string, i: nat)
    ensures FirstBrace(s, i).Some? ==> i <= FirstBrace(s, i).value < |s|
    decreases |s| - i
  {
    if i < |s| && s[i] != '{' { FirstBraceBound(s, i + 1); }
  }

  method IndexOfBrace(s: string) returns (r: Option<nat>)
    ensures r == FirstBrace(s, 0)
  {
    var i := 0;
    while i < |s|
      invariant FirstBrace(s, i) == FirstBrace(s, 0)
    {
      if s[i] == '{' { return Some(i); }
      i := i + 1;
    }
    return None;
  }

  method ExtractJSON(s: string) returns (r: string)
    ensures r == Extract(s)
  {
    FirstBraceBound(s, 0);
    var found := IndexOfBrace(s);
    if found.None? { return s; }
    var start := found.value;
    var depth := 0;
    var i := start;
    while i < |s|
      invariant start <= i
      invariant Close(s, i, depth) == Close(s, start, 0)
      decreases |s| - i
    {
      ghost var before := i;
      match s[i] {
        case '{' =>
          depth := depth + 1;
        case '}' =>
          depth := depth - 1;
          if depth == 0 { return s[start..i + 1]; }
        case '"' =>
          i := i + 1;
          while i < |s| && s[i] != '"'
            invariant before < i && StringEnd(s, i) == StringEnd(s, before + 1)
            decreases |s| - i
          {
            if s[i] == '\\' { i := i + 1; }
            i := i + 1;
          }
        case _ =>
      }
      i := i + 1;
    }
    return s[start..];
  }

  // ---- JSON texts --------------------------------------------------------------------------

  /** A character of a string as written: plain, a two-character escape, or \u with four digits. */
  datatype Item = Plain(c: char) | Escape(c: char) | Unicode(hex: string)

  /** An atom is a number, true, false or null. */
  datatype Value = Atom(text: string) | Str(items: seq<Item>) | Arr(inner: Inner) | Obj(inner: Inner)

  /** What stands between the brackets: white space only, or entries separated by commas. */
  datatype Inner = Blank(ws: string) | Filled(entries: Entries)
  datatype Entries = One(entry: Entry) | More(entry: Entry, rest: Entries)

  /** A value with white space around it, in an object after its key. */
  datatype Entry = Entry(key: Option<Key>, before: string, value: Value, after: string)
  datatype Key = Key(before: string, items: seq<Item>, after: string)

  function ItemText(item: Item): string {
    match item
    case Plain(c) => [c]
    case Escape(c) => ['\\', c]
    case Unicode(hex) => "\\u" + hex
  }

  function ItemsText(items: seq<Item>): string {
    if items == [] then "" else ItemText(items[0]) + ItemsText(items[1..])
  }

  function StringText(items: seq<Item>): string {
    "\"" + ItemsText(items) + "\""
  }

  function Text(v: Value): string {
    match v
    case Atom(text) => text
    case Str(items) => StringText(items)
    case Arr(inner) => "[" + InnerText(inner) + "]"
    case Obj(inner) => "{" + InnerText(inner) + "}"
  }

  function InnerText(inner: Inner): string {
    match inner
    case Blank(ws) => ws
    case Filled(entries) => EntriesText(entries)
  }

  function EntriesText(entries: Entries): string {
    match entries
    case One(entry) => EntryText(entry)
    case More(entry, rest) => EntryText(entry) + "," + EntriesText(rest)
  }

  function KeyText(key: Option<Key>): string {
    match key
    case None => ""
    case Some(k) => k.before + StringText(k.items) + k.after + ":"
  }

  function EntryText(entry: Entry): string {
    KeyText(entry.key) + entry.before + Text(entry.value) + entry.after
  }

  predicate IsWhite(s: string) {
    forall k :: 0 <= k < |s| ==> s[k] == ' ' || s[k] == '\t' || s[k] == '\n' || s[k] == '\r'
  }

  predicate IsHex(c: char) {
    IsDigit(c) || 'a' <= c <= 'f' || 'A' <= c <= 'F'
  }

  predicate IsNumeric(c: char) {
    IsDigit(c) || c == '+' || c == '-' || c == '.' || c == 'e' || c == 'E'
  }

  /** Every number of section 6 is one of these, and so are true, false and null. */
  predicate IsAtom(s: string) {
    s in {"true", "false", "null"} || (s != "" && forall k :: 0 <= k < |s| ==> IsNumeric(s[k]))
  }

  /** The characters of section 7. */
  predicate IsItem(item: Item) {
    match item
    case Plain(c) => c >= ' ' && c != '"' && c != '\\'
    case Escape(c) => c == '"' || c == '\\' || c == '/' || c == 'b' || c == 'f' || c == 'n' || c == 'r' || c == 't'
    case Unicode(hex) => |hex| == 4 && forall k :: 0 <= k < 4 ==> IsHex(hex[k])
  }

  predicate IsString(items: seq<Item>) {
    forall k :: 0 <= k < |items| ==> IsItem(items[k])
  }

  predicate IsJson(v: Value) {
    match v
    case Atom(text) => IsAtom(text)
    case Str(items) => IsString(items)
    case Arr(inner) => IsInner(inner, false)
    case Obj(inner) => IsInner(inner, true)
  }

  predicate IsInner(inner: Inner, keyed: bool) {
    match inner
    case Blank(ws) => IsWhite(ws)
    case Filled(entries) => AreEntries(entries, keyed)
  }

  predicate AreEntries(entries: Entries, keyed: bool) {
    match entries
    case One(entry) => IsEntry(entry, keyed)
    case More(entry, rest) => IsEntry(entry, keyed) && AreEntries(rest, keyed)
  }

  predicate IsEntry(entry: Entry, keyed: bool) {
    && entry.key.Some? == keyed
    && (keyed ==> IsWhite(entry.key.value.before) && IsString(entry.key.value.items) && IsWhite(entry.key.value.after))
    && IsWhite(entry.before) && IsJson(entry.value) && IsWhite(entry.after)
  }

  // ---- The scan as an automaton ------------------------------------------------------------------

  /** Outside strings with some braces open, inside a string, after a backslash in one, or past the object's end. */
  datatype State = Out(depth: int) | In(depth: int) | Escaped(depth: int) | Closed

  function Step(st: State, c: char): State {
    match st
    case Out(d) =>
      if c == '{' then Out(d + 1)
      else if c == '}' then if d == 1 then Closed else Out(d - 1)
      else if c == '"' then In(d)
      else st
    case In(d) => if c == '"' then Out(d) else if c == '\\' then Escaped(d) else st
    case Escaped(d) => In(d)
    case Closed => Closed
  }

  function Run(t: string, st: State): State {
    if t == "" then st else Run(t[1..], Step(st, t[0]))
  }

  /** What the scan finds from i on in a given state. */
  function CloseFrom(s: string, i: nat, st: State): Option<nat> {
    match st
    case Out(d) => Close(s, i, d)
    case In(d) => Close(s, StringEnd(s, i) + 1, d)
    case Escaped(d) => Close(s, StringEnd(s, i + 1) + 1, d)
    case Closed => Some(i)
  }

  lemma CloseStep(s: string, i: nat, st: State)
    requires i < |s|
    ensures CloseFrom(s, i, st) == CloseFrom(s, i + 1, Step(st, s[i])) || st.Closed?
  {
  }

  /** The loop of extractJSON runs the automaton. */
  lemma {:induction false} CloseRuns(s: string, i: nat, t: string, st: State)
    requires i + |t| <= |s| && s[i..i + |t|] == t && !Run(t, st).Closed?
    ensures CloseFrom(s, i, st) == CloseFrom(s, i + |t|, Run(t, st))
    decreases |t|
  {
    if t != "" {
      assert s[i] == s[i..i + |t|][0] == t[0];
      assert s[i + 1..i + |t|] == t[1..];
      if st.Closed? { ClosedStays(t); }
      CloseStep(s, i, st);
      CloseRuns(s, i + 1, t[1..], Step(st, t[0]));
    }
  }

  lemma {:induction false} ClosedStays(t: string)
    ensures Run(t, Closed) == Closed
  {
    if t != "" { ClosedStays(t[1..]); }
  }

  lemma {:induction false} RunConcat(a: string, b: string, st: State)
    ensures Run(a + b, st) == Run(b, Run(a, st))
  {
    if a == "" {
      assert a + b == b;
    } else {
      assert (a + b)[1..] == a[1..] + b;
      RunConcat(a[1..], b, Step(st, a[0]));
    }
  }

  // ---- JSON texts leave the automaton where it was -----------------------------------------------------

  /** Inside an object the automaton passes over t as a whole. */
  ghost predicate Neutral(t: string) {
    forall d :: d >= 1 ==> Run(t, Out(d)) == Out(d)
  }

  lemma NeutralConcat(a: string, b: string)
    requires Neutral(a) && Neutral(b)
    ensures Neutral(a + b)
  {
    forall d | d >= 1 ensures Run(a + b, Out(d)) == Out(d) {
      RunConcat(a, b, Out(d));
      assert Run(a, Out(d)) == Out(d);
    }
  }

  /** Text without braces and quotes. */
  predicate Plainly(t: string) {
    forall k :: 0 <= k < |t| ==> t[k] != '{' && t[k] != '}' && t[k] != '"'
  }

  lemma {:induction false} PlainRun(t: string, d: int)
    requires Plainly(t)
    ensures Run(t, Out(d)) == Out(d)
  {
    if t != "" { PlainRun(t[1..], d); }
  }

  lemma PlainNeutral(t: string)
    requires Plainly(t)
    ensures Neutral(t)
  {
    forall d | d >= 1 ensures Run(t, Out(d)) == Out(d) { PlainRun(t, d); }
  }

  lemma {:induction false} HexRun(t: string, d: int)
    requires forall k :: 0 <= k < |t| ==> t[k] != '"' && t[k] != '\\'
    ensures Run(t, In(d)) == In(d)
  {
    if t != "" { HexRun(t[1..], d); }
  }

  lemma CharRun(c: char, t: string, st: State)
    ensures Run([c] + t, st) == Run(t, Step(st, c))
  {
    assert ([c] + t)[1..] == t;
  }

  /** An item keeps the automaton inside the string: an escaped quote does not end it. */
  lemma ItemRun(item: Item, d: int)
    requires IsItem(item)
    ensures Run(ItemText(item), In(d)) == In(d)
  {
    match item
    case Plain(c) => CharRun(c, "", In(d));
    case Escape(c) =>
      CharRun('\\', [c], In(d));
      CharRun(c, "", Escaped(d));
    case Unicode(hex) =>
      CharRun('\\', ['u'] + hex, In(d));
      CharRun('u', hex, Escaped(d));
      assert ['\\'] + (['u'] + hex) == ItemText(item);
      HexRun(hex, d);
  }

  lemma {:induction false} ItemsRun(items: seq<Item>, d: int)
    requires IsString(items)
    ensures Run(ItemsText(items), In(d)) == In(d)
  {
    if items != [] {
      ItemRun(items[0], d);
      ItemsRun(items[1..], d);
      RunConcat(ItemText(items[0]), ItemsText(items[1..]), In(d));
    }
  }

  lemma Quoted(inside: string, d: int)
    requires Run(inside, In(d)) == In(d)
    ensures Run("\"" + inside + "\"", Out(d)) == Out(d)
  {
    RunConcat("\"" + inside, "\"", Out(d));
    RunConcat("\"", inside, Out(d));
    assert Run("\"", Out(d)) == Run("", In(d)) && Run("\"", In(d)) == Run("", Out(d));
  }

  lemma StringNeutral(items: seq<Item>)
    requires IsString(items)
    ensures Neutral(StringText(items))
  {
    forall d | d >= 1 ensures Run(StringText(items), Out(d)) == Out(d) {
      ItemsRun(items, d);
      Quoted(ItemsText(items), d);
    }
  }

  /** An opening brace, neutral text, and the closing brace still to come. */
  lemma Opened(t: string, d: nat)
    requires Neutral(t)
    ensures Run("{" + t, Out(d)) == Out(d + 1)
  {
    RunConcat("{", t, Out(d));
    assert Run("{", Out(d)) == Run("", Out(d + 1));
    assert Run(t, Out(d + 1)) == Out(d + 1);
  }

  lemma BracesNeutral(t: string)
    requires Neutral(t)
    ensures Neutral("{" + t + "}")
  {
    forall d | d >= 1 ensures Run("{" + t + "}", Out(d)) == Out(d) {
      Opened(t, d);
      RunConcat("{" + t, "}", Out(d));
      assert Run("}", Out(d + 1)) == Run("", Out(d));
    }
  }

  lemma {:induction false} ValueNeutral(v: Value)
    requires IsJson(v)
    ensures Neutral(Text(v))
    decreases v
  {
    match v
    case Atom(text) => PlainNeutral(text);
    case Str(items) => StringNeutral(items);
    case Arr(inner) =>
      InnerNeutral(inner, false);
      PlainNeutral("[");
      PlainNeutral("]");
      NeutralConcat("[", InnerText(inner));
      NeutralConcat("[" + InnerText(inner), "]");
    case Obj(inner) =>
      InnerNeutral(inner, true);
      BracesNeutral(InnerText(inner));
  }

  lemma {:induction false} InnerNeutral(inner: Inner, keyed: bool)
    requires IsInner(inner, keyed)
    ensures Neutral(InnerText(inner))
    decreases inner
  {
    match inner
    case Blank(ws) => PlainNeutral(ws);
    case Filled(entries) => EntriesNeutral(entries, keyed);
  }

  lemma {:induction false} EntriesNeutral(entries: Entries, keyed: bool)
    requires AreEntries(entries, keyed)
    ensures Neutral(EntriesText(entries))
    decreases entries
  {
    match entries
    case One(entry) => EntryNeutral(entry, keyed);
    case More(entry, rest) =>
      EntryNeutral(entry, keyed);
      EntriesNeutral(rest, keyed);
      PlainNeutral(",");
      NeutralConcat(EntryText(entry), ",");
      NeutralConcat(EntryText(entry) + ",", EntriesText(rest));
  }

  lemma KeyNeutral(k: Key)
    requires IsWhite(k.before) && IsString(k.items) && IsWhite(k.after)
    ensures Neutral(k.before + StringText(k.items) + k.after + ":")
  {
    PlainNeutral(k.before);
    StringNeutral(k.items);
    PlainNeutral(k.after);
    PlainNeutral(":");
    NeutralConcat(k.before, StringText(k.items));
    NeutralConcat(k.before + StringText(k.items), k.after);
    NeutralConcat(k.before + StringText(k.items) + k.after, ":");
  }

  lemma {:induction false} EntryNeutral(entry: Entry, keyed: bool)
    requires IsEntry(entry, keyed)
    ensures Neutral(EntryText(entry))
    decreases entry
  {
    var key, value := KeyText(entry.key), Text(entry.value);
    if keyed { KeyNeutral(entry.key.value); } else { PlainNeutral(""); }
    PlainNeutral(entry.before);
    ValueNeutral(entry.value);
    PlainNeutral(entry.after);
    NeutralConcat(key, entry.before);
    NeutralConcat(key + entry.before, value);
    NeutralConcat(key + entry.before + value, entry.after);
  }

  // ---- Extraction ------------------------------------------------------------------------------------

  /** The scan that starts at an object's opening brace ends right after its closing one. */
  lemma CloseObject(s: string, i: nat, inner: Inner)
    requires IsJson(Obj(inner))
    requires i + |Text(Obj(inner))| <= |s| && s[i..i + |Text(Obj(inner))|] == Text(Obj(inner))
    ensures Close(s, i, 0) == Some(i + |Text(Obj(inner))|)
  {
    var t := "{" + InnerText(inner);
    InnerNeutral(inner, true);
    Opened(InnerText(inner), 0);
    var whole := s[i..i + |t| + 1];
    assert s[i..i + |t|] == whole[..|t|] == t && s[i + |t|] == whole[|t|] == '}';
    CloseRuns(s, i, t, Out(0));
    assert Close(s, i, 0) == Close(s, i + |t|, 1);
  }

  /** From any text around it the first JSON object is taken exactly, as long as no brace comes before it. */
  lemma ExtractsObject(prefix: string, inner: Inner, suffix: string)
    requires '{' !in prefix && IsJson(Obj(inner))
    ensures Extract(prefix + Text(Obj(inner)) + suffix) == Text(Obj(inner))
  {
    var t := Text(Obj(inner));
    var s := prefix + t + suffix;
    assert s[|prefix|..|prefix| + |t|] == t;
    assert s[|prefix|] == t[0] == '{';
    FirstBraceAt(s, 0, |prefix|);
    CloseObject(s, |prefix|, inner);
  }

  // ---- Texts of any kind ------------------------------------------------------------------------------

  /** Text without an opening brace is left as it is. */
  lemma {:induction false} NothingToExtract(s: string)
    requires '{' !in s
    ensures Extract(s) == s
  {
    FirstBraceBound(s, 0);
    NoBrace(s, 0);
  }

  lemma {:induction false} NoBrace(s: string, i: nat)
    requires '{' !in s
    ensures FirstBrace(s, i).None?
    decreases |s| - i
  {
    if i < |s| { NoBrace(s, i + 1); }
  }

  /** The automaton reaches the end of an object with the n-th character of the text. */
  predicate ClosesAt(text: string, n: nat) {
    0 < n <= |text| && Run(text[..n], Out(0)).Closed? && !Run(text[..n - 1], Out(0)).Closed?
  }

  /** Otherwise the text from the first opening brace on is cut where the automaton reaches the end of an object. */
  lemma ExtractsToClose(prefix: string, text: string, n: nat)
    requires '{' !in prefix && text != "" && text[0] == '{' && ClosesAt(text, n)
    ensures Extract(prefix + text) == text[..n]
  {
    var s, i, t := prefix + text, |prefix|, text[..n - 1];
    FirstBraceAt(s, 0, i);
    assert s[i..i + |t|] == t;
    CloseRuns(s, i, t, Out(0));
    var last := Run(t, Out(0));
    assert text[..n] == t + [text[n - 1]];
    RunConcat(t, [text[n - 1]], Out(0));
    assert Step(last, text[n - 1]) == Run([text[n - 1]], last) by { assert [text[n - 1]][1..] == ""; }
    assert s[i + n - 1] == text[n - 1];
    CloseStep(s, i + n - 1, last);
    assert s[i..i + n] == text[..n];
  }

  /** And not cut at all when it never does. */
  lemma ExtractsOpen(prefix: string, text: string)
    requires '{' !in prefix && text != "" && text[0] == '{' && !Run(text, Out(0)).Closed?
    ensures Extract(prefix + text) == text
  {
    var s, i := prefix + text, |prefix|;
    FirstBraceAt(s, 0, i);
    assert s[i..i + |text|] == text && s[i..] == text;
    CloseRuns(s, i, text, Out(0));
    assert CloseFrom(s, |s|, Run(text, Out(0))).None?;
  }
}
