/** Strings as the Go code sees them: sequences of bytes, one byte to a char.
    Split, Join, TrimSpace, TrimLeft, TrimRight and TrimSuffix are those of the Go strings package, NatText and IntText
    the %d of fmt, and ParseInt that of strconv for base 10 and 64 bits. */
module Strings {

  datatype Option<+T> = None | Some(value: T)

  lemma SliceOfSlice<T>(s: seq<T>, lo: nat, hi: nat, i: nat, j: nat)
    requires lo <= hi <= |s| && i <= j <= hi - lo
    ensures s[lo..hi][i..j] == s[lo + i..lo + j]
  {
    forall k | 0 <= k < j - i ensures s[lo..hi][i..j][k] == s[lo + i..lo + j][k] {
      assert s[lo..hi][i + k] == s[lo + i + k];
    }
  }

  // ---- Splitting and joining ------------------------------------------------

  /** strings.Split with a one-byte separator. */
  function Split(s: string, sep: char): (parts: seq<string>)
    ensures parts != []
    ensures forall k :: 0 <= k < |parts| ==> sep !in parts[k]
  {
    if s == "" then [""]
    else
      var rest := Split(s[1..], sep);
      if s[0] == sep then [""] + rest
      else [[s[0]] + rest[0]] + rest[1..]
  }

  /** strings.Join with a one-byte separator. */
  function Join(parts: seq<string>, sep: char): string {
    if parts == [] then ""
    else if |parts| == 1 then parts[0]
    else parts[0] + [sep] + Join(parts[1..], sep)
  }

  /** Joining undoes splitting. */
  lemma {:induction false} JoinSplit(s: string, sep: char)
    ensures Join(Split(s, sep), sep) == s
  {
    if s != "" {
      JoinSplit(s[1..], sep);
      var rest := Split(s[1..], sep);
      if s[0] == sep {
        assert ([""] + rest)[1..] == rest;
      } else {
        var parts := [[s[0]] + rest[0]] + rest[1..];
        if |rest| == 1 {
          assert Join(parts, sep) == [s[0]] + rest[0];
        } else {
          assert parts[1..] == rest[1..];
          assert Join(parts, sep) == [s[0]] + (rest[0] + [sep] + Join(rest[1..], sep));
        }
      }
    }
  }

  lemma {:induction false} SplitPlain(p: string, sep: char)
    requires sep !in p
    ensures Split(p, sep) == [p]
  {
    if p != "" {
      SplitPlain(p[1..], sep);
      assert p == [p[0]] + p[1..];
    }
  }

  /** A separator-free prefix becomes the start of the first part; a separator after it closes that part. */
  lemma {:induction false} SplitCons(p: string, rest: string, sep: char)
    requires sep !in p
    ensures Split(p + [sep] + rest, sep) == [p] + Split(rest, sep)
  {
    var s := p + [sep] + rest;
    if p == "" {
      assert s[1..] == rest;
    } else {
      SplitCons(p[1..], rest, sep);
      assert s[1..] == p[1..] + [sep] + rest;
      assert p == [p[0]] + p[1..];
    }
  }

  /** Splitting undoes joining, unless there was nothing to join or a part hid a separator. */
  lemma {:induction false} SplitJoin(parts: seq<string>, sep: char)
    requires parts != []
    requires forall k :: 0 <= k < |parts| ==> sep !in parts[k]
    ensures Split(Join(parts, sep), sep) == parts
  {
    if |parts| == 1 {
      SplitPlain(parts[0], sep);
    } else {
      SplitJoin(parts[1..], sep);
      SplitCons(parts[0], Join(parts[1..], sep), sep);
    }
  }

  // ---- Prefixes and trimming --------------------------------------------------

  predicate HasPrefix(s: string, prefix: string) {
    prefix <= s
  }

  /** strings.TrimSuffix(s, "\n"): removes one final newline. */
  function TrimNewline(s: string): string {
    if s != "" && s[|s| - 1] == '\n' then s[..|s| - 1] else s
  }

  predicate IsSpace(c: char) {
    c == ' ' || c == '\t' || c == '\n' || c == '\r' || c == '\U{0B}' || c == '\U{0C}'
  }

  predicate IsBlank(c: char) {
    c == ' ' || c == '\t'
  }

  function TrimLeft(s: string, drop: char -> bool): (r: string)
    ensures |r| <= |s|
  {
    if s != "" && drop(s[0]) then TrimLeft(s[1..], drop) else s
  }

  function TrimRight(s: string, drop: char -> bool): (r: string)
    ensures r <= s
  {
    if s != "" && drop(s[|s| - 1]) then TrimRight(s[..|s| - 1], drop) else s
  }

  /** strings.TrimSpace. */
  function TrimSpace(s: string): string {
    TrimLeft(TrimRight(s, IsSpace), IsSpace)
  }

  lemma TrimNothing(s: string)
    requires s != "" && !IsSpace(s[0]) && !IsSpace(s[|s| - 1])
    ensures TrimSpace(s) == s
  {
  }

  predicate AllSpace(s: string) {
    forall k :: 0 <= k < |s| ==> IsSpace(s[k])
  }

  lemma {:induction false} TrimRightMeaning(s: string)
    ensures var t := TrimRight(s, IsSpace);
      t <= s && AllSpace(s[|t|..]) && (t != "" ==> !IsSpace(t[|t| - 1]))
  {
    if s != "" && IsSpace(s[|s| - 1]) {
      TrimRightMeaning(s[..|s| - 1]);
      var t := TrimRight(s[..|s| - 1], IsSpace);
      assert s[|t|..] == s[..|s| - 1][|t|..] + [s[|s| - 1]];
    }
  }

  lemma {:induction false} TrimLeftMeaning(s: string)
    ensures var t := TrimLeft(s, IsSpace);
      s[|s| - |t|..] == t && AllSpace(s[..|s| - |t|]) && (t != "" ==> !IsSpace(t[0]))
  {
    if s != "" && IsSpace(s[0]) {
      TrimLeftMeaning(s[1..]);
      var t := TrimLeft(s[1..], IsSpace);
      assert s[..|s| - |t|] == [s[0]] + s[1..][..|s| - 1 - |t|];
    }
  }

  /** Trimming leaves white space out at both ends, and all of it. */
  lemma TrimMeaning(s: string) returns (i: nat, j: nat)
    ensures i <= j <= |s| && TrimSpace(s) == s[i..j] && AllSpace(s[..i]) && AllSpace(s[j..])
    ensures i < j ==> !IsSpace(s[i]) && !IsSpace(s[j - 1])
  {
    TrimRightMeaning(s);
    var r := TrimRight(s, IsSpace);
    TrimLeftMeaning(r);
    j := |r|;
    i := |r| - |TrimLeft(r, IsSpace)|;
    assert r == s[..j] && s[..i] == r[..i];
    assert s[i..j] == r[i..];
  }

  // ---- Decimal numbers --------------------------------------------------------

  predicate IsDigit(c: char) {
    '0' <= c <= '9'
  }

  function Digit(d: nat): (c: char)
    requires d < 10
    ensures IsDigit(c)
  {
    "0123456789"[d]
  }

  function DigitValue(c: char): (d: nat)
    requires IsDigit(c)
    ensures d < 10
  {
    c as int - '0' as int
  }

  predicate AllDigits(s: string) {
    forall k :: 0 <= k < |s| ==> IsDigit(s[k])
  }

  /** fmt's %d of a non-negative number. */
  function NatText(n: nat): (s: string)
    ensures s != "" && AllDigits(s)
  {
    if n < 10 then [Digit(n)] else NatText(n / 10) + [Digit(n % 10)]
  }

  function NatValue(s: string): nat
    requires AllDigits(s)
  {
    if s == "" then 0 else NatValue(s[..|s| - 1]) * 10 + DigitValue(s[|s| - 1])
  }

  lemma {:induction false} NatRoundTrip(n: nat)
    ensures NatValue(NatText(n)) == n
  {
    if n >= 10 {
      NatRoundTrip(n / 10);
      var s := NatText(n);
      assert s[..|s| - 1] == NatText(n / 10);
    }
  }

  lemma NatTextInjective(m: nat, n: nat)
    requires NatText(m) == NatText(n)
    ensures m == n
  {
    NatRoundTrip(m);
    NatRoundTrip(n);
  }

  /** fmt's %d. */
  function IntText(n: int): string {
    if n < 0 then "-" + NatText(-n) else NatText(n)
  }

  const MIN_INT64: int := -0x8000_0000_0000_0000
  const MAX_INT64: int := 0x7fff_ffff_ffff_ffff

  predicate IsInt64(n: int) {
    MIN_INT64 <= n <= MAX_INT64
  }

  function Signed(sign: char, n: int): int {
    if sign == '-' then -n else n
  }

  const TWO_TO_64: int := 0x1_0000_0000_0000_0000

  /** 64-bit wrap-around of a sum or a difference of 64-bit integers. */
  function Wrap1(n: int): int {
    if n > MAX_INT64 then n - TWO_TO_64 else if n < MIN_INT64 then n + TWO_TO_64 else n
  }

  /** strconv.ParseInt(s, 10, 64): an optional sign, then digits, within 64 bits. */
  function ParseInt(s: string): Option<int> {
    var digits := if s != "" && (s[0] == '+' || s[0] == '-') then s[1..] else s;
    if digits == "" || !AllDigits(digits) then None
    else
      var n := Signed(s[0], NatValue(digits));
      if IsInt64(n) then Some(n) else None
  }

  lemma ParsePlain(n: nat)
    requires IsInt64(n)
    ensures ParseInt(NatText(n)) == Some(n)
  {
    NatRoundTrip(n);
    assert IsDigit(NatText(n)[0]);
  }

  lemma ParseSigned(sign: char, n: nat)
    requires sign == '+' || sign == '-'
    requires IsInt64(Signed(sign, n))
    ensures ParseInt([sign] + NatText(n)) == Some(Signed(sign, n))
  {
    NatRoundTrip(n);
    var s := [sign] + NatText(n);
    assert s[1..] == NatText(n);
  }

  lemma ParseIntText(n: int)
    requires IsInt64(n)
    ensures ParseInt(IntText(n)) == Some(n)
  {
    if n < 0 { ParseSigned('-', -n); } else { ParsePlain(n); }
  }
}
