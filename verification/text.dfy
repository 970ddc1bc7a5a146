/** The handful of Python string operations the dashboard's parsers rely on:
    whitespace stripping, `re.split(r'\s+', …)`, `' '.join(…)`, prefix and
    substring tests, decimal formatting with `f'{n}'` and parsing with `int(…)`. */
module Text {

  /** A character `str.isspace` accepts; the `\s` class of `re` on str patterns
      matches the same set. */
  predicate IsSpace(c: char) {
    || c == ' '
    || '\t' <= c <= '\r'
    || '\U{1C}' <= c <= '\U{1F}'
    || c == '\U{85}' || c == '\U{A0}' || c == '\U{1680}'
    || '\U{2000}' <= c <= '\U{200A}'
    || c == '\U{2028}' || c == '\U{2029}' || c == '\U{202F}'
    || c == '\U{205F}' || c == '\U{3000}'
  }

  predicate NoSpace(s: string) {
    forall i :: 0 <= i < |s| ==> !IsSpace(s[i])
  }

  /** `s.rstrip()`: the longest prefix of `s` that does not end in whitespace. */
  function RStrip(s: string): (r: string)
    ensures |r| <= |s| && r == s[..|r|]
    ensures r == [] || !IsSpace(r[|r| - 1])
    ensures forall i :: |r| <= i < |s| ==> IsSpace(s[i])
  {
    if s == [] || !IsSpace(s[|s| - 1]) then s else RStrip(s[..|s| - 1])
  }

  /** `s.lstrip()`: the longest suffix of `s` that does not start with whitespace. */
  function LStrip(s: string): (r: string)
    ensures |r| <= |s| && r == s[|s| - |r|..]
    ensures r == [] || !IsSpace(r[0])
    ensures forall i :: 0 <= i < |s| - |r| ==> IsSpace(s[i])
  {
    if s == [] || !IsSpace(s[0]) then s else LStrip(s[1..])
  }

  /** `s.strip()` */
  function Strip(s: string): string {
    LStrip(RStrip(s))
  }

  predicate StartsWith(s: string, prefix: string) {
    |prefix| <= |s| && s[..|prefix|] == prefix
  }

  predicate EndsWith(s: string, suffix: string) {
    |suffix| <= |s| && s[|s| - |suffix|..] == suffix
  }

  /** `sub` occurs in `s` starting at position `i`. */
  predicate OccursAt(s: string, sub: string, i: int) {
    0 <= i && i + |sub| <= |s| && s[i..i + |sub|] == sub
  }

  /** Python's `sub in s` on strings. */
  predicate Contains(s: string, sub: string) {
    exists i | 0 <= i <= |s| - |sub| :: OccursAt(s, sub, i)
  }

  /** `s.rfind(c)`: the last position holding `c`, or -1. */
  function LastIndexOf(s: string, c: char): (r: int)
    ensures -1 <= r < |s|
    ensures r >= 0 ==> s[r] == c
    ensures forall i :: r < i < |s| ==> s[i] != c
  {
    if s == [] then -1
    else if s[|s| - 1] == c then |s| - 1
    else LastIndexOf(s[..|s| - 1], c)
  }

  // ---------------------------------------------------------------------------
  // re.split(r'\s+', s) and ' '.join(parts)

  /** The pieces of `s` between maximal whitespace runs, `piece` being the part of
      the current piece already read. */
  function SplitFrom(s: string, piece: string): (r: seq<string>)
    ensures |r| >= 1
    decreases |s|
  {
    if s == [] then [piece]
    else if IsSpace(s[0]) then [piece] + SplitFrom(LStrip(s), [])
    else SplitFrom(s[1..], piece + [s[0]])
  }

  /** `re.split(r'\s+', s)` */
  function Split(s: string): seq<string> {
    SplitFrom(s, [])
  }

  /** `sep.join(parts)` */
  function Join(parts: seq<string>, sep: string): string {
    if parts == [] then []
    else if |parts| == 1 then parts[0]
    else parts[0] + sep + Join(parts[1..], sep)
  }

  predicate IsWord(w: string) {
    w != [] && NoSpace(w)
  }

  lemma {:induction false} SplitFromWords(s: string, piece: string)
    requires NoSpace(piece)
    requires s == [] ==> piece != []
    requires s != [] ==> !IsSpace(s[|s| - 1])
    requires piece == [] && s != [] ==> !IsSpace(s[0])
    ensures forall k :: 0 <= k < |SplitFrom(s, piece)| ==> IsWord(SplitFrom(s, piece)[k])
    decreases |s|
  {
    if s == [] {
    } else if IsSpace(s[0]) {
      var rest := LStrip(s);
      assert rest != [] by {
        assert !IsSpace(s[|s| - 1]);
      }
      SplitFromWords(rest, []);
    } else {
      SplitFromWords(s[1..], piece + [s[0]]);
    }
  }

  /** Splitting a stripped, non-blank line yields non-empty fields free of whitespace. */
  lemma SplitStrippedIsWords(s: string)
    requires s != [] && !IsSpace(s[0]) && !IsSpace(s[|s| - 1])
    ensures forall k :: 0 <= k < |Split(s)| ==> IsWord(Split(s)[k])
  {
    SplitFromWords(s, []);
  }

  lemma {:induction false} SplitFromWordPrefix(t: string, rest: string, piece: string)
    requires NoSpace(t)
    ensures SplitFrom(t + rest, piece) == SplitFrom(rest, piece + t)
    decreases |t|
  {
    if t == [] {
      assert t + rest == rest;
      assert piece + t == piece;
    } else {
      assert (t + rest)[0] == t[0];
      assert (t + rest)[1..] == t[1..] + rest;
      SplitFromWordPrefix(t[1..], rest, piece + [t[0]]);
      assert piece + [t[0]] + t[1..] == piece + t;
    }
  }

  lemma {:induction false} JoinStartsWithFirst(parts: seq<string>, sep: string)
    requires parts != []
    ensures StartsWith(Join(parts, sep), parts[0])
  {
    if |parts| > 1 {
      var j := Join(parts, sep);
      assert j == parts[0] + (sep + Join(parts[1..], sep));
      assert j[..|parts[0]|] == parts[0];
    }
  }

  lemma LStripAfterSpace(t: string)
    requires t != [] && !IsSpace(t[0])
    ensures LStrip(" " + t) == t
  {
    assert (" " + t)[1..] == t;
  }

  lemma {:induction false} SplitFromJoin(parts: seq<string>, piece: string)
    requires parts != []
    requires forall k :: 0 <= k < |parts| ==> IsWord(parts[k])
    ensures SplitFrom(Join(parts, " "), piece) == [piece + parts[0]] + parts[1..]
    decreases |parts|
  {
    if |parts| == 1 {
      SplitFromWordPrefix(parts[0], [], piece);
      assert parts[0] + [] == parts[0];
    } else {
      var rest := parts[1..];
      SplitFromJoinStep(parts, piece);
      SplitFromJoin(rest, []);
      assert [] + rest[0] == rest[0];
      assert [rest[0]] + rest[1..] == rest;
    }
  }

  /** The first word of a join, and the space after it, close the first field. */
  lemma SplitFromJoinStep(parts: seq<string>, piece: string)
    requires |parts| > 1
    requires forall k :: 0 <= k < |parts| ==> IsWord(parts[k])
    ensures SplitFrom(Join(parts, " "), piece) == [piece + parts[0]] + SplitFrom(Join(parts[1..], " "), [])
  {
    var rest := parts[1..];
    var tail := Join(rest, " ");
    var spaced := " " + tail;
    assert Join(parts, " ") == parts[0] + spaced;
    SplitFromWordPrefix(parts[0], spaced, piece);
    JoinStartsWithFirst(rest, " ");
    assert IsWord(rest[0]);
    assert tail[0] == rest[0][0];
    LStripAfterSpace(tail);
  }

  /** Splitting the single-space join of whitespace-free words gives the words back. */
  lemma SplitJoinRoundTrip(parts: seq<string>)
    requires parts != []
    requires forall k :: 0 <= k < |parts| ==> IsWord(parts[k])
    ensures Split(Join(parts, " ")) == parts
  {
    SplitFromJoin(parts, []);
    assert [] + parts[0] == parts[0];
  }

  // ---------------------------------------------------------------------------
  // Decimal digits: f'{n}' and int(s)

  predicate IsDigit(c: char) {
    '0' <= c <= '9'
  }

  predicate AllDigits(s: string) {
    forall i :: 0 <= i < |s| ==> IsDigit(s[i])
  }

  function DigitChar(d: nat): (c: char)
    requires d < 10
    ensures IsDigit(c)
  {
    (('0' as int) + d) as char
  }

  function DigitValue(c: char): nat
    requires IsDigit(c)
  {
    (c as int) - ('0' as int)
  }

  /** `f'{n}'` for a non-negative int. */
  function NatToString(n: nat): (r: string)
    ensures r != [] && AllDigits(r)
  {
    if n < 10 then [DigitChar(n)] else NatToString(n / 10) + [DigitChar(n % 10)]
  }

  /** `f'{i}'` for any int. */
  function IntToString(i: int): string {
    if i < 0 then "-" + NatToString(-i) else NatToString(i)
  }

  /** `int(s)` for a string of ASCII digits (leading zeros allowed). */
  function DigitsValue(s: string): nat
    requires AllDigits(s)
  {
    if s == [] then 0 else DigitsValue(s[..|s| - 1]) * 10 + DigitValue(s[|s| - 1])
  }

  /** Formatting a number in decimal and reading it back gives the number. */
  lemma {:induction false} DigitsRoundTrip(n: nat)
    ensures DigitsValue(NatToString(n)) == n
    decreases n
  {
    var s := NatToString(n);
    if n >= 10 {
      DigitsRoundTrip(n / 10);
      assert s[..|s| - 1] == NatToString(n / 10);
    }
  }
}
