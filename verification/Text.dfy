/** The Python string operations the program relies on, over sequences of characters. */
module Text {

  /** The characters for which Python's `str.isspace` holds. */
  predicate IsSpace(c: char) {
    var n := c as int;
    || 0x09 <= n <= 0x0d
    || 0x1c <= n <= 0x20
    || n == 0x85
    || n == 0xa0
    || n == 0x1680
    || 0x2000 <= n <= 0x200a
    || n == 0x2028
    || n == 0x2029
    || n == 0x202f
    || n == 0x205f
    || n == 0x3000
  }

  /** Python's 29 white-space characters, by code point. */
  lemma SpacesAre(c: char)
    ensures IsSpace(c)
            <==> c as int in {0x09, 0x0a, 0x0b, 0x0c, 0x0d, 0x1c, 0x1d, 0x1e, 0x1f, 0x20, 0x85, 0xa0, 0x1680,
                              0x2000, 0x2001, 0x2002, 0x2003, 0x2004, 0x2005, 0x2006, 0x2007, 0x2008, 0x2009, 0x200a,
                              0x2028, 0x2029, 0x202f, 0x205f, 0x3000}
  {
  }

  /** `s.lstrip(...)`: drops leading characters that satisfy `p`. */
  function StripLeft(s: string, p: char -> bool): string {
    if s == "" || !p(s[0]) then s else StripLeft(s[1..], p)
  }

  /** `s.rstrip(...)`: drops trailing characters that satisfy `p`. */
  function StripRight(s: string, p: char -> bool): string {
    if s == "" || !p(s[|s| - 1]) then s else StripRight(s[..|s| - 1], p)
  }

  /** `s.strip(...)`. */
  function StripBy(s: string, p: char -> bool): string {
    StripRight(StripLeft(s, p), p)
  }

  function Strip(s: string): string {
    StripBy(s, IsSpace)
  }

  /** True when `p` holds at neither end of `s`. */
  predicate Bare(s: string, p: char -> bool) {
    s != "" ==> !p(s[0]) && !p(s[|s| - 1])
  }

  lemma {:induction false} StripRightPrefix(s: string, p: char -> bool)
    ensures StripRight(s, p) <= s
    ensures forall i :: |StripRight(s, p)| <= i < |s| ==> p(s[i])
    ensures StripRight(s, p) != "" ==> !p(StripRight(s, p)[|StripRight(s, p)| - 1])
  {
    if s != "" && p(s[|s| - 1]) {
      StripRightPrefix(s[..|s| - 1], p);
    }
  }

  lemma {:induction false} StripLeftSuffix(s: string, p: char -> bool)
    ensures |StripLeft(s, p)| <= |s|
    ensures StripLeft(s, p) == s[|s| - |StripLeft(s, p)|..]
    ensures forall i :: 0 <= i < |s| - |StripLeft(s, p)| ==> p(s[i])
    ensures StripLeft(s, p) != "" ==> !p(StripLeft(s, p)[0])
  {
    if s != "" && p(s[0]) {
      var rest := s[1..];
      StripLeftSuffix(rest, p);
      var n := |rest| - |StripLeft(rest, p)|;
      assert StripLeft(s, p) == rest[n..] == s[n + 1..];
    }
  }

  /** Stripping leaves a text that `p` bounds at neither end, and only such a text unchanged. */
  lemma StripByBare(s: string, p: char -> bool)
    ensures Bare(StripBy(s, p), p)
    ensures StripBy(s, p) == s <==> Bare(s, p)
    ensures StripBy(StripBy(s, p), p) == StripBy(s, p)
  {
    StripLeftSuffix(s, p);
    StripRightPrefix(StripLeft(s, p), p);
  }

  /** What is stripped: everything around a text that `p` bounds at neither end, if `p` holds there. */
  lemma StripAround(before: string, core: string, after: string, p: char -> bool)
    requires core != "" && Bare(core, p)
    requires (forall i :: 0 <= i < |before| ==> p(before[i])) && forall i :: 0 <= i < |after| ==> p(after[i])
    ensures StripBy(before + core + after, p) == core
  {
    StripLeftPast(before, core + after, p);
    assert before + core + after == before + (core + after);
    StripRightPast(core, after, p);
  }

  lemma {:induction false} StripLeftPast(before: string, rest: string, p: char -> bool)
    requires forall i :: 0 <= i < |before| ==> p(before[i])
    ensures StripLeft(before + rest, p) == StripLeft(rest, p)
  {
    if before == "" {
      assert before + rest == rest;
    } else {
      assert (before + rest)[1..] == before[1..] + rest;
      StripLeftPast(before[1..], rest, p);
    }
  }

  lemma {:induction false} StripRightPast(core: string, after: string, p: char -> bool)
    requires core != "" && !p(core[|core| - 1])
    requires forall i :: 0 <= i < |after| ==> p(after[i])
    ensures StripRight(core + after, p) == core
  {
    if after == "" {
      assert core + after == core;
    } else {
      assert (core + after)[..|core + after| - 1] == core + after[..|after| - 1];
      StripRightPast(core, after[..|after| - 1], p);
    }
  }

  /** A character outside `p` keeps a text from being stripped to nothing. */
  lemma StripKeeps(s: string, p: char -> bool, i: nat)
    requires i < |s| && !p(s[i])
    ensures StripBy(s, p) != ""
  {
    StripLeftSuffix(s, p);
    StripRightPrefix(StripLeft(s, p), p);
  }

  /** `s.lower()` on the ASCII letters. */
  function Lower(s: string): (r: string)
    ensures |r| == |s|
  {
    seq(|s|, i requires 0 <= i < |s| => if 'A' <= s[i] <= 'Z' then (s[i] as int + 32) as char else s[i])
  }

  /** `s.replace(a, b)` for single characters. */
  function ReplaceChar(s: string, a: char, b: char): (r: string)
    ensures |r| == |s|
    ensures forall i :: 0 <= i < |s| ==> r[i] == if s[i] == a then b else s[i]
  {
    seq(|s|, i requires 0 <= i < |s| => if s[i] == a then b else s[i])
  }

  /** `sep.join(parts)`. */
  function Join(sep: string, parts: seq<string>): string {
    if |parts| == 0 then ""
    else if |parts| == 1 then parts[0]
    else parts[0] + sep + Join(sep, parts[1..])
  }

  /** Decimal rendering of a natural number, as in an f-string. */
  function Decimal(n: nat): (s: string)
    ensures |s| >= 1
  {
    if n < 10 then [Digit(n)] else Decimal(n / 10) + [Digit(n % 10)]
  }

  function Digit(d: nat): (c: char)
    requires d < 10
    ensures '0' <= c <= '9' && c as int - '0' as int == d
  {
    ('0' as int + d) as char
  }

  /** The number a string of decimal digits denotes. */
  function Value(s: string): nat {
    if s == "" then 0 else 10 * Value(s[..|s| - 1]) + DigitValue(s[|s| - 1])
  }

  function DigitValue(c: char): nat {
    if '0' <= c <= '9' then c as int - '0' as int else 0
  }

  lemma {:induction false} DecimalValue(n: nat)
    ensures forall c :: c in Decimal(n) ==> '0' <= c <= '9'
    ensures Value(Decimal(n)) == n
  {
    if n < 10 {
      assert Decimal(n)[..0] == "";
      assert Value("") == 0;
    } else {
      DecimalValue(n / 10);
      assert Decimal(n)[..|Decimal(n)| - 1] == Decimal(n / 10);
    }
  }

  /** A larger number never has a shorter rendering. */
  lemma {:induction false} DecimalMonotone(m: nat, n: nat)
    requires m <= n
    ensures |Decimal(m)| <= |Decimal(n)|
    decreases n
  {
    if n >= 10 && m >= 10 {
      DecimalMonotone(m / 10, n / 10);
    }
  }
}
