/** The pieces of Python's `str` that the report generator relies on:
    `isspace`, `strip`, `lstrip(c)`, `count(c)`, `startswith`, `split(sep)`
    and the decimal form of an integer. Strings are sequences of Unicode
    scalar values, as Python's `str` is. */
module Text {

  /** `c.isspace()` in Python 3, which is also the set a `\s` in a `str`
      regular expression matches: the ASCII controls 9-13 and 28-31, the
      space, NEL, NBSP, and the Unicode space separators. */
  predicate IsSpace(c: char) {
    var n := c as int;
    (9 <= n <= 13) || (28 <= n <= 32) || n == 0x85 || n == 0xA0 || n == 0x1680
    || (0x2000 <= n <= 0x200A) || n == 0x2028 || n == 0x2029 || n == 0x202F
    || n == 0x205F || n == 0x3000
  }

  /** ASCII letters and digits: the class `a-zA-Z0-9`. */
  predicate IsAsciiAlnum(c: char) {
    ('a' <= c <= 'z') || ('A' <= c <= 'Z') || ('0' <= c <= '9')
  }

  predicate StartsWith(s: string, prefix: string) {
    |prefix| <= |s| && s[..|prefix|] == prefix
  }

  predicate EndsWith(s: string, suffix: string) {
    |suffix| <= |s| && s[|s| - |suffix|..] == suffix
  }

  /** Number of leading characters of `s` that are white space. */
  function LeadingSpaces(s: string): (n: nat)
    ensures n <= |s|
    ensures forall k :: 0 <= k < n ==> IsSpace(s[k])
    ensures n < |s| ==> !IsSpace(s[n])
  {
    if s == [] || !IsSpace(s[0]) then 0 else 1 + LeadingSpaces(s[1..])
  }

  /** `s.lstrip()`: the suffix left after dropping leading white space. */
  function LStrip(s: string): (r: string)
    ensures r == s[LeadingSpaces(s)..]
    ensures r != [] ==> !IsSpace(r[0])
  {
    s[LeadingSpaces(s)..]
  }

  /** `s.rstrip()`: the prefix left after dropping trailing white space. */
  function RStrip(s: string): (r: string)
    ensures |r| <= |s| && r == s[..|r|]
    ensures forall k :: |r| <= k < |s| ==> IsSpace(s[k])
    ensures r != [] ==> !IsSpace(r[|r| - 1])
  {
    if s == [] || !IsSpace(s[|s| - 1]) then s else RStrip(s[..|s| - 1])
  }

  /** `s.strip()`: the infix of `s` that starts and ends with a character
      that is not white space, everything around it being white space. */
  function Strip(s: string): (r: string)
    ensures LeadingSpaces(s) + |r| <= |s|
    ensures r == s[LeadingSpaces(s)..LeadingSpaces(s) + |r|]
    ensures forall k :: LeadingSpaces(s) + |r| <= k < |s| ==> IsSpace(s[k])
    ensures r != [] ==> !IsSpace(r[0]) && !IsSpace(r[|r| - 1])
    ensures r == [] <==> forall k :: 0 <= k < |s| ==> IsSpace(s[k])
  {
    RStrip(LStrip(s))
  }

  /** Stripping twice strips nothing more. */
  lemma StripIdempotent(s: string)
    ensures Strip(Strip(s)) == Strip(s)
  {
    var r := Strip(s);
    if r != [] {
      assert LeadingSpaces(r) == 0;
      assert RStrip(r) == r;
    }
  }

  /** A string that neither starts nor ends with white space is its own
      trimmed form. */
  lemma StripUnchanged(s: string)
    requires s != [] ==> !IsSpace(s[0]) && !IsSpace(s[|s| - 1])
    ensures Strip(s) == s
  {
    if s != [] {
      assert LeadingSpaces(s) == 0;
      assert RStrip(s) == s;
    }
  }

  /** `s.lstrip(c)`: the suffix left after dropping every leading `c`. */
  function LStripChar(s: string, c: char): (r: string)
    ensures |r| <= |s| && r == s[|s| - |r|..]
    ensures forall k :: 0 <= k < |s| - |r| ==> s[k] == c
    ensures r != [] ==> r[0] != c
  {
    if s == [] || s[0] != c then s else LStripChar(s[1..], c)
  }

  /** `s.count(c)` for a single character `c`. */
  function Count(s: string, c: char): (n: nat)
    ensures n <= |s|
    ensures n == 0 <==> c !in s
  {
    if s == [] then 0 else (if s[0] == c then 1 else 0) + Count(s[1..], c)
  }

  /** `count` gives the number of occurrences: the multiplicity of `c` in
      the multiset of the characters of `s`. */
  lemma {:induction false} CountIsMultiplicity(s: string, c: char)
    ensures Count(s, c) == multiset(s)[c]
  {
    if s != [] {
      CountIsMultiplicity(s[1..], c);
      assert s == [s[0]] + s[1..];
    }
  }

  /** Index of the first `c` in `s`. */
  function IndexOf(s: string, c: char): (k: nat)
    requires c in s
    ensures k < |s| && s[k] == c && c !in s[..k]
  {
    if s[0] == c then 0 else 1 + IndexOf(s[1..], c)
  }

  /** `s.split(sep)` for a one-character separator: the pieces between
      separators, always at least one, none holding the separator. */
  function Split(s: string, sep: char): (parts: seq<string>)
    ensures |parts| >= 1
    ensures forall k :: 0 <= k < |parts| ==> sep !in parts[k]
    ensures Join(parts, sep) == s
  {
    if sep !in s then [s]
    else
      var k := IndexOf(s, sep);
      var rest := Split(s[k + 1..], sep);
      assert Join([s[..k]] + rest, sep) == s[..k] + [sep] + Join(rest, sep);
      assert s == s[..k] + [sep] + s[k + 1..];
      [s[..k]] + rest
  }

  /** `sep.join(parts)`, the inverse of `Split`. */
  function Join(parts: seq<string>, sep: char): string {
    if |parts| == 0 then []
    else if |parts| == 1 then parts[0]
    else parts[0] + [sep] + Join(parts[1..], sep)
  }

  /** Splitting a joined list of separator-free pieces gives the pieces
      back. */
  lemma {:induction false} SplitJoin(parts: seq<string>, sep: char)
    requires |parts| >= 1
    requires forall k :: 0 <= k < |parts| ==> sep !in parts[k]
    ensures Split(Join(parts, sep), sep) == parts
  {
    if |parts| > 1 {
      JoinFirstSeparator(parts, sep);
      SplitJoin(parts[1..], sep);
      assert parts == [parts[0]] + parts[1..];
    }
  }

  /** In a join of pieces without the separator, the first separator ends
      the first piece. */
  lemma JoinFirstSeparator(parts: seq<string>, sep: char)
    requires |parts| > 1 && sep !in parts[0]
    ensures var s := Join(parts, sep);
            sep in s && IndexOf(s, sep) == |parts[0]|
            && s[..|parts[0]|] == parts[0] && s[|parts[0]| + 1..] == Join(parts[1..], sep)
  {
    var s := Join(parts, sep);
    assert s == parts[0] + [sep] + Join(parts[1..], sep);
    assert s[|parts[0]|] == sep;
    assert s[..|parts[0]|] == parts[0];
  }

  function DigitChar(d: nat): (c: char)
    requires d < 10
    ensures '0' <= c <= '9' && DigitValue(c) == d
  {
    ('0' as int + d) as char
  }

  /** The value of a decimal digit. */
  function DigitValue(c: char): int {
    c as int - '0' as int
  }

  /** The number a string of decimal digits denotes, most significant
      first. */
  function DecimalValue(s: string): int {
    if s == [] then 0 else 10 * DecimalValue(s[..|s| - 1]) + DigitValue(s[|s| - 1])
  }

  /** Decimal digits without a superfluous leading zero. */
  predicate Canonical(s: string) {
    |s| >= 1 && (forall k :: 0 <= k < |s| ==> '0' <= s[k] <= '9') && (|s| > 1 ==> s[0] != '0')
  }

  /** `str(n)` for a natural number: decimal digits, no leading zero, whose
      value is `n`. */
  function NatToString(n: nat): (s: string)
    ensures |s| >= 1
    ensures forall k :: 0 <= k < |s| ==> '0' <= s[k] <= '9'
    ensures |s| > 1 ==> s[0] != '0'
    ensures DecimalValue(s) == n
    decreases n
  {
    if n < 10 then [DigitChar(n)]
    else
      var high := NatToString(n / 10);
      assert high[0] != '0' by {
        if |high| == 1 { assert n / 10 > 0; }
      }
      var s := high + [DigitChar(n % 10)];
      assert s[..|s| - 1] == high;
      s
  }

  /** Reading the digits back: every canonical digit string is the
      `NatToString` of its value, so `NatToString` is one-to-one. */
  lemma {:induction false} NatToStringOfValue(s: string)
    requires Canonical(s)
    ensures DecimalValue(s) >= 0 && NatToString(DecimalValue(s)) == s
    decreases |s|
  {
    if |s| == 1 {
      SingleDigit(s[0]);
      assert s == [s[0]];
    } else {
      var front := s[..|s| - 1];
      var last := s[|s| - 1];
      FrontCanonical(s);
      NatToStringOfValue(front);
      LeadingDigitPositive(front);
      AppendDigit(DecimalValue(front), last);
      assert DecimalValue(s) == 10 * DecimalValue(front) + DigitValue(last);
      assert s == front + [last];
    }
  }

  lemma SingleDigit(c: char)
    requires '0' <= c <= '9'
    ensures DecimalValue([c]) == DigitValue(c) && NatToString(DigitValue(c)) == [c]
  {
    assert [c][..0] == [];
  }

  /** Dropping the last digit of a canonical string of two or more digits
      leaves a canonical string. */
  lemma FrontCanonical(s: string)
    requires Canonical(s) && |s| > 1
    ensures Canonical(s[..|s| - 1])
  {
    var front := s[..|s| - 1];
    assert front[0] == s[0];
    forall k | 0 <= k < |front| ensures '0' <= front[k] <= '9' { assert front[k] == s[k]; }
  }

  /** Appending a digit to the text of a positive number gives the text of
      ten times it plus the digit. */
  lemma AppendDigit(v: nat, c: char)
    requires v >= 1 && '0' <= c <= '9'
    ensures NatToString(10 * v + DigitValue(c)) == NatToString(v) + [c]
  {
    var d := DigitValue(c);
    var n := 10 * v + d;
    assert n / 10 == v && n % 10 == d;
    assert DigitChar(d) == c;
  }

  /** A canonical digit string that does not start with `0` denotes a
      positive number. */
  lemma {:induction false} LeadingDigitPositive(s: string)
    requires Canonical(s) && s[0] != '0'
    ensures DecimalValue(s) >= 1
    decreases |s|
  {
    if |s| == 1 {
      assert s[..0] == [];
    } else {
      var front := s[..|s| - 1];
      assert front[0] == s[0];
      assert Canonical(front) by {
        forall k | 0 <= k < |front| ensures '0' <= front[k] <= '9' { assert front[k] == s[k]; }
      }
      LeadingDigitPositive(front);
    }
  }

  /** `str(i)` for an integer: a minus sign before the digits when it is
      negative; the digits denote the magnitude. */
  function IntToString(i: int): (s: string)
    ensures |s| >= 1
    ensures (s[0] == '-') <==> i < 0
    ensures i < 0 ==> Canonical(s[1..]) && DecimalValue(s[1..]) == -i
    ensures i >= 0 ==> Canonical(s) && DecimalValue(s) == i
  {
    if i < 0 then
      var digits := NatToString(-i);
      assert ("-" + digits)[1..] == digits;
      "-" + digits
    else NatToString(i)
  }

}
