/** The JavaScript string and number built-ins the application relies on,
    restricted to what it uses: blankness after `trim`, ASCII `toLowerCase`,
    `includes`, `join`, `Number#toString`, `padStart(2, '0')`,
    `parseInt(s, 10)` and the ordering `localeCompare` gives to "HH:MM"
    strings. */
module Text {
  import opened Wrappers

  // ---------------------------------------------------------------------
  // trim
  // ---------------------------------------------------------------------

  /** The characters `String.prototype.trim` removes: ECMAScript WhiteSpace
      and LineTerminator code points. */
  predicate IsWhitespace(c: char) {
    || c == ' ' || c == '\t' || c == '\n' || c == '\r'
    || c as int == 0x0B || c as int == 0x0C || c as int == 0xA0
    || c as int == 0x1680 || (0x2000 <= c as int <= 0x200A)
    || c as int == 0x2028 || c as int == 0x2029 || c as int == 0x202F
    || c as int == 0x205F || c as int == 0x3000 || c as int == 0xFEFF
  }

  /** `s.trim()` is the empty string, i.e. `!s.trim()` holds. */
  predicate IsBlank(s: string) {
    forall i | 0 <= i < |s| :: IsWhitespace(s[i])
  }

  /** Leading whitespace dropped, as `parseInt` does before reading digits. */
  function TrimStart(s: string): (r: string)
    ensures |r| <= |s| && r == s[|s| - |r|..]
    ensures r == [] || !IsWhitespace(r[0])
    ensures IsBlank(s) <==> r == []
  {
    if s != [] && IsWhitespace(s[0]) then TrimStart(s[1..]) else s
  }

  // ---------------------------------------------------------------------
  // toLowerCase, restricted to ASCII letters
  // ---------------------------------------------------------------------

  function LowerChar(c: char): char {
    if 'A' <= c <= 'Z' then (c as int + 32) as char else c
  }

  function Lower(s: string): string {
    seq(|s|, i requires 0 <= i < |s| => LowerChar(s[i]))
  }

  lemma WhitespaceIgnoresCase(c: char)
    ensures IsWhitespace(LowerChar(c)) <==> IsWhitespace(c)
  {
  }

  /** Two strings with the same lower-case form are blank together. */
  lemma BlankIgnoresCase(s: string, t: string)
    requires Lower(s) == Lower(t)
    ensures IsBlank(s) <==> IsBlank(t)
  {
    assert |s| == |Lower(s)| == |t|;
    forall i | 0 <= i < |s|
      ensures IsWhitespace(s[i]) <==> IsWhitespace(t[i])
    {
      assert Lower(s)[i] == Lower(t)[i];
      WhitespaceIgnoresCase(s[i]);
      WhitespaceIgnoresCase(t[i]);
    }
  }

  // ---------------------------------------------------------------------
  // includes
  // ---------------------------------------------------------------------

  /** `text.includes(pattern)`. */
  function Contains(text: string, pattern: string): bool
    decreases |text|
  {
    pattern <= text || (|text| > 0 && Contains(text[1..], pattern))
  }

  /** `pattern` occurs in `text` starting at index `i`. */
  predicate OccursAt(text: string, pattern: string, i: nat) {
    i + |pattern| <= |text| && text[i..i + |pattern|] == pattern
  }

  /** `Contains` finds exactly the occurrences of `pattern` in `text`. */
  lemma {:induction false} ContainsIff(text: string, pattern: string)
    ensures Contains(text, pattern) <==> exists i: nat :: OccursAt(text, pattern, i)
    decreases |text|
  {
    if pattern <= text {
      assert OccursAt(text, pattern, 0);
    } else if |text| > 0 {
      ContainsIff(text[1..], pattern);
      if Contains(text, pattern) {
        var i: nat :| OccursAt(text[1..], pattern, i);
        assert OccursAt(text, pattern, i + 1);
      }
      if exists i: nat :: OccursAt(text, pattern, i) {
        var i: nat :| OccursAt(text, pattern, i);
        assert !OccursAt(text, pattern, 0);
        assert OccursAt(text[1..], pattern, i - 1);
      }
    }
  }

  // ---------------------------------------------------------------------
  // join
  // ---------------------------------------------------------------------

  /** `parts.join(sep)`. */
  function Join(parts: seq<string>, sep: string): string {
    if |parts| == 0 then ""
    else if |parts| == 1 then parts[0]
    else parts[0] + sep + Join(parts[1..], sep)
  }

  /** With a non-empty separator the join is empty (falsy) exactly for no
      parts or a single empty part. */
  lemma JoinIsEmptyIff(parts: seq<string>, sep: string)
    requires sep != ""
    ensures Join(parts, sep) == "" <==> |parts| == 0 || (|parts| == 1 && parts[0] == "")
  {
    if |parts| > 1 {
      assert |Join(parts, sep)| >= |sep|;
    }
  }

  // ---------------------------------------------------------------------
  // Numbers: toString, padStart, parseInt, truncating remainder
  // ---------------------------------------------------------------------

  predicate IsDigit(c: char) {
    '0' <= c <= '9'
  }

  predicate AllDigits(s: string) {
    forall i | 0 <= i < |s| :: IsDigit(s[i])
  }

  function DigitChar(d: nat): (c: char)
    requires d < 10
    ensures IsDigit(c)
  {
    (48 + d) as char
  }

  /** `n.toString()` for a non-negative integer. */
  function NatToString(n: nat): string
  {
    if n < 10 then [DigitChar(n)] else NatToString(n / 10) + [DigitChar(n % 10)]
  }

  /** `i.toString()` for an integer. */
  function IntToString(i: int): string {
    if i < 0 then "-" + NatToString(-i) else NatToString(i)
  }

  /** The value of a string of decimal digits. */
  function DigitsValue(s: string): nat
    requires AllDigits(s)
  {
    if s == [] then 0 else DigitsValue(s[..|s| - 1]) * 10 + (s[|s| - 1] as int - 48)
  }

  /** Reading back what `NatToString` prints gives the number again. */
  lemma {:induction false} NatToStringRoundTrip(n: nat)
    ensures AllDigits(NatToString(n)) && DigitsValue(NatToString(n)) == n
    ensures n < 10 ==> |NatToString(n)| == 1
    ensures 10 <= n < 100 ==> |NatToString(n)| == 2
    ensures |NatToString(n)| >= 1
    decreases n
  {
    if n >= 10 {
      NatToStringRoundTrip(n / 10);
      var s := NatToString(n);
      assert s[..|s| - 1] == NatToString(n / 10);
    }
  }

  /** `s.padStart(2, '0')`. */
  function PadStart2(s: string): string {
    if |s| >= 2 then s else if |s| == 1 then "0" + s else "00"
  }

  /** `n.toString().padStart(2, '0')`. */
  function TwoDigits(n: nat): (r: string)
    ensures |r| >= 2
    ensures n < 100 ==> |r| == 2
  {
    NatToStringRoundTrip(n);
    PadStart2(NatToString(n))
  }

  /** Below 100 the padded text is two digits that read back as `n`. */
  lemma TwoDigitsRoundTrip(n: nat)
    requires n < 100
    ensures |TwoDigits(n)| == 2 && AllDigits(TwoDigits(n)) && DigitsValue(TwoDigits(n)) == n
  {
    NatToStringRoundTrip(n);
    if n < 10 {
      assert TwoDigits(n) == "0" + NatToString(n);
      LeadingZero(NatToString(n));
    }
  }

  /** A leading zero does not change the value of a digit string. */
  lemma {:induction false} LeadingZero(s: string)
    requires AllDigits(s)
    ensures AllDigits("0" + s) && DigitsValue("0" + s) == DigitsValue(s)
    decreases |s|
  {
    if s != [] {
      LeadingZero(s[..|s| - 1]);
      assert ("0" + s)[..|s|] == "0" + s[..|s| - 1];
    }
  }

  /** The longest prefix made of decimal digits. */
  function LeadingDigits(s: string): (r: string)
    ensures AllDigits(r) && r <= s
    ensures |r| < |s| ==> !IsDigit(s[|r|])
  {
    if s != [] && IsDigit(s[0]) then [s[0]] + LeadingDigits(s[1..]) else []
  }

  /** `parseInt(s, 10)`: leading whitespace, an optional sign, then the
      longest run of digits; `None` stands for NaN. */
  function ParseInt(s: string): Option<int> {
    var t := TrimStart(s);
    var negative := |t| > 0 && t[0] == '-';
    var u := if |t| > 0 && (t[0] == '-' || t[0] == '+') then t[1..] else t;
    var digits := LeadingDigits(u);
    var value: int := DigitsValue(digits);
    if digits == [] then None
    else if negative then Some(-value)
    else Some(value)
  }

  /** A non-empty digit string parses to its value. */
  lemma ParseDigits(s: string)
    requires s != [] && AllDigits(s)
    ensures ParseInt(s) == Some(DigitsValue(s))
  {
    assert TrimStart(s) == s;
    assert LeadingDigits(s) == s by {
      var r := LeadingDigits(s);
      assert |r| <= |s|;
    }
  }

  /** JavaScript's `%` on integers: the remainder takes the sign of the
      dividend. */
  function TruncRem(a: int, b: nat): int
    requires b > 0
  {
    if a >= 0 then a % b else -((-a) % b)
  }

  // ---------------------------------------------------------------------
  // Ordering
  // ---------------------------------------------------------------------

  /** Lexicographic order on code points (a `char` is a Unicode scalar
      value): `a.localeCompare(b) <= 0` on the digit-and-colon strings the
      alarms hold. */
  predicate LexLessEq(a: string, b: string) {
    if a == [] then true
    else if b == [] then false
    else if a[0] != b[0] then a[0] < b[0]
    else LexLessEq(a[1..], b[1..])
  }

  lemma {:induction false} LexReflexive(a: string)
    ensures LexLessEq(a, a)
    decreases |a|
  {
    if a != [] {
      LexReflexive(a[1..]);
    }
  }

  lemma {:induction false} LexTotal(a: string, b: string)
    ensures LexLessEq(a, b) || LexLessEq(b, a)
    decreases |a|
  {
    if a != [] && b != [] && a[0] == b[0] {
      LexTotal(a[1..], b[1..]);
    }
  }

  lemma {:induction false} LexTransitive(a: string, b: string, c: string)
    requires LexLessEq(a, b) && LexLessEq(b, c)
    ensures LexLessEq(a, c)
    decreases |a|
  {
    if a != [] && b != [] && c != [] && a[0] == b[0] == c[0] {
      LexTransitive(a[1..], b[1..], c[1..]);
    }
  }

}
