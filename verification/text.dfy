/** String helpers with Python's meaning: decimal digits and `int()`,
    `str(n)` for naturals, `str.lower()` on the characters that matter here,
    `str.endswith`, `str.strip() == ""`, `sep.join(parts)` and truthiness of
    an optional string. */
module Text {
  import opened Wrappers

  // ---------------------------------------------------------------------
  // Decimal digits
  // ---------------------------------------------------------------------

  predicate IsDigit(c: char) {
    '0' <= c <= '9'
  }

  predicate AllDigits(s: string) {
    forall i :: 0 <= i < |s| ==> IsDigit(s[i])
  }

  function DigitValue(c: char): (d: nat)
    requires IsDigit(c)
    ensures d < 10
  {
    (c as int - '0' as int) as nat
  }

  function DigitChar(d: nat): (c: char)
    requires d < 10
    ensures IsDigit(c) && DigitValue(c) == d
  {
    ('0' as int + d) as char
  }

  /** The value Python's `int()` gives a string of ASCII digits: leading
      zeros are allowed and the empty string is never passed in. */
  function DigitsValue(s: string): nat
    requires AllDigits(s)
  {
    if |s| == 0 then 0
    else DigitsValue(s[..|s| - 1]) * 10 + DigitValue(s[|s| - 1])
  }

  function Pow10(k: nat): (p: nat)
    ensures p >= 1
  {
    if k == 0 then 1 else 10 * Pow10(k - 1)
  }

  /** `str(n)` for a natural number: decimal, no leading zero. */
  function NatToString(n: nat): (s: string)
    ensures |s| >= 1 && AllDigits(s)
    ensures s[0] == '0' ==> n == 0
    decreases n
  {
    if n < 10 then [DigitChar(n)] else NatToString(n / 10) + [DigitChar(n % 10)]
  }

  /** Printing a number and reading it back gives the number. */
  lemma {:induction false} NatToStringRoundTrip(n: nat)
    ensures DigitsValue(NatToString(n)) == n
    decreases n
  {
    if n >= 10 {
      var a := NatToString(n / 10);
      var s := a + [DigitChar(n % 10)];
      assert s[..|s| - 1] == a;
      NatToStringRoundTrip(n / 10);
    }
  }

  /** The value of a concatenation of digit strings. */
  lemma {:induction false} DigitsValueConcat(a: string, b: string)
    requires AllDigits(a) && AllDigits(b)
    ensures AllDigits(a + b)
    ensures DigitsValue(a + b) == DigitsValue(a) * Pow10(|b|) + DigitsValue(b)
    decreases |b|
  {
    assert AllDigits(a + b) by {
      forall i | 0 <= i < |a + b| ensures IsDigit((a + b)[i]) {
        if i < |a| { assert (a + b)[i] == a[i]; } else { assert (a + b)[i] == b[i - |a|]; }
      }
    }
    if |b| == 0 {
      assert a + b == a;
    } else {
      var b' := b[..|b| - 1];
      assert (a + b)[..|a + b| - 1] == a + b';
      assert (a + b)[|a + b| - 1] == b[|b| - 1];
      DigitsValueConcat(a, b');
      var x, y, d := DigitsValue(a), DigitsValue(b'), DigitValue(b[|b| - 1]);
      var p := Pow10(|b'|);
      assert DigitsValue(a + b) == DigitsValue(a + b') * 10 + d;
      assert DigitsValue(b) == y * 10 + d;
      assert Pow10(|b|) == p * 10;
      ShiftDigit(x, p, y, d);
    }
  }

  lemma ShiftDigit(x: int, p: int, y: int, d: int)
    ensures (x * p + y) * 10 + d == x * (p * 10) + (y * 10 + d)
  {
  }

  /** A run of zeros. */
  function Zeros(k: nat): (s: string)
    ensures |s| == k && AllDigits(s)
  {
    seq(k, _ => '0')
  }

  lemma {:induction false} ZerosValue(k: nat)
    ensures DigitsValue(Zeros(k)) == 0
    decreases k
  {
    if k > 0 {
      assert Zeros(k)[..k - 1] == Zeros(k - 1);
      ZerosValue(k - 1);
    }
  }

  /** Leading zeros do not change the value `int()` reads. */
  lemma LeadingZeros(k: nat, s: string)
    requires AllDigits(s)
    ensures AllDigits(Zeros(k) + s)
    ensures DigitsValue(Zeros(k) + s) == DigitsValue(s)
  {
    DigitsValueConcat(Zeros(k), s);
    ZerosValue(k);
  }

  // ---------------------------------------------------------------------
  // Letter case, suffixes, blanks, joining
  // ---------------------------------------------------------------------

  /** `c.lower()` on ASCII letters; every other character is left alone. */
  function LowerChar(c: char): char {
    if 'A' <= c <= 'Z' then (c as int + 32) as char else c
  }

  function Lower(s: string): (r: string)
    ensures |r| == |s|
    ensures forall i :: 0 <= i < |s| ==> r[i] == LowerChar(s[i])
  {
    seq(|s|, i requires 0 <= i < |s| => LowerChar(s[i]))
  }

  predicate EndsWith(s: string, suffix: string) {
    |suffix| <= |s| && s[|s| - |suffix|..] == suffix
  }

  /** Case-insensitive `endswith` against a lower-case ASCII suffix, as in
      `f.lower().endswith(suffix)`. */
  predicate EndsWithIgnoringCase(s: string, suffix: string) {
    EndsWith(Lower(s), suffix)
  }

  /** The characters for which Python's `str.isspace()` holds, i.e. the
      characters `str.strip()` removes. */
  predicate IsSpace(c: char) {
    || c == ' ' || c == '\t' || c == '\n' || c == '\r'
    || c == '\U{000B}' || c == '\U{000C}'
    || ('\U{001C}' <= c <= '\U{001F}')
    || c == '\U{0085}' || c == '\U{00A0}' || c == '\U{1680}'
    || ('\U{2000}' <= c <= '\U{200A}')
    || c == '\U{2028}' || c == '\U{2029}' || c == '\U{202F}'
    || c == '\U{205F}' || c == '\U{3000}'
  }

  /** `s.strip() == ""`: the string is empty or all white space. */
  predicate IsBlank(s: string) {
    forall i :: 0 <= i < |s| ==> IsSpace(s[i])
  }

  /** Python truthiness of an optional string: present and non-empty. */
  predicate Truthy(s: Option<string>) {
    s.Some? && |s.value| > 0
  }

  /** `sep.join(parts)`. */
  function Join(sep: string, parts: seq<string>): (r: string)
    ensures |parts| == 0 ==> r == []
    ensures |parts| == 1 ==> r == parts[0]
    decreases |parts|
  {
    if |parts| == 0 then []
    else if |parts| == 1 then parts[0]
    else parts[0] + sep + Join(sep, parts[1..])
  }
}
