/**
 * Decimal text for natural numbers: JavaScript's `n.toString()` and
 * `padStart(2, '0')` for the time readout, and Python's `int(text)` for the
 * scraped star and fork counts.
 */
module Decimal {
  import opened Common

  predicate IsDigit(c: char) { '0' <= c <= '9' }

  function DigitChar(d: nat): char
    requires d < 10
  {
    ['0', '1', '2', '3', '4', '5', '6', '7', '8', '9'][d]
  }

  /** `n.toString()` / `str(n)` for a natural number: no leading zeros. */
  function NatToString(n: nat): string
    decreases n
  {
    if n < 10 then [DigitChar(n)] else NatToString(n / 10) + [DigitChar(n % 10)]
  }

  function DigitValue(c: char): (d: nat)
    requires IsDigit(c)
    ensures d < 10 && DigitChar(d) == c
  {
    (c as int - '0' as int) as nat
  }

  /** The value of a string of decimal digits (most significant first). */
  function DigitsValue(s: string): nat
    requires forall i :: 0 <= i < |s| ==> IsDigit(s[i])
    decreases |s|
  {
    if s == [] then 0
    else DigitsValue(s[..|s| - 1]) * 10 + DigitValue(s[|s| - 1])
  }

  /** `toString` yields at least one character, and only digits. */
  lemma {:induction false} NatToStringDigits(n: nat)
    ensures |NatToString(n)| >= 1
    ensures forall i :: 0 <= i < |NatToString(n)| ==> IsDigit(NatToString(n)[i])
    decreases n
  {
    DigitRoundTrip(n % 10);
    if n >= 10 {
      NatToStringDigits(n / 10);
      var s := NatToString(n);
      var prefix := NatToString(n / 10);
      assert s == prefix + [DigitChar(n % 10)];
      forall i | 0 <= i < |s|
        ensures IsDigit(s[i])
      {
        if i < |prefix| {
          assert s[i] == prefix[i];
        }
      }
    }
  }

  /** Reading the digits of `toString` back gives the number. */
  lemma {:induction false} NatToStringRoundTrip(n: nat)
    ensures |NatToString(n)| >= 1
    ensures forall i :: 0 <= i < |NatToString(n)| ==> IsDigit(NatToString(n)[i])
    ensures DigitsValue(NatToString(n)) == n
    decreases n
  {
    NatToStringDigits(n);
    DigitRoundTrip(n % 10);
    if n >= 10 {
      NatToStringRoundTrip(n / 10);
      var s := NatToString(n);
      assert s[..|s| - 1] == NatToString(n / 10);
      assert DigitsValue(s) == DigitsValue(NatToString(n / 10)) * 10 + DigitValue(s[|s| - 1]);
      assert n == (n / 10) * 10 + n % 10;
    }
  }

  /** Each digit character reads back as its digit. */
  lemma DigitRoundTrip(d: nat)
    requires d < 10
    ensures IsDigit(DigitChar(d)) && DigitValue(DigitChar(d)) == d
  {
  }

  /** A one-digit number prints as one character, a two-digit number as two. */
  lemma NatToStringLength(n: nat)
    ensures n < 10 ==> |NatToString(n)| == 1
    ensures 10 <= n < 100 ==> |NatToString(n)| == 2
  {
  }

  /** `s.padStart(width, '0')` */
  function PadStart(s: string, width: nat): (r: string)
    ensures |r| == if |s| >= width then |s| else width
    ensures r[|r| - |s|..] == s
    ensures forall i :: 0 <= i < |r| - |s| ==> r[i] == '0'
  {
    if |s| >= width then s else seq(width - |s|, _ => '0') + s
  }

  /**
   * The characters Python counts as whitespace (`str.isspace`), which `int()`
   * skips around its text: the ASCII ones, the separators U+001C to U+001F,
   * NEL, the no-break space and the Unicode space separators.
   */
  predicate IsSpace(c: char) {
    c == ' ' || '\t' <= c <= '\r' || '\U{001C}' <= c <= '\U{001F}'
    || c == '\U{0085}' || c == '\U{00A0}' || c == '\U{1680}'
    || '\U{2000}' <= c <= '\U{200A}' || c == '\U{2028}' || c == '\U{2029}'
    || c == '\U{202F}' || c == '\U{205F}' || c == '\U{3000}'
  }

  /** `s.strip()`: the text without its leading and trailing whitespace. */
  function Strip(s: string): (r: string)
    ensures |r| <= |s|
    ensures r != [] ==> !IsSpace(r[0]) && !IsSpace(r[|r| - 1])
    decreases |s|
  {
    if s == [] then s
    else if IsSpace(s[0]) then Strip(s[1..])
    else if IsSpace(s[|s| - 1]) then Strip(s[..|s| - 1])
    else s
  }

  /** `s[i..j]` is `s` with only whitespace before and after it. */
  predicate TrimmedAt(s: string, i: int, j: int) {
    0 <= i <= j <= |s|
    && (forall k :: 0 <= k < i ==> IsSpace(s[k]))
    && (forall k :: j <= k < |s| ==> IsSpace(s[k]))
  }

  lemma TrimmedAtFront(s: string, i: int, j: int)
    requires s != [] && IsSpace(s[0]) && TrimmedAt(s[1..], i, j)
    ensures TrimmedAt(s, i + 1, j + 1) && s[1..][i..j] == s[i + 1..j + 1]
  {
    forall k | 0 < k < |s| ensures s[k] == s[1..][k - 1] { }
  }

  lemma TrimmedAtBack(s: string, i: int, j: int)
    requires s != [] && IsSpace(s[|s| - 1]) && TrimmedAt(s[..|s| - 1], i, j)
    ensures TrimmedAt(s, i, j) && s[..|s| - 1][i..j] == s[i..j]
  {
    forall k | 0 <= k < |s| - 1 ensures s[k] == s[..|s| - 1][k] { }
  }

  /**
   * `Strip` removes only whitespace, and only at the two ends: its result is a
   * slice of the text with nothing but whitespace before and after it.
   */
  lemma {:induction false} StripTrims(s: string)
    ensures exists i, j :: TrimmedAt(s, i, j) && Strip(s) == s[i..j]
    decreases |s|
  {
    if s == [] {
      assert TrimmedAt(s, 0, 0) && Strip(s) == s[0..0];
    } else if IsSpace(s[0]) {
      StripTrims(s[1..]);
      var i, j :| TrimmedAt(s[1..], i, j) && Strip(s[1..]) == s[1..][i..j];
      TrimmedAtFront(s, i, j);
      assert TrimmedAt(s, i + 1, j + 1) && Strip(s) == s[i + 1..j + 1];
    } else if IsSpace(s[|s| - 1]) {
      StripTrims(s[..|s| - 1]);
      var i, j :| TrimmedAt(s[..|s| - 1], i, j) && Strip(s[..|s| - 1]) == s[..|s| - 1][i..j];
      TrimmedAtBack(s, i, j);
      assert TrimmedAt(s, i, j) && Strip(s) == s[i..j];
    } else {
      assert TrimmedAt(s, 0, |s|) && Strip(s) == s[0..|s|];
    }
  }

  predicate AllDigits(s: string) {
    s != [] && forall i :: 0 <= i < |s| ==> IsDigit(s[i])
  }

  /**
   * Python's `int(text)` for base-10 text: surrounding whitespace, an optional
   * sign, then one or more digits; anything else raises `ValueError`.
   */
  function ParseInt(text: string): (r: Result<int>)
    ensures r.Err? ==> r.error == ValueError
  {
    var t := Strip(text);
    if t != [] && (t[0] == '-' || t[0] == '+') && AllDigits(t[1..]) then
      Ok(if t[0] == '-' then -(DigitsValue(t[1..]) as int) else DigitsValue(t[1..]))
    else if AllDigits(t) then Ok(DigitsValue(t))
    else Err(ValueError)
  }

  /** `int(str(n)) == n`: what GitHub prints as a count reads back as that count. */
  lemma ParseIntOfNatToString(n: nat)
    ensures ParseInt(NatToString(n)) == Ok(n)
  {
    NatToStringRoundTrip(n);
    var s := NatToString(n);
    assert Strip(s) == s;
    assert s[0] != '-' && s[0] != '+';
  }

  /**
   * Text that starts with a digit and holds a character that is neither a
   * digit nor whitespace, such as the "1.2k" GitHub prints for large counts,
   * is rejected.
   */
  lemma ParseIntRejectsNonDigit(text: string, p: nat)
    requires text != [] && IsDigit(text[0])
    requires p < |text| && !IsDigit(text[p]) && !IsSpace(text[p])
    ensures ParseInt(text) == Err(ValueError)
  {
    StripTrims(text);
    var i, j :| TrimmedAt(text, i, j) && Strip(text) == text[i..j];
    var t := Strip(text);
    assert !IsSpace(text[0]);
    assert i == 0;
    assert p < j;
    assert t[0] == text[0] && t[p] == text[p];
    assert !AllDigits(t);
  }
}
