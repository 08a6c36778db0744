/**
 * Spreadsheet cells and the one numeric coercion every aggregation uses.
 *
 * A cell of an equipment table holds whatever the workbook held: a number,
 * free text ("indefinite", "$ 2500 per ton"), nothing at all, or a NaN that
 * pandas put in place of a missing float.  `Coerce` is the model of
 * `pd.to_numeric(value, errors="coerce")`: total, never raising, and
 * answering `None` wherever pandas answers NaN.
 */
module Cells {
  import opened Wrappers

  datatype Cell = Num(value: real) | Text(text: string) | Blank | NotANumber

  // ---------------------------------------------------------------------------
  // Decimal digits
  // ---------------------------------------------------------------------------

  predicate IsDigit(c: char) {
    '0' <= c <= '9'
  }

  predicate AllDigits(s: string) {
    forall i :: 0 <= i < |s| ==> IsDigit(s[i])
  }

  function DigitValue(c: char): nat
    requires IsDigit(c)
  {
    (c as int) - ('0' as int)
  }

  function DigitChar(d: nat): (c: char)
    requires d < 10
    ensures IsDigit(c) && DigitValue(c) == d
  {
    ('0' as int + d) as char
  }

  /** The value of a string of decimal digits, most significant first. */
  function DigitsValue(s: string): nat
    requires AllDigits(s)
  {
    if s == [] then 0 else DigitsValue(s[..|s| - 1]) * 10 + DigitValue(s[|s| - 1])
  }

  function Pow10(n: nat): (p: nat)
    ensures p >= 1
  {
    if n == 0 then 1 else 10 * Pow10(n - 1)
  }

  /** Python's `str(n)` for a non-negative integer. */
  function NatToString(n: nat): (s: string)
    ensures |s| >= 1 && AllDigits(s)
    ensures s[0] == '0' ==> n == 0
  {
    if n < 10 then [DigitChar(n)] else NatToString(n / 10) + [DigitChar(n % 10)]
  }

  /** Python's `str(i)` for any integer. */
  function IntToString(i: int): string {
    if i < 0 then "-" + NatToString(-i) else NatToString(i)
  }

  lemma {:induction false} DigitsValueOfNatToString(n: nat)
    ensures DigitsValue(NatToString(n)) == n
  {
    if n >= 10 {
      var p := NatToString(n / 10);
      var s := p + [DigitChar(n % 10)];
      assert s[..|s| - 1] == p;
      DigitsValueOfNatToString(n / 10);
    }
  }

  // ---------------------------------------------------------------------------
  // Parsing numeric text
  // ---------------------------------------------------------------------------

  function IndexOf(s: string, c: char): (r: Option<nat>)
    ensures r.Some? ==> r.value < |s| && s[r.value] == c
    ensures r.Some? ==> forall k :: 0 <= k < r.value ==> s[k] != c
    ensures r.None? ==> forall k :: 0 <= k < |s| ==> s[k] != c
  {
    if s == [] then None
    else if s[0] == c then Some(0)
    else match IndexOf(s[1..], c)
      case None => None
      case Some(i) => Some(i + 1)
  }

  /** An unsigned decimal: digits, optionally a point and more digits, at least one digit. */
  function ParseUnsigned(s: string): Option<real> {
    match IndexOf(s, '.')
    case None =>
      if |s| >= 1 && AllDigits(s) then Some(DigitsValue(s) as real) else None
    case Some(i) =>
      var whole := s[..i];
      var frac := s[i + 1..];
      if AllDigits(whole) && AllDigits(frac) && |whole| + |frac| >= 1
      then Some(DigitsValue(whole) as real + DigitsValue(frac) as real / Pow10(|frac|) as real)
      else None
  }

  /** A decimal with an optional leading sign, as `float()` and `pd.to_numeric` read it. */
  function ParseDecimal(s: string): Option<real> {
    if |s| > 0 && s[0] == '-' then
      match ParseUnsigned(s[1..])
      case None => None
      case Some(v) => Some(-v)
    else if |s| > 0 && s[0] == '+' then ParseUnsigned(s[1..])
    else ParseUnsigned(s)
  }

  /** Rendering an integer and parsing it back yields the same number. */
  lemma IntToStringParses(i: int)
    ensures ParseDecimal(IntToString(i)) == Some(i as real)
  {
    if i < 0 {
      NatToStringParses(-i);
      assert IntToString(i)[1..] == NatToString(-i);
    } else {
      NatToStringParses(i);
    }
  }

  lemma NatToStringParses(n: nat)
    ensures ParseUnsigned(NatToString(n)) == Some(n as real)
    ensures NatToString(n)[0] != '-' && NatToString(n)[0] != '+'
    ensures ParseDecimal(NatToString(n)) == Some(n as real)
  {
    var s := NatToString(n);
    DigitsValueOfNatToString(n);
    assert IndexOf(s, '.') == None;
  }

  predicate NumericChar(c: char) {
    IsDigit(c) || c == '.' || c == '+' || c == '-'
  }

  /** Text holding any character that cannot occur in a number coerces to missing. */
  lemma ForeignCharDoesNotParse(s: string, k: nat)
    requires k < |s| && !NumericChar(s[k])
    ensures ParseDecimal(s) == None
  {
    if |s| > 0 && (s[0] == '-' || s[0] == '+') {
      assert k > 0;
      UnsignedRejectsForeignChar(s[1..], k - 1);
    } else {
      UnsignedRejectsForeignChar(s, k);
    }
  }

  lemma UnsignedRejectsForeignChar(s: string, k: nat)
    requires k < |s| && !NumericChar(s[k])
    ensures ParseUnsigned(s) == None
  {
    match IndexOf(s, '.')
    case None =>
      assert !IsDigit(s[k]);
    case Some(i) =>
      if k < i {
        assert s[..i][k] == s[k];
      } else {
        assert k != i;
        assert s[i + 1..][k - i - 1] == s[k];
      }
  }

  // ---------------------------------------------------------------------------
  // Coercion
  // ---------------------------------------------------------------------------

  /** `pd.to_numeric(value, errors="coerce")`, with NaN read as `None`. */
  function Coerce(c: Cell): (r: Option<real>)
    ensures c.Num? ==> r == Some(c.value)
    ensures c.Blank? || c.NotANumber? ==> r == None
    ensures c.Text? ==> r == ParseDecimal(c.text)
  {
    match c
    case Num(v) => Some(v)
    case Text(t) => ParseDecimal(t)
    case Blank => None
    case NotANumber => None
  }

  /** The contribution of a cell to a coerced column sum: missing counts as zero. */
  function CoerceOrZero(c: Cell): real {
    Coerce(c).GetOr(0.0)
  }

  lemma IndefiniteIsMissing()
    ensures Coerce(Text("indefinite")) == None
    ensures Coerce(Text("$ 2500 per ton")) == None
  {
    ForeignCharDoesNotParse("indefinite", 0);
    ForeignCharDoesNotParse("$ 2500 per ton", 0);
  }

  // ---------------------------------------------------------------------------
  // Text normalisation used for the "indefinite" sentinel
  // ---------------------------------------------------------------------------

  /**
   * The characters `str.isspace()` accepts, which are the ones `str.strip()`
   * removes and `float()` ignores around a number: the ASCII controls \t to
   * \r, the separators \x1c to \x1f, the space, and the Unicode white space
   * (next line, the no-break spaces, the Ogham mark, the en to hair spaces,
   * the line and paragraph separators, the mathematical and ideographic
   * spaces).
   */
  predicate IsSpace(c: char) {
    || '\t' <= c <= '\r'
    || '\U{1C}' <= c <= ' '
    || c == '\U{85}' || c == '\U{A0}' || c == '\U{1680}'
    || '\U{2000}' <= c <= '\U{200A}'
    || c == '\U{2028}' || c == '\U{2029}' || c == '\U{202F}' || c == '\U{205F}' || c == '\U{3000}'
  }

  function StripLeft(s: string): (r: string)
    ensures |r| <= |s| && r == s[|s| - |r|..]
    ensures forall k :: 0 <= k < |s| - |r| ==> IsSpace(s[k])
    ensures r != [] ==> !IsSpace(r[0])
  {
    if s != [] && IsSpace(s[0]) then StripLeft(s[1..]) else s
  }

  function StripRight(s: string): (r: string)
    ensures |r| <= |s| && r == s[..|r|]
    ensures forall k :: |r| <= k < |s| ==> IsSpace(s[k])
    ensures r != [] ==> !IsSpace(r[|r| - 1])
  {
    if s != [] && IsSpace(s[|s| - 1]) then StripRight(s[..|s| - 1]) else s
  }

  /** `r` is the slice of `s` starting at `a`, and everything cut from either end is white space. */
  predicate SliceBetweenSpaces(s: string, a: nat, r: string) {
    && a + |r| <= |s|
    && r == s[a..a + |r|]
    && (forall k :: 0 <= k < a ==> IsSpace(s[k]))
    && (forall k :: a + |r| <= k < |s| ==> IsSpace(s[k]))
  }

  /**
   * `str.strip()`: a slice of the text, with only white space cut from either
   * end and none left at the ends; text that is all white space strips to "".
   */
  function Strip(s: string): (r: string)
    ensures exists a :: SliceBetweenSpaces(s, a, r)
    ensures r != [] ==> !IsSpace(r[0]) && !IsSpace(r[|r| - 1])
    ensures r == [] <==> forall k :: 0 <= k < |s| ==> IsSpace(s[k])
  {
    var left := StripLeft(s);
    var a := |s| - |left|;
    var r := StripRight(left);
    assert r == s[a..a + |r|];
    assert forall k :: a + |r| <= k < |s| ==> s[k] == left[k - a];
    assert SliceBetweenSpaces(s, a, r);
    r
  }

  function LowerChar(c: char): char {
    if 'A' <= c <= 'Z' then (c as int + 32) as char else c
  }

  /** `str.lower()` on ASCII letters. */
  function Lower(s: string): (r: string)
    ensures |r| == |s|
  {
    seq(|s|, i requires 0 <= i < |s| => LowerChar(s[i]))
  }

  /** `lifespan.strip().lower() == "indefinite"`. */
  predicate IsIndefinite(s: string) {
    Lower(Strip(s)) == "indefinite"
  }

  /** Text with no capital letters is its own lower-case form. */
  lemma LowerOfLowercase(s: string)
    requires forall i :: 0 <= i < |s| ==> !('A' <= s[i] <= 'Z')
    ensures Lower(s) == s
  {
  }

  /** Text with no white space at either end is its own stripped form. */
  lemma StripOfTrimmed(s: string)
    requires s != [] && !IsSpace(s[0]) && !IsSpace(s[|s| - 1])
    ensures Strip(s) == s
  {
  }

  lemma IndefiniteSpellings()
    ensures IsIndefinite("indefinite")
    ensures IsIndefinite(" Indefinite\n")
    ensures !IsIndefinite("12")
  {
    PlainIndefinite();
    PaddedIndefinite();
    ShortTextNotIndefinite("12");
  }

  /** Text shorter than the sentinel word cannot spell it. */
  lemma ShortTextNotIndefinite(s: string)
    requires |s| < |"indefinite"|
    ensures !IsIndefinite(s)
  {
  }

  lemma PlainIndefinite()
    ensures IsIndefinite("indefinite")
  {
    TrimmedLowercase("indefinite");
  }

  /** A word with no blanks at its ends and no capitals is its own normal form. */
  lemma TrimmedLowercase(w: string)
    requires w != [] && !IsSpace(w[0]) && !IsSpace(w[|w| - 1])
    requires forall i :: 0 <= i < |w| ==> !('A' <= w[i] <= 'Z')
    ensures Lower(Strip(w)) == w
  {
    StripOfTrimmed(w);
    LowerOfLowercase(w);
  }

  lemma PaddedIndefinite()
    ensures IsIndefinite(" Indefinite\n")
  {
    StripPadded();
    LowerCapitalised();
  }

  /** One blank on either side of trimmed text is stripped off. */
  lemma StripOnePadding(c: char, mid: string, d: char)
    requires IsSpace(c) && IsSpace(d) && mid != [] && !IsSpace(mid[0]) && !IsSpace(mid[|mid| - 1])
    ensures Strip([c] + mid + [d]) == mid
  {
    var s := [c] + mid + [d];
    assert s[1..] == mid + [d];
    assert StripLeft(s) == mid + [d];
    var t := mid + [d];
    assert t[..|t| - 1] == mid;
  }

  lemma StripPadded()
    ensures Strip(" Indefinite\n") == "Indefinite"
  {
    assert " Indefinite\n" == [' '] + "Indefinite" + ['\n'];
    StripOnePadding(' ', "Indefinite", '\n');
  }

  lemma LowerCapitalised()
    ensures Lower("Indefinite") == "indefinite"
  {
    var u := "Indefinite";
    LowerOfLowercase(u[1..]);
    assert Lower(u) == [LowerChar(u[0])] + Lower(u[1..]);
  }

  // ---------------------------------------------------------------------------
  // Integer conversions of reals
  // ---------------------------------------------------------------------------

  /** Python's `int(x)` on a float: truncation toward zero. */
  function Trunc(x: real): (r: int)
    ensures 0.0 <= x ==> 0 <= r && r as real <= x < r as real + 1.0
    ensures x < 0.0 ==> r <= 0 && r as real - 1.0 < x <= r as real
  {
    if x >= 0.0 then x.Floor else -((-x).Floor)
  }

  /** Python's `round(x)`: nearest integer, ties to the even one. */
  function RoundHalfEven(x: real): (r: int)
    ensures -0.5 <= x - r as real <= 0.5
    ensures x - x.Floor as real == 0.5 ==> r % 2 == 0
  {
    var f := x.Floor;
    var d := x - f as real;
    if d < 0.5 then f
    else if d > 0.5 then f + 1
    else if f % 2 == 0 then f else f + 1
  }
}
