/** Python's `float(s)` on the strings a chat message can hand it, restricted to
    plain decimal notation: an optional sign, digits, an optional point and
    digits, with at least one digit. The value is the exact decimal. */
module Amount {

  import opened Wrappers

  predicate IsDigit(c: char) {
    '0' <= c <= '9'
  }

  predicate AllDigits(s: string) {
    forall i :: 0 <= i < |s| ==> IsDigit(s[i])
  }

  /** The characters a decimal literal may contain. */
  predicate IsAmountChar(c: char) {
    IsDigit(c) || c == '.' || c == '+' || c == '-'
  }

  /** An ASCII character that no literal Python's `float()` accepts can hold:
      not a digit, letter, point, sign, `_` or whitespace (`,`, `/`, `$`, ...). */
  predicate FloatRejects(c: char) {
    c < '\U{80}' && !IsAmountChar(c) && !('a' <= c <= 'z') && !('A' <= c <= 'Z') && c != '_' &&
    c != ' ' && !('\t' <= c <= '\r') && !('\U{1C}' <= c <= '\U{1F}')
  }

  function DigitValue(c: char): (d: nat)
    requires IsDigit(c)
    ensures d < 10
  {
    c as int - '0' as int
  }

  function DigitChar(d: nat): (c: char)
    requires d < 10
    ensures IsDigit(c) && DigitValue(c) == d
  {
    ('0' as int + d) as char
  }

  /** The value of a run of decimal digits, most significant digit first. */
  function DigitsValue(s: string): nat
    requires AllDigits(s)
  {
    if s == [] then 0 else DigitsValue(s[..|s| - 1]) * 10 + DigitValue(s[|s| - 1])
  }

  function Pow10(n: nat): (p: nat)
    ensures p >= 1
  {
    if n == 0 then 1 else 10 * Pow10(n - 1)
  }

  /** `s.find(c)` for one character, as an option. */
  function IndexOf(s: string, c: char): (r: Option<nat>)
    ensures r.Some? ==> r.value < |s| && s[r.value] == c && c !in s[..r.value]
    ensures r.None? ==> c !in s
  {
    if s == [] then None
    else if s[0] == c then Some(0)
    else match IndexOf(s[1..], c)
      case None => None
      case Some(i) =>
        assert s[..i + 1] == [s[0]] + s[1..][..i];
        Some(i + 1)
  }

  /** An unsigned literal: `digits`, `digits.`, `.digits` or `digits.digits`. */
  function ParseUnsigned(s: string): (r: Option<real>)
    ensures r.Some? ==> r.value >= 0.0
  {
    match IndexOf(s, '.')
    case None =>
      if s != [] && AllDigits(s) then Some(DigitsValue(s) as real) else None
    case Some(d) =>
      var whole, frac := s[..d], s[d + 1..];
      if (whole != [] || frac != []) && AllDigits(whole) && AllDigits(frac)
      then Some(PointValue(whole, frac))
      else None
  }

  /** The value of `whole.frac`: the whole part plus the fraction scaled by its length. */
  function PointValue(whole: string, frac: string): (v: real)
    requires AllDigits(whole) && AllDigits(frac)
    ensures v >= 0.0
  {
    DigitsValue(whole) as real + DigitsValue(frac) as real / Pow10(|frac|) as real
  }

  /** `float(s)`, with `None` standing for the `ValueError` it raises. */
  function ParseAmount(s: string): (r: Option<real>)
    ensures s == [] ==> r.None?
    ensures r.Some? ==> forall i :: 0 <= i < |s| ==> IsAmountChar(s[i])
    ensures r.Some? && r.value < 0.0 ==> s[0] == '-'
  {
    if s != [] && (s[0] == '+' || s[0] == '-') then
      match ParseUnsigned(s[1..])
      case Some(v) => Some(if s[0] == '-' then -v else v)
      case None => None
    else
      ParseUnsigned(s)
  }

  /** The decimal notation of a natural number, as Python's `str(n)` writes it. */
  function DecimalString(n: nat): (s: string)
    ensures s != [] && AllDigits(s)
  {
    if n < 10 then [DigitChar(n)] else DecimalString(n / 10) + [DigitChar(n % 10)]
  }

  lemma {:induction false} DigitsOfDecimal(n: nat)
    ensures DigitsValue(DecimalString(n)) == n
  {
    if n >= 10 {
      var s := DecimalString(n);
      assert s[..|s| - 1] == DecimalString(n / 10);
      DigitsOfDecimal(n / 10);
    }
  }

  /** `float(str(n)) == n` */
  lemma ParseDecimal(n: nat)
    ensures ParseAmount(DecimalString(n)) == Some(n as real)
  {
    var s := DecimalString(n);
    assert s[0] != '+' && s[0] != '-' by { assert IsDigit(s[0]); }
    assert IndexOf(s, '.') == None by { assert '.' !in s; }
    DigitsOfDecimal(n);
  }

  /** A leading sign is honoured, so negative amounts are accepted as they are. */
  lemma ParseSigned(n: nat)
    ensures ParseAmount("-" + DecimalString(n)) == Some(-(n as real))
    ensures ParseAmount("+" + DecimalString(n)) == Some(n as real)
  {
    var s := DecimalString(n);
    assert ("-" + s)[1..] == s;
    assert ("+" + s)[1..] == s;
    ParseDecimal(n);
  }

  /** Two digits for a number of paise, `05` for 5. */
  function CentsString(c: nat): (s: string)
    requires c < 100
    ensures |s| == 2 && AllDigits(s)
  {
    [DigitChar(c / 10), DigitChar(c % 10)]
  }

  /** `float("n.cc") == n + cc/100`, the form amounts are shown in. */
  lemma ParseWithCents(n: nat, c: nat)
    requires c < 100
    ensures ParseAmount(DecimalString(n) + "." + CentsString(c)) == Some(n as real + c as real / 100.0)
  {
    var w, f := DecimalString(n), CentsString(c);
    UnsignedWithPoint(w, f);
    DigitsOfDecimal(n);
    CentsValue(c);
    TwoPlaces(w, f, n, c);
  }

  /** Digits, a point and digits read as the whole part plus the scaled fraction. */
  lemma UnsignedWithPoint(w: string, f: string)
    requires w != [] && AllDigits(w) && AllDigits(f)
    ensures ParseAmount(w + "." + f) == Some(PointValue(w, f))
  {
    var s := w + "." + f;
    assert s[0] != '+' && s[0] != '-' by { assert s[0] == w[0] && IsDigit(w[0]); }
    UnsignedAmount(s);
    PointSplit(w, f);
    UnsignedSplit(s, w, f);
  }

  /** Two fraction digits scale by 100. */
  lemma TwoPlaces(w: string, f: string, n: nat, c: nat)
    requires AllDigits(w) && AllDigits(f) && |f| == 2 && DigitsValue(w) == n && DigitsValue(f) == c
    ensures PointValue(w, f) == n as real + c as real / 100.0
  {
    assert Pow10(|f|) == 100;
  }

  /** Without a sign, `float()` reads the whole text as an unsigned literal. */
  lemma UnsignedAmount(s: string)
    requires s != [] && s[0] != '+' && s[0] != '-'
    ensures ParseAmount(s) == ParseUnsigned(s)
  {
  }

  /** An unsigned literal read around its first point. */
  lemma UnsignedSplit(s: string, w: string, f: string)
    requires IndexOf(s, '.') == Some(|w|) && s[..|w|] == w && s[|w| + 1..] == f
    requires w != [] && AllDigits(w) && AllDigits(f)
    ensures ParseUnsigned(s) == Some(PointValue(w, f))
  {
  }

  /** The point of `w + "." + f` is the one after the digits `w`. */
  lemma PointSplit(w: string, f: string)
    requires AllDigits(w)
    ensures IndexOf(w + "." + f, '.') == Some(|w|)
    ensures (w + "." + f)[..|w|] == w && (w + "." + f)[|w| + 1..] == f
  {
    var s := w + "." + f;
    assert '.' !in w;
    assert s[|w|] == '.';
    assert s[..|w|] == w;
    assert s[|w| + 1..] == f;
  }

  /** The two digits of `CentsString(c)` read back as `c`. */
  lemma CentsValue(c: nat)
    requires c < 100
    ensures DigitsValue(CentsString(c)) == c
  {
    var f := CentsString(c);
    assert f[..1] == [DigitChar(c / 10)];
    assert f[..1][..0] == [];
    assert DigitsValue(f[..1]) == c / 10;
  }
}
