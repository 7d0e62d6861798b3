/** `parseFloat`, which the depth reducer applies to every price and quantity
    it compares, filters or sums. Decimal text is read exactly, as a real:
    optional leading white space, an optional sign, digits, and an optional
    fraction. The longest such prefix is read and the rest of the text is
    ignored; text with no digit in that prefix reads as NaN.
 */
module Numbers {
  import opened Js

  predicate IsDigit(c: char) {
    '0' <= c <= '9'
  }

  predicate AllDigits(s: string) {
    forall i :: 0 <= i < |s| ==> IsDigit(s[i])
  }

  /** The white space `parseFloat` skips (the ASCII part of it). */
  predicate IsSpace(c: char) {
    c == ' ' || c == '\t' || c == '\n' || c == '\r' || c == '\U{0B}' || c == '\U{0C}'
  }

  function DigitValue(c: char): nat
    requires IsDigit(c)
  {
    c as int - '0' as int
  }

  function DigitChar(d: nat): (c: char)
    requires d < 10
    ensures IsDigit(c) && DigitValue(c) == d
  {
    ('0' as int + d) as char
  }

  function Pow10(k: nat): (p: nat)
    ensures p > 0
  {
    if k == 0 then 1 else 10 * Pow10(k - 1)
  }

  /** Length of the run of decimal digits at the head of `s`. */
  function DigitRun(s: string): (n: nat)
    ensures n <= |s|
    ensures AllDigits(s[..n])
    ensures n < |s| ==> !IsDigit(s[n])
  {
    if |s| > 0 && IsDigit(s[0]) then
      var m := DigitRun(s[1..]);
      assert s[..m + 1] == [s[0]] + s[1..][..m];
      m + 1
    else 0
  }

  /** The value of a string of decimal digits, most significant first. */
  function DigitsValue(ds: string): nat
    requires AllDigits(ds)
  {
    if ds == [] then 0 else 10 * DigitsValue(ds[..|ds| - 1]) + DigitValue(ds[|ds| - 1])
  }

  /** Some character of `s` is a decimal digit. */
  predicate HasDigit(s: string) {
    exists i :: 0 <= i < |s| && IsDigit(s[i])
  }

  /** Reads `digits [ "." digits ]` at the head of `u`; NaN when there is no
      digit on either side of the point. */
  function ReadMagnitude(u: string): Number {
    var k := DigitRun(u);
    var hasPoint := k < |u| && u[k] == '.';
    var f := if hasPoint then DigitRun(u[k + 1..]) else 0;
    var frac := if hasPoint then DigitsValue(u[k + 1..][..f]) else 0;
    if k == 0 && f == 0 then NaN
    else Finite(DigitsValue(u[..k]) as real + Fraction(frac, f))
  }

  lemma MagnitudeNeedsDigit(u: string)
    requires ReadMagnitude(u).Finite?
    ensures HasDigit(u)
  {
    var k := DigitRun(u);
    if k > 0 {
      assert IsDigit(u[..k][0]);
    } else {
      assert IsDigit(u[k + 1..][..DigitRun(u[k + 1..])][0]);
      assert u[k + 1..][..DigitRun(u[k + 1..])][0] == u[k + 1];
    }
  }

  /** `n / 10^k`, one decimal place at a time. */
  function Fraction(n: nat, k: nat): real {
    if k == 0 then n as real else Fraction(n, k - 1) / 10.0
  }

  function Negate(x: Number): Number {
    match x
    case NaN => NaN
    case Finite(r) => Finite(-r)
  }

  lemma SuffixHasDigit(s: string, n: nat)
    requires n <= |s| && HasDigit(s[n..])
    ensures HasDigit(s)
  {
    var i :| 0 <= i < |s[n..]| && IsDigit(s[n..][i]);
    assert s[n + i] == s[n..][i];
  }

  /** The phases `parseFloat` reads its text in: leading white space, an
      optional sign, then the magnitude. */
  datatype Phase = Spaces | Sign | Digits

  function Rank(phase: Phase): nat {
    match phase
    case Spaces => 2
    case Sign => 1
    case Digits => 0
  }

  /** Reads `s` from the given phase on. */
  function ParseFrom(s: string, phase: Phase): Number
    decreases |s|, Rank(phase)
  {
    match phase
    case Spaces => if |s| > 0 && IsSpace(s[0]) then ParseFrom(s[1..], Spaces) else ParseFrom(s, Sign)
    case Sign =>
      if |s| > 0 && s[0] == '-' then Negate(ParseFrom(s[1..], Digits))
      else if |s| > 0 && s[0] == '+' then ParseFrom(s[1..], Digits)
      else ParseFrom(s, Digits)
    case Digits => ReadMagnitude(s)
  }

  /** `parseFloat(s)` for a string `s`. */
  function ParseDecimal(s: string): Number {
    ParseFrom(s, Spaces)
  }

  lemma {:induction false} ParseFromNeedsDigit(s: string, phase: Phase)
    requires ParseFrom(s, phase).Finite?
    ensures HasDigit(s)
    decreases |s|, Rank(phase)
  {
    match phase
    case Spaces =>
      if |s| > 0 && IsSpace(s[0]) {
        ParseFromNeedsDigit(s[1..], Spaces);
        SuffixHasDigit(s, 1);
      } else {
        ParseFromNeedsDigit(s, Sign);
      }
    case Sign =>
      if |s| > 0 && (s[0] == '-' || s[0] == '+') {
        ParseFromNeedsDigit(s[1..], Digits);
        SuffixHasDigit(s, 1);
      } else {
        ParseFromNeedsDigit(s, Digits);
      }
    case Digits =>
      MagnitudeNeedsDigit(s);
  }

  /** Text with no decimal digit at all reads as NaN. */
  lemma ParseDecimalNeedsDigit(s: string)
    requires ParseDecimal(s).Finite?
    ensures HasDigit(s)
  {
    ParseFromNeedsDigit(s, Spaces);
  }

  /** Converting `v` to text throws a TypeError. A parsed object with its
      own `toString` key has no callable `toString` (a JSON value is never a
      function), and the `valueOf` it is left with returns the object
      itself, so no primitive is reached. An array is converted by joining
      its elements' text, so it throws when one of its elements does. */
  predicate ToStringThrows(v: Value) {
    match v
    case Obj(fields) => "toString" in fields
    case Arr(items) => exists i :: 0 <= i < |items| && ToStringThrows(items[i])
    case _ => false
  }

  /** `parseFloat(v)` for a value whose conversion to text does not throw.
      A number converts to text that reads back as itself. An array converts
      to its elements joined by ",", where the comma stops the reading, so
      it reads as its first element. `undefined`, `null`, booleans and
      objects without their own `toString` convert to text with no digit. */
  function ParseFloat(v: Value): (r: Number)
    ensures v.Num? ==> r == Finite(v.n)
    ensures r.Finite? ==> v.Num? || v.Str? || v.Arr?
  {
    match v
    case Num(n) => Finite(n)
    case Str(s) => ParseDecimal(s)
    case Arr(items) => if |items| == 0 then NaN else ParseFloat(items[0])
    case _ => NaN
  }

  // ---------------------------------------------------------------------
  // A printer for fixed-point decimal text, the form the exchange uses for
  // prices and quantities ("65000.12000000"), and its round trip.

  /** Decimal text of `n` without leading zeros. */
  function NatText(n: nat): (s: string)
    ensures |s| > 0 && AllDigits(s)
  {
    if n < 10 then [DigitChar(n)] else NatText(n / 10) + [DigitChar(n % 10)]
  }

  /** The `k` low-order decimal digits of `n`, zero-padded. */
  function PaddedText(n: nat, k: nat): (s: string)
    ensures |s| == k && AllDigits(s)
  {
    if k == 0 then [] else PaddedText(n / 10, k - 1) + [DigitChar(n % 10)]
  }

  /** Text of the number `whole + fraction / 10^scale`, negated when
      `negative`, with exactly `scale` fraction digits. */
  function DecimalText(negative: bool, whole: nat, fraction: nat, scale: nat): string
    requires fraction < Pow10(scale)
  {
    (if negative then ['-'] else []) + UnsignedText(whole, fraction, scale)
  }

  /** The text of `whole + fraction / 10^scale`, which starts with a digit. */
  function UnsignedText(whole: nat, fraction: nat, scale: nat): (s: string)
    ensures |s| > 0 && IsDigit(s[0])
  {
    var digits := NatText(whole);
    assert IsDigit(digits[0]);
    digits + (if scale == 0 then "" else "." + PaddedText(fraction, scale))
  }

  function Magnitude(whole: nat, fraction: nat, scale: nat): real {
    whole as real + Fraction(fraction, scale)
  }

  function DecimalValue(negative: bool, whole: nat, fraction: nat, scale: nat): real {
    if negative then -Magnitude(whole, fraction, scale) else Magnitude(whole, fraction, scale)
  }

  lemma {:induction false} NatTextValue(n: nat)
    ensures DigitsValue(NatText(n)) == n
  {
    if n >= 10 {
      var s := NatText(n);
      assert s[..|s| - 1] == NatText(n / 10);
      NatTextValue(n / 10);
    }
  }

  lemma {:induction false} PaddedTextValue(n: nat, k: nat)
    requires n < Pow10(k)
    ensures DigitsValue(PaddedText(n, k)) == n
  {
    if k > 0 {
      var s := PaddedText(n, k);
      var q, d := n / 10, n % 10;
      assert n == 10 * q + d;
      assert q < Pow10(k - 1);
      assert s[..|s| - 1] == PaddedText(q, k - 1);
      assert DigitValue(s[|s| - 1]) == d;
      PaddedTextValue(q, k - 1);
    }
  }

  /** A digit run ends where the digits end. */
  lemma {:induction false} DigitRunOfDigits(ds: string, rest: string)
    requires AllDigits(ds)
    requires rest == [] || !IsDigit(rest[0])
    ensures DigitRun(ds + rest) == |ds|
  {
    if ds != [] {
      assert (ds + rest)[1..] == ds[1..] + rest;
      DigitRunOfDigits(ds[1..], rest);
    }
  }

  /** `ReadMagnitude` of text whose whole part is `k` digits followed by a
      point and `f` fraction digits. */
  lemma ReadWithPoint(u: string, k: nat, f: nat)
    requires 0 < k < |u| && DigitRun(u) == k && u[k] == '.' && DigitRun(u[k + 1..]) == f
    ensures ReadMagnitude(u) == Finite(DigitsValue(u[..k]) as real + Fraction(DigitsValue(u[k + 1..][..f]), f))
  {
  }

  /** `ReadMagnitude` of text that is all digits. */
  lemma ReadWithoutPoint(u: string)
    requires |u| > 0 && AllDigits(u) && DigitRun(u) == |u|
    ensures ReadMagnitude(u) == Finite(DigitsValue(u) as real + Fraction(0, 0))
  {
    assert u[..|u|] == u;
  }

  /** The pieces of `digits "." pad`. */
  lemma PointedTextParts(digits: string, pad: string)
    requires |digits| > 0 && AllDigits(digits) && AllDigits(pad)
    ensures var u := digits + "." + pad;
      && DigitRun(u) == |digits| && u[..|digits|] == digits && u[|digits|] == '.'
      && u[|digits| + 1..] == pad
  {
    var u := digits + "." + pad;
    DigitRunOfDigits(digits, "." + pad);
    assert u == digits + ("." + pad);
    assert u[|digits| + 1..] == pad;
  }

  /** Reading `digits [ "." pad ]` gives the digits' value plus the
      padded fraction. */
  lemma ReadMagnitudeOf(digits: string, pad: string)
    requires |digits| > 0 && AllDigits(digits) && AllDigits(pad)
    ensures ReadMagnitude(digits + (if |pad| == 0 then "" else "." + pad))
         == Finite(DigitsValue(digits) as real + Fraction(DigitsValue(pad), |pad|))
  {
    if |pad| > 0 {
      var u := digits + "." + pad;
      assert digits + (if |pad| == 0 then "" else "." + pad) == u;
      PointedTextParts(digits, pad);
      DigitRunOfDigits(pad, []);
      assert pad + [] == pad;
      assert pad[..|pad|] == pad;
      ReadWithPoint(u, |digits|, |pad|);
    } else {
      assert digits + "" == digits;
      DigitRunOfDigits(digits, []);
      assert digits + [] == digits;
      ReadWithoutPoint(digits);
      assert DigitsValue(pad) == 0;
    }
  }

  lemma MagnitudeOfText(whole: nat, fraction: nat, scale: nat)
    requires fraction < Pow10(scale)
    ensures ReadMagnitude(UnsignedText(whole, fraction, scale)) == Finite(Magnitude(whole, fraction, scale))
  {
    var digits := NatText(whole);
    var pad := PaddedText(fraction, scale);
    assert UnsignedText(whole, fraction, scale) == digits + (if |pad| == 0 then "" else "." + pad);
    ReadMagnitudeOf(digits, pad);
    NatTextValue(whole);
    PaddedTextValue(fraction, scale);
  }

  lemma ParseUnsigned(s: string)
    requires |s| > 0 && IsDigit(s[0])
    ensures ParseDecimal(s) == ReadMagnitude(s)
  {
    assert ParseFrom(s, Spaces) == ParseFrom(s, Sign) == ParseFrom(s, Digits);
  }

  lemma ParseNegative(s: string, u: string)
    requires |u| > 0 && IsDigit(u[0])
    requires s == ['-'] + u
    ensures ParseDecimal(s) == Negate(ReadMagnitude(u))
  {
    assert s[1..] == u;
    assert ParseFrom(s, Spaces) == ParseFrom(s, Sign) == Negate(ParseFrom(u, Digits));
  }

  lemma SignedRoundTrip(s: string, u: string, m: real)
    requires |u| > 0 && IsDigit(u[0]) && ReadMagnitude(u) == Finite(m)
    requires s == ['-'] + u
    ensures ParseDecimal(s) == Finite(-m)
  {
    ParseNegative(s, u);
  }

  lemma UnsignedTextRoundTrip(whole: nat, fraction: nat, scale: nat)
    requires fraction < Pow10(scale)
    ensures ParseDecimal(UnsignedText(whole, fraction, scale)) == Finite(Magnitude(whole, fraction, scale))
  {
    MagnitudeOfText(whole, fraction, scale);
    ParseUnsigned(UnsignedText(whole, fraction, scale));
  }

  lemma NegativeTextRoundTrip(whole: nat, fraction: nat, scale: nat)
    requires fraction < Pow10(scale)
    ensures ParseDecimal(['-'] + UnsignedText(whole, fraction, scale)) == Finite(-Magnitude(whole, fraction, scale))
  {
    var u := UnsignedText(whole, fraction, scale);
    MagnitudeOfText(whole, fraction, scale);
    SignedRoundTrip(['-'] + u, u, Magnitude(whole, fraction, scale));
  }

  /** Reading the printed text of a decimal number gives back that number. */
  lemma DecimalTextRoundTrip(negative: bool, whole: nat, fraction: nat, scale: nat)
    requires fraction < Pow10(scale)
    ensures ParseDecimal(DecimalText(negative, whole, fraction, scale))
         == Finite(DecimalValue(negative, whole, fraction, scale))
  {
    var u := UnsignedText(whole, fraction, scale);
    if negative {
      assert DecimalText(negative, whole, fraction, scale) == ['-'] + u;
      NegativeTextRoundTrip(whole, fraction, scale);
    } else {
      assert DecimalText(negative, whole, fraction, scale) == [] + u == u;
      UnsignedTextRoundTrip(whole, fraction, scale);
    }
  }
}
