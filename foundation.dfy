/**
 * The platform values the renderers work with: optionals, edge insets and
 * sizes, URLs, text alignment, fonts and colours as opaque tokens, attributed
 * text, and the few string operations of the standard library the core relies
 * on (prefix tests, lower-casing, decimal formatting and parsing).
 */
module Foundation {

  datatype Option<+T> = None | Some(value: T) {
    /** The `??` operator: the wrapped value, or `default` when there is none. */
    function GetOr(default: T): T {
      match this
      case Some(v) => v
      case None => default
    }
  }

  /** UIEdgeInsets, in points. */
  datatype Insets = Insets(top: real, left: real, bottom: real, right: real)

  /** UIEdgeInsets.zero */
  const ZeroInsets := Insets(0.0, 0.0, 0.0, 0.0)

  /** CGSize */
  datatype Size = Size(width: real, height: real)

  const ZeroSize := Size(0.0, 0.0)

  /** CGFloat.greatestFiniteMagnitude, (2 - 2^-52) * 2^1023, written out. */
  const GreatestFiniteMagnitude: real := 179769313486231570814527423731704356798070567525844996598917476803157260780028538760589558632766878171540458953514382464234321326889464182768467546703537516986049910576551282076245490090389328944075868508455133942304583236903222948165808559332123348274797826204144723168738177180919299881250404026184124858368.0

  /** A parsed URL: only the components the core reads. Parsing itself is Foundation's. */
  datatype Url = Url(scheme: Option<string>, host: Option<string>, fragment: Option<string>, absoluteString: string)

  /** NSTextAlignment */
  datatype TextAlignment = LeftText | CenterText | RightText | JustifiedText | NaturalText

  /** Fonts are opaque tokens: only their identity matters to the core. */
  datatype FontWeight = RegularWeight | HeavyWeight
  datatype Font = SystemFont(size: real, weight: FontWeight) | PreferredBodyFont

  /** Colours are opaque tokens: named system colours or a grey level with alpha. */
  datatype Color = White | Black | Gray(white: real, alpha: real)

  /**
   * One UTF-16 code unit of an attributed string with the two attributes the
   * core sets itself: a font and a paragraph alignment.
   */
  datatype AttributedUnit = AttributedUnit(unit: char, font: Option<Font>, alignment: Option<TextAlignment>)

  type AttributedText = seq<AttributedUnit>

  /** addAttribute(.font, value: font, range: lo..<hi) */
  function AddFont(t: AttributedText, font: Font, lo: nat, hi: nat): (r: AttributedText)
    requires lo <= hi <= |t|
    ensures |r| == |t|
    ensures forall i :: 0 <= i < |t| ==> r[i].unit == t[i].unit && r[i].alignment == t[i].alignment
    ensures forall i :: 0 <= i < |t| ==> r[i].font == if lo <= i < hi then Some(font) else t[i].font
  {
    seq(|t|, i requires 0 <= i < |t| => if lo <= i < hi then t[i].(font := Some(font)) else t[i])
  }

  /** addAttribute(.paragraphStyle, value: style with `alignment`, range: lo..<hi) */
  function AddAlignment(t: AttributedText, alignment: TextAlignment, lo: nat, hi: nat): (r: AttributedText)
    requires lo <= hi <= |t|
    ensures |r| == |t|
    ensures forall i :: 0 <= i < |t| ==> r[i].unit == t[i].unit && r[i].font == t[i].font
    ensures forall i :: 0 <= i < |t| ==> r[i].alignment == if lo <= i < hi then Some(alignment) else t[i].alignment
  {
    seq(|t|, i requires 0 <= i < |t| => if lo <= i < hi then t[i].(alignment := Some(alignment)) else t[i])
  }

  /** String.hasPrefix */
  predicate HasPrefix(s: string, prefix: string) {
    |prefix| <= |s| && s[..|prefix|] == prefix
  }

  /** Lower-casing, on the ASCII letters only. */
  function LowerChar(c: char): char {
    if 'A' <= c <= 'Z' then (c as int - 'A' as int + 'a' as int) as char else c
  }

  function Lowercased(s: string): (r: string)
    ensures |r| == |s|
    ensures forall i :: 0 <= i < |s| ==> r[i] == LowerChar(s[i])
  {
    seq(|s|, i requires 0 <= i < |s| => LowerChar(s[i]))
  }

  predicate IsDecimalDigit(c: char) {
    '0' <= c <= '9'
  }

  function DigitChar(d: nat): (c: char)
    requires d < 10
    ensures IsDecimalDigit(c)
  {
    ('0' as int + d) as char
  }

  function DigitValue(c: char): (d: nat)
    requires IsDecimalDigit(c)
    ensures d < 10
  {
    c as int - '0' as int
  }

  /** The decimal digits of a natural number, most significant first, without leading zeros. */
  function NaturalString(n: nat): (r: string)
    ensures |r| >= 1
    ensures AllDigits(r)
    ensures r[0] != '-'
  {
    if n < 10 then [DigitChar(n)] else NaturalString(n / 10) + [DigitChar(n % 10)]
  }

  /** String interpolation of an `Int`: "\(n)" */
  function DecimalString(n: int): string {
    if n < 0 then "-" + NaturalString(-n) else NaturalString(n)
  }

  predicate AllDigits(s: string) {
    forall i :: 0 <= i < |s| ==> IsDecimalDigit(s[i])
  }

  /** The value of a run of decimal digits. */
  function DigitsValue(s: string): nat
    requires AllDigits(s)
  {
    if s == [] then 0 else 10 * DigitsValue(s[..|s| - 1]) + DigitValue(s[|s| - 1])
  }

  /** Integer parsing: an optional '-' followed by one or more decimal digits. */
  function ParseInteger(s: string): (r: Option<int>)
    ensures r.Some? ==> |s| >= 1
  {
    var negative := |s| > 0 && s[0] == '-';
    var digits := if negative then s[1..] else s;
    if |digits| == 0 || !AllDigits(digits) then None
    else
      var v: int := DigitsValue(digits);
      Some(if negative then -v else v)
  }

  lemma {:induction false} NaturalStringValue(n: nat)
    ensures DigitsValue(NaturalString(n)) == n
  {
    if n >= 10 {
      var s := NaturalString(n);
      assert s[..|s| - 1] == NaturalString(n / 10);
      NaturalStringValue(n / 10);
    }
  }

  /** Formatting an integer and parsing it back gives the integer again. */
  lemma DecimalRoundTrip(n: int)
    ensures ParseInteger(DecimalString(n)) == Some(n)
  {
    var s := DecimalString(n);
    if n < 0 {
      assert s[1..] == NaturalString(-n);
      assert AllDigits(s[1..]);
      NaturalStringValue(-n);
    } else {
      assert s == NaturalString(n) && AllDigits(s);
      NaturalStringValue(n);
    }
  }
}
