/**
  JavaScript numbers as the county pipeline uses them: the result of the
  unary `+` coercion applied to county ids and metric cells, strict equality
  `===` (under which NaN equals nothing), the ordered comparisons `<=` and
  `>=` (false whenever NaN is involved), and `Array.prototype.indexOf`.
 */
module JsNumbers {

  /** A number after coercion: NaN, or a finite value. */
  datatype JsNumber = NaN | Num(value: real)

  /** A raw id as it arrives from the decoded topology or a CSV row. */
  datatype RawValue = Number(n: JsNumber) | Text(s: string) | Undefined

  /** `a === b` on numbers. */
  predicate StrictEq(a: JsNumber, b: JsNumber) {
    a.Num? && b.Num? && a.value == b.value
  }

  /** `a <= b` on numbers. */
  predicate Le(a: JsNumber, b: JsNumber) {
    a.Num? && b.Num? && a.value <= b.value
  }

  /** `a >= b` on numbers. */
  predicate Ge(a: JsNumber, b: JsNumber) {
    a.Num? && b.Num? && a.value >= b.value
  }

  predicate IsDigit(c: char) {
    '0' <= c <= '9'
  }

  predicate AllDigits(s: string) {
    forall i :: 0 <= i < |s| ==> IsDigit(s[i])
  }

  function DigitValue(c: char): nat
    requires IsDigit(c)
  {
    (c as int) - ('0' as int)
  }

  /** The decimal value of a string of digits, leading zeros included. */
  function DigitsValue(s: string): nat
    requires AllDigits(s)
  {
    if |s| == 0 then 0 else DigitsValue(s[..|s| - 1]) * 10 + DigitValue(s[|s| - 1])
  }

  /**
    The unary `+` coercion. The empty string coerces to 0, a string of ASCII
    digits to its decimal value (so "00501" and "501" coerce alike), any other
    string and `undefined` to NaN; a number is left as it is.
   */
  function ToNumber(v: RawValue): (r: JsNumber)
    ensures v.Undefined? ==> r.NaN?
    ensures v.Number? ==> r == v.n
    ensures v.Text? && |v.s| == 0 ==> r == Num(0.0)
    ensures v.Text? && !AllDigits(v.s) ==> r.NaN?
    ensures v.Text? && AllDigits(v.s) ==> r.Num? && r.value == DigitsValue(v.s) as real
  {
    match v
    case Number(n) => n
    case Text(s) => if AllDigits(s) then Num(DigitsValue(s) as real) else NaN
    case Undefined => NaN
  }

  /** The shortest decimal spelling of a natural number. */
  function DecimalText(n: nat): (s: string)
    ensures |s| > 0 && AllDigits(s)
  {
    var last := [('0' as int + n % 10) as char];
    if n < 10 then last else DecimalText(n / 10) + last
  }

  /** `k` zero characters, the padding of a fixed-width county code. */
  function Zeros(k: nat): (s: string)
    ensures |s| == k && AllDigits(s)
  {
    if k == 0 then "" else "0" + Zeros(k - 1)
  }

  /** `s` left-padded with zeros to at least `width` characters. */
  function PadLeft(s: string, width: nat): (r: string)
    ensures |r| == if |s| < width then width else |s|
    ensures AllDigits(s) ==> AllDigits(r)
  {
    if |s| < width then Zeros(width - |s|) + s else s
  }

  /** Spelling a number in decimal and coercing it back gives the number. */
  lemma {:induction false} DecimalTextRoundTrip(n: nat)
    ensures DigitsValue(DecimalText(n)) == n
  {
    var last := [('0' as int + n % 10) as char];
    if n >= 10 {
      var s := DecimalText(n / 10) + last;
      assert s[..|s| - 1] == DecimalText(n / 10);
      DecimalTextRoundTrip(n / 10);
    }
  }

  /** A leading zero does not change the value of a digit string. */
  lemma {:induction false} LeadingZeroIgnored(s: string)
    requires AllDigits(s)
    ensures DigitsValue("0" + s) == DigitsValue(s)
  {
    if |s| > 0 {
      var t := "0" + s;
      assert t[..|t| - 1] == "0" + s[..|s| - 1];
      LeadingZeroIgnored(s[..|s| - 1]);
    } else {
      assert "0" + s == "0";
    }
  }

  /** Any number of leading zeros does not change the value of a digit string. */
  lemma {:induction false} LeadingZerosIgnored(k: nat, s: string)
    requires AllDigits(s)
    ensures DigitsValue(Zeros(k) + s) == DigitsValue(s)
  {
    if k > 0 {
      assert Zeros(k) + s == "0" + (Zeros(k - 1) + s);
      LeadingZerosIgnored(k - 1, s);
      LeadingZeroIgnored(Zeros(k - 1) + s);
    } else {
      assert Zeros(k) + s == s;
    }
  }

  /**
    A zero-padded code such as "00501" and the plain number 501 are equal
    after the unary `+` coercion, whatever the padding width.
   */
  lemma PaddedCodeMatchesNumber(n: nat, width: nat)
    ensures StrictEq(ToNumber(Text(PadLeft(DecimalText(n), width))), ToNumber(Number(Num(n as real))))
  {
    var d := DecimalText(n);
    DecimalTextRoundTrip(n);
    if |d| < width {
      LeadingZerosIgnored(width - |d|, d);
    }
  }

  /**
    Zero padding never changes what a digit-string id coerces to. For a
    string that is not all digits the lemma holds of this model's coercion,
    which sends such strings to NaN; JavaScript's `+` can read a padded one
    differently (it reads "0x1F" as 31).
   */
  lemma ZeroPaddingCoercesAlike(k: nat, s: string)
    ensures ToNumber(Text(Zeros(k) + s)) == ToNumber(Text(s))
  {
    if AllDigits(s) {
      LeadingZerosIgnored(k, s);
    } else {
      var i :| 0 <= i < |s| && !IsDigit(s[i]);
      assert (Zeros(k) + s)[k + i] == s[i];
    }
  }

  /** `xs.indexOf(x)`: the first position holding a number `===` to `x`, or -1. */
  function IndexOf(xs: seq<JsNumber>, x: JsNumber): (r: int)
    ensures -1 <= r < |xs|
    ensures r >= 0 ==> StrictEq(xs[r], x)
    ensures forall j :: 0 <= j < |xs| && (r == -1 || j < r) ==> !StrictEq(xs[j], x)
  {
    if |xs| == 0 then -1
    else if StrictEq(xs[0], x) then 0
    else
      var k := IndexOf(xs[1..], x);
      if k == -1 then -1 else k + 1
  }
}
