/** The scalar values a document field can hold, Python's truthiness of
    what `dict.get` returns, and `str()` of a value. */
module Values {
  import opened Wrappers

  /** A stored scalar.  A floating-point number is carried by its Python
      `repr` text, since floating-point arithmetic is not modelled.  A
      stored null is not modelled: a field is either absent or holds one of
      these.  (For a null, `dict.get(key, default)` returns `None` rather
      than the default, and the job's rate arithmetic raises.) */
  datatype Value = Int(n: int) | Str(s: string) | Float(repr: string)

  /** Python's `bool(x)` for `x` the result of `dict.get(key)`. */
  predicate Truthy(v: Option<Value>) {
    match v
    case None => false
    case Some(Int(n)) => n != 0
    case Some(Str(s)) => s != ""
    case Some(Float(r)) => r != "0.0" && r != "-0.0"
  }

  /** Python's `bool(x)` for an optional integer. */
  predicate TruthyInt(v: Option<int>) {
    v.Some? && v.value != 0
  }

  predicate IsDigit(c: char) {
    '0' <= c <= '9'
  }

  function DigitChar(d: nat): (c: char)
    requires d < 10
    ensures IsDigit(c) && c as int - '0' as int == d
  {
    ['0', '1', '2', '3', '4', '5', '6', '7', '8', '9'][d]
  }

  /** The decimal digits of `n`, most significant first, as `str(n)`. */
  function NatToString(n: nat): (s: string)
    ensures |s| >= 1 && (forall i :: 0 <= i < |s| ==> IsDigit(s[i]))
    ensures s[0] == '0' ==> n == 0
  {
    if n < 10 then [DigitChar(n)] else NatToString(n / 10) + [DigitChar(n % 10)]
  }

  /** The number a string of decimal digits denotes. */
  function DecimalValue(s: string): nat
    requires forall i :: 0 <= i < |s| ==> IsDigit(s[i])
  {
    if s == [] then 0
    else
      assert IsDigit(s[|s| - 1]);
      10 * DecimalValue(s[..|s| - 1]) + (s[|s| - 1] as int - '0' as int)
  }

  /** Reading the digits back gives the number: `int(str(n)) == n`. */
  lemma {:induction false} NatToStringRoundTrip(n: nat)
    ensures DecimalValue(NatToString(n)) == n
  {
    if n >= 10 {
      var s := NatToString(n);
      assert s[..|s| - 1] == NatToString(n / 10);
      NatToStringRoundTrip(n / 10);
    }
  }

  /** Python's `str(n)` for an integer. */
  function IntToString(n: int): (s: string)
    ensures |s| >= 1
    ensures forall i :: 0 <= i < |s| ==> IsDigit(s[i]) || (i == 0 && s[i] == '-')
    ensures s[0] == '-' <==> n < 0
  {
    if n < 0 then "-" + NatToString(-n) else NatToString(n)
  }

  /** `int(s)` on the numerals `str` prints: an optional minus sign, then
      decimal digits; `None` for any other text. */
  function NumeralValue(s: string): Option<int> {
    if |s| >= 2 && s[0] == '-' && forall i :: 1 <= i < |s| ==> IsDigit(s[i]) then
      var digits := s[1..];
      assert forall i :: 0 <= i < |digits| ==> digits[i] == s[i + 1];
      Some(-(DecimalValue(digits) as int))
    else if |s| >= 1 && forall i :: 0 <= i < |s| ==> IsDigit(s[i]) then Some(DecimalValue(s))
    else None
  }

  /** A minus sign before a numeral of digits negates its value. */
  lemma NegativeNumeral(digits: string)
    requires |digits| >= 1 && forall i :: 0 <= i < |digits| ==> IsDigit(digits[i])
    ensures NumeralValue("-" + digits) == Some(-(DecimalValue(digits) as int))
  {
    var s := "-" + digits;
    assert s[1..] == digits;
    forall i | 1 <= i < |s| ensures IsDigit(s[i]) {
      assert s[i] == digits[i - 1];
    }
  }

  /** A numeral of digits alone denotes its decimal value. */
  lemma PlainNumeral(digits: string)
    requires |digits| >= 1 && forall i :: 0 <= i < |digits| ==> IsDigit(digits[i])
    ensures NumeralValue(digits) == Some(DecimalValue(digits))
  {
  }

  /** `int(str(n)) == n` for a negative `n`. */
  lemma NegativeRoundTrip(n: int)
    requires n < 0
    ensures NumeralValue(IntToString(n)) == Some(n)
  {
    var m: nat := -n;
    var digits := NatToString(m);
    NegativeNumeral(digits);
    NatToStringRoundTrip(m);
    assert NumeralValue("-" + digits) == Some(n);
  }

  /** `int(str(n)) == n` for a natural `n`. */
  lemma NaturalRoundTrip(n: nat)
    ensures NumeralValue(IntToString(n)) == Some(n)
  {
    var digits := NatToString(n);
    assert IntToString(n) == digits;
    PlainNumeral(digits);
    NatToStringRoundTrip(n);
  }

  /** Reading `str(n)` back gives `n`, negative numbers included:
      `int(str(n)) == n`. */
  lemma IntToStringRoundTrip(n: int)
    ensures NumeralValue(IntToString(n)) == Some(n)
  {
    if n < 0 {
      NegativeRoundTrip(n);
    } else {
      NaturalRoundTrip(n);
    }
  }

  /** Python's `str(v)`. */
  function ValueText(v: Value): string {
    match v
    case Int(n) => IntToString(n)
    case Str(s) => s
    case Float(r) => r
  }
}
