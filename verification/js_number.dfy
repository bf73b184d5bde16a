/** JavaScript's `Number(string)` and the arithmetic the timestamp parsers do
    with its results. Every time in the model is an integer count of
    milliseconds, so a number is an integer or NaN. */
module JsNumber {
  import opened Text

  /** A JavaScript number as the timestamp code uses it: an integer or NaN. */
  datatype Num = Finite(value: int) | NaN

  /** `a + b`: NaN is absorbing. */
  function Add(a: Num, b: Num): (r: Num)
    ensures r.Finite? <==> a.Finite? && b.Finite?
    ensures r.Finite? ==> r.value == a.value + b.value
  {
    if a.Finite? && b.Finite? then Finite(a.value + b.value) else NaN
  }

  /** `a - b`: NaN is absorbing. */
  function Sub(a: Num, b: Num): (r: Num)
    ensures r.Finite? <==> a.Finite? && b.Finite?
    ensures r.Finite? ==> r.value == a.value - b.value
  {
    if a.Finite? && b.Finite? then Finite(a.value - b.value) else NaN
  }

  /** `a * k` for an integer constant `k`. */
  function Scale(a: Num, k: int): (r: Num)
    ensures r.Finite? <==> a.Finite?
    ensures r.Finite? ==> r.value == a.value * k
  {
    if a.Finite? then Finite(a.value * k) else NaN
  }

  /** An optionally signed decimal integer literal. */
  predicate IsIntegerLiteral(t: string) {
    (|t| > 0 && AllDigits(t)) ||
    (|t| > 1 && (t[0] == '-' || t[0] == '+') && AllDigits(t[1..]))
  }

  /** `Number(s)`: surrounding whitespace is ignored, the empty string is 0, an
      optionally signed decimal integer is its value, anything else is NaN. */
  function Number(s: string): (r: Num)
    ensures r.Finite? <==> |Trim(s)| == 0 || IsIntegerLiteral(Trim(s))
  {
    var t := Trim(s);
    if |t| == 0 then Finite(0)
    else if AllDigits(t) then Finite(DigitsValue(t))
    else if |t| > 1 && t[0] == '-' && AllDigits(t[1..]) then Finite(0 - DigitsValue(t[1..]) as int)
    else if |t| > 1 && t[0] == '+' && AllDigits(t[1..]) then Finite(DigitsValue(t[1..]))
    else NaN
  }

  /** A digit string reads back as its decimal value, whatever its length. */
  lemma NumberOfDigits(d: string)
    requires AllDigits(d)
    ensures Number(d) == Finite(DigitsValue(d))
  {
    DigitsHaveNoSpace(d);
    TrimNoSpace(d);
  }

  /** `Number(String(n)) == n`. */
  lemma NumberOfNatToString(n: nat)
    ensures Number(NatToString(n)) == Finite(n)
  {
    NumberOfDigits(NatToString(n));
  }
}
