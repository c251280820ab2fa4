/**
 * `calculate_price_change`: the percentage change between two price strings.
 * Numbers are exact reals here; `float` rounding is not modelled, and `:.2f`
 * is written out as round-half-to-even of the exact value.
 */
module PriceChange {
  import opened Wrappers
  import opened Text
  import opened Patterns

  /** `t.replace(',', '')` */
  function RemoveCommas(t: string): (r: string)
    ensures forall c :: c in r <==> c in t && c != ','
  {
    if |t| == 0 then ""
    else
      assert t == [t[0]] + t[1..];
      (if t[0] == ',' then "" else [t[0]]) + RemoveCommas(t[1..])
  }

  /** Digits, with at most one point, after which only digits follow. */
  predicate IsPlainNumber(c: string) {
    forall k :: 0 <= k < |c| ==> IsDigit(c[k]) || (c[k] == '.' && forall j :: k < j < |c| ==> IsDigit(c[j]))
  }

  lemma {:induction false} RemoveCommasOfNumberText(t: string)
    requires forall k :: 0 <= k < |t| ==>
      InClass(t[k], DigitOrComma) || (t[k] == '.' && forall j :: k < j < |t| ==> IsDigit(t[j]))
    ensures IsPlainNumber(RemoveCommas(t))
  {
    if |t| > 0 {
      RemoveCommasOfNumberText(t[1..]);
      if t[0] == '.' {
        NoCommaUnchanged(t[1..]);
      }
    }
  }

  lemma {:induction false} NoCommaUnchanged(t: string)
    requires ',' !in t
    ensures RemoveCommas(t) == t
  {
    if |t| > 0 {
      NoCommaUnchanged(t[1..]);
      assert [t[0]] + t[1..] == t;
    }
  }

  function Pow10(n: nat): (p: nat)
    ensures p >= 1
  {
    if n == 0 then 1 else 10 * Pow10(n - 1)
  }

  predicate HasDigit(t: string) {
    exists k :: 0 <= k < |t| && IsDigit(t[k])
  }

  /** The point of a plain number, if any, sits where its leading digits end,
      and only digits follow it. */
  lemma PlainNumberParts(c: string)
    requires IsPlainNumber(c)
    ensures var dot := Span(c, 0, Digit);
      && (dot < |c| ==> c[dot] == '.' && AllDigits(c[dot + 1..]))
      && (HasDigit(c) <==> dot > 0 || dot + 1 < |c|)
  {
    var dot := Span(c, 0, Digit);
    if dot < |c| {
      assert c[dot] == '.';
      assert AllDigits(c[dot + 1..]);
      if dot + 1 < |c| {
        assert IsDigit(c[dot + 1]);
      }
    }
    if dot > 0 {
      assert IsDigit(c[0]);
    }
  }

  lemma RemoveCommasKeepsDigits(t: string)
    ensures HasDigit(RemoveCommas(t)) <==> HasDigit(t)
  {
    var c := RemoveCommas(t);
    if HasDigit(t) {
      var k :| 0 <= k < |t| && IsDigit(t[k]);
      assert t[k] in c;
    }
    if HasDigit(c) {
      var k :| 0 <= k < |c| && IsDigit(c[k]);
      assert c[k] in t;
    }
  }

  /** `float(t.replace(',', ''))` for a token of `[\d,]+\.?\d*`; `None` where
      `float` raises, which is exactly when the token holds no digit at all
      (`","`, `",."`). */
  function NumberValue(t: string): (r: Option<real>)
    requires IsNumberText(t)
    ensures r.None? <==> !HasDigit(t)
    ensures r.Some? ==> r.value >= 0.0
  {
    RemoveCommasOfNumberText(t);
    RemoveCommasKeepsDigits(t);
    PlainValue(RemoveCommas(t))
  }

  /** `float(c)` for digits with at most one point: the whole part plus the
      fraction; `None` when there is no digit on either side of the point. */
  function PlainValue(c: string): (r: Option<real>)
    requires IsPlainNumber(c)
    ensures r.None? <==> !HasDigit(c)
    ensures r.Some? ==> r.value >= 0.0
  {
    PlainNumberParts(c);
    var dot := Span(c, 0, Digit);
    var whole := c[..dot];
    var fraction := if dot < |c| then c[dot + 1..] else "";
    assert AllDigits(whole) by {
      assert forall k :: 0 <= k < dot ==> whole[k] == c[k];
    }
    if whole == "" && fraction == "" then None
    else Some(DecimalValue(whole, fraction))
  }

  /** The value of the numeral `whole.fraction`. */
  function DecimalValue(whole: string, fraction: string): (v: real)
    requires AllDigits(whole) && AllDigits(fraction)
    ensures v >= 0.0
    ensures fraction == "" ==> v == DigitsValue(whole) as real
  {
    DigitsValue(whole) as real + DigitsValue(fraction) as real / Pow10(|fraction|) as real
  }


  /** A plain decimal numeral reads back as its own value. */
  lemma NumberValueOfNatToString(n: nat)
    ensures IsNumberText(NatToString(n))
    ensures NumberValue(NatToString(n)) == Some(n as real)
  {
    var s := NatToString(n);
    assert IsNumberText(s) by {
      assert forall k :: 0 <= k < |s| ==> IsDigit(s[k]);
    }
    assert ',' !in s;
    NoCommaUnchanged(s);
    PlainValueOfDigits(s);
    DigitsValueOfNatToString(n);
  }

  lemma PlainValueOfDigits(ds: string)
    requires |ds| > 0 && AllDigits(ds)
    ensures IsPlainNumber(ds) && PlainValue(ds) == Some(DigitsValue(ds) as real)
  {
    SpanReaches(ds, 0, |ds|, Digit);
    assert ds[..Span(ds, 0, Digit)] == ds;
  }


  /** The value of the first number in a price string, if it parses. */
  function PriceValue(price: string): (r: Option<real>) {
    match Find(NumberToken, price)
    case None => None
    case Some(i) => NumberValue(NumberCapture(price, i))
  }

  /** Round to the nearest integer, ties to the even one. */
  function RoundHalfEven(y: real): (n: int)
    ensures n as real - 0.5 <= y <= n as real + 0.5
    ensures (y == n as real - 0.5 || y == n as real + 0.5) ==> n % 2 == 0
  {
    var f := y.Floor;
    var d := y - f as real;
    if d > 0.5 || (d == 0.5 && f % 2 == 1) then f + 1 else f
  }

  function TwoDigits(n: nat): (r: string)
    requires n < 100
    ensures |r| == 2 && AllDigits(r)
  {
    [DigitChar(n / 10), DigitChar(n % 10)]
  }

  /** The point and two decimals of a count of hundredths below 100. */
  function Decimals(n: nat): (r: string)
    requires n < 100
    ensures |r| == 3 && r[0] == '.' && AllDigits(r[1..])
  {
    "." + TwoDigits(n)
  }

  /** `f"{x:.2f}"`: a minus sign for negative values (even those that round
      to zero), then the integer part, a point and two decimals. */
  function FormatFixed2(x: real): (r: string)
    ensures |r| >= 4
    ensures r[0] == '-' <==> x < 0.0
    ensures x >= 0.0 ==> IsDigit(r[0])
    ensures '\n' !in r
  {
    var magnitude := if x < 0.0 then -x else x;
    var digits := Hundredths(RoundHalfEven(magnitude * 100.0));
    if x < 0.0 then "-" + digits else digits
  }

  /** A count of hundredths written with a point before its last two digits. */
  function Hundredths(h: nat): (r: string)
    ensures |r| >= 4 && IsDigit(r[0]) && '\n' !in r
  {
    NatToString(h / 100) + Decimals(h % 100)
  }

  lemma RoundWhole(m: int)
    ensures RoundHalfEven(m as real) == m
  {
    assert (m as real).Floor == m;
  }

  /** Whole numbers are shown with two zero decimals. */
  lemma FormatFixed2OfNat(n: nat)
    ensures FormatFixed2(n as real) == NatToString(n) + ".00"
  {
    var h := n * 100;
    NonNegativeFixed2(n as real);
    assert RoundHalfEven(n as real * 100.0) == h by {
      assert n as real * 100.0 == h as real;
      RoundWhole(h);
    }
    HundredthsOfWhole(n);
  }

  lemma NonNegativeFixed2(x: real)
    requires x >= 0.0
    ensures FormatFixed2(x) == Hundredths(RoundHalfEven(x * 100.0))
  {
  }

  lemma HundredthsOfWhole(n: nat)
    ensures Hundredths(n * 100) == NatToString(n) + ".00"
  {
    assert (n * 100) / 100 == n && (n * 100) % 100 == 0;
    TwoZeros();
  }

  lemma TwoZeros()
    ensures Decimals(0) == ".00"
  {
    assert TwoDigits(0) == "00";
  }

  /** `(v2 - v1) / v1 * 100` for a positive first value. */
  function Change(v1: real, v2: real): (change: real)
    requires v1 > 0.0
    ensures change > 0.0 <==> v2 > v1
    ensures change < 0.0 <==> v2 < v1
  {
    var q := (v2 - v1) / v1;
    assert q * v1 == v2 - v1;
    q * 100.0
  }

  /** The change as `calculate_price_change` prints it. */
  function ChangeText(v1: real, v2: real): (r: string)
    requires v1 > 0.0
    ensures |r| >= 5 && r[|r| - 1] == '%'
    ensures r[0] == '+' <==> v2 > v1
    ensures r[0] == '-' <==> v2 < v1
    ensures v2 == v1 ==> r == "0.00%"
    ensures '\n' !in r
  {
    var change := Change(v1, v2);
    FormatFixed2OfNat(0);
    assert v2 == v1 ==> change == 0 as real;
    (if change > 0.0 then "+" else "") + FormatFixed2(change) + "%"
  }

  /** Python truthiness of an optional string: present and not empty. */
  predicate Present(s: Option<string>) {
    s.Some? && s.value != ""
  }

  /** `calculate_price_change`. `None` when either price is missing or empty,
      when either holds no parsable number, or when the first value is zero;
      otherwise the change `(v2 - v1) / v1 * 100` with a `+` exactly when the
      second price is higher, a `-` exactly when it is lower, and `0.00%` for
      equal prices. */
  function CalculatePriceChange(price1: Option<string>, price2: Option<string>): (r: Option<string>)
    ensures r.Some? <==>
      && Present(price1) && Present(price2)
      && PriceValue(price1.value).Some? && PriceValue(price2.value).Some?
      && PriceValue(price1.value).value != 0.0
    ensures r.Some? ==>
      var v1 := PriceValue(price1.value).value;
      var v2 := PriceValue(price2.value).value;
      && |r.value| >= 5 && r.value[|r.value| - 1] == '%'
      && (r.value[0] == '+' <==> v2 > v1)
      && (r.value[0] == '-' <==> v2 < v1)
      && (v2 == v1 ==> r.value == "0.00%")
      && '\n' !in r.value
  {
    if !Present(price1) || !Present(price2) then None
    else
      var v1 := PriceValue(price1.value);
      var v2 := PriceValue(price2.value);
      if v1.None? || v2.None? || v1.value == 0.0 then None
      else Some(ChangeText(v1.value, v2.value))
  }

  /** A price always reads back as its own number. */
  lemma PriceValueOfPrice(pr: Price)
    requires IsNumberText(pr.number)
    ensures PriceValue(pr.Text()) == NumberValue(pr.number)
  {
    NumberOfPriceText(pr);
  }

  /** The value of a price written as a whole number and a unit. */
  lemma PriceValueOfWhole(n: nat, unit: string, text: string)
    requires text == NatToString(n) + " " + unit
    ensures PriceValue(text) == Some(n as real)
  {
    NumberValueOfNatToString(n);
    PriceValueOfPrice(Price(NatToString(n), unit));
  }

  /** Between two prices written as whole numbers, the change is computed
      from exactly those numbers, whatever the units. */
  lemma ChangeOfWholePrices(n1: nat, n2: nat, unit1: string, unit2: string)
    requires n1 > 0
    ensures CalculatePriceChange(Some(NatToString(n1) + " " + unit1), Some(NatToString(n2) + " " + unit2))
      == Some(ChangeText(n1 as real, n2 as real))
  {
    var t1 := NatToString(n1) + " " + unit1;
    var t2 := NatToString(n2) + " " + unit2;
    assert PriceValue(t1) == Some(n1 as real) by {
      PriceValueOfWhole(n1, unit1, t1);
    }
    assert PriceValue(t2) == Some(n2 as real) by {
      PriceValueOfWhole(n2, unit2, t2);
    }
    ChangeOfValues(t1, t2, n1 as real, n2 as real);
  }

  lemma ChangeOfValues(p1: string, p2: string, v1: real, v2: real)
    requires p1 != "" && p2 != "" && v1 > 0.0
    requires PriceValue(p1) == Some(v1) && PriceValue(p2) == Some(v2)
    ensures CalculatePriceChange(Some(p1), Some(p2)) == Some(ChangeText(v1, v2))
  {
  }

  /** From 100 to 120 is a rise of 20 per cent, printed `+20.00%`. */
  lemma RiseOfTwentyPercent()
    ensures ChangeText(100.0, 120.0) == "+20.00%"
  {
    assert Change(100.0, 120.0) == 20 as real;
    FormatFixed2OfNat(20);
    assert NatToString(20) == "20" by {
      assert NatToString(2) == "2";
    }
  }
}
