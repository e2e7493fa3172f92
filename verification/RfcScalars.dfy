/**
 RFC 4627 sections 2.2 to 2.5 by their own letters: strings, numbers and literal
 names, what they look like and what they say. The lemmas tie them to what the
 parser's lexers read.
 */
module RfcScalars {
  import opened Wrappers
  import opened JsonTree
  import opened JsonLex
  import opened Decimals

  // ----- section 2.5: strings

  datatype Unit = Plain(c: char) | Escape(c: char) | Code(hex: string)

  predicate IsUnit(u: Unit) {
    match u
    case Plain(c) => c >= ' ' && c != '"' && c != '\\'
    case Escape(c) => c in ['"', '\\', '/', 'b', 'f', 'n', 'r', 't']
    case Code(h) =>
      |h| == 4 && forall i :: 0 <= i < 4 ==> '0' <= h[i] <= '9' || 'a' <= h[i] <= 'f' || 'A' <= h[i] <= 'F'
  }

  predicate AreUnits(us: seq<Unit>) {
    us == [] || (IsUnit(us[0]) && AreUnits(us[1..]))
  }

  function UnitText(u: Unit): string {
    match u
    case Plain(c) => [c]
    case Escape(c) => ['\\', c]
    case Code(h) => ['\\', 'u'] + h
  }

  function Chars(us: seq<Unit>): string {
    if us == [] then [] else UnitText(us[0]) + Chars(us[1..])
  }

  // ----- section 2.4: numbers

  datatype RExp = RExp(mark: char, sign: Option<char>, digits: string)

  datatype RNumber = RNumber(neg: bool, whole: string, frac: Option<string>, exp: Option<RExp>)

  predicate SomeDigits(d: string) {
    d != [] && OnlyDigits(d)
  }

  predicate IsRNumber(n: RNumber) {
    && SomeDigits(n.whole) && (n.whole[0] == '0' ==> n.whole == "0")
    && (n.frac.Some? ==> SomeDigits(n.frac.value))
    && (n.exp.Some? ==>
          && n.exp.value.mark in ['e', 'E']
          && n.exp.value.sign in [None, Some('+'), Some('-')]
          && SomeDigits(n.exp.value.digits))
  }

  function FracText(f: Option<string>): string {
    if f.Some? then "." + f.value else ""
  }

  function ExpText(e: Option<RExp>): string {
    if e.None? then ""
    else [e.value.mark] + (if e.value.sign.Some? then [e.value.sign.value] else []) + e.value.digits
  }

  function NumberText(n: RNumber): string {
    (if n.neg then "-" else "") + (n.whole + (FracText(n.frac) + ExpText(n.exp)))
  }

  /** All its digits as one integer, times ten to the exponent, over ten to the length of the fraction. */
  function NumberValue(n: RNumber): Val
    requires IsRNumber(n)
  {
    JoinDigits(n.whole, DigitsOf(n.frac));
    var m: int := Read(n.whole + DigitsOf(n.frac));
    var d, k := if n.neg then -m else m, |DigitsOf(n.frac)|;
    var e := if n.exp.Some? then Read(n.exp.value.digits) else 0;
    if n.frac.None? && n.exp.None? then VInt(d)
    else if n.exp.Some? && n.exp.value.sign == Some('-') then VReal(Scaled(d, 0, k + e))
    else VReal(Scaled(d, e, k))
  }

  // ----- values that are no containers

  datatype RScalar = RString(us: seq<Unit>) | RNum(num: RNumber) | RTrue | RFalse | RNull

  predicate IsRScalar(r: RScalar) {
    && (r.RString? ==> AreUnits(r.us))
    && (r.RNum? ==> IsRNumber(r.num))
  }

  function ScalarText(r: RScalar): string {
    match r
    case RString(us) => ['"'] + Chars(us) + ['"']
    case RNum(n) => NumberText(n)
    case RTrue => "true"
    case RFalse => "false"
    case RNull => "null"
  }

  function ScalarSays(r: RScalar): Val
    requires IsRScalar(r)
  {
    match r
    case RString(us) => VStr(Chars(us))
    case RNum(n) => NumberValue(n)
    case RTrue => VTrue
    case RFalse => VFalse
    case RNull => VNull
  }

  // ----- as the parser's scalars

  function ToNumber(n: RNumber): Number {
    Number(n.neg, n.whole, n.frac,
           if n.exp.None? then None
           else
             var e := n.exp.value;
             Some(Exponent(e.mark, e.sign == Some('-'), e.sign == Some('+'), e.digits)))
  }

  function ToScalar(r: RScalar): Scalar {
    match r
    case RString(us) => SStr(Chars(us))
    case RNum(n) => SNum(ToNumber(n))
    case RTrue => STrue
    case RFalse => SFalse
    case RNull => SNull
  }

  predicate NoControls(b: string) {
    forall i :: 0 <= i < |b| ==> b[i] >= ' '
  }

  predicate IsRfcString(b: string) {
    IsStringBody(b) && NoControls(b)
  }

  predicate IsRfcNumber(n: Number) {
    && IsNumber(n)
    && (n.whole[0] == '0' ==> |n.whole| == 1)
    && (n.exp.Some? ==> !(n.exp.value.minus && n.exp.value.plus))
  }

  predicate IsRfcScalar(sc: Scalar) {
    && IsScalar(sc)
    && (sc.SStr? ==> IsRfcString(sc.body))
    && (sc.SNum? ==> IsRfcNumber(sc.num))
  }

  lemma UnitIs(u: Unit, t: string)
    requires IsUnit(u)
    ensures var s := UnitText(u) + t;
      && UnitLen(s) == |UnitText(u)| > 0 && s[UnitLen(s)..] == t && NoControls(UnitText(u))
  {
    var s := UnitText(u) + t;
    if u.Code? {
      assert s[2..6] == u.hex;
    }
  }

  lemma {:induction false} CharsAre(us: seq<Unit>)
    requires AreUnits(us)
    ensures IsRfcString(Chars(us))
  {
    if us != [] {
      UnitIs(us[0], Chars(us[1..]));
      CharsAre(us[1..]);
    }
  }

  lemma NumberIs(n: RNumber)
    requires IsRNumber(n)
    ensures IsRfcNumber(ToNumber(n)) && NumberVal(ToNumber(n)) == NumberValue(n)
  {
    hide Scaled, ReadOn, NumberVal;
    NumberMeans(ToNumber(n));
  }

  /** Every scalar of the RFC is one to the parser, and says the same. */
  lemma ScalarIs(r: RScalar)
    requires IsRScalar(r)
    ensures IsRfcScalar(ToScalar(r)) && ScalarVal(ToScalar(r)) == ScalarSays(r)
  {
    match r
    case RString(us) => CharsAre(us);
    case RNum(n) => NumberIs(n);
    case _ =>
  }

  lemma ExpWritten(n: RNumber, t: string)
    requires IsRNumber(n)
    ensures WriteExp(ToNumber(n).exp, t) == ExpText(n.exp) + t
  {}

  lemma NumberWritten(n: RNumber, t: string)
    requires IsRNumber(n)
    ensures WriteNumber(ToNumber(n), t) == NumberText(n) + t
  {
    hide WriteExp, ExpText;
    var x, y := ExpText(n.exp), FracText(n.frac);
    ExpWritten(n, t);
    assert WriteFrac(n.frac, x + t) == y + (x + t);
    Assoc(y, x, t);
    Assoc(n.whole, y + x, t);
    Assoc(if n.neg then "-" else "", n.whole + (y + x), t);
  }

  lemma ScalarWritten(r: RScalar, t: string)
    requires IsRScalar(r)
    ensures WriteScalar(ToScalar(r), t) == ScalarText(r) + t
  {
    match r
    case RString(us) => assert ['"'] + (Chars(us) + (['"'] + t)) == ['"'] + Chars(us) + ['"'] + t;
    case RNum(n) => NumberWritten(n, t);
    case _ =>
  }

  // ----- and back

  function ToUnits(b: string): seq<Unit>
    decreases |b|
  {
    if b == [] || UnitLen(b) == 0 then []
    else
      [if UnitLen(b) == 1 then Plain(b[0]) else if UnitLen(b) == 2 then Escape(b[1]) else Code(b[2..6])]
      + ToUnits(b[UnitLen(b)..])
  }

  lemma {:induction false} ToUnitsAre(b: string)
    requires IsRfcString(b)
    ensures AreUnits(ToUnits(b)) && Chars(ToUnits(b)) == b
    decreases |b|
  {
    if b != [] {
      var k := UnitLen(b);
      ToUnitsAre(b[k..]);
      var u := ToUnits(b)[0];
      assert ToUnits(b)[1..] == ToUnits(b[k..]);
      assert UnitText(u) == b[..k];
      assert b == b[..k] + b[k..];
    }
  }

  function FromNumber(n: Number): RNumber {
    RNumber(n.neg, n.whole, n.frac,
            if n.exp.None? then None
            else
              var e := n.exp.value;
              Some(RExp(e.mark, if e.minus then Some('-') else if e.plus then Some('+') else None, e.digits)))
  }

  function FromScalar(sc: Scalar): RScalar {
    match sc
    case SStr(b) => RString(ToUnits(b))
    case SNum(n) => RNum(FromNumber(n))
    case STrue => RTrue
    case SFalse => RFalse
    case SNull => RNull
  }

  /** And the parser's scalars without the parser's liberties are the RFC's. */
  lemma FromScalarIs(sc: Scalar)
    requires IsRfcScalar(sc)
    ensures IsRScalar(FromScalar(sc)) && ToScalar(FromScalar(sc)) == sc
  {
    if sc.SStr? {
      ToUnitsAre(sc.body);
    }
  }
}
