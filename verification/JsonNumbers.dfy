/**
 What a number in a text comes out as, from the text to the parser's result.
 */
module JsonNumbers {
  import opened Wrappers
  import opened JsonTree
  import opened JsonLex
  import opened JsonMachine
  import opened JsonGrammar
  import opened JsonComplete
  import opened Decimals

  /** An exponent as it is written, with the signs it has. */
  datatype Exp = Exp(mark: char, minus: bool, plus: bool, digits: string)

  predicate IsExp(e: Exp) {
    e.mark in ['e', 'E'] && e.digits != [] && OnlyDigits(e.digits)
  }

  function ExpPart(e: Option<Exp>): string {
    if e.None? then ""
    else [e.value.mark] + ((if e.value.minus then "-" else "") + ((if e.value.plus then "+" else "") + e.value.digits))
  }

  function FracPart(f: Option<string>): string {
    if f.Some? then "." + f.value else ""
  }

  /** The number as text. */
  function NumberText(neg: bool, whole: string, frac: Option<string>, exp: Option<Exp>): string {
    (if neg then "-" else "") + (whole + (FracPart(frac) + ExpPart(exp)))
  }

  /** An array of one number. */
  lemma OneNumber(n: Number)
    requires IsNumber(n)
    ensures Parse(['['] + WriteNumber(n, [']']), 1) == Done(VCont(false, [Node(None, NumberVal(n))]))
  {
    hide Parse, NumberVal;
    var es := [Elem([], None, Leaf(SNum(n)))];
    var d := Document([], false, es, [], Some([]));
    assert es[1..] == [] && d.gap + End(d) == [']'];
    var ns := [Node(None, NumberVal(n))];
    assert IsElems(es, false, Opened);
    assert IsDocument(d);
    assert Nodes(es, false, Opened) == ns && ns[1..] == [];
    assert !ScalarVal(SNum(n)).VCont? && Sizes(ns) == Size(ns[0]) + Sizes(ns[1..]) == 1;
    assert Tree(d) == VCont(false, ns) && Count(d) == 1;
    assert WriteElem(es[0], [']']) == WriteNumber(n, [']']);
    assert WriteElems(es, [']']) == [] + WriteNumber(n, [']']);
    assert Write(d) == [] + (['['] + WriteNumber(n, [']'])) == ['['] + WriteNumber(n, [']']);
    ParseDocument(d, 1);
  }

  /** Digits only: the integer they are in base ten, with its sign. */
  lemma IntegerParsed(n: nat)
    ensures Parse("[" + Decimal(n) + "]", 1) == Done(VCont(false, [Node(None, VInt(n))]))
    ensures Parse("[-" + Decimal(n) + "]", 1) == Done(VCont(false, [Node(None, VInt(-(n as int)))]))
  {
    hide Parse;
    ReadDecimal(n);
    DecimalIs(n);
    var x, y := Number(false, Decimal(n), None, None), Number(true, Decimal(n), None, None);
    OneNumber(x);
    OneNumber(y);
    assert "[" + Decimal(n) + "]" == ['['] + WriteNumber(x, [']']);
    assert "[-" + Decimal(n) + "]" == ['['] + WriteNumber(y, [']']);
  }

  /**
   A fraction, an exponent, or both: with D the integer that the digits of whole and
   fraction part make, the value times ten to the length of the fraction is D times
   ten to the exponent; after a minus the exponent's power is on the other side.
   */
  lemma RealParsed(neg: bool, whole: string, frac: Option<string>, exp: Option<Exp>) returns (x: real)
    requires whole != [] && OnlyDigits(whole)
    requires frac.Some? ==> frac.value != [] && OnlyDigits(frac.value)
    requires exp.Some? ==> IsExp(exp.value)
    requires frac.Some? || exp.Some?
    ensures Parse("[" + NumberText(neg, whole, frac, exp) + "]", 1) == Done(VCont(false, [Node(None, VReal(x))]))
    ensures OnlyDigits(whole + (if frac.Some? then frac.value else ""))
    ensures
      var f := if frac.Some? then frac.value else "";
      var m: int := Read(whole + f);
      var d, e := if neg then -m else m, if exp.Some? then Read(exp.value.digits) else 0;
      if exp.Some? && exp.value.minus then x * Exp10(|f| + e) as real == d as real
      else x * Exp10(|f|) as real == (d * Exp10(e)) as real
  {
    hide Parse, Scaled, Exp10, ReadOn, NumberVal, NumberText, WriteNumber;
    var e := if exp.None? then None
      else Some(Exponent(exp.value.mark, exp.value.minus, exp.value.plus, exp.value.digits));
    var n := Number(neg, whole, frac, e);
    assert IsNumber(n);
    OneNumber(n);
    NumberMeans(n);
    NumberRead(neg, whole, frac, exp, n);
    x := NumberVal(n).r;
    var f := DigitsOf(frac);
    var m: int := Read(whole + f);
    var d, k := if neg then -m else m, if exp.Some? then Read(exp.value.digits) else 0;
    ScaledMeans(d, k, |f|);
    ScaledMeans(d, 0, |f| + k);
    NoDigits();
  }

  lemma ExpRead(e: Option<Exponent>, exp: Option<Exp>, t: string)
    requires e.Some? == exp.Some?
    requires e.Some? ==> e.value == Exponent(exp.value.mark, exp.value.minus, exp.value.plus, exp.value.digits)
    ensures WriteExp(e, t) == ExpPart(exp) + t
  {}

  /** The printer's text, spelt out. */
  lemma NumberRead(neg: bool, whole: string, frac: Option<string>, exp: Option<Exp>, n: Number)
    requires n.neg == neg && n.whole == whole && n.frac == frac && n.exp.Some? == exp.Some?
    requires exp.Some? ==>
      n.exp.value == Exponent(exp.value.mark, exp.value.minus, exp.value.plus, exp.value.digits)
    ensures ['['] + WriteNumber(n, [']']) == "[" + NumberText(neg, whole, frac, exp) + "]"
  {
    hide WriteExp, ExpPart;
    var t, x, y := [']'], ExpPart(exp), FracPart(frac);
    ExpRead(n.exp, exp, t);
    assert WriteFrac(frac, x + t) == y + (x + t);
    Assoc(y, x, t);
    Assoc(whole, y + x, t);
    Assoc(if neg then "-" else "", whole + (y + x), t);
  }

  /** `1e2`, `5e-1`, `-1.5` and `-5`. */
  lemma NumberCases()
    ensures Parse("[1e2]", 1) == Done(VCont(false, [Node(None, VReal(100.0))]))
    ensures Parse("[5e-1]", 1) == Done(VCont(false, [Node(None, VReal(0.5))]))
    ensures Parse("[-1.5]", 1) == Done(VCont(false, [Node(None, VReal(-1.5))]))
    ensures Parse("[-5]", 1) == Done(VCont(false, [Node(None, VInt(-5))]))
  {
    hide Parse;
    var a := RealParsed(false, "1", None, Some(Exp('e', false, false, "2")));
    var b := RealParsed(false, "5", None, Some(Exp('e', true, false, "1")));
    var c := RealParsed(true, "1", Some("5"), None);
    IntegerParsed(5);
    SmallPowers();
    SmallNumbers();
    assert a == 100.0 && b == 0.5 && c == -1.5;
    assert NumberText(false, "1", None, Some(Exp('e', false, false, "2"))) == "1e2" && "[" + "1e2" + "]" == "[1e2]";
    assert NumberText(false, "5", None, Some(Exp('e', true, false, "1"))) == "5e-1" && "[" + "5e-1" + "]" == "[5e-1]";
    assert NumberText(true, "1", Some("5"), None) == "-1.5" && "[" + "-1.5" + "]" == "[-1.5]";
    assert Decimal(5) == "5" && "[-" + "5" + "]" == "[-5]";
  }

  lemma SmallPowers()
    ensures Exp10(0) == 1 && Exp10(1) == 10 && Exp10(2) == 100
  {}

  lemma SmallNumbers()
    ensures Read("1") == 1 && Read("2") == 2 && Read("5") == 5 && Read("1" + "5") == 15
    ensures Read("1" + "") == 1 && Read("5" + "") == 5
  {
    ReadDecimal(1);
    ReadDecimal(2);
    ReadDecimal(5);
    ReadDecimal(15);
    assert Decimal(15) == "1" + "5";
    assert "1" + "" == "1" && "5" + "" == "5";
  }
}
