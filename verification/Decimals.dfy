/**
 Numbers in base ten: writing them, reading them from the left, and powers of ten.
 */
module Decimals {
  import opened Wrappers
  import opened JsonTree
  import opened JsonLex

  /** `%d` of a non-negative number. */
  function Decimal(n: nat): string {
    if n < 10 then [('0' as int + n) as char] else Decimal(n / 10) + [('0' as int + n % 10) as char]
  }

  function Exp10(k: nat): (p: nat)
    ensures p > 0
  {
    if k == 0 then 1 else 10 * Exp10(k - 1)
  }

  predicate OnlyDigits(d: string) {
    forall i :: 0 <= i < |d| ==> '0' <= d[i] <= '9'
  }

  /** Reads on from what the digits in front came to. */
  function ReadOn(n: nat, d: string): nat
    requires OnlyDigits(d)
    decreases |d|
  {
    if d == [] then n else ReadOn(10 * n + (d[0] as int - '0' as int), d[1..])
  }

  function Read(d: string): nat
    requires OnlyDigits(d)
  {
    ReadOn(0, d)
  }

  lemma {:induction false} ReadOnLast(n: nat, d: string, c: char)
    requires OnlyDigits(d + [c])
    ensures OnlyDigits(d) && '0' <= c <= '9'
    ensures ReadOn(n, d + [c]) == 10 * ReadOn(n, d) + (c as int - '0' as int)
    decreases |d|
  {
    assert forall i :: 0 <= i < |d| ==> d[i] == (d + [c])[i];
    assert (d + [c])[|d|] == c;
    if d == [] {
      assert d + [c] == [c] && [c][1..] == [];
    } else {
      assert (d + [c])[1..] == d[1..] + [c];
      ReadOnLast(10 * n + (d[0] as int - '0' as int), d[1..], c);
    }
  }

  /** The parser's reading of digits is this one. */
  lemma {:induction false} ReadIs(d: string)
    requires OnlyDigits(d)
    ensures AllDigits(d) && DecValue(d) == Read(d)
  {
    if d != [] {
      var e, c := d[..|d| - 1], d[|d| - 1];
      assert d == e + [c];
      ReadIs(e);
      ReadOnLast(0, e, c);
    }
  }

  /** Reading a number back. */
  lemma {:induction false} ReadDecimal(n: nat)
    ensures Decimal(n) != [] && OnlyDigits(Decimal(n)) && Read(Decimal(n)) == n
  {
    if n >= 10 {
      ReadDecimal(n / 10);
      ReadOnLast(0, Decimal(n / 10), ('0' as int + n % 10) as char);
    } else {
      assert Decimal(n)[1..] == [] && Decimal(n)[0] as int - '0' as int == n;
      assert Read(Decimal(n)) == ReadOn(10 * 0 + n, []);
    }
  }

  lemma DecimalIs(n: nat)
    ensures IsDigits(Decimal(n)) && DecValue(Decimal(n)) == n
  {
    ReadDecimal(n);
    ReadIs(Decimal(n));
  }

  lemma {:induction false} DecimalShort(n: nat, k: nat)
    requires k > 0 && n < Exp10(k)
    ensures |Decimal(n)| <= k
  {
    if n >= 10 {
      DecimalShort(n / 10, k - 1);
    }
  }

  lemma SameDecimal(x: nat, y: nat)
    requires Decimal(x) == Decimal(y)
    ensures x == y
  {
    ReadDecimal(x);
    ReadDecimal(y);
  }

  /** Digits behind digits: those in front are shifted. */
  lemma {:induction false} ReadAppend(n: nat, d: string, e: string)
    requires OnlyDigits(d) && OnlyDigits(e)
    ensures OnlyDigits(d + e) && ReadOn(n, d + e) == ReadOn(n, d) * Exp10(|e|) + Read(e)
    decreases |e|
  {
    if e == [] {
      assert d + e == d;
    } else {
      var f, c := e[..|e| - 1], e[|e| - 1];
      assert e == f + [c] && d + e == (d + f) + [c];
      ReadAppend(n, d, f);
      ReadOnLast(n, d + f, c);
      ReadOnLast(0, f, c);
      Shifted(ReadOn(n, d), Exp10(|f|), Read(f), c as int - '0' as int);
    }
  }

  lemma Shifted(a: nat, p: nat, b: nat, c: nat)
    ensures 10 * (a * p + b) + c == a * (10 * p) + (10 * b + c)
  {}

  // ----- what a number says

  /** `d`, moved up and down by powers of ten. */
  function Scaled(d: int, up: nat, down: nat): real {
    (d * Exp10(up)) as real / Exp10(down) as real
  }

  lemma Times(a: int, b: int)
    ensures (a * b) as real == a as real * b as real
  {}

  /** A quotient is the one number that gives the dividend back. */
  lemma IsQuotient(x: real, a: real, b: real)
    requires b > 0.0 && x * b == a
    ensures x == a / b
  {}

  /** `Scaled` without division. */
  lemma ScaledMeans(d: int, up: nat, down: nat)
    ensures Scaled(d, up, down) * Exp10(down) as real == (d * Exp10(up)) as real
  {
    hide Exp10;
    var a, b := (d * Exp10(up)) as real, Exp10(down) as real;
    assert b > 0.0;
    Back(a, b);
  }

  lemma Back(a: real, b: real)
    requires b > 0.0
    ensures a / b * b == a
  {}

  lemma {:induction false} PowerIs(k: nat)
    ensures Pow10(k) == Exp10(k) as real
  {
    if k > 0 {
      PowerIs(k - 1);
      Times(10, Exp10(k - 1));
    }
  }

  lemma {:induction false} ExpSum(a: nat, b: nat)
    ensures Exp10(a + b) == Exp10(a) * Exp10(b)
    decreases b
  {
    if b > 0 {
      ExpSum(a, b - 1);
      TenTimes(Exp10(a), Exp10(b - 1));
    }
  }

  lemma TenTimes(a: nat, b: nat)
    ensures 10 * (a * b) == a * (10 * b)
  {}

  function DigitsOf(f: Option<string>): string {
    if f.Some? then f.value else []
  }

  /** The digits of whole and fraction part, read as one number. */
  lemma MantissaIs(n: Number)
    requires IsNumber(n)
    ensures OnlyDigits(n.whole + DigitsOf(n.frac))
    ensures Mantissa(n.whole, n.frac) == Scaled(Read(n.whole + DigitsOf(n.frac)), 0, |DigitsOf(n.frac)|)
  {
    hide Exp10, Pow10, DecValue, ReadOn;
    var f := DigitsOf(n.frac);
    ReadAppend(0, n.whole, f);
    ReadIs(n.whole);
    ReadIs(f);
    PowerIs(|f|);
    var w, p, v := Read(n.whole), Exp10(|f|), Read(f);
    Times(w, p);
    assert Exp10(0) == 1 && Read([]) == 0 by { NoDigits(); }
    Split(w as real, p as real, v as real);
    IsQuotient(w as real + v as real / p as real, (w * p + v) as real, p as real);
  }

  lemma NoDigits()
    ensures Exp10(0) == 1 && Read([]) == 0
  {}

  lemma Split(w: real, p: real, v: real)
    requires p > 0.0
    ensures (w + v / p) * p == w * p + v
  {
    Back(v, p);
  }

  lemma ScaledUp(d: int, down: nat, e: nat)
    ensures Scaled(d, 0, down) * Exp10(e) as real == Scaled(d, e, down)
  {
    hide Exp10;
    ScaledMeans(d, 0, down);
    NoDigits();
    Times(d, Exp10(e));
    var x, p, q := Scaled(d, 0, down), Exp10(down) as real, Exp10(e) as real;
    Swap(x, p, q);
    IsQuotient(x * q, (d * Exp10(e)) as real, p);
  }

  lemma ExpSumReal(a: nat, b: nat)
    ensures Exp10(a + b) as real == Exp10(a) as real * Exp10(b) as real
  {
    hide Exp10;
    ExpSum(a, b);
    Times(Exp10(a), Exp10(b));
  }

  predicate IsProduct(x: real, p: real, a: real) {
    x * p == a
  }

  lemma ScaledProduct(d: int, down: nat)
    ensures IsProduct(Scaled(d, 0, down), Exp10(down) as real, (d * Exp10(0)) as real)
  {
    hide Exp10, Scaled;
    ScaledMeans(d, 0, down);
  }

  lemma ExpProduct(a: nat, b: nat)
    ensures IsProduct(Exp10(a) as real, Exp10(b) as real, Exp10(a + b) as real)
  {
    hide Exp10;
    ExpSumReal(a, b);
  }

  lemma ScaledDown(d: int, down: nat, e: nat)
    ensures Scaled(d, 0, down) / Exp10(e) as real == Scaled(d, 0, down + e)
  {
    hide Exp10, Scaled, IsProduct;
    ScaledProduct(d, down);
    ScaledProduct(d, down + e);
    ExpProduct(down, e);
    Down(Scaled(d, 0, down), Exp10(down) as real, Exp10(e) as real, (d * Exp10(0)) as real,
         Scaled(d, 0, down + e), Exp10(down + e) as real);
  }

  lemma Down(x: real, p: real, q: real, a: real, y: real, r: real)
    requires p > 0.0 && q > 0.0 && r > 0.0 && IsProduct(x, p, a) && IsProduct(y, r, a) && IsProduct(p, q, r)
    ensures x / q == y
  {
    var z := x / q;
    assert z * r == a by { Undo(x, p, q, r); }
    IsQuotient(z, a, r);
    IsQuotient(y, a, r);
  }

  lemma Undo(x: real, p: real, q: real, r: real)
    requires q > 0.0 && r == p * q
    ensures x / q * r == x * p
  {
    Back(x, q);
    Swap(x / q, p, q);
    Swap(x / q, q, p);
  }

  lemma Swap(x: real, p: real, q: real)
    ensures x * q * p == x * p * q && x * q * p == x * (p * q)
  {}

  lemma ScaledMinus(d: int, up: nat, down: nat)
    ensures -Scaled(d, up, down) == Scaled(-d, up, down)
  {
    hide Exp10;
    ScaledMeans(d, up, down);
    Times(d, Exp10(up));
    Times(-d, Exp10(up));
    Minus(Scaled(d, up, down), Exp10(down) as real);
    Minus(d as real, Exp10(up) as real);
    IsQuotient(-Scaled(d, up, down), (-d * Exp10(up)) as real, Exp10(down) as real);
  }

  lemma Minus(x: real, p: real)
    ensures -x * p == -(x * p)
  {}

  /**
   What any number the parser reads says, leading zeros and `e-+5` included: an
   integer if it has neither fraction nor exponent, else its digits as one integer,
   moved up by the exponent, or down by it after a minus, and down by the length of
   the fraction.
   */
  lemma NumberMeans(n: Number)
    requires IsNumber(n)
    ensures OnlyDigits(n.whole + DigitsOf(n.frac)) && (n.exp.Some? ==> OnlyDigits(n.exp.value.digits))
    ensures
      var m: int := Read(n.whole + DigitsOf(n.frac));
      var d, k := if n.neg then -m else m, |DigitsOf(n.frac)|;
      var e := if n.exp.Some? then Read(n.exp.value.digits) else 0;
      NumberVal(n) ==
        if n.frac.None? && n.exp.None? then VInt(d)
        else if n.exp.Some? && n.exp.value.minus then VReal(Scaled(d, 0, k + e))
        else VReal(Scaled(d, e, k))
  {
    hide Exp10, Pow10, ReadOn, Scaled, Mantissa, DecValue;
    MantissaIs(n);
    var m, k := Read(n.whole + DigitsOf(n.frac)), |DigitsOf(n.frac)|;
    if n.exp.Some? {
      var e := Read(n.exp.value.digits);
      ReadIs(n.exp.value.digits);
      PowerIs(e);
      ScaledUp(m, k, e);
      ScaledDown(m, k, e);
      ScaledMinus(m, e, k);
      ScaledMinus(m, 0, k + e);
    } else {
      ScaledMinus(m, 0, k);
      ReadIs(n.whole);
      assert n.whole + [] == n.whole;
    }
  }

  /**
   The meaning of a number as it is written, without division: with D its digits as
   one integer, the value times ten to the length of the fraction is D times ten to
   the exponent; after a minus the exponent's power is on the other side.
   */
  predicate Says(v: Val, n: Number)
    requires IsNumber(n)
  {
    JoinDigits(n.whole, DigitsOf(n.frac));
    var m: int := Read(n.whole + DigitsOf(n.frac));
    var d, k := if n.neg then -m else m, |DigitsOf(n.frac)|;
    var e := if n.exp.Some? then Read(n.exp.value.digits) else 0;
    if n.frac.None? && n.exp.None? then v == VInt(d)
    else
      v.VReal? &&
      if n.exp.Some? && n.exp.value.minus then v.r * Exp10(k + e) as real == d as real
      else v.r * Exp10(k) as real == (d * Exp10(e)) as real
  }

  lemma JoinDigits(d: string, e: string)
    requires OnlyDigits(d) && OnlyDigits(e)
    ensures OnlyDigits(d + e)
  {}

  lemma NumberSays(n: Number)
    requires IsNumber(n)
    ensures Says(NumberVal(n), n)
  {
    hide Exp10, ReadOn, Scaled, NumberVal;
    NumberMeans(n);
    var m: int := Read(n.whole + DigitsOf(n.frac));
    var d, k := if n.neg then -m else m, |DigitsOf(n.frac)|;
    var e := if n.exp.Some? then Read(n.exp.value.digits) else 0;
    ScaledMeans(d, e, k);
    ScaledMeans(d, 0, k + e);
    NoDigits();
  }

  /** The parser's scaling. */
  lemma TimesPow10Means(m: real, k: nat, minus: bool)
    ensures var r := TimesPow10(m, k, minus);
      if minus then r * Exp10(k) as real == m else r == m * Exp10(k) as real
  {
    PowerIs(k);
    Back(m, Exp10(k) as real);
  }
}
