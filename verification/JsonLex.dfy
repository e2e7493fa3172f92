/**
 Lexical level of the lwjson parser: blanks, quoted strings, numbers, literals.
 Every lexer works on the rest of the text and returns what it read and what
 remains; the lemmas say that each of them inverts the matching printer.
 */
module JsonLex {
  import opened Wrappers
  import opened JsonTree

  datatype Lexed<+T> = Lexed(item: T, rest: string)

  // ----- blanks

  const FORM_FEED := '\U{000C}'

  predicate IsBlank(c: char) {
    c == ' ' || c == '\t' || c == '\r' || c == '\n' || c == FORM_FEED
  }

  predicate AllBlank(s: string) {
    forall i :: 0 <= i < |s| ==> IsBlank(s[i])
  }

  /** The text from its first non-blank character on. */
  function SkipBlank(s: string): (r: string)
    ensures |r| <= |s|
    ensures r != [] ==> !IsBlank(r[0])
  {
    if s != [] && IsBlank(s[0]) then SkipBlank(s[1..]) else s
  }

  /** What it drops is blank. */
  lemma {:induction false} SkipBlankDrops(s: string)
    ensures var k := |s| - |SkipBlank(s)|; AllBlank(s[..k]) && s[k..] == SkipBlank(s)
  {
    if s != [] && IsBlank(s[0]) {
      SkipBlankDrops(s[1..]);
      var k := |s| - |SkipBlank(s)|;
      assert s[..k] == [s[0]] + s[1..][..k - 1];
    }
  }

  lemma {:induction false} SkipBlankOver(b: string, t: string)
    requires AllBlank(b)
    ensures SkipBlank(b + t) == SkipBlank(t)
  {
    if b == [] {
      assert b + t == t;
    } else {
      assert (b + t)[1..] == b[1..] + t;
      SkipBlankOver(b[1..], t);
    }
  }

  lemma SkipBlankTo(b: string, t: string)
    requires AllBlank(b) && t != [] && !IsBlank(t[0])
    ensures SkipBlank(b + t) == t
  {
    SkipBlankOver(b, t);
  }

  // ----- strings

  predicate IsHex(c: char) {
    '0' <= c <= '9' || 'a' <= c <= 'f' || 'A' <= c <= 'F'
  }

  /** What may follow a backslash, other than `u` and four hexadecimal digits. */
  predicate IsEscape(c: char) {
    c == '"' || c == '\\' || c == '/' || c == 'b' || c == 'f' || c == 'n' || c == 'r' || c == 't'
  }

  predicate IsFourHex(s: string) {
    |s| == 4 && IsHex(s[0]) && IsHex(s[1]) && IsHex(s[2]) && IsHex(s[3])
  }

  /** Length of the plain character or escape sequence in front of `s`, 0 if there is none. */
  function UnitLen(s: string): (k: nat)
    requires s != []
    ensures k <= |s|
  {
    if s[0] == '"' then 0
    else if s[0] != '\\' then 1
    else if |s| >= 2 && IsEscape(s[1]) then 2
    else if |s| >= 6 && s[1] == 'u' && IsFourHex(s[2..6]) then 6
    else 0
  }

  lemma UnitLenLocal(s: string, t: string)
    requires s != [] && t != [] && UnitLen(s) > 0
    requires UnitLen(s) <= |t| && s[..UnitLen(s)] == t[..UnitLen(s)]
    ensures UnitLen(t) == UnitLen(s)
  {
    var k := UnitLen(s);
    assert s[0] == s[..k][0] && t[0] == t[..k][0];
    if k >= 2 {
      assert s[1] == s[..k][1] && t[1] == t[..k][1];
      if k == 6 {
        assert s[2..6] == s[..k][2..6] && t[2..6] == t[..k][2..6];
      }
    }
  }

  /** What may stand between the quotes: a sequence of plain characters and escapes. */
  predicate IsStringBody(b: string)
    decreases |b|
  {
    b == [] || (UnitLen(b) > 0 && IsStringBody(b[UnitLen(b)..]))
  }

  /** Reads a string whose opening quote is already consumed. */
  function LexString(s: string): (r: Option<Lexed<string>>)
    ensures r.Some? ==> |r.value.rest| < |s|
    decreases |s|
  {
    if s == [] then None
    else if s[0] == '"' then Some(Lexed([], s[1..]))
    else if UnitLen(s) == 0 then None
    else
      var k := UnitLen(s);
      match LexString(s[k..])
      case None => None
      case Some(l) => Some(Lexed(s[..k] + l.item, l.rest))
  }

  lemma Assoc(a: string, b: string, c: string)
    ensures (a + b) + c == a + (b + c)
  {}

  lemma Cut(a: string, b: string, k: nat)
    requires k <= |a|
    ensures (a + b)[..k] == a[..k] && (a + b)[k..] == a[k..] + b
  {}

  lemma BodyUnit(s: string, b: string, q: string)
    requires s != [] && UnitLen(s) > 0 && IsStringBody(b) && s[UnitLen(s)..] == b + q
    ensures IsStringBody(s[..UnitLen(s)] + b) && s == (s[..UnitLen(s)] + b) + q
  {
    var k := UnitLen(s);
    var u := s[..k];
    Cut(u, b, k);
    UnitLenLocal(s, u + b);
    Assoc(u, b, q);
    assert s == u + s[k..];
  }

  /** `b` read in front of what `l` reads. */
  function Onto(b: string, l: Option<Lexed<string>>): Option<Lexed<string>> {
    if l.None? then None else Some(Lexed(b + l.value.item, l.value.rest))
  }

  lemma LexStringFails(r: string)
    requires r == [] || (r[0] != '"' && UnitLen(r) == 0)
    ensures LexString(r).None?
  {}

  lemma LexStringStep(r: string)
    requires r != [] && r[0] != '"' && UnitLen(r) > 0
    ensures LexString(r) == Onto(r[..UnitLen(r)], LexString(r[UnitLen(r)..]))
  {}

  lemma {:induction false} LexStringSound(s: string)
    requires LexString(s).Some?
    ensures var l := LexString(s).value; IsStringBody(l.item) && s == l.item + (['"'] + l.rest)
    decreases |s|
  {
    hide IsStringBody, UnitLen;
    if s[0] == '"' {
      EmptyBody(s[1..]);
      assert s == ['"'] + s[1..];
    } else {
      LexStringStep(s);
      var r := s[UnitLen(s)..];
      LexStringSound(r);
      BodyUnit(s, LexString(r).value.item, ['"'] + LexString(r).value.rest);
    }
  }

  lemma EmptyBody(t: string)
    ensures IsStringBody([]) && [] + (['"'] + t) == ['"'] + t
  {}

  /** The first unit of a string body is the first unit of the text it starts. */
  lemma BodyFirst(b: string, t: string)
    requires b != [] && IsStringBody(b)
    ensures var k := UnitLen(b);
      && 0 < k <= |b| && b[0] != '"' && IsStringBody(b[k..])
      && UnitLen(b + t) == k && (b + t)[..k] == b[..k] && (b + t)[k..] == b[k..] + t
  {
    var k := UnitLen(b);
    Cut(b, t, k);
    UnitLenLocal(b, b + t);
  }

  lemma {:induction false} LexStringComplete(b: string, rest: string, s: string)
    requires IsStringBody(b) && s == b + (['"'] + rest)
    ensures LexString(s) == Some(Lexed(b, rest))
    decreases |b|
  {
    hide IsStringBody, UnitLen;
    if b == [] {
      assert s == ['"'] + rest;
      assert s[1..] == rest;
    } else {
      var k := UnitLen(b);
      BodyFirst(b, ['"'] + rest);
      LexStringComplete(b[k..], rest, s[k..]);
      LexStringStep(s);
      assert b[..k] + b[k..] == b;
    }
  }

  // ----- numbers

  predicate IsDigit(c: char) {
    '0' <= c <= '9'
  }

  predicate AllDigits(d: string) {
    forall i :: 0 <= i < |d| ==> IsDigit(d[i])
  }

  predicate IsDigits(d: string) {
    d != [] && AllDigits(d)
  }

  function DigitValue(c: char): nat
    requires IsDigit(c)
  {
    c as int - '0' as int
  }

  /** The number a digit string denotes in base ten. */
  function DecValue(d: string): nat
    requires AllDigits(d)
  {
    if d == [] then 0 else DecValue(d[..|d| - 1]) * 10 + DigitValue(d[|d| - 1])
  }

  function Pow10(k: nat): (r: real)
    ensures r > 0.0
  {
    if k == 0 then 1.0 else 10.0 * Pow10(k - 1)
  }

  predicate IsMark(c: char) {
    c == 'e' || c == 'E'
  }

  datatype Exponent = Exponent(mark: char, minus: bool, plus: bool, digits: string)

  /** A number as it is written. */
  datatype Number = Number(neg: bool, whole: string, frac: Option<string>, exp: Option<Exponent>)

  /** The relaxed number syntax: leading zeros and `e-+5` are allowed. */
  predicate IsNumber(n: Number) {
    && IsDigits(n.whole)
    && (n.frac.Some? ==> IsDigits(n.frac.value))
    && (n.exp.Some? ==> IsMark(n.exp.value.mark) && IsDigits(n.exp.value.digits))
  }

  // Printers write an item in front of the text that follows it.

  function WriteIf(c: char, present: bool, t: string): string {
    if present then [c] + t else t
  }

  function WriteFrac(f: Option<string>, t: string): string {
    if f.Some? then ['.'] + (f.value + t) else t
  }

  function WriteExp(e: Option<Exponent>, t: string): string {
    if e.Some? then
      [e.value.mark] + WriteIf('-', e.value.minus, WriteIf('+', e.value.plus, e.value.digits + t))
    else t
  }

  function WriteNumber(n: Number, t: string): string {
    WriteIf('-', n.neg, n.whole + WriteFrac(n.frac, WriteExp(n.exp, t)))
  }

  /** Magnitude over exact reals: (whole + frac / 10^k) * 10^e. */
  function Magnitude(n: Number): real
    requires IsNumber(n)
  {
    Scale(Mantissa(n.whole, n.frac), n.exp)
  }

  function Mantissa(whole: string, frac: Option<string>): real
    requires AllDigits(whole) && (frac.Some? ==> AllDigits(frac.value))
  {
    DecValue(whole) as real +
    (if frac.Some? then DecValue(frac.value) as real / Pow10(|frac.value|) else 0.0)
  }

  function Scale(m: real, e: Option<Exponent>): real
    requires e.Some? ==> AllDigits(e.value.digits)
  {
    if e.None? then m else TimesPow10(m, DecValue(e.value.digits), e.value.minus)
  }

  /** m * 10^k or m / 10^k. */
  function TimesPow10(m: real, k: nat, minus: bool): real {
    if minus then m / Pow10(k) else m * Pow10(k)
  }

  /** An integer exactly when the number is written without `.` and without an exponent. */
  function NumberVal(n: Number): Val
    requires IsNumber(n)
  {
    if n.frac.None? && n.exp.None? then
      VInt(if n.neg then -(DecValue(n.whole) as int) else DecValue(n.whole))
    else
      VReal(if n.neg then -Magnitude(n) else Magnitude(n))
  }

  /** How many digits stand in front of `s`. */
  function DigitsLen(s: string): (k: nat)
    ensures k <= |s| && AllDigits(s[..k])
    ensures k < |s| ==> !IsDigit(s[k])
  {
    if s != [] && IsDigit(s[0]) then
      var k := 1 + DigitsLen(s[1..]);
      assert s[..k] == [s[0]] + s[1..][..k - 1];
      k
    else 0
  }

  lemma {:induction false} DigitsLenIs(d: string, t: string)
    requires AllDigits(d) && (t == [] || !IsDigit(t[0]))
    ensures DigitsLen(d + t) == |d|
  {
    if d == [] {
      assert d + t == t;
    } else {
      assert (d + t)[1..] == d[1..] + t;
      DigitsLenIs(d[1..], t);
    }
  }

  function LexDigits(s: string): (r: Option<Lexed<string>>)
    ensures r.Some? ==> IsDigits(r.value.item) && s == r.value.item + r.value.rest
  {
    var k := DigitsLen(s);
    if k == 0 then None else Some(Lexed(s[..k], s[k..]))
  }

  function LexFrac(s: string): (r: Option<Lexed<Option<string>>>)
    ensures r.Some? ==>
              && s == WriteFrac(r.value.item, r.value.rest)
              && (r.value.item.Some? ==> IsDigits(r.value.item.value))
  {
    if s != [] && s[0] == '.' then
      match LexDigits(s[1..])
      case None => None
      case Some(l) => Some(Lexed(Some(l.item), l.rest))
    else Some(Lexed(None, s))
  }

  /** Drops `c` from the front of `s` if it stands there. */
  function Drop(c: char, s: string): (r: string)
    ensures s == WriteIf(c, s != r, r)
  {
    if s != [] && s[0] == c then s[1..] else s
  }

  function LexExp(s: string): (r: Option<Lexed<Option<Exponent>>>)
    ensures r.Some? ==>
              && s == WriteExp(r.value.item, r.value.rest)
              && (r.value.item.Some? ==>
                    IsMark(r.value.item.value.mark) && IsDigits(r.value.item.value.digits))
  {
    if s != [] && IsMark(s[0]) then
      var s1 := Drop('-', s[1..]);
      var s2 := Drop('+', s1);
      match LexDigits(s2)
      case None => None
      case Some(l) => Some(Lexed(Some(Exponent(s[0], s[1..] != s1, s1 != s2, l.item)), l.rest))
    else Some(Lexed(None, s))
  }

  /** The number in front of `s`, read as far as it goes. */
  function LexNumber(s: string): (r: Option<Lexed<Number>>)
    ensures r.Some? ==> IsNumber(r.value.item) && s == WriteNumber(r.value.item, r.value.rest)
  {
    var s1 := Drop('-', s);
    match LexDigits(s1)
    case None => None
    case Some(i) =>
      match LexFrac(i.rest)
      case None => None
      case Some(f) =>
        match LexExp(f.rest)
        case None => None
        case Some(e) => Some(Lexed(Number(s != s1, i.item, f.item, e.item), e.rest))
  }

  /** No longer number starts with what was read so far. */
  predicate EndsNumber(t: string) {
    t == [] || !(IsDigit(t[0]) || t[0] == '.' || IsMark(t[0]))
  }

  lemma LexDigitsComplete(d: string, t: string)
    requires IsDigits(d) && (t == [] || !IsDigit(t[0]))
    ensures LexDigits(d + t) == Some(Lexed(d, t))
  {
    DigitsLenIs(d, t);
    assert (d + t)[..|d|] == d && (d + t)[|d|..] == t;
  }

  lemma DropWritten(c: char, present: bool, t: string)
    requires t != [] && t[0] != c
    ensures Drop(c, WriteIf(c, present, t)) == t
    ensures (WriteIf(c, present, t) != t) == present
  {
    if present {
      assert |[c] + t| != |t|;
    }
  }

  lemma LexExpComplete(e: Option<Exponent>, t: string)
    requires EndsNumber(t)
    requires e.Some? ==> IsMark(e.value.mark) && IsDigits(e.value.digits)
    ensures LexExp(WriteExp(e, t)) == Some(Lexed(e, t))
  {
    if e.Some? {
      var d := e.value.digits;
      var s2 := d + t;
      var s1 := WriteIf('+', e.value.plus, s2);
      LexDigitsComplete(d, t);
      assert IsDigit(d[0]) && s2[0] == d[0];
      DropWritten('+', e.value.plus, s2);
      assert s1[0] != '-';
      DropWritten('-', e.value.minus, s1);
      assert WriteExp(e, t)[1..] == WriteIf('-', e.value.minus, s1);
    }
  }

  lemma LexFracComplete(f: Option<string>, t: string)
    requires t == [] || (!IsDigit(t[0]) && t[0] != '.')
    requires f.Some? ==> IsDigits(f.value)
    ensures LexFrac(WriteFrac(f, t)) == Some(Lexed(f, t))
  {
    if f.Some? {
      LexDigitsComplete(f.value, t);
      assert WriteFrac(f, t)[1..] == f.value + t;
    }
  }

  lemma LexNumberComplete(n: Number, t: string)
    requires IsNumber(n) && EndsNumber(t)
    ensures LexNumber(WriteNumber(n, t)) == Some(Lexed(n, t))
  {
    var t2 := WriteExp(n.exp, t);
    var t1 := WriteFrac(n.frac, t2);
    var t0 := n.whole + t1;
    assert IsDigit(n.whole[0]) && t0[0] == n.whole[0];
    DropWritten('-', n.neg, t0);
    LexDigitsComplete(n.whole, t1);
    LexFracComplete(n.frac, t2);
    LexExpComplete(n.exp, t);
  }

  // ----- scalars

  /** A value that is not a container, as it is written. */
  datatype Scalar = SStr(body: string) | SNum(num: Number) | STrue | SFalse | SNull

  predicate IsScalar(sc: Scalar) {
    && (sc.SStr? ==> IsStringBody(sc.body))
    && (sc.SNum? ==> IsNumber(sc.num))
  }

  function WriteScalar(sc: Scalar, t: string): string {
    match sc
    case SStr(b) => ['"'] + (b + (['"'] + t))
    case SNum(n) => WriteNumber(n, t)
    case _ => Spelling(sc) + t
  }

  function ScalarVal(sc: Scalar): (v: Val)
    requires IsScalar(sc)
    ensures !v.VCont?
  {
    match sc
    case SStr(b) => VStr(b)
    case SNum(n) => NumberVal(n)
    case STrue => VTrue
    case SFalse => VFalse
    case SNull => VNull
  }

  predicate StartsWith(s: string, w: string) {
    |w| <= |s| && s[..|w|] == w
  }

  /** The words an unquoted letter can start. */
  function Word(c: char): Option<Scalar> {
    if c == 't' then Some(STrue) else if c == 'f' then Some(SFalse) else if c == 'n' then Some(SNull) else None
  }

  function Spelling(sc: Scalar): string {
    if sc.STrue? then "true" else if sc.SFalse? then "false" else "null"
  }

  /** The scalar in front of `s`. */
  function LexScalar(s: string): (r: Option<Lexed<Scalar>>)
    ensures r.Some? ==> |r.value.rest| < |s| && IsScalar(r.value.item)
  {
    if s == [] then None
    else if s[0] == '"' then
      match LexString(s[1..])
      case None => None
      case Some(l) => LexStringSound(s[1..]); Some(Lexed(SStr(l.item), l.rest))
    else if Word(s[0]).Some? then
      var w := Spelling(Word(s[0]).value);
      if StartsWith(s, w) then Some(Lexed(Word(s[0]).value, s[|w|..])) else None
    else if s[0] == '-' || IsDigit(s[0]) then
      match LexNumber(s)
      case None => None
      case Some(l) => Some(Lexed(SNum(l.item), l.rest))
    else None
  }

  lemma LexScalarSound(s: string)
    requires LexScalar(s).Some?
    ensures var l := LexScalar(s).value; s == WriteScalar(l.item, l.rest)
  {
    if s[0] == '"' {
      LexStringSound(s[1..]);
    }
  }

  lemma LexScalarComplete(sc: Scalar, t: string)
    requires IsScalar(sc) && EndsNumber(t)
    ensures LexScalar(WriteScalar(sc, t)) == Some(Lexed(sc, t))
  {
    ScalarHead(sc, t);
    match sc
    case SStr(b) =>
      LexStringComplete(b, t, b + (['"'] + t));
      assert WriteScalar(sc, t)[1..] == b + (['"'] + t);
    case SNum(n) =>
      LexNumberComplete(n, t);
    case _ =>
      var w := Spelling(sc);
      assert WriteScalar(sc, t)[..|w|] == w && WriteScalar(sc, t)[|w|..] == t;
  }

  /** What a scalar's first character can be. */
  lemma ScalarHead(sc: Scalar, t: string)
    requires IsScalar(sc)
    ensures var s := WriteScalar(sc, t);
      && s != []
      && (if sc.SStr? then s[0] == '"'
          else if sc.SNum? then s[0] == '-' || IsDigit(s[0])
          else s[0] == 't' || s[0] == 'f' || s[0] == 'n')
  {
    if sc.SNum? {
      assert IsDigit(sc.num.whole[0]);
    }
  }
}
