/**
 The character-level helpers of lwjson: a cursor moves over a C string and never
 passes its terminating NUL. Each helper is tied to the lexer it implements.
 */
module JsonReader {
  import opened Wrappers
  import opened JsonTree
  import opened JsonLex
  import opened JsonMachine
  import opened Decimals

  /** A C string with its terminating NUL, which is its only one. */
  type CString = s: seq<char> |
      s != [] && s[|s| - 1] == '\0' && forall i :: 0 <= i < |s| - 1 ==> s[i] != '\0'
    witness ['\0']

  /** The text from position `p` to the NUL. */
  function Rest(s: CString, p: nat): string
    requires p < |s|
  {
    s[p..|s| - 1]
  }

  lemma RestIs(s: CString, p: nat)
    requires p < |s|
    ensures |Rest(s, p)| == |s| - 1 - p
    ensures s[p] == '\0' <==> p == |s| - 1
    ensures s[p] != '\0' ==> Rest(s, p)[0] == s[p] && Rest(s, p)[1..] == Rest(s, p + 1)
  {}

  lemma RestSplit(s: CString, a: nat, p: nat)
    requires a <= p < |s|
    ensures Rest(s, a) == s[a..p] + Rest(s, p) && Rest(s, a)[p - a..] == Rest(s, p)
    ensures Rest(s, a)[..p - a] == s[a..p]
  {}

  /** `start` and `len` are the bytes between two quotes, and these are `body`. */
  ghost predicate Quoted(s: CString, start: nat, len: nat, body: string) {
    && 1 <= start && start + len < |s|
    && s[start - 1] == '"' && s[start + len] == '"'
    && s[start..start + len] == body
  }

  method SkipBlanks(s: CString, p0: nat) returns (ok: bool, p: nat)
    requires p0 < |s|
    ensures p0 <= p < |s| && Rest(s, p) == SkipBlank(Rest(s, p0))
    ensures ok == (Rest(s, p) != [])
  {
    hide Rest;
    p := p0;
    while s[p] != '\0' && p < |s| - 1
      invariant p0 <= p < |s|
      invariant SkipBlank(Rest(s, p)) == SkipBlank(Rest(s, p0))
      decreases |s| - p
    {
      RestIs(s, p);
      if s[p] == ' ' || s[p] == '\t' || s[p] == '\r' || s[p] == '\n' || s[p] == FORM_FEED {
        p := p + 1;
      } else {
        break;
      }
    }
    RestIs(s, p);
    ok := s[p] != '\0' && p < |s| - 1;
  }

  // ----- strings

  ghost predicate FourHexAt(s: CString, p: nat) {
    p + 4 < |s| && forall j :: p <= j < p + 4 ==> IsHex(s[j])
  }

  /** The four digits of a `\u` escape; stops on the last of them. */
  method HexDigits(s: CString, p0: nat) returns (ok: bool, p: nat)
    requires p0 < |s|
    ensures p0 <= p < |s|
    ensures ok == FourHexAt(s, p0)
    ensures ok ==> p == p0 + 3
  {
    p := p0;
    for i := 0 to 4
      invariant p == (if i < 4 then p0 + i else p0 + 3) < |s|
      invariant forall j :: p0 <= j < p0 + i ==> j < |s| && IsHex(s[j])
    {
      if !(('0' <= s[p] <= '9') || ('a' <= s[p] <= 'f') || ('A' <= s[p] <= 'F')) {
        return false, p;
      }
      if i < 3 {
        p := p + 1;
      }
    }
    ok := true;
  }

  /** `UnitLen` read off the buffer. */
  ghost function UnitAt(s: CString, p: nat): nat
    requires p < |s| && s[p] != '\0'
  {
    if s[p] == '"' then 0
    else if s[p] != '\\' then 1
    else if IsEscape(s[p + 1]) then 2
    else if s[p + 1] == 'u' && FourHexAt(s, p + 2) then 6
    else 0
  }

  lemma UnitAtIs(s: CString, p: nat)
    requires p < |s| && s[p] != '\0'
    ensures UnitLen(Rest(s, p)) == UnitAt(s, p)
  {
    var r := Rest(s, p);
    assert r[0] == s[p];
    if s[p] == '\\' {
      if |r| >= 2 { assert r[1] == s[p + 1]; }
      if |r| >= 6 {
        assert r[2..6] == [r[2], r[3], r[4], r[5]];
        assert r[2] == s[p + 2] && r[3] == s[p + 3] && r[4] == s[p + 4] && r[5] == s[p + 5];
      }
    }
  }

  /** Reading a string body has come from `start` to `p`. */
  ghost predicate ReadTo(s: CString, start: nat, p: nat)
    requires start <= p < |s|
  {
    LexString(Rest(s, start)) == Onto(s[start..p], LexString(Rest(s, p)))
  }

  lemma ReadNothing(s: CString, start: nat)
    requires start < |s|
    ensures ReadTo(s, start, start)
  {
    hide LexString, Rest;
    assert s[start..start] == [];
    if LexString(Rest(s, start)).Some? {
      assert [] + LexString(Rest(s, start)).value.item == LexString(Rest(s, start)).value.item;
    }
  }

  /** One character or escape further. */
  lemma ReadUnit(s: CString, start: nat, p: nat)
    requires start <= p < |s| && s[p] != '\0' && s[p] != '"' && ReadTo(s, start, p)
    ensures var k := UnitAt(s, p);
      if k == 0 then LexString(Rest(s, start)).None? else p + k < |s| && ReadTo(s, start, p + k)
  {
    hide LexString, UnitLen, Rest;
    var k, r := UnitAt(s, p), Rest(s, p);
    UnitAtIs(s, p);
    RestIs(s, p);
    if k == 0 {
      LexStringFails(r);
    } else {
      LexStringStep(r);
      RestSplit(s, p, p + k);
      assert s[start..p] + s[p..p + k] == s[start..p + k];
      var l := LexString(Rest(s, p + k));
      if l.Some? {
        Assoc(s[start..p], s[p..p + k], l.value.item);
      }
    }
  }

  lemma ReadEnd(s: CString, start: nat, p: nat)
    requires start <= p < |s| && s[p] == '"' && ReadTo(s, start, p)
    ensures LexString(Rest(s, start)) == Some(Lexed(s[start..p], Rest(s, p + 1)))
  {
    hide Rest;
    RestIs(s, p);
    assert s[start..p] + [] == s[start..p];
  }

  /** The body of a string, behind its opening quote: steps over escapes and counts bytes. */
  method StringBody(s: CString, start: nat) returns (res: Code, p: nat, len: nat)
    requires 0 < start < |s| && s[start - 1] == '"'
    ensures start <= p < |s|
    ensures match LexString(Rest(s, start))
      case None => res == ERRJSON
      case Some(l) => res == OK && Rest(s, p) == l.rest && Quoted(s, start, len, l.item)
  {
    hide Rest, LexString, FourHexAt;
    p, len := start, 0;
    ReadNothing(s, start);
    while true
      invariant start <= p < |s| && len == p - start && ReadTo(s, start, p)
      decreases |s| - p
    {
      if s[p] == '\0' || p >= |s| - 1 {
        RestIs(s, p);
        LexStringFails(Rest(s, p));
        return ERRJSON, p, len;
      }
      if s[p] == '"' {
        ReadEnd(s, start, p);
        p := p + 1;
        return OK, p, len;
      }
      ReadUnit(s, start, p);
      if s[p] == '\\' {
        p, len := p + 1, len + 1;
        if IsEscape(s[p]) {
        } else if s[p] == 'u' {
          p := p + 1;
          var ok;
          ok, p := HexDigits(s, p);
          if !ok {
            return ERRJSON, p, len;
          }
          len := len + 4;
        } else {
          return ERRJSON, p, len;
        }
      }
      p, len := p + 1, len + 1;
    }
  }

  /** The string at the cursor: blanks, a quote, the body, a quote. */
  method ParseString(s: CString, p0: nat) returns (res: Code, p: nat, start: nat, len: nat)
    requires p0 < |s|
    ensures p0 <= p < |s|
    ensures var r := SkipBlank(Rest(s, p0));
      if r != [] && r[0] == '"' && LexString(r[1..]).Some? then
        && res == OK
        && Rest(s, p) == LexString(r[1..]).value.rest
        && Quoted(s, start, len, LexString(r[1..]).value.item)
      else res == ERRJSON
  {
    hide Rest, LexString, SkipBlank;
    len, start := 0, 0;
    var ok;
    ok, p := SkipBlanks(s, p0);
    RestIs(s, p);
    if !ok || s[p] != '"' {
      return ERRJSON, p, start, len;
    }
    p := p + 1;
    start := p;
    res, p, len := StringBody(s, start);
  }

  lemma NoBlanks(r: string)
    requires r != [] && !IsBlank(r[0])
    ensures SkipBlank(r) == r
  {}

  /** A property name, its colon, and the blanks around both. */
  method ParsePropertyName(s: CString, p0: nat) returns (res: Code, p: nat, start: nat, len: nat)
    requires p0 < |s| && Rest(s, p0) != [] && Rest(s, p0)[0] == '"'
    ensures p0 <= p < |s|
    ensures match LexKey(true, Rest(s, p0))
      case None => res == ERRJSON
      case Some(k) => res == OK && Rest(s, p) == k.rest && Quoted(s, start, len, k.item.value)
  {
    hide Rest, LexString, SkipBlank, Quoted;
    var ok;
    NoBlanks(Rest(s, p0));
    res, p, start, len := ParseString(s, p0);
    if res != OK {
      return;
    }
    ok, p := SkipBlanks(s, p);
    RestIs(s, p);
    if !ok || s[p] != ':' {
      return ERRJSON, p, start, len;
    }
    p := p + 1;
    ok, p := SkipBlanks(s, p);
    res := if ok then OK else ERRJSON;
  }

  /** strncmp against a word without NUL: stops at the first difference. */
  method Matches(s: CString, p: nat, w: string) returns (eq: bool)
    requires p < |s| && forall i :: 0 <= i < |w| ==> w[i] != '\0'
    ensures eq == StartsWith(Rest(s, p), w)
  {
    for i := 0 to |w|
      invariant p + i < |s| && s[p..p + i] == w[..i]
    {
      if s[p + i] != w[i] {
        assert w[..|w|] == w;
        if |w| <= |Rest(s, p)| {
          assert Rest(s, p)[..|w|][i] == s[p + i];
        }
        return false;
      }
      assert s[p..p + i + 1] == s[p..p + i] + [w[i]] && w[..i + 1] == w[..i] + [w[i]];
    }
    assert Rest(s, p)[..|w|] == s[p..p + |w|];
    return true;
  }

  // ----- numbers

  lemma DigitsRead(s: CString, a: nat, p: nat)
    requires a <= p < |s| && AllDigits(s[a..p]) && !IsDigit(s[p])
    ensures Rest(s, a) == s[a..p] + Rest(s, p) && DigitsLen(Rest(s, a)) == p - a
    ensures p > a ==> LexDigits(Rest(s, a)) == Some(Lexed(s[a..p], Rest(s, p)))
    ensures p == a ==> LexDigits(Rest(s, a)).None?
  {
    hide Rest, DigitsLen;
    RestSplit(s, a, p);
    RestIs(s, p);
    DigitsLenIs(s[a..p], Rest(s, p));
    if p > a {
      LexDigitsComplete(s[a..p], Rest(s, p));
    }
  }

  lemma DecMore(s: CString, a: nat, p: nat)
    requires a <= p < |s| && AllDigits(s[a..p]) && IsDigit(s[p])
    ensures p + 1 < |s| && AllDigits(s[a..p + 1])
    ensures DecValue(s[a..p + 1]) == DecValue(s[a..p]) * 10 + DigitValue(s[p])
  {
    assert s[a..p + 1][..p - a] == s[a..p];
  }

  /** `for (n = 0; digit; ++p) n = n * 10 + digit`, and the power of ten it goes over. */
  method Digits(s: CString, a: nat) returns (p: nat, n: nat, pow: real)
    requires a < |s|
    ensures a <= p < |s| && AllDigits(s[a..p]) && !IsDigit(s[p])
    ensures n == DecValue(s[a..p]) && pow == Pow10(p - a)
  {
    p, n, pow := a, 0, 1.0;
    while '0' <= s[p] <= '9'
      invariant a <= p < |s| && AllDigits(s[a..p])
      invariant n == DecValue(s[a..p]) && pow == Pow10(p - a)
      decreases |s| - p
    {
      DecMore(s, a, p);
      n := n * 10 + (s[p] as int - '0' as int);
      p, pow := p + 1, pow * 10.0;
    }
  }

  lemma DivTwice(x: real, a: real)
    requires a > 0.0
    ensures (x / a) / 10.0 == x / (10.0 * a)
  {
    var y := x / a;
    assert y * a == x;
    assert (y / 10.0) * (10.0 * a) == x;
  }

  /** The loops that multiply or divide by ten `e` times. */
  method ScaleBy(x: real, e: nat, minus: bool) returns (r: real)
    ensures r == TimesPow10(x, e, minus)
    ensures if minus then r * Exp10(e) as real == x else r == x * Exp10(e) as real
  {
    r := x;
    var left: nat := e;
    assert x / Pow10(0) == x;
    TimesPow10Means(x, e, minus);
    while left > 0
      invariant left <= e
      invariant r == TimesPow10(x, e - left, minus)
    {
      if minus {
        DivTwice(x, Pow10(e - left));
        r := r / 10.0;
      } else {
        r := r * 10.0;
      }
      left := left - 1;
    }
  }

  lemma LexFracIs(r: string)
    ensures LexFrac(r) ==
      if r == [] || r[0] != '.' then Some(Lexed(None, r))
      else if LexDigits(r[1..]).None? then None
      else Some(Lexed(Some(LexDigits(r[1..]).value.item), LexDigits(r[1..]).value.rest))
  {}

  /** The fraction behind a number's integer part, added to it. */
  method Fraction(s: CString, p0: nat, whole: string) returns (ok: bool, p: nat, real_num: real, is_real: bool)
    requires p0 < |s| && AllDigits(whole)
    ensures p0 <= p < |s|
    ensures match LexFrac(Rest(s, p0))
      case None => !ok
      case Some(l) =>
        && ok && Rest(s, p) == l.rest && is_real == l.item.Some?
        && real_num == Mantissa(whole, l.item)
  {
    hide Rest, LexDigits, LexFrac, DecValue, DigitsLen, Pow10;
    LexFracIs(Rest(s, p0));
    p, is_real, real_num := p0, false, DecValue(whole) as real;
    RestIs(s, p);
    if s[p] == '.' {
      is_real, p := true, p + 1;
      var a := p;
      if s[p] < '0' || s[p] > '9' {
        DigitsRead(s, a, a);
        return false, p, real_num, is_real;
      }
      var dec_num, pow;
      p, dec_num, pow := Digits(s, a);
      DigitsRead(s, a, p);
      real_num := real_num + dec_num as real / pow;
    }
    ok := true;
  }

  /** One sign character, if it stands at the cursor. */
  method Sign(s: CString, p0: nat, c: char) returns (p: nat, present: bool)
    requires p0 < |s| && c != '\0'
    ensures p0 <= p < |s| && Rest(s, p) == Drop(c, Rest(s, p0))
    ensures present == (Rest(s, p0) != Rest(s, p))
  {
    hide Rest;
    RestIs(s, p0);
    present := s[p0] == c;
    p := if present then p0 + 1 else p0;
  }

  lemma LexExpIs(r: string)
    ensures r == [] || !IsMark(r[0]) ==> LexExp(r) == Some(Lexed(None, r))
    ensures r != [] && IsMark(r[0]) ==>
      var r1 := Drop('-', r[1..]); var r2 := Drop('+', r1);
      LexExp(r) ==
      if LexDigits(r2).None? then None
      else
        var l := LexDigits(r2).value;
        Some(Lexed(Some(Exponent(r[0], r[1..] != r1, r1 != r2, l.item)), l.rest))
  {}

  /** The exponent, applied to the value read so far. */
  method ExponentPart(s: CString, p0: nat, m: real) returns (ok: bool, p: nat, r: real, is_real: bool)
    requires p0 < |s|
    ensures p0 <= p < |s|
    ensures match LexExp(Rest(s, p0))
      case None => !ok
      case Some(l) =>
        && ok && Rest(s, p) == l.rest && is_real == l.item.Some? && r == Scale(m, l.item)
        && match l.item
           case None => r == m
           case Some(e) =>
             && OnlyDigits(e.digits)
             && if e.minus then r * Exp10(Read(e.digits)) as real == m else r == m * Exp10(Read(e.digits)) as real
  {
    hide Rest, LexExp, LexDigits, DecValue, DigitsLen, TimesPow10, Drop, Exp10, ReadOn;
    LexExpIs(Rest(s, p0));
    p, r, is_real, ok := p0, m, false, true;
    RestIs(s, p);
    if s[p] == 'e' || s[p] == 'E' {
      is_real, p := true, p + 1;
      var minus, plus;
      p, minus := Sign(s, p, '-');
      p, plus := Sign(s, p, '+');
      var a := p;
      if s[p] < '0' || s[p] > '9' {
        DigitsRead(s, a, a);
        return false, p, r, is_real;
      }
      var n, pow;
      p, n, pow := Digits(s, a);
      DigitsRead(s, a, p);
      r := ScaleBy(m, n, minus);
      ReadIs(s[a..p]);
    }
  }

  lemma LexNumberIs(r: string)
    ensures var r1 := Drop('-', r);
      LexNumber(r) ==
      if LexDigits(r1).None? then None else var i := LexDigits(r1).value;
      if LexFrac(i.rest).None? then None else var f := LexFrac(i.rest).value;
      if LexExp(f.rest).None? then None else var e := LexExp(f.rest).value;
      Some(Lexed(Number(r != r1, i.item, f.item, e.item), e.rest))
  {}

  /** The number at the cursor: an int when it has neither fraction nor exponent, else a real. */
  method ParseNumber(s: CString, p0: nat) returns (res: Code, p: nat, v: Val)
    requires p0 < |s| && Rest(s, p0) != [] && !IsBlank(Rest(s, p0)[0])
    ensures p0 <= p < |s|
    ensures match LexNumber(Rest(s, p0))
      case None => res == ERRJSON
      case Some(l) => res == OK && Rest(s, p) == l.rest && v == NumberVal(l.item) && Says(v, l.item)
  {
    hide Rest, LexNumber, LexDigits, LexFrac, LexExp, DecValue, SkipBlank, Mantissa, Scale, DigitsLen, Drop, Says;
    var ok;
    v := VNull;
    NoBlanks(Rest(s, p0));
    LexNumberIs(Rest(s, p0));
    ok, p := SkipBlanks(s, p0);
    RestIs(s, p);
    if s[p] == '\0' || p >= |s| - 1 {
      assert false;
    }
    var is_minus;
    p, is_minus := Sign(s, p, '-');
    var a := p;
    if s[p] == '\0' || s[p] < '0' || s[p] > '9' || (s[p] == '0' && s[p + 1] < '0' && s[p + 1] > '9') {
      DigitsRead(s, a, a);
      return ERRJSON, p, v;
    }
    var int_num, pow, real_num, has_frac, has_exp;
    p, int_num, pow := Digits(s, a);
    DigitsRead(s, a, p);
    ok, p, real_num, has_frac := Fraction(s, p, s[a..p]);
    if !ok {
      return ERRJSON, p, v;
    }
    ok, p, real_num, has_exp := ExponentPart(s, p, real_num);
    if !ok {
      return ERRJSON, p, v;
    }
    res := OK;
    if !has_frac && !has_exp {
      v := VInt(if is_minus then -(int_num as int) else int_num);
    } else {
      v := VReal(if is_minus then -real_num else real_num);
    }
    NumberSays(LexNumber(Rest(s, p0)).value.item);
  }

  /** What comes behind an opening bracket. */
  method CheckAfterOpen(s: CString, p0: nat, isObj: bool) returns (res: Code, p: nat)
    requires p0 < |s|
    ensures p0 <= p < |s| && Rest(s, p) == SkipBlank(Rest(s, p0))
    ensures res == if OpenOk(isObj, Rest(s, p0)) then OK else ERRJSON
  {
    hide Rest, SkipBlank;
    var ok;
    ok, p := SkipBlanks(s, p0);
    if !ok {
      return ERRJSON, p;
    }
    RestIs(s, p);
    var c := s[p];
    if c == '\0'
      || (isObj && (c != '"' && c != '}'))
      || (!isObj && (c != '"' && c != ']' && c != '[' && c != '{' && c != '-' && (c < '0' || c > '9')
                     && c != 't' && c != 'n' && c != 'f')) {
      return ERRJSON, p;
    }
    res := OK;
  }
}
