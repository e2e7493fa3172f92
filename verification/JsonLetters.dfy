/**
 Which characters the parser takes for blanks, escapes, hexadecimal digits and
 exponent marks, seen from outside: by what it accepts.
 */
module JsonLetters {
  import opened Wrappers
  import opened JsonTree
  import opened JsonLex
  import opened JsonMachine
  import opened JsonComplete

  /** Behind the bracket of an array. */
  lemma ParseArray(u: string)
    requires SkipBlank(u) != []
    ensures Parse(['['] + u, 1) ==
            if OpenOk(false, u) then Run(SkipBlank(u), Bottom(false, []), 0, 1) else Fail(ERRJSON)
  {
    hide Run;
    assert (['['] + u)[1..] == u;
  }

  lemma CloseRoot(kids: seq<Node>, used: nat)
    ensures Run("]", Bottom(false, kids), used, 1) == Done(VCont(false, kids))
  {
    assert "]"[1..] == [];
  }

  lemma NoScalar(s: string)
    requires s != [] && !IsBlank(s[0]) && s[0] != ',' && s[0] != ']' && !IsOpen(s[0])
    ensures LexScalar(s).None? ==> Run(s, Bottom(false, []), 0, 1).Fail?
    ensures LexScalar(s).Some? && LexScalar(s).value.rest == "]" ==> Run(s, Bottom(false, []), 0, 1).Done?
  {
    hide LexScalar, Run;
    var st := Bottom(false, []);
    RunIsStep(s, st, 0, 1);
    StepValue(s, Lexed(None, s), st, 0, 1);
    if LexScalar(s).Some? && LexScalar(s).value.rest == "]" {
      var l := LexScalar(s).value;
      var nd := Node(None, ScalarVal(l.item));
      assert DelimAhead("]") && PastDelim("]") == "]";
      ValueLeaf(None, s, l, st, 0, 1);
      assert Attach(st, nd) == Bottom(false, [nd]);
      CloseRoot([nd], 1);
    }
  }

  /** The single characters that make an array between its brackets: a blank, a digit, and another open array. */
  lemma OneBetween(c: char)
    ensures Parse(['[', c, ']'], 1).Done? <==>
            c in [' ', '\t', '\r', '\n', '\U{000C}', '['] || '0' <= c <= '9'
  {
    hide Run, Parse;
    var u := [c, ']'];
    assert ['[', c, ']'] == ['['] + u && u[1..] == "]" && "]"[1..] == [];
    ParseArray(u);
    if IsBlank(c) {
      CloseRoot([], 0);
    } else if c == ']' {
      CloseTwice();
    } else if c == '[' || c == '{' {
      OpenInside(c);
    } else {
      OneScalar(c);
    }
  }

  lemma CloseTwice()
    ensures Run("]]", Bottom(false, []), 0, 1).Fail?
  {
    assert "]]"[1..] == "]";
  }

  lemma OpenInside(c: char)
    requires IsOpen(c)
    ensures Run([c, ']'], Bottom(false, []), 0, 1).Done? <==> c == '['
  {
    var u := [c, ']'];
    var st := Bottom(false, []);
    assert u[1..] == "]" && "]"[1..] == [];
    RunIsStep(u, st, 0, 1);
    StepValue(u, Lexed(None, u), st, 0, 1);
    if c == '[' {
      assert u == [OpenOf(false)] + "]";
      ValueOpen(None, false, "]", st, 0, 1);
      var inner := Nested(st, None, false, []);
      RunIsStep("]", inner, 1, 1);
      assert Step("]", inner, 1, 1) == Run([], Pop(inner), 1, 1);
    }
  }

  lemma OneScalar(c: char)
    requires !IsBlank(c) && c != ']' && !IsOpen(c)
    ensures var u := [c, ']']; OpenOk(false, u) && Run(u, Bottom(false, []), 0, 1).Done? <==> '0' <= c <= '9'
  {
    hide Run;
    var u := [c, ']'];
    assert u[1..] == "]" && "]"[1..] == [];
    if OpenOk(false, u) {
      NoScalar(u);
      if IsDigit(c) {
        OneDigit(c);
      } else {
        NotAScalar(c);
      }
    }
  }

  lemma OneDigit(c: char)
    requires IsDigit(c)
    ensures LexScalar([c, ']']) == Some(Lexed(SNum(Number(false, [c], None, None)), "]"))
  {
    var n := Number(false, [c], None, None);
    assert WriteNumber(n, "]") == [c, ']'];
    LexNumberComplete(n, "]");
  }

  lemma NotAScalar(c: char)
    requires !IsDigit(c)
    ensures LexScalar([c, ']']).None?
  {
    var u := [c, ']'];
    assert u[1..] == "]";
    if c == '-' {
      assert DigitsLen("]") == 0;
    }
  }

  // ----- in strings

  /** An array of one string, from behind its opening quote. */
  lemma OneString(u: string)
    ensures LexString(u).None? ==> Parse(['[', '"'] + u, 1).Fail?
    ensures LexString(u).Some? && LexString(u).value.rest == "]" ==> Parse(['[', '"'] + u, 1).Done?
  {
    hide Run, Parse, LexString;
    var s := ['"'] + u;
    assert ['[', '"'] + u == ['['] + s && s[1..] == u;
    ParseArray(s);
    NoScalar(s);
  }

  /** What may stand behind a backslash, other than `u`. */
  lemma EscapesAre(c: char)
    ensures Parse(['[', '"', '\\', c, '"', ']'], 1).Done? <==> c in ['"', '\\', '/', 'b', 'f', 'n', 'r', 't']
  {
    var u := ['\\', c, '"', ']'];
    assert ['[', '"'] + u == ['[', '"', '\\', c, '"', ']'];
    OneString(u);
    assert u[2..] == ['"', ']'];
    EmptyString();
    if UnitLen(u) == 2 {
      LexStringStep(u);
    } else {
      LexStringFails(u);
    }
  }

  predicate HexDigit(c: char) {
    '0' <= c <= '9' || 'a' <= c <= 'f' || 'A' <= c <= 'F'
  }

  /** And behind `\u`: four hexadecimal digits. */
  lemma HexAre(a: char, b: char, c: char, d: char)
    ensures Parse(['[', '"', '\\', 'u', a, b, c, d, '"', ']'], 1).Done? <==>
            HexDigit(a) && HexDigit(b) && HexDigit(c) && HexDigit(d)
  {
    hide Parse, LexString;
    var u := ['\\', 'u', a, b, c, d, '"', ']'];
    assert ['[', '"'] + u == ['[', '"', '\\', 'u', a, b, c, d, '"', ']'];
    OneString(u);
    assert u[2..6] == [a, b, c, d];
    EmptyString();
    assert UnitLen(u) == if HexDigit(a) && HexDigit(b) && HexDigit(c) && HexDigit(d) then 6 else 0;
    if UnitLen(u) == 6 {
      assert u[6..] == ['"', ']'];
      LexStringStep(u);
    } else {
      LexStringFails(u);
    }
  }

  lemma EmptyString()
    ensures LexString(['"', ']']) == Some(Lexed([], "]"))
  {
    assert ['"', ']'][1..] == "]";
  }

  /** Every other character but quote and backslash stands for itself. */
  lemma PlainAre(c: char)
    requires c != '"' && c != '\\'
    ensures Parse(['[', '"', c, '"', ']'], 1).Done?
  {
    var u := [c, '"', ']'];
    assert ['[', '"'] + u == ['[', '"', c, '"', ']'];
    OneString(u);
    assert u[1..] == ['"', ']'];
    EmptyString();
    LexStringStep(u);
  }
}
