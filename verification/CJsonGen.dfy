/**
 tools/cjsongen.py: drops the white space of a JSON text and prints what is left
 as a C character array. The text it leaves is the same JSON to the parser.
 */
module CJsonGen {
  import opened Wrappers
  import opened JsonTree
  import opened JsonLex
  import opened JsonMachine
  import opened JsonGrammar
  import opened JsonComplete
  import opened JsonLanguage

  /** The blanks the script drops outside strings; unlike the parser's they do not include form feed. */
  predicate IsDropped(c: char) {
    c == ' ' || c == '\t' || c == '\r'
  }

  function Emit(c: char, r: Option<string>): Option<string> {
    if r.None? then None else Some([c] + r.value)
  }

  /**
   The characters kept from `s`, or None where the script stops with "malformed
   json". `str`: inside a string; `esc`: right behind a backslash in it.
   */
  function Gen(s: string, str: bool, esc: bool): Option<string> {
    if s == [] then Some([])
    else if s[0] == '\n' then if str || esc then None else Gen(s[1..], str, esc)
    else if IsDropped(s[0]) && !str then Gen(s[1..], str, esc)
    else if esc then Emit(s[0], Gen(s[1..], str, false))
    else
      var str1 := if s[0] == '"' then !str else str;
      Emit(s[0], Gen(s[1..], str1, s[0] == '\\' && str1))
  }

  function Prepend(p: string, r: Option<string>): Option<string> {
    if r.None? then None else Some(p + r.value)
  }

  lemma PrependNothing(r: Option<string>)
    ensures Prepend([], r) == r
  {
    if r.Some? { assert [] + r.value == r.value; }
  }

  lemma PrependNext(p: string, c: char, r: Option<string>)
    ensures Prepend(p, Emit(c, r)) == Prepend(p + [c], r)
  {
    if r.Some? { Assoc(p, [c], r.value); }
  }

  function Codes(s: string): seq<int> {
    seq(|s|, i requires 0 <= i < |s| => s[i] as int)
  }

  /** The script's loop: the elements of the array it prints, or failure. */
  method Generate(text: string) returns (ok: bool, codes: seq<int>)
    ensures ok == Gen(text, false, false).Some?
    ensures ok ==> codes == Codes(Gen(text, false, false).value) + [0]
    ensures ok ==>
      var out := Gen(text, false, false).value;
      |codes| == |out| + 1 && codes[|out|] == 0 && forall i :: 0 <= i < |out| ==> codes[i] == out[i] as int
  {
    var str, esc := false, false;
    codes := [];
    ghost var done := [];
    PrependNothing(Gen(text, false, false));
    assert text[0..] == text;
    for i := 0 to |text|
      invariant codes == Codes(done)
      invariant Gen(text, false, false) == Prepend(done, Gen(text[i..], str, esc))
    {
      var c := text[i];
      assert text[i..][0] == c && text[i..][1..] == text[i + 1..];
      ghost var esc1 := c == '\\' && str && !esc;
      PrependNext(done, c, Gen(text[i + 1..], if c == '"' && !esc then !str else str, esc1));
      if c == '\n' {
        if str || esc {
          return false, [];
        }
      } else if IsDropped(c) && !str {
      } else if esc {
        codes, done := codes + [c as int], done + [c];
        esc := false;
      } else {
        if c == '"' {
          str := !str;
        }
        if c == '\\' && str {
          esc := true;
        }
        codes, done := codes + [c as int], done + [c];
      }
    }
    assert text[|text|..] == [] && done + [] == done;
    return true, codes + [0];
  }

  // ----- what it does to a document

  predicate OneLine(s: string) {
    forall i :: 0 <= i < |s| ==> s[i] != '\n'
  }

  /** No string and no key of the element has a line break in it. */
  predicate OneLineCst(c: Cst)
    decreases c, 0
  {
    match c
    case Leaf(sc) => sc.SStr? ==> OneLine(sc.body)
    case Group(_, es, _) => OneLineElems(es)
  }

  predicate OneLineElems(es: seq<Elem>)
    decreases es, 1
  {
    es == [] ||
    (&& (es[0].key.Some? ==> OneLine(es[0].key.value.body))
     && OneLineCst(es[0].val)
     && OneLineElems(es[1..]))
  }

  /** A gap without what the script drops: its commas and form feeds. */
  function StripGap(g: string): string {
    if g == [] then []
    else if IsDropped(g[0]) || g[0] == '\n' then StripGap(g[1..])
    else [g[0]] + StripGap(g[1..])
  }

  function StripKey(k: Option<Key>): Option<Key> {
    if k.None? then None else Some(Key(k.value.body, StripGap(k.value.pre), StripGap(k.value.post)))
  }

  function StripCst(c: Cst): Cst
    decreases c, 0
  {
    match c
    case Leaf(_) => c
    case Group(isObj, es, g) => Group(isObj, StripElems(es), StripGap(g))
  }

  function StripElems(es: seq<Elem>): (r: seq<Elem>)
    ensures |r| == |es|
    decreases es, 1
  {
    if es == [] then []
    else [Elem(StripGap(es[0].gap), StripKey(es[0].key), StripCst(es[0].val))] + StripElems(es[1..])
  }

  function StripDoc(d: Document): Document {
    Document(StripGap(d.lead), d.isObj, StripElems(d.elems), StripGap(d.gap),
             if d.tail.Some? then Some(StripGap(d.tail.value)) else None)
  }

  // ----- the script, piece by piece

  lemma {:induction false} GenGap(g: string, t: string)
    requires IsGap(g)
    ensures Gen(g + t, false, false) == Prepend(StripGap(g), Gen(t, false, false))
  {
    if g == [] {
      assert g + t == t;
      PrependNothing(Gen(t, false, false));
    } else {
      assert (g + t)[0] == g[0] && (g + t)[1..] == g[1..] + t;
      GenGap(g[1..], t);
      PrependMore(g[0], StripGap(g[1..]), Gen(t, false, false));
    }
  }

  lemma PrependMore(c: char, p: string, r: Option<string>)
    ensures Emit(c, Prepend(p, r)) == Prepend([c] + p, r)
  {
    if r.Some? { Assoc([c], p, r.value); }
  }

  /** Characters that leave the script's state as it is, outside strings. */
  predicate IsPlain(w: string) {
    forall i :: 0 <= i < |w| ==> !IsDropped(w[i]) && w[i] != '\n' && w[i] != '"'
  }

  lemma {:induction false} GenPlain(w: string, t: string)
    requires IsPlain(w)
    ensures Gen(w + t, false, false) == Prepend(w, Gen(t, false, false))
  {
    if w == [] {
      assert w + t == t;
      PrependNothing(Gen(t, false, false));
    } else {
      assert (w + t)[0] == w[0] && (w + t)[1..] == w[1..] + t;
      GenPlain(w[1..], t);
      PrependMore(w[0], w[1..], Gen(t, false, false));
      assert [w[0]] + w[1..] == w;
    }
  }

  lemma {:induction false} GenPlainInside(w: string, t: string)
    requires forall i :: 0 <= i < |w| ==> w[i] != '\n' && w[i] != '"' && w[i] != '\\'
    ensures Gen(w + t, true, false) == Prepend(w, Gen(t, true, false))
  {
    if w == [] {
      assert w + t == t;
      PrependNothing(Gen(t, true, false));
    } else {
      assert (w + t)[0] == w[0] && (w + t)[1..] == w[1..] + t;
      GenPlainInside(w[1..], t);
      PrependMore(w[0], w[1..], Gen(t, true, false));
      assert [w[0]] + w[1..] == w;
    }
  }

  /** One plain character or escape sequence inside a string. */
  ghost predicate IsUnit(b: string) {
    if |b| == 1 then b[0] != '"' && b[0] != '\\'
    else |b| >= 2 && b[0] == '\\' && b[1] != '\n' && forall i :: 2 <= i < |b| ==> IsHex(b[i])
  }

  lemma UnitShape(b: string)
    requires b != [] && UnitLen(b) == |b|
    ensures IsUnit(b)
  {
    if |b| == 6 {
      assert b[2..6] == [b[2], b[3], b[4], b[5]];
    }
  }

  lemma GenUnit(b: string, t: string)
    requires IsUnit(b)
    ensures Gen(b + t, true, false) == if OneLine(b) then Prepend(b, Gen(t, true, false)) else None
  {
    var s := b + t;
    var r := Gen(t, true, false);
    if |b| == 1 {
      assert s[0] == b[0] && s[1..] == t;
      assert b == [b[0]];
    } else {
      var u := b[2..];
      assert s[0] == '\\' && s[1..] != [] && s[1..][0] == b[1] && s[1..][1..] == u + t;
      GenPlainInside(u, t);
      PrependMore(b[1], u, r);
      PrependMore('\\', [b[1]] + u, r);
      assert ['\\'] + ([b[1]] + u) == b;
    }
  }

  /** A string behind its opening quote, up to and including the closing one. */
  lemma {:induction false} GenBody(b: string, t: string)
    requires IsStringBody(b)
    ensures Gen(b + (['"'] + t), true, false) ==
            if OneLine(b) then Prepend(b, Emit('"', Gen(t, false, false))) else None
    decreases |b|
  {
    var q := ['"'] + t;
    assert q[1..] == t;
    var r := Emit('"', Gen(t, false, false));
    assert Gen(q, true, false) == r;
    if b == [] {
      assert b + q == q;
      PrependNothing(r);
    } else {
      var k := UnitLen(b);
      var u, v := b[..k], b[k..];
      assert b == u + v;
      UnitLenLocal(b, u);
      UnitShape(u);
      GenBody(v, t);
      Assoc(u, v, q);
      GenUnit(u, v + q);
      if OneLine(b) {
        assert OneLine(u) && OneLine(v);
        if r.Some? { Assoc(u, v, r.value); }
      } else if OneLine(u) {
        var i :| 0 <= i < |b| && b[i] == '\n';
        assert i >= k && v[i - k] == '\n';
      }
    }
  }

  lemma GenQuoted(b: string, t: string)
    requires IsStringBody(b)
    ensures Gen(['"'] + (b + (['"'] + t)), false, false) ==
            if !OneLine(b) then None
            else if Gen(t, false, false).None? then None
            else Some(['"'] + (b + (['"'] + Gen(t, false, false).value)))
  {
    var u := b + (['"'] + t);
    assert (['"'] + u)[1..] == u;
    GenBody(b, t);
  }

  lemma GenIf(c: char, present: bool, t: string)
    requires IsPlain([c])
    ensures var r := Gen(t, false, false);
      Gen(WriteIf(c, present, t), false, false) == if r.None? then None else Some(WriteIf(c, present, r.value))
  {
    if present {
      GenPlain([c], t);
    }
  }

  lemma GenExp(e: Option<Exponent>, t: string)
    requires e.Some? ==> IsMark(e.value.mark) && IsDigits(e.value.digits)
    ensures var r := Gen(t, false, false);
      Gen(WriteExp(e, t), false, false) == if r.None? then None else Some(WriteExp(e, r.value))
  {
    if e.Some? {
      var a := e.value.digits + t;
      var b := WriteIf('+', e.value.plus, a);
      GenPlain(e.value.digits, t);
      GenIf('+', e.value.plus, a);
      GenIf('-', e.value.minus, b);
      GenPlain([e.value.mark], WriteIf('-', e.value.minus, b));
    }
  }

  lemma GenNumber(n: Number, t: string)
    requires IsNumber(n)
    ensures var r := Gen(t, false, false);
      Gen(WriteNumber(n, t), false, false) == if r.None? then None else Some(WriteNumber(n, r.value))
  {
    var e := WriteExp(n.exp, t);
    var f := WriteFrac(n.frac, e);
    GenExp(n.exp, t);
    if n.frac.Some? {
      GenPlain(n.frac.value, e);
      GenPlain(['.'], n.frac.value + e);
    }
    GenPlain(n.whole, f);
    GenIf('-', n.neg, n.whole + f);
  }

  /** The script's result on a piece followed by `t`, given its result `r` on `t`. */
  lemma GenScalar(sc: Scalar, t: string)
    requires IsScalar(sc)
    ensures var r := Gen(t, false, false);
      Gen(WriteScalar(sc, t), false, false) ==
      if r.None? || !OneLineCst(Leaf(sc)) then None else Some(WriteScalar(sc, r.value))
  {
    match sc
    case SStr(b) => GenQuoted(b, t);
    case SNum(n) => GenNumber(n, t);
    case _ => GenPlain(Spelling(sc), t);
  }

  lemma BlankIsGap(b: string)
    requires AllBlank(b)
    ensures IsGap(b)
  {}

  lemma GenKey(k: Option<Key>, isObj: bool, t: string)
    requires KeyOk(k, isObj)
    ensures var r := Gen(t, false, false);
      Gen(WriteKey(k, t), false, false) ==
      if r.None? || (k.Some? && !OneLine(k.value.body)) then None else Some(WriteKey(StripKey(k), r.value))
  {
    if k.Some? {
      var a := k.value.post + t;
      var b := [':'] + a;
      BlankIsGap(k.value.post);
      BlankIsGap(k.value.pre);
      GenGap(k.value.post, t);
      assert b[1..] == a;
      GenGap(k.value.pre, b);
      GenQuoted(k.value.body, k.value.pre + b);
    }
  }

  lemma GenBracket(c: char, t: string)
    requires c == '{' || c == '}' || c == '[' || c == ']'
    ensures Gen([c] + t, false, false) == Emit(c, Gen(t, false, false))
  {
    assert ([c] + t)[1..] == t;
  }

  lemma {:induction false} GenElem(e: Elem, isObj: bool, t: string)
    requires KeyOk(e.key, isObj) && IsCst(e.val)
    ensures var r := Gen(t, false, false);
      Gen(WriteElem(e, t), false, false) ==
      if r.None? || !OneLineCst(e.val) || (e.key.Some? && !OneLine(e.key.value.body)) then None
      else Some(WriteElem(Elem(StripGap(e.gap), StripKey(e.key), StripCst(e.val)), r.value))
    decreases e, 0
  {
    match e.val {
      case Leaf(sc) => GenScalar(sc, t);
      case Group(isObj1, es, g) =>
        var close := [CloseOf(isObj1)] + t;
        GenBracket(CloseOf(isObj1), t);
        GenGap(g, close);
        GenElems(es, isObj1, Opened, g + close);
        GenBracket(OpenOf(isObj1), WriteElems(es, g + close));
    }
    GenKey(e.key, isObj, WriteCst(e.val, t));
  }

  lemma {:induction false} GenElems(es: seq<Elem>, isObj: bool, b: Before, t: string)
    requires IsElems(es, isObj, b)
    ensures var r := Gen(t, false, false);
      Gen(WriteElems(es, t), false, false) ==
      if r.None? || !OneLineElems(es) then None else Some(WriteElems(StripElems(es), r.value))
    decreases es, 1
  {
    if es != [] {
      var rest := WriteElems(es[1..], t);
      GenElems(es[1..], isObj, Next(es[0].val), t);
      GenElem(es[0], isObj, rest);
      GenGap(es[0].gap, WriteElem(es[0], rest));
      assert StripElems(es)[1..] == StripElems(es[1..]);
    }
  }

  /** On a document the script fails exactly when a string has a line break, and else writes the stripped document. */
  lemma GenDocument(d: Document)
    requires IsDocument(d)
    ensures Gen(Write(d), false, false) ==
            if OneLineElems(d.elems) then Some(Write(StripDoc(d))) else None
  {
    if d.tail.Some? {
      BlankIsGap(d.tail.value);
      assert d.tail.value + [] == d.tail.value;
      GenGap(d.tail.value, []);
      assert StripGap(d.tail.value) + [] == StripGap(d.tail.value);
      GenBracket(CloseOf(d.isObj), d.tail.value);
    }
    assert Gen(End(d), false, false) == Some(End(StripDoc(d)));
    GenGap(d.gap, End(d));
    GenElems(d.elems, d.isObj, Opened, d.gap + End(d));
    GenBracket(OpenOf(d.isObj), WriteElems(d.elems, d.gap + End(d)));
    BlankIsGap(d.lead);
    GenGap(d.lead, [OpenOf(d.isObj)] + WriteElems(d.elems, d.gap + End(d)));
  }

  // ----- the stripped document

  lemma {:induction false} StripGapKeeps(g: string)
    requires IsGap(g)
    ensures IsGap(StripGap(g)) && (',' in StripGap(g) <==> ',' in g)
    ensures AllBlank(g) ==> AllBlank(StripGap(g))
    ensures g != [] && g[|g| - 1] == ',' ==> StripGap(g) != [] && StripGap(g)[|StripGap(g)| - 1] == ','
  {
    if g != [] {
      StripGapKeeps(g[1..]);
      assert g == [g[0]] + g[1..];
    }
  }

  lemma {:induction false} StripCstIs(c: Cst)
    requires IsCst(c)
    ensures IsCst(StripCst(c)) && CstVal(StripCst(c)) == CstVal(c) && Next(StripCst(c)) == Next(c)
    decreases c, 0
  {
    if c.Group? {
      StripElemsAre(c.elems, c.isObj, Opened);
      StripGapKeeps(c.gap);
    }
  }

  lemma StripKeyIs(k: Option<Key>, isObj: bool)
    requires KeyOk(k, isObj)
    ensures KeyOk(StripKey(k), isObj) && KeyName(StripKey(k)) == KeyName(k)
  {
    if k.Some? {
      BlankIsGap(k.value.pre);
      BlankIsGap(k.value.post);
      StripGapKeeps(k.value.pre);
      StripGapKeeps(k.value.post);
    }
  }

  lemma {:induction false} StripElemsAre(es: seq<Elem>, isObj: bool, b: Before)
    requires IsElems(es, isObj, b)
    ensures IsElems(StripElems(es), isObj, b)
    ensures Nodes(StripElems(es), isObj, b) == Nodes(es, isObj, b)
    decreases es, 1
  {
    hide KeyOk, KeyName, StripKey, CstVal, IsCst, StripCst, StripGap;
    if es != [] {
      StripGapKeeps(es[0].gap);
      StripKeyIs(es[0].key, isObj);
      StripCstIs(es[0].val);
      StripElemsAre(es[1..], isObj, Next(es[0].val));
      assert StripElems(es)[1..] == StripElems(es[1..]);
    }
  }

  lemma {:induction false} StripAfter(es: seq<Elem>)
    ensures After(StripElems(es), Opened) == After(es, Opened)
  {
    if |es| > 1 {
      StripAfter(es[1..]);
    }
  }

  lemma StripDocIs(d: Document)
    requires IsDocument(d)
    ensures IsDocument(StripDoc(d)) && Tree(StripDoc(d)) == Tree(d)
  {
    hide IsElems, Nodes;
    BlankIsGap(d.lead);
    StripGapKeeps(d.lead);
    StripElemsAre(d.elems, d.isObj, Opened);
    StripAfter(d.elems);
    StripGapKeeps(d.gap);
    if d.tail.Some? {
      BlankIsGap(d.tail.value);
      StripGapKeeps(d.tail.value);
    }
  }

  /** The parser cannot tell a text it accepts from what the script makes of it. */
  lemma ParsePreserved(text: string, cap: nat)
    requires Parse(text, cap).Done? && Gen(text, false, false).Some?
    ensures Parse(Gen(text, false, false).value, cap) == Parse(text, cap)
  {
    var d := ParseSound(text, cap);
    GenDocument(d);
    StripDocIs(d);
    ParseDocument(StripDoc(d), cap);
  }

  /** On an accepted text the script fails exactly if a string of it has a line break. */
  lemma FailsOnLineBreaks(text: string, cap: nat)
    requires Parse(text, cap).Done?
    ensures Gen(text, false, false).None? <==>
            exists d :: IsDocument(d) && Write(d) == text && !OneLineElems(d.elems)
  {
    var d := ParseSound(text, cap);
    GenDocument(d);
    forall e | IsDocument(e) && Write(e) == text
      ensures OneLineElems(e.elems) == Gen(text, false, false).Some?
    {
      GenDocument(e);
    }
  }

  /** Stripping what is already stripped changes nothing, for any text at all. */
  lemma {:induction false} Idempotent(s: string, str: bool, esc: bool)
    requires esc ==> str
    requires Gen(s, str, esc).Some?
    ensures Gen(Gen(s, str, esc).value, str, esc) == Gen(s, str, esc)
  {
    if s != [] {
      var str1 := if s[0] == '"' && !esc then !str else str;
      if s[0] == '\n' || (IsDropped(s[0]) && !str) {
        Idempotent(s[1..], str, esc);
      } else {
        var esc1 := !esc && s[0] == '\\' && str1;
        Idempotent(s[1..], str1, esc1);
        var u := Gen(s[1..], str1, esc1).value;
        assert ([s[0]] + u)[1..] == u;
      }
    }
  }

  /** Only characters of the text come out: for an ASCII text every code fits a C char. */
  lemma {:induction false} CodesAreOfText(s: string, str: bool, esc: bool)
    requires Gen(s, str, esc).Some?
    ensures forall c :: c in Gen(s, str, esc).value ==> c in s
  {
    if s != [] {
      var str1 := if s[0] == '"' && !esc then !str else str;
      if s[0] == '\n' || (IsDropped(s[0]) && !str) {
        CodesAreOfText(s[1..], str, esc);
      } else {
        CodesAreOfText(s[1..], str1, !esc && s[0] == '\\' && str1);
      }
    }
  }

  // ----- what is gone, and that nothing else is

  /** The commas and form feeds of a gap, in order. */
  function Marks(g: string): string {
    if g == [] then []
    else (if g[0] == ',' || g[0] == '\U{000C}' then [g[0]] else []) + Marks(g[1..])
  }

  /** `h` is the gap `g` without white space: its marks, and no space, tab, carriage return or line feed. */
  predicate PacksGap(g: string, h: string) {
    h == Marks(g) && ' ' !in h && '\t' !in h && '\r' !in h && '\n' !in h
  }

  predicate PacksKey(k: Option<Key>, l: Option<Key>) {
    && k.Some? == l.Some?
    && (k.Some? ==>
          && l.value.body == k.value.body
          && PacksGap(k.value.pre, l.value.pre) && PacksGap(k.value.post, l.value.post))
  }

  predicate PacksCst(c: Cst, e: Cst)
    decreases c, 0
  {
    match c
    case Leaf(_) => e == c
    case Group(isObj, es, g) =>
      e.Group? && e.isObj == isObj && PacksElems(es, e.elems) && PacksGap(g, e.gap)
  }

  predicate PacksElems(es: seq<Elem>, fs: seq<Elem>)
    decreases es, 1
  {
    && |es| == |fs|
    && (es == [] ||
        (&& PacksGap(es[0].gap, fs[0].gap) && PacksKey(es[0].key, fs[0].key)
         && PacksCst(es[0].val, fs[0].val) && PacksElems(es[1..], fs[1..])))
  }

  /** The same document but for the white space between its tokens, of which `e` has none. */
  predicate Packs(d: Document, e: Document) {
    && PacksGap(d.lead, e.lead) && e.isObj == d.isObj && PacksElems(d.elems, e.elems) && PacksGap(d.gap, e.gap)
    && e.tail.Some? == d.tail.Some? && (d.tail.Some? ==> PacksGap(d.tail.value, e.tail.value))
  }

  lemma {:induction false} StripGapPacks(g: string)
    requires IsGap(g)
    ensures PacksGap(g, StripGap(g))
  {
    if g != [] {
      StripGapPacks(g[1..]);
    }
  }

  lemma StripKeyPacks(k: Option<Key>, isObj: bool)
    requires KeyOk(k, isObj)
    ensures PacksKey(k, StripKey(k))
  {
    if k.Some? {
      BlankIsGap(k.value.pre);
      BlankIsGap(k.value.post);
      StripGapPacks(k.value.pre);
      StripGapPacks(k.value.post);
    }
  }

  lemma {:induction false} StripCstPacks(c: Cst)
    requires IsCst(c)
    ensures PacksCst(c, StripCst(c))
    decreases c, 0
  {
    if c.Group? {
      StripElemsPack(c.elems, c.isObj, Opened);
      StripGapPacks(c.gap);
    }
  }

  lemma {:induction false} StripElemsPack(es: seq<Elem>, isObj: bool, b: Before)
    requires IsElems(es, isObj, b)
    ensures PacksElems(es, StripElems(es))
    decreases es, 1
  {
    if es != [] {
      StripGapPacks(es[0].gap);
      StripKeyPacks(es[0].key, isObj);
      StripCstPacks(es[0].val);
      StripElemsPack(es[1..], isObj, Next(es[0].val));
      assert StripElems(es)[1..] == StripElems(es[1..]);
    }
  }

  /**
   What comes out for an accepted text: the text of the same document, its strings,
   numbers, names and brackets as they were, with none of the white space between
   them, and the commas and form feeds in their places.
   */
  lemma OutputPacks(text: string, cap: nat) returns (d: Document, e: Document)
    requires Parse(text, cap).Done? && Gen(text, false, false).Some?
    ensures IsDocument(d) && Write(d) == text && IsDocument(e) && Packs(d, e)
    ensures Gen(text, false, false) == Some(Write(e))
  {
    d := ParseSound(text, cap);
    e := StripDoc(d);
    GenDocument(d);
    StripDocIs(d);
    BlankIsGap(d.lead);
    StripGapPacks(d.lead);
    StripElemsPack(d.elems, d.isObj, Opened);
    StripGapPacks(d.gap);
    if d.tail.Some? {
      BlankIsGap(d.tail.value);
      StripGapPacks(d.tail.value);
    }
  }

  lemma {:induction false} MarksShorter(g: string)
    ensures |Marks(g)| <= |g|
  {
    if g != [] {
      MarksShorter(g[1..]);
    }
  }

  lemma KeyShorter(k: Option<Key>, l: Option<Key>, t: string, u: string)
    requires PacksKey(k, l) && |u| <= |t|
    ensures |WriteKey(l, u)| <= |WriteKey(k, t)|
  {
    if k.Some? {
      MarksShorter(k.value.pre);
      MarksShorter(k.value.post);
    }
  }

  lemma ScalarLength(sc: Scalar, t: string, u: string)
    requires |u| <= |t|
    ensures |WriteScalar(sc, u)| <= |WriteScalar(sc, t)|
  {}

  lemma {:induction false} ElemShorter(e: Elem, f: Elem, t: string, u: string)
    requires PacksKey(e.key, f.key) && PacksCst(e.val, f.val) && |u| <= |t|
    ensures |WriteElem(f, u)| <= |WriteElem(e, t)|
    decreases e, 0
  {
    match e.val {
      case Leaf(sc) => ScalarLength(sc, t, u);
      case Group(isObj, es, g) =>
        MarksShorter(g);
        ElemsShorter(es, f.val.elems, g + ([CloseOf(isObj)] + t), f.val.gap + ([CloseOf(isObj)] + u));
    }
    KeyShorter(e.key, f.key, WriteCst(e.val, t), WriteCst(f.val, u));
  }

  lemma {:induction false} ElemsShorter(es: seq<Elem>, fs: seq<Elem>, t: string, u: string)
    requires PacksElems(es, fs) && |u| <= |t|
    ensures |WriteElems(fs, u)| <= |WriteElems(es, t)|
    decreases es, 1
  {
    if es != [] {
      MarksShorter(es[0].gap);
      ElemsShorter(es[1..], fs[1..], t, u);
      ElemShorter(es[0], fs[0], WriteElems(es[1..], t), WriteElems(fs[1..], u));
    }
  }

  /** No document that differs only in white space has a shorter text. */
  lemma PackedIsShortest(d: Document, e: Document)
    requires Packs(d, e)
    ensures |Write(e)| <= |Write(d)|
  {
    MarksShorter(d.lead);
    MarksShorter(d.gap);
    if d.tail.Some? {
      MarksShorter(d.tail.value);
    }
    ElemsShorter(d.elems, e.elems, d.gap + End(d), e.gap + End(e));
  }

  lemma GenSpace(t: string)
    ensures Gen([' '] + t, false, false) == Gen(t, false, false)
  {
    assert ([' '] + t)[1..] == t;
  }

  /** `{ "a": 1 }` comes out as `{"a":1}`. */
  lemma SpacesGone()
    ensures Gen("{ \"a\": 1 }", false, false) == Some("{\"a\":1}")
  {
    hide Gen;
    assert "}" + "" == "}" && Gen("", false, false) == Some("") by { GenNothing(); }
    GenBracket('}', "");
    GenSpace("}");
    GenPlain("1", " }");
    GenSpace("1 }");
    GenPlain(":", " 1 }");
    assert [' '] + "}" == " }" && "1" + " }" == "1 }" && [' '] + "1 }" == " 1 }" && ":" + " 1 }" == ": 1 }";
    assert ['}'] + "" == "}" && "1" + "}" == "1}" && ":" + "1}" == ":1}";
    assert Gen(": 1 }", false, false) == Some(":1}");
    assert UnitLen("a") == 1 && IsStringBody("a");
    GenQuoted("a", ": 1 }");
    var q := ['"'] + ("a" + (['"'] + ": 1 }"));
    assert ['"'] + ("a" + (['"'] + ":1}")) == "\"a\":1}" && OneLine("a");
    assert Gen(q, false, false) == Some("\"a\":1}");
    GenSpace(q);
    GenBracket('{', [' '] + q);
    assert ['{'] + ([' '] + q) == "{ \"a\": 1 }" && ['{'] + "\"a\":1}" == "{\"a\":1}";
  }

  lemma GenNothing()
    ensures Gen("", false, false) == Some("")
  {}
}
