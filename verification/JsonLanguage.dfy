/**
 The accepted language, exactly: a text is accepted if and only if it is a
 document of the grammar that fits the pool.
 */
module JsonLanguage {
  import opened Wrappers
  import opened JsonTree
  import opened JsonLex
  import opened JsonMachine
  import opened JsonGrammar
  import opened JsonComplete
  import opened JsonSound

  /** Behind the root's bracket comes an element or the closing bracket, never the end of the text. */
  lemma OpenNotStopped(isObj: bool, g: string)
    requires IsGap(g) && StopOk(g, Free)
    ensures !OpenOk(isObj, g)
  {
    RunStop(g, Bottom(isObj, []), 0, 0);
  }

  lemma ParseDone(text: string, cap: nat)
    requires EndsRoot(Parse(text, cap))
    ensures var s := SkipBlank(text);
      && s != [] && IsOpen(s[0])
      && OpenOk(s[0] == '{', s[1..])
      && Parse(text, cap) == Run(s[1..], Bottom(s[0] == '{', []), 0, cap)
  {
    hide Run;
    var s := SkipBlank(text);
    RunSkip(s[1..], Bottom(s[0] == '{', []), 0, cap);
  }

  /** A text that is read up to the root's end: a document but for what is behind its closing bracket. */
  lemma ParseReads(text: string, cap: nat) returns (d: Document)
    requires EndsRoot(Parse(text, cap))
    ensures AllBlank(d.lead) && IsElems(d.elems, d.isObj, Opened) && IsGap(d.gap) && (d.elems == [] ==> ',' !in d.gap)
    ensures d.tail.None? ==> StopOk(d.gap, After(d.elems, Opened))
    ensures Write(d) == text
    ensures var ns := Nodes(d.elems, d.isObj, Opened);
      && Sizes(ns) <= cap
      && Parse(text, cap) ==
         if d.tail.Some? then RootEnd(VCont(d.isObj, ns), d.tail.value) else Done(VCont(d.isObj, ns))
  {
    hide Run, OpenOk, SkipBlank, Blanks, Parse, IsElems, WriteElems, Nodes, RootEnd;
    ParseDone(text, cap);
    var s := SkipBlank(text);
    var isObj, body := s[0] == '{', s[1..];
    var es, g, tail := Sound(body, Bottom(isObj, []), 0, cap);
    if es == [] && tail.None? {
      NothingWritten(g);
      OpenNotStopped(isObj, g);
      assert false;
    }
    FirstGap(es, g, Closing(isObj, tail), isObj, Opened);
    d := Document(Blanks(text), isObj, es, g, tail);
    assert s == [OpenOf(isObj)] + body;
    assert [] + Nodes(es, isObj, Free) == Nodes(es, isObj, Free);
  }

  /** An accepted text is a document whose tree the parser returns. */
  lemma ParseSound(text: string, cap: nat) returns (d: Document)
    requires Parse(text, cap).Done?
    ensures IsDocument(d) && Write(d) == text && Count(d) <= cap
    ensures Parse(text, cap) == Done(Tree(d))
  {
    hide Parse, IsElems, WriteElems, Nodes, SkipBlank, Blanks;
    d := ParseReads(text, cap);
    if d.tail.Some? {
      assert SkipBlank(d.tail.value) == [] && Blanks(d.tail.value) + [] == d.tail.value;
      assert Blanks(d.tail.value) + [] == Blanks(d.tail.value);
    }
  }

  lemma NothingWritten(g: string)
    ensures WriteElems([], g + []) == g
  {}

  /** Parsing decides membership in the grammar, whatever the text. */
  lemma AcceptedExactlyDocuments(text: string, cap: nat)
    ensures Parse(text, cap).Done? <==> exists d :: IsDocument(d) && Write(d) == text && Count(d) <= cap
  {
    if Parse(text, cap).Done? {
      var d := ParseSound(text, cap);
    }
    forall d | IsDocument(d) && Write(d) == text && Count(d) <= cap
      ensures Parse(text, cap).Done?
    {
      ParseDocument(d, cap);
    }
  }

  /** A text is never two documents with different trees. */
  lemma Unambiguous(d: Document, e: Document)
    requires IsDocument(d) && IsDocument(e) && Write(d) == Write(e)
    ensures Tree(d) == Tree(e)
  {
    var cap := Count(d) + Count(e);
    ParseDocument(d, cap);
    ParseDocument(e, cap);
  }

  // ----- unclosed roots

  ghost predicate SameLast(s: string, t: string) {
    s != [] && t != [] && s[|s| - 1] == t[|t| - 1]
  }

  lemma LastOfKey(k: Option<Key>, t: string)
    requires t != []
    ensures SameLast(WriteKey(k, t), t)
  {
    if k.Some? {
      var a := k.value.post + t;
      var b := k.value.pre + ([':'] + a);
      assert SameLast(a, t) && SameLast(b, a);
      assert SameLast(k.value.body + (['"'] + b), b);
    }
  }

  lemma LastOfNumber(n: Number, t: string)
    requires t != []
    ensures SameLast(WriteNumber(n, t), t)
  {
    var a := WriteExp(n.exp, t);
    assert SameLast(a, t);
    assert SameLast(WriteFrac(n.frac, a), a);
  }

  lemma LastOfScalar(sc: Scalar, t: string)
    requires t != []
    ensures SameLast(WriteScalar(sc, t), t)
  {
    if sc.SNum? {
      LastOfNumber(sc.num, t);
    }
  }

  lemma {:induction false} LastOfElem(e: Elem, t: string)
    requires t != []
    ensures SameLast(WriteElem(e, t), t)
    decreases e, 0
  {
    var c := WriteCst(e.val, t);
    match e.val {
      case Leaf(sc) => LastOfScalar(sc, t);
      case Group(isObj, es, g) => LastOfElems(es, g + ([CloseOf(isObj)] + t));
    }
    assert SameLast(c, t);
    LastOfKey(e.key, c);
  }

  lemma {:induction false} LastOfElems(es: seq<Elem>, t: string)
    requires t != []
    ensures SameLast(WriteElems(es, t), t)
    decreases es, 1
  {
    if es != [] {
      var u := WriteElems(es[1..], t);
      LastOfElems(es[1..], t);
      LastOfElem(es[0], u);
    }
  }

  lemma {:induction false} LastGroup(es: seq<Elem>)
    requires es != [] && es[|es| - 1].val.Group?
    ensures SameLast(WriteElems(es, []), [CloseOf(es[|es| - 1].val.isObj)])
  {
    var e := es[0];
    if |es| == 1 {
      assert es[1..] == [];
      LastOfElems(e.val.elems, e.val.gap + ([CloseOf(e.val.isObj)] + []));
      LastOfKey(e.key, WriteCst(e.val, []));
    } else {
      assert es[1..][|es| - 2] == es[|es| - 1];
      LastGroup(es[1..]);
      LastOfElem(e, WriteElems(es[1..], []));
    }
  }

  /** A text accepted with its root open ends in a comma or, if no gap follows, in its last child's closing bracket. */
  lemma UnclosedEnds(d: Document)
    requires IsDocument(d) && d.tail.None?
    ensures d.elems != []
    ensures d.gap != [] ==> SameLast(Write(d), ",")
    ensures d.gap == [] ==>
      var c := d.elems[|d.elems| - 1].val; c.Group? && SameLast(Write(d), [CloseOf(c.isObj)])
  {
    var s := WriteElems(d.elems, d.gap + End(d));
    assert d.gap + End(d) == d.gap;
    if d.gap == [] {
      LastGroup(d.elems);
    } else {
      LastOfElems(d.elems, d.gap);
    }
    assert SameLast([OpenOf(d.isObj)] + s, s);
  }
}
