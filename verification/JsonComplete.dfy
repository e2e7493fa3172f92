/**
 Every document of the grammar is accepted and denotes its own tree.
 */
module JsonComplete {
  import opened Wrappers
  import opened JsonTree
  import opened JsonLex
  import opened JsonMachine
  import opened JsonGrammar

  lemma RunSkip(s: string, st: Stack, used: nat, cap: nat)
    requires SkipBlank(s) != []
    ensures Run(SkipBlank(s), st, used, cap) == Run(s, st, used, cap)
  {}

  /** Blanks and commas in front of an element change nothing. */
  lemma {:induction false} RunGap(g: string, t: string, st: Stack, used: nat, cap: nat)
    requires IsGap(g) && t != [] && !IsBlank(t[0])
    ensures Run(g + t, st, used, cap) == Run(t, st, used, cap)
  {
    if g == [] {
      assert g + t == t;
    } else {
      assert (g + t)[1..] == g[1..] + t;
      RunGap(g[1..], t, st, used, cap);
      if IsBlank(g[0]) {
        SkipToElement(g[1..], t);
        RunSkip(g + t, st, used, cap);
        RunSkip(g[1..] + t, st, used, cap);
      }
    }
  }

  lemma {:induction false} SkipToElement(g: string, t: string)
    requires IsGap(g) && t != [] && !IsBlank(t[0])
    ensures SkipBlank(g + t) != []
    ensures SkipBlank(g + t)[0] == if ',' in g then ',' else t[0]
  {
    if g == [] {
      assert g + t == t;
    } else {
      assert (g + t)[1..] == g[1..] + t;
      if IsBlank(g[0]) {
        SkipToElement(g[1..], t);
      }
    }
  }

  lemma DelimEndsNumber(t: string)
    requires DelimAhead(t)
    ensures t != [] && EndsNumber(t)
  {}

  lemma LexColonComplete(pre: string, post: string, t: string)
    requires AllBlank(pre) && AllBlank(post) && t != [] && !IsBlank(t[0])
    ensures LexColon(pre + ([':'] + (post + t))) == Some(t)
  {
    hide SkipBlank;
    var b := [':'] + (post + t);
    SkipBlankTo(pre, b);
    SkipBlankTo(post, t);
    assert b[1..] == post + t;
  }

  lemma LexKeyComplete(k: Option<Key>, isObj: bool, t: string)
    requires KeyOk(k, isObj) && t != [] && !IsBlank(t[0])
    ensures var s := WriteKey(k, t);
      && s != [] && s[0] == (if isObj then '"' else t[0])
      && LexKey(isObj, s) == Some(Lexed(KeyName(k), t))
  {
    if k.Some? {
      var c := k.value.pre + ([':'] + (k.value.post + t));
      var d := k.value.body + (['"'] + c);
      LexStringComplete(k.value.body, c, d);
      assert (['"'] + d)[1..] == d;
      LexColonComplete(k.value.pre, k.value.post, t);
    }
  }

  // Single turns of the machine.

  lemma RunIsStep(s: string, st: Stack, used: nat, cap: nat)
    requires s != [] && !IsBlank(s[0])
    ensures Run(s, st, used, cap) == Step(s, st, used, cap)
  {}

  lemma StepValue(s: string, k: Lexed<Option<string>>, st: Stack, used: nat, cap: nat)
    requires s != [] && s[0] != ',' && s[0] != CloseOf(st.isObj)
    requires LexKey(st.isObj, s) == Some(k)
    ensures Step(s, st, used, cap) ==
            if used >= cap then Fail(ERRMEM) else RunValue(k.item, k.rest, st, used, cap)
  {}

  lemma StepClose(t: string, st: Stack, used: nat, cap: nat)
    requires st.Nested?
    ensures Step([CloseOf(st.isObj)] + t, st, used, cap) == Run(t, Pop(st), used, cap)
  {
    assert ([CloseOf(st.isObj)] + t)[1..] == t;
  }

  lemma ValueLeaf(name: Option<string>, s: string, l: Lexed<Scalar>, st: Stack, used: nat, cap: nat)
    requires s != [] && !IsOpen(s[0]) && LexScalar(s) == Some(l) && DelimAhead(l.rest)
    ensures RunValue(name, s, st, used, cap) ==
            Run(PastDelim(l.rest), Attach(st, Node(name, ScalarVal(l.item))), used + 1, cap)
  {}

  lemma ValueOpen(name: Option<string>, isObj: bool, u: string, st: Stack, used: nat, cap: nat)
    requires OpenOk(isObj, u)
    ensures RunValue(name, [OpenOf(isObj)] + u, st, used, cap) ==
            Run(u, Nested(st, name, isObj, []), used + 1, cap)
  {
    hide Run, Step;
    assert ([OpenOf(isObj)] + u)[1..] == u;
    RunSkip(u, Nested(st, name, isObj, []), used + 1, cap);
  }

  lemma RunPastDelim(t: string, st: Stack, used: nat, cap: nat)
    requires DelimAhead(t)
    ensures Run(PastDelim(t), st, used, cap) == Run(t, st, used, cap)
  {
    RunSkip(t, st, used, cap);
  }

  /** One element that is a scalar. */
  lemma RunLeaf(k: Option<Key>, sc: Scalar, t: string, st: Stack, used: nat, cap: nat)
    requires KeyOk(k, st.isObj) && IsScalar(sc) && DelimAhead(t)
    ensures Run(WriteKey(k, WriteScalar(sc, t)), st, used, cap) ==
            if used >= cap then Fail(ERRMEM)
            else Run(t, Attach(st, Node(KeyName(k), ScalarVal(sc))), used + 1, cap)
  {
    hide Run, Step, RunValue, LexKey, LexScalar;
    DelimEndsNumber(t);
    var u := WriteScalar(sc, t);
    var s := WriteKey(k, u);
    ScalarHead(sc, t);
    LexKeyComplete(k, st.isObj, u);
    LexScalarComplete(sc, t);
    RunIsStep(s, st, used, cap);
    StepValue(s, Lexed(KeyName(k), u), st, used, cap);
    ValueLeaf(KeyName(k), u, Lexed(sc, t), st, used, cap);
    RunPastDelim(t, Attach(st, Node(KeyName(k), ScalarVal(sc))), used + 1, cap);
  }

  /** The opening bracket of a nested container. */
  lemma RunOpen(k: Option<Key>, isObj: bool, u: string, st: Stack, used: nat, cap: nat)
    requires KeyOk(k, st.isObj) && OpenOk(isObj, u)
    ensures Run(WriteKey(k, [OpenOf(isObj)] + u), st, used, cap) ==
            if used >= cap then Fail(ERRMEM)
            else Run(u, Nested(st, KeyName(k), isObj, []), used + 1, cap)
  {
    hide Run, Step, RunValue, LexKey, OpenOk;
    var v := [OpenOf(isObj)] + u;
    var s := WriteKey(k, v);
    LexKeyComplete(k, st.isObj, v);
    RunIsStep(s, st, used, cap);
    StepValue(s, Lexed(KeyName(k), v), st, used, cap);
    ValueOpen(KeyName(k), isObj, u, st, used, cap);
  }

  /** The gap and the closing bracket of a nested container. */
  lemma RunClose(g: string, t: string, st: Stack, used: nat, cap: nat)
    requires IsGap(g) && st.Nested?
    ensures Run(g + ([CloseOf(st.isObj)] + t), st, used, cap) == Run(t, Pop(st), used, cap)
  {
    hide Run, Step;
    var u := [CloseOf(st.isObj)] + t;
    RunGap(g, u, st, used, cap);
    RunIsStep(u, st, used, cap);
    StepClose(t, st, used, cap);
  }

  lemma ElemHead(e: Elem, isObj: bool, t: string)
    requires KeyOk(e.key, isObj) && IsCst(e.val)
    ensures var s := WriteElem(e, t); s != [] && !IsBlank(s[0]) && !IsDelim(s[0]) && OpenOk(isObj, s)
  {
    var u := WriteCst(e.val, t);
    if e.val.Leaf? {
      ScalarHead(e.val.sc, t);
    }
    LexKeyComplete(e.key, isObj, u);
  }

  /** What follows an opening bracket passes the parser's check. */
  lemma BodyHead(es: seq<Elem>, isObj: bool, g: string, t: string)
    requires IsElems(es, isObj, Opened) && IsGap(g)
    requires es == [] ==> ',' !in g && t != [] && t[0] == CloseOf(isObj)
    ensures OpenOk(isObj, WriteElems(es, g + t))
  {
    if es == [] {
      SkipToElement(g, t);
    } else {
      var u := WriteElem(es[0], WriteElems(es[1..], g + t));
      ElemHead(es[0], isObj, WriteElems(es[1..], g + t));
      SkipToElement(es[0].gap, u);
    }
  }

  /** Behind a scalar comes the comma of the next gap, or what ends the list. */
  lemma DelimBetween(es: seq<Elem>, isObj: bool, t: string)
    requires IsElems(es, isObj, AfterScalar)
    requires es == [] ==> DelimAhead(t)
    ensures DelimAhead(WriteElems(es, t))
  {
    if es != [] {
      var rest := WriteElems(es[1..], t);
      ElemHead(es[0], isObj, rest);
      SkipToElement(es[0].gap, WriteElem(es[0], rest));
    }
  }

  lemma AttachOneAndRest(st: Stack, nd: Node, ns: seq<Node>)
    ensures AttachAll(Attach(st, nd), ns) == AttachAll(st, [nd] + ns)
  {
    assert st.kids + [nd] + ns == st.kids + ([nd] + ns);
  }

  /** Reading a list of elements attaches their nodes, or runs out of tokens. */
  lemma {:induction false} RunElems(es: seq<Elem>, b: Before, t: string, st: Stack, used: nat, cap: nat)
    requires IsElems(es, st.isObj, b)
    requires es != [] && After(es, b) == AfterScalar ==> DelimAhead(t)
    ensures var ns := Nodes(es, st.isObj, b);
      Run(WriteElems(es, t), st, used, cap) ==
      if es != [] && used + Sizes(ns) > cap then Fail(ERRMEM)
      else Run(t, AttachAll(st, ns), used + Sizes(ns), cap)
    decreases es, 1
  {
    hide Run, OpenOk, DelimAhead, IsCst, CstVal, WriteElem;
    if es == [] {
      assert AttachAll(st, []) == st;
    } else {
      var e := es[0];
      var rest := WriteElems(es[1..], t);
      var nd := Node(KeyName(e.key), CstVal(e.val));
      var ns := Nodes(es[1..], st.isObj, Next(e.val));
      assert Nodes(es, st.isObj, b) == [nd] + ns;
      assert ([nd] + ns)[1..] == ns;
      ElemHead(e, st.isObj, rest);
      RunGap(e.gap, WriteElem(e, rest), st, used, cap);
      if e.val.Leaf? {
        DelimBetween(es[1..], st.isObj, t);
      }
      RunElem(e, rest, st, used, cap);
      if used + Size(nd) <= cap {
        RunElems(es[1..], Next(e.val), t, Attach(st, nd), used + Size(nd), cap);
        AttachOneAndRest(st, nd, ns);
      }
    }
  }

  lemma {:induction false} RunElem(e: Elem, t: string, st: Stack, used: nat, cap: nat)
    requires KeyOk(e.key, st.isObj) && IsCst(e.val)
    requires e.val.Leaf? ==> DelimAhead(t)
    ensures var nd := Node(KeyName(e.key), CstVal(e.val));
      Run(WriteElem(e, t), st, used, cap) ==
      if used + Size(nd) > cap then Fail(ERRMEM) else Run(t, Attach(st, nd), used + Size(nd), cap)
    decreases e, 0
  {
    hide Run, KeyOk, KeyName, WriteKey, IsElems, Nodes, WriteElems;
    match e.val
    case Leaf(sc) =>
      RunLeaf(e.key, sc, t, st, used, cap);
    case Group(isObj, es, g) =>
      RunGroup(e.key, isObj, es, g, t, st, used, cap);
  }

  lemma {:induction false} RunGroup(k: Option<Key>, isObj: bool, es: seq<Elem>, g: string, t: string,
                                    st: Stack, used: nat, cap: nat)
    requires KeyOk(k, st.isObj)
    requires IsElems(es, isObj, Opened) && IsGap(g) && (es == [] ==> ',' !in g)
    ensures var ns := Nodes(es, isObj, Opened);
      var s := WriteKey(k, [OpenOf(isObj)] + WriteElems(es, g + ([CloseOf(isObj)] + t)));
      Run(s, st, used, cap) ==
      if used + 1 + Sizes(ns) > cap then Fail(ERRMEM)
      else Run(t, Attach(st, Node(KeyName(k), VCont(isObj, ns))), used + 1 + Sizes(ns), cap)
    decreases es, 2
  {
    hide Run, OpenOk, DelimAhead, KeyOk, KeyName, WriteKey, IsElems, WriteElems, Nodes;
    var close := [CloseOf(isObj)] + t;
    var body := WriteElems(es, g + close);
    BodyHead(es, isObj, g, close);
    RunOpen(k, isObj, body, st, used, cap);
    var st1 := Nested(st, KeyName(k), isObj, []);
    SkipToClose(g, isObj, t);
    RunElems(es, Opened, g + close, st1, used + 1, cap);
    NoElems(isObj);
    var ns := Nodes(es, isObj, Opened);
    RunClose(g, t, AttachAll(st1, ns), used + 1 + Sizes(ns), cap);
    assert AttachAll(st1, ns).kids == ns;
  }

  lemma SkipToClose(g: string, isObj: bool, t: string)
    requires IsGap(g)
    ensures DelimAhead(g + ([CloseOf(isObj)] + t))
  {
    SkipToElement(g, [CloseOf(isObj)] + t);
  }

  // ----- whole documents

  /** Commas and blanks up to the end of the text, with the root still open. */
  lemma {:induction false} RunStop(g: string, st: Stack, used: nat, cap: nat)
    requires IsGap(g) && st.Bottom?
    requires g != [] ==> g[|g| - 1] == ','
    ensures Run(g, st, used, cap) == Done(VCont(st.isObj, st.kids))
    ensures g != [] ==> SkipBlank(g) != [] && SkipBlank(g)[0] == ','
  {
    if g != [] {
      RunStop(g[1..], st, used, cap);
    }
  }

  /** What a closed root and what follows it come to. */
  function RootEnd(v: Val, tail: string): Outcome {
    if SkipBlank(tail) == [] then Done(v) else Fail(ERR)
  }

  lemma StepEnd(tail: string, st: Stack, used: nat, cap: nat)
    requires st.Bottom?
    ensures Step([CloseOf(st.isObj)] + tail, st, used, cap) == RootEnd(VCont(st.isObj, st.kids), tail)
  {
    hide Run, RunValue;
    assert ([CloseOf(st.isObj)] + tail)[1..] == tail;
  }

  lemma BlankTail(tail: string)
    requires AllBlank(tail)
    ensures SkipBlank(tail) == []
  {
    assert tail + [] == tail;
    SkipBlankOver(tail, []);
  }

  lemma ParseIsRun(lead: string, isObj: bool, body: string, cap: nat)
    requires AllBlank(lead) && OpenOk(isObj, body)
    ensures Parse(lead + ([OpenOf(isObj)] + body), cap) == Run(body, Bottom(isObj, []), 0, cap)
  {
    hide Run;
    var s := [OpenOf(isObj)] + body;
    SkipBlankTo(lead, s);
    assert s[1..] == body;
    RunSkip(body, Bottom(isObj, []), 0, cap);
  }

  /** The body of a root that is closed, and anything behind it. */
  lemma RunRoot(isObj: bool, es: seq<Elem>, g: string, tail: string, cap: nat)
    requires IsElems(es, isObj, Opened) && IsGap(g) && (es == [] ==> ',' !in g)
    ensures var ns := Nodes(es, isObj, Opened);
      Run(WriteElems(es, g + ([CloseOf(isObj)] + tail)), Bottom(isObj, []), 0, cap) ==
      if Sizes(ns) <= cap then RootEnd(VCont(isObj, ns), tail) else Fail(ERRMEM)
  {
    hide Run, Step, IsElems, WriteElems, Nodes, DelimAhead, RootEnd;
    var ns := Nodes(es, isObj, Opened);
    var st := AttachAll(Bottom(isObj, []), ns);
    var end := [CloseOf(isObj)] + tail;
    assert st == Bottom(isObj, ns);
    SkipToClose(g, isObj, tail);
    RunElems(es, Opened, g + end, Bottom(isObj, []), 0, cap);
    NoElems(isObj);
    RunGap(g, end, st, Sizes(ns), cap);
    RunIsStep(end, st, Sizes(ns), cap);
    StepEnd(tail, st, Sizes(ns), cap);
  }

  lemma RunClosed(d: Document, cap: nat)
    requires IsDocument(d) && d.tail.Some?
    ensures Run(WriteElems(d.elems, d.gap + End(d)), Bottom(d.isObj, []), 0, cap) ==
            if Count(d) <= cap then Done(Tree(d)) else Fail(ERRMEM)
  {
    hide Run, IsElems, WriteElems, Nodes;
    RunRoot(d.isObj, d.elems, d.gap, d.tail.value, cap);
    BlankTail(d.tail.value);
  }

  lemma NoElems(isObj: bool)
    ensures Nodes([], isObj, Opened) == []
  {}

  lemma RunUnclosed(d: Document, cap: nat)
    requires IsDocument(d) && d.tail.None?
    ensures Run(WriteElems(d.elems, d.gap + End(d)), Bottom(d.isObj, []), 0, cap) ==
            if Count(d) <= cap then Done(Tree(d)) else Fail(ERRMEM)
  {
    hide Run, IsElems, WriteElems, Nodes;
    var ns := Nodes(d.elems, d.isObj, Opened);
    var st := AttachAll(Bottom(d.isObj, []), ns);
    assert st == Bottom(d.isObj, ns);
    assert d.gap + End(d) == d.gap;
    RunStop(d.gap, st, Sizes(ns), cap);
    RunElems(d.elems, Opened, d.gap, Bottom(d.isObj, []), 0, cap);
    NoElems(d.isObj);
  }

  /** Every document is accepted if the pool is large enough, and yields its own tree. */
  lemma ParseDocument(d: Document, cap: nat)
    requires IsDocument(d)
    ensures Parse(Write(d), cap) == if Count(d) <= cap then Done(Tree(d)) else Fail(ERRMEM)
  {
    hide Run, OpenOk, IsElems, WriteElems, Nodes, Parse;
    BodyHead(d.elems, d.isObj, d.gap, End(d));
    ParseIsRun(d.lead, d.isObj, WriteElems(d.elems, d.gap + End(d)), cap);
    if d.tail.Some? {
      RunClosed(d, cap);
    } else {
      RunUnclosed(d, cap);
    }
  }
}
