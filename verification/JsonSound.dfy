/**
 Only documents of the grammar are accepted: a run that gets to the root's end can
 be read back as the elements it went through.
 */
module JsonSound {
  import opened Wrappers
  import opened JsonTree
  import opened JsonLex
  import opened JsonMachine
  import opened JsonGrammar
  import opened JsonComplete

  /** The blanks that `SkipBlank` drops. */
  function Blanks(s: string): (b: string)
    ensures AllBlank(b) && s == b + SkipBlank(s)
  {
    SkipBlankDrops(s);
    var k := |s| - |SkipBlank(s)|;
    assert s == s[..k] + s[k..];
    s[..k]
  }

  lemma ColonSound(s: string) returns (pre: string, post: string)
    requires LexColon(s).Some?
    ensures AllBlank(pre) && AllBlank(post) && s == pre + ([':'] + (post + LexColon(s).value))
  {
    hide SkipBlank;
    var c := SkipBlank(s);
    pre, post := Blanks(s), Blanks(c[1..]);
    assert c == [':'] + c[1..];
  }

  lemma KeySound(isObj: bool, s: string) returns (k: Option<Key>)
    requires s != [] && LexKey(isObj, s).Some?
    ensures var l := LexKey(isObj, s).value; KeyOk(k, isObj) && KeyName(k) == l.item && s == WriteKey(k, l.rest)
  {
    if isObj {
      hide SkipBlank, LexString;
      LexStringSound(s[1..]);
      var l := LexString(s[1..]).value;
      var pre, post := ColonSound(l.rest);
      k := Some(Key(l.item, pre, post));
    } else {
      k := None;
    }
  }

  /** Puts blanks and commas in front of everything. */
  function PrefixElems(p: string, es: seq<Elem>): seq<Elem> {
    if es == [] then [] else [es[0].(gap := p + es[0].gap)] + es[1..]
  }

  function PrefixGap(p: string, es: seq<Elem>, g: string): string {
    if es == [] then p + g else g
  }

  lemma PrefixWritten(p: string, es: seq<Elem>, g: string, t: string, isObj: bool)
    requires IsGap(p) && IsGap(g) && IsElems(es, isObj, Free)
    ensures var es1, g1 := PrefixElems(p, es), PrefixGap(p, es, g);
      && IsElems(es1, isObj, Free) && IsGap(g1)
      && WriteElems(es1, g1 + t) == p + WriteElems(es, g + t)
      && Nodes(es1, isObj, Free) == Nodes(es, isObj, Free)
  {
    if es == [] {
      Assoc(p, g, t);
    } else {
      var es1 := PrefixElems(p, es);
      assert es1[1..] == es[1..];
      Assoc(p, es[0].gap, WriteElem(es[0], WriteElems(es[1..], g + t)));
    }
  }

  /** What the parser's checks say about the first gap. */
  lemma FirstGap(es: seq<Elem>, g: string, t: string, isObj: bool, b: Before)
    requires IsElems(es, isObj, Free) && IsGap(g)
    requires es == [] && b == Opened ==> t != [] && t[0] == CloseOf(isObj)
    requires b == Opened ==> OpenOk(isObj, WriteElems(es, g + t))
    requires b == AfterScalar ==> DelimAhead(WriteElems(es, g + t))
    ensures IsElems(es, isObj, b)
    ensures b == Opened && es == [] ==> ',' !in g
    ensures Nodes(es, isObj, b) == Nodes(es, isObj, Free)
  {
    if es == [] {
      if b == Opened {
        SkipToElement(g, t);
      }
    } else {
      var rest := WriteElems(es[1..], g + t);
      ElemHead(es[0], isObj, rest);
      SkipToElement(es[0].gap, WriteElem(es[0], rest));
    }
  }

  /** The text is accepted, or goes on behind the root's closing bracket. */
  predicate EndsRoot(o: Outcome) {
    o.Done? || o == Fail(ERR)
  }

  // What the turns of such a run have read.

  lemma StepValueDone(s: string, st: Stack, used: nat, cap: nat)
    requires s != [] && s[0] != ',' && s[0] != CloseOf(st.isObj) && EndsRoot(Step(s, st, used, cap))
    ensures used < cap && LexKey(st.isObj, s).Some?
    ensures var k := LexKey(st.isObj, s).value;
      Step(s, st, used, cap) == RunValue(k.item, k.rest, st, used, cap)
  {
    hide Run, RunValue, LexKey;
  }

  lemma ValueLeafDone(name: Option<string>, s: string, st: Stack, used: nat, cap: nat)
    requires s != [] && !IsOpen(s[0]) && EndsRoot(RunValue(name, s, st, used, cap))
    ensures LexScalar(s).Some? && DelimAhead(LexScalar(s).value.rest)
    ensures var l := LexScalar(s).value;
      RunValue(name, s, st, used, cap) == Run(l.rest, Attach(st, Node(name, ScalarVal(l.item))), used + 1, cap)
  {
    hide Run, LexScalar, DelimAhead;
    var l := LexScalar(s).value;
    RunPastDelim(l.rest, Attach(st, Node(name, ScalarVal(l.item))), used + 1, cap);
  }

  lemma ValueOpenDone(name: Option<string>, s: string, st: Stack, used: nat, cap: nat)
    requires s != [] && IsOpen(s[0]) && EndsRoot(RunValue(name, s, st, used, cap))
    ensures var isObj := s[0] == '{';
      && OpenOk(isObj, s[1..]) && s == [OpenOf(isObj)] + s[1..]
      && RunValue(name, s, st, used, cap) == Run(s[1..], Nested(st, name, isObj, []), used + 1, cap)
  {
    hide Run;
    var isObj := s[0] == '{';
    RunSkip(s[1..], Nested(st, name, isObj, []), used + 1, cap);
  }

  /** `e` followed by `t` is what the turn that starts at `s` has read. */
  ghost predicate ReadsElem(s: string, st: Stack, used: nat, cap: nat, e: Elem, t: string)
    requires s != []
  {
    && e.gap == [] && KeyOk(e.key, st.isObj) && IsCst(e.val)
    && s == WriteElem(e, t) && |t| < |s|
    && (e.val.Leaf? ==> DelimAhead(t))
    && var nd := Node(KeyName(e.key), CstVal(e.val));
       used + Size(nd) <= cap && Step(s, st, used, cap) == Run(t, Attach(st, nd), used + Size(nd), cap)
  }

  /** The text a container's closing bracket and what follows it make. */
  function Closing(isObj: bool, tail: Option<string>): string {
    if tail.Some? then [CloseOf(isObj)] + tail.value else []
  }

  /**
   The rest of the innermost open container is elements, a gap, and its closing
   bracket, or, for the root only, the end of the text.
   */
  ghost predicate Reads(s: string, st: Stack, used: nat, cap: nat, es: seq<Elem>, g: string, tail: Option<string>) {
    && IsElems(es, st.isObj, Free) && IsGap(g)
    && s == WriteElems(es, g + Closing(st.isObj, tail))
    && (if tail.Some? then |tail.value| < |s|
        else st.Bottom? && StopOk(g, After(es, Free)))
    && var ns := Nodes(es, st.isObj, Free);
    && used + Sizes(ns) <= cap
    && Run(s, st, used, cap) ==
       if st.Nested? then Run(tail.value, Pop(AttachAll(st, ns)), used + Sizes(ns), cap)
       else if tail.Some? then RootEnd(VCont(st.isObj, st.kids + ns), tail.value)
       else Done(VCont(st.isObj, st.kids + ns))
  }

  lemma LeafRead(s: string, st: Stack, used: nat, cap: nat) returns (e: Elem, t: string)
    requires s != [] && s[0] != ',' && s[0] != CloseOf(st.isObj) && EndsRoot(Step(s, st, used, cap))
    requires LexKey(st.isObj, s).Some? && !IsOpen(LexKey(st.isObj, s).value.rest[0])
    ensures ReadsElem(s, st, used, cap, e, t)
  {
    hide Run, Step, RunValue, LexKey, LexScalar, DelimAhead;
    StepValueDone(s, st, used, cap);
    var k := LexKey(st.isObj, s).value;
    ValueLeafDone(k.item, k.rest, st, used, cap);
    var l := LexScalar(k.rest).value;
    LexScalarSound(k.rest);
    var key := KeySound(st.isObj, s);
    e, t := Elem([], key, Leaf(l.item)), l.rest;
    KeyShrinks(key, WriteScalar(l.item, t));
    var nd := Node(KeyName(e.key), CstVal(e.val));
    assert nd == Node(k.item, ScalarVal(l.item)) && Size(nd) == 1;
    assert s == WriteElem(e, t);
  }

  lemma KeyShrinks(k: Option<Key>, t: string)
    ensures |t| <= |WriteKey(k, t)|
  {}

  /** The elements inside a nested container make the container an element. */
  lemma GroupRead(s: string, st: Stack, used: nat, cap: nat, es: seq<Elem>, g: string, tail: Option<string>)
      returns (e: Elem, t: string)
    requires s != [] && s[0] != ',' && s[0] != CloseOf(st.isObj) && EndsRoot(Step(s, st, used, cap))
    requires LexKey(st.isObj, s).Some? && used < cap
    requires var k := LexKey(st.isObj, s).value;
      && IsOpen(k.rest[0])
      && Reads(k.rest[1..], Nested(st, k.item, k.rest[0] == '{', []), used + 1, cap, es, g, tail)
    ensures ReadsElem(s, st, used, cap, e, t)
  {
    hide Run, Step, RunValue, LexKey, OpenOk, IsElems, WriteElems, Nodes;
    StepValueDone(s, st, used, cap);
    var k := LexKey(st.isObj, s).value;
    var isObj, u := k.rest[0] == '{', k.rest[1..];
    ValueOpenDone(k.item, k.rest, st, used, cap);
    var key := KeySound(st.isObj, s);
    t := tail.value;
    FirstGap(es, g, [CloseOf(isObj)] + t, isObj, Opened);
    e := Elem([], key, Group(isObj, es, g));
    var st1 := Nested(st, k.item, isObj, []);
    assert AttachAll(st1, Nodes(es, isObj, Opened)).kids == Nodes(es, isObj, Opened);
    KeyShrinks(key, k.rest);
    var nd := Node(KeyName(e.key), CstVal(e.val));
    assert nd == Node(k.item, VCont(isObj, Nodes(es, isObj, Opened)));
    assert Size(nd) == 1 + Sizes(Nodes(es, isObj, Opened));
    assert s == WriteElem(e, t);
  }

  lemma CommaRead(s: string, st: Stack, used: nat, cap: nat, es: seq<Elem>, g: string, tail: Option<string>)
    requires SkipBlank(s) != [] && SkipBlank(s)[0] == ','
    requires Reads(SkipBlank(s)[1..], st, used, cap, es, g, tail)
    ensures var p := Blanks(s) + [','];
      Reads(s, st, used, cap, PrefixElems(p, es), PrefixGap(p, es, g), tail)
  {
    hide IsElems, WriteElems, Nodes, SkipBlank, Blanks;
    var p, s1 := Blanks(s) + [','], SkipBlank(s)[1..];
    assert Run(s, st, used, cap) == Run(s1, st, used, cap);
    hide Run;
    PrefixWritten(p, es, g, Closing(st.isObj, tail), st.isObj);
    assert SkipBlank(s) == [','] + s1;
    Assoc(Blanks(s), [','], s1);
    assert s == p + s1;
    if tail.None? {
      PrefixStop(p, es, g);
    }
  }

  lemma PrefixStop(p: string, es: seq<Elem>, g: string)
    requires p != [] && p[|p| - 1] == ',' && StopOk(g, After(es, Free))
    ensures StopOk(PrefixGap(p, es, g), After(PrefixElems(p, es), Free))
  {}

  lemma CloseRead(s: string, st: Stack, used: nat, cap: nat)
    requires SkipBlank(s) != [] && SkipBlank(s)[0] == CloseOf(st.isObj)
    requires EndsRoot(Run(s, st, used, cap)) && used <= cap
    ensures Reads(s, st, used, cap, [], Blanks(s), Some(SkipBlank(s)[1..]))
  {
    hide SkipBlank, Blanks;
    var t := SkipBlank(s)[1..];
    assert SkipBlank(s) == [CloseOf(st.isObj)] + t;
    assert st.kids + [] == st.kids;
    assert AttachAll(st, []) == st;
    if st.Nested? {
      assert Run(s, st, used, cap) == Run(t, Pop(st), used, cap);
    } else {
      assert Run(s, st, used, cap) == RootEnd(VCont(st.isObj, st.kids), t);
    }
  }

  lemma ElemRead(s: string, st: Stack, used: nat, cap: nat, e: Elem, t: string,
                 es: seq<Elem>, g: string, tail: Option<string>)
    requires SkipBlank(s) != [] && ReadsElem(SkipBlank(s), st, used, cap, e, t)
    requires var nd := Node(KeyName(e.key), CstVal(e.val));
      Reads(t, Attach(st, nd), used + Size(nd), cap, es, g, tail)
    ensures Reads(s, st, used, cap, [e.(gap := Blanks(s))] + es, g, tail)
  {
    hide Run, SkipBlank, Blanks, CstVal, IsCst, WriteElem, Step, DelimAhead, RootEnd, KeyOk;
    RunSkipsTo(s, st, used, cap);
    var e1 := e.(gap := Blanks(s));
    var es1 := [e1] + es;
    var nd := Node(KeyName(e.key), CstVal(e.val));
    assert es1[1..] == es;
    if e.val.Leaf? {
      FirstGap(es, g, Closing(st.isObj, tail), st.isObj, AfterScalar);
      DelimEndsNumber(t);
      assert g + [] == g;
    }
    var ns := Nodes(es, st.isObj, Free);
    assert Nodes(es1, st.isObj, Free) == [nd] + ns;
    assert ([nd] + ns)[1..] == ns;
    AttachOneAndRest(st, nd, ns);
    WriteElemGap(e, Blanks(s), t);
    AfterCons(e1, es);
    assert tail.None? ==> StopOk(g, After(es1, Free));
    assert Sizes([nd] + ns) == Size(nd) + Sizes(ns);
    assert st.kids + [nd] + ns == st.kids + ([nd] + ns);
    assert IsElems(es1, st.isObj, Free);
    assert s == Blanks(s) + WriteElem(e1, t);
    assert s == WriteElems(es1, g + Closing(st.isObj, tail));
  }

  lemma RunSkipsTo(s: string, st: Stack, used: nat, cap: nat)
    requires SkipBlank(s) != []
    ensures Run(s, st, used, cap) == Step(SkipBlank(s), st, used, cap)
  {}

  lemma WriteElemGap(e: Elem, g: string, t: string)
    ensures WriteElem(e.(gap := g), t) == WriteElem(e, t)
  {}

  lemma AfterCons(e: Elem, es: seq<Elem>)
    ensures After([e] + es, Free) == After(es, Next(e.val))
  {}

  lemma EndRead(st: Stack, used: nat, cap: nat)
    requires EndsRoot(Run([], st, used, cap)) && used <= cap
    ensures Reads([], st, used, cap, [], [], None)
  {
    assert st.kids + [] == st.kids;
  }

  lemma RunDone(s: string, st: Stack, used: nat, cap: nat)
    requires s != [] && EndsRoot(Run(s, st, used, cap))
    ensures SkipBlank(s) != [] && Run(s, st, used, cap) == Step(SkipBlank(s), st, used, cap)
    ensures SkipBlank(s)[0] == ',' ==> EndsRoot(Run(SkipBlank(s)[1..], st, used, cap))
  {
    hide SkipBlank, RunValue, LexKey;
  }

  /** Every run that gets to the root's end reads a well-formed rest of the text. */
  lemma {:induction false} Sound(s: string, st: Stack, used: nat, cap: nat)
      returns (es: seq<Elem>, g: string, tail: Option<string>)
    requires EndsRoot(Run(s, st, used, cap)) && used <= cap
    ensures Reads(s, st, used, cap, es, g, tail)
    decreases |s|
  {
    hide Run, Step, Reads, RunValue, LexKey, SkipBlank, Blanks, OpenOk;
    if s == [] {
      EndRead(st, used, cap);
      return [], [], None;
    }
    RunDone(s, st, used, cap);
    var s1 := SkipBlank(s);
    if s1[0] == ',' {
      es, g, tail := Sound(s1[1..], st, used, cap);
      CommaRead(s, st, used, cap, es, g, tail);
      es, g := PrefixElems(Blanks(s) + [','], es), PrefixGap(Blanks(s) + [','], es, g);
    } else if s1[0] == CloseOf(st.isObj) {
      CloseRead(s, st, used, cap);
      es, g, tail := [], Blanks(s), Some(s1[1..]);
    } else {
      StepValueDone(s1, st, used, cap);
      var k := LexKey(st.isObj, s1).value;
      var e, t;
      if IsOpen(k.rest[0]) {
        ValueOpenDone(k.item, k.rest, st, used, cap);
        es, g, tail := Sound(k.rest[1..], Nested(st, k.item, k.rest[0] == '{', []), used + 1, cap);
        e, t := GroupRead(s1, st, used, cap, es, g, tail);
      } else {
        e, t := LeafRead(s1, st, used, cap);
      }
      var nd := Node(KeyName(e.key), CstVal(e.val));
      es, g, tail := Sound(t, Attach(st, nd), used + Size(nd), cap);
      ElemRead(s, st, used, cap, e, t, es, g, tail);
      es := [e.(gap := Blanks(s))] + es;
    }
  }
}
