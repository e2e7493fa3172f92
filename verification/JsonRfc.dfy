/**
 RFC 4627 section 2, stated on its own: values, members separated by single
 commas, white space around the structural characters, and what all that says.
 Every text of the RFC is accepted and denotes what it says.
 */
module JsonRfc {
  import opened Wrappers
  import opened JsonTree
  import opened JsonLex
  import opened JsonMachine
  import opened JsonGrammar
  import opened JsonComplete
  import opened JsonLanguage
  import opened RfcScalars

  datatype RKey = RKey(name: seq<Unit>, pre: string, post: string)

  datatype RVal =
    | RLeaf(r: RScalar)
    | RGroup(isObj: bool, members: seq<Member>, inner: string)  // `inner` is the white space of an empty container

  /** An array element, or an object member with its key, and the white space around it. */
  datatype Member = Member(before: string, key: Option<RKey>, val: RVal, after: string)

  /** `object / array` with white space around it. */
  datatype RText = RText(lead: string, val: RVal, trail: string)

  predicate IsWs(s: string) {
    forall i :: 0 <= i < |s| ==> s[i] == ' ' || s[i] == '\t' || s[i] == '\n' || s[i] == '\r'
  }

  predicate IsRfcKey(k: Option<RKey>, isObj: bool) {
    && k.Some? == isObj
    && (k.Some? ==> AreUnits(k.value.name) && IsWs(k.value.pre) && IsWs(k.value.post))
  }

  predicate IsRfcVal(v: RVal)
    decreases v, 0
  {
    match v
    case RLeaf(r) => IsRScalar(r)
    case RGroup(isObj, ms, inner) => AreMembers(ms, isObj) && IsWs(inner)
  }

  predicate AreMembers(ms: seq<Member>, isObj: bool)
    decreases ms, 1
  {
    ms == [] ||
    (&& IsWs(ms[0].before) && IsWs(ms[0].after)
     && IsRfcKey(ms[0].key, isObj)
     && IsRfcVal(ms[0].val)
     && AreMembers(ms[1..], isObj))
  }

  predicate IsRfcText(r: RText) {
    r.val.RGroup? && IsRfcVal(r.val) && IsWs(r.lead) && IsWs(r.trail)
  }

  // ----- the text: each printer puts its item in front of the text that follows

  function KeyText(k: Option<RKey>, t: string): string {
    if k.None? then t
    else ['"'] + (Chars(k.value.name) + (['"'] + (k.value.pre + ([':'] + (k.value.post + t)))))
  }

  function WriteVal(v: RVal, t: string): string
    decreases v, 0
  {
    match v
    case RLeaf(r) => ScalarText(r) + t
    case RGroup(isObj, ms, inner) =>
      var close := (if isObj then ['}'] else [']']) + t;
      (if isObj then ['{'] else ['[']) + (if ms == [] then inner + close else WriteMembers(ms, close))
  }

  /** Members joined by commas. */
  function WriteMembers(ms: seq<Member>, t: string): string
    requires ms != []
    decreases ms, 1
  {
    var m := ms[0];
    var rest := if |ms| == 1 then t else [','] + WriteMembers(ms[1..], t);
    m.before + WriteMember(m, m.after + rest)
  }

  function WriteMember(m: Member, t: string): string
    decreases m, 0
  {
    KeyText(m.key, WriteVal(m.val, t))
  }

  function WriteText(r: RText): string {
    r.lead + WriteVal(r.val, r.trail)
  }

  // ----- what it says

  function ValOf(v: RVal): Val
    requires IsRfcVal(v)
    decreases v, 0
  {
    match v
    case RLeaf(r) => ScalarSays(r)
    case RGroup(isObj, ms, _) => VCont(isObj, NodesOf(ms, isObj))
  }

  function NodesOf(ms: seq<Member>, isObj: bool): seq<Node>
    requires AreMembers(ms, isObj)
    decreases ms, 1
  {
    if ms == [] then []
    else
      var name := if ms[0].key.Some? then Some(Chars(ms[0].key.value.name)) else None;
      [Node(name, ValOf(ms[0].val))] + NodesOf(ms[1..], isObj)
  }

  /** Number of values below `v`. */
  function ValuesBelow(v: RVal): nat
    decreases v, 0
  {
    if v.RGroup? then ValuesIn(v.members) else 0
  }

  function ValuesIn(ms: seq<Member>): nat
    decreases ms, 1
  {
    if ms == [] then 0 else 1 + ValuesBelow(ms[0].val) + ValuesIn(ms[1..])
  }

  // ----- as documents of the wider grammar

  function ToCst(v: RVal): Cst
    decreases v, 0
  {
    match v
    case RLeaf(r) => Leaf(ToScalar(r))
    case RGroup(isObj, ms, inner) => Group(isObj, ToElems([], ms), LastGap(ms, inner))
  }

  /** `p` is what the previous member leaves in front: its white space and a comma. */
  function ToElems(p: string, ms: seq<Member>): seq<Elem>
    decreases ms, 1
  {
    if ms == [] then []
    else [Elem(p + ms[0].before, ToKey(ms[0].key), ToCst(ms[0].val))] + ToElems(ms[0].after + [','], ms[1..])
  }

  function ToKey(k: Option<RKey>): Option<Key> {
    if k.None? then None else Some(Key(Chars(k.value.name), k.value.pre, k.value.post))
  }

  function LastGap(ms: seq<Member>, inner: string): string {
    if ms == [] then inner else ms[|ms| - 1].after
  }

  lemma {:induction false} CstIs(v: RVal)
    requires IsRfcVal(v)
    ensures IsCst(ToCst(v)) && CstVal(ToCst(v)) == ValOf(v)
    decreases v, 0
  {
    if v.RGroup? {
      ElemsAre([], v.members, v.isObj, Opened);
      if v.members != [] {
        LastMember(v.members, v.isObj);
      }
    } else {
      ScalarIs(v.r);
    }
  }

  lemma KeyIs(k: Option<RKey>, isObj: bool)
    requires IsRfcKey(k, isObj)
    ensures KeyOk(ToKey(k), isObj) && IsStrictKey(ToKey(k), isObj)
  {
    if k.Some? {
      CharsAre(k.value.name);
    }
  }

  lemma {:induction false} LastMember(ms: seq<Member>, isObj: bool)
    requires AreMembers(ms, isObj) && ms != []
    ensures IsWs(ms[|ms| - 1].after)
  {
    if |ms| > 1 {
      assert ms[1..][|ms| - 2] == ms[|ms| - 1];
      LastMember(ms[1..], isObj);
    }
  }

  /** `p` is empty behind the bracket, and white space with one comma behind a member. */
  predicate IsSeparator(p: string) {
    p == [] || (IsWs(p[..|p| - 1]) && p[|p| - 1] == ',')
  }

  lemma {:induction false} ElemsAre(p: string, ms: seq<Member>, isObj: bool, b: Before)
    requires AreMembers(ms, isObj) && IsSeparator(p)
    requires (b == Opened ==> p == []) && (b == AfterScalar ==> p != [])
    ensures IsElems(ToElems(p, ms), isObj, b)
    ensures Nodes(ToElems(p, ms), isObj, b) == NodesOf(ms, isObj)
    decreases ms, 1
  {
    if ms != [] {
      var m := ms[0];
      var q := m.after + [','];
      assert IsSeparator(q) by { assert q[..|q| - 1] == m.after; }
      GapIsOk(p, m.before, b);
      KeyIs(m.key, isObj);
      CstIs(m.val);
      ElemsAre(q, ms[1..], isObj, Next(ToCst(m.val)));
      assert ToElems(p, ms)[1..] == ToElems(q, ms[1..]);
    }
  }

  lemma GapIsOk(p: string, ws: string, b: Before)
    requires IsSeparator(p) && IsWs(ws)
    requires (b == Opened ==> p == []) && (b == AfterScalar ==> p != [])
    ensures GapOk(p + ws, b)
  {
    if p != [] {
      assert p == p[..|p| - 1] + [','];
      assert (p + ws)[|p| - 1] == ',';
    }
  }

  lemma {:induction false} CstWritten(v: RVal, t: string)
    requires IsRfcVal(v)
    ensures WriteCst(ToCst(v), t) == WriteVal(v, t)
    decreases v, 0
  {
    if v.RLeaf? {
      ScalarWritten(v.r, t);
    } else if v.members != [] {
      var close := [CloseOf(v.isObj)] + t;
      ElemsWritten([], v.members, v.isObj, close);
      assert [] + WriteMembers(v.members, close) == WriteMembers(v.members, close);
    }
  }

  lemma {:induction false} ElemsWritten(p: string, ms: seq<Member>, isObj: bool, t: string)
    requires ms != [] && AreMembers(ms, isObj)
    ensures WriteElems(ToElems(p, ms), LastGap(ms, []) + t) == p + WriteMembers(ms, t)
    decreases ms, 1
  {
    var m := ms[0];
    var q := m.after + [','];
    var rest := WriteElems(ToElems(q, ms[1..]), LastGap(ms, []) + t);
    if |ms| > 1 {
      ElemsWritten(q, ms[1..], isObj, t);
      assert ms[1..][|ms| - 2] == ms[|ms| - 1];
      Assoc(m.after, [','], WriteMembers(ms[1..], t));
    }
    CstWritten(m.val, rest);
    assert ToElems(p, ms)[1..] == ToElems(q, ms[1..]);
    Assoc(p, m.before, WriteMember(m, rest));
  }

  lemma {:induction false} ValuesAreTokens(v: RVal)
    requires IsRfcVal(v) && v.RGroup?
    ensures ValuesBelow(v) == Sizes(NodesOf(v.members, v.isObj))
    decreases v, 0
  {
    ValuesAreSizes(v.members, v.isObj);
  }

  lemma {:induction false} ValuesAreSizes(ms: seq<Member>, isObj: bool)
    requires AreMembers(ms, isObj)
    ensures ValuesIn(ms) == Sizes(NodesOf(ms, isObj))
    decreases ms, 1
  {
    if ms != [] {
      if ms[0].val.RGroup? {
        ValuesAreTokens(ms[0].val);
      }
      ValuesAreSizes(ms[1..], isObj);
      assert NodesOf(ms, isObj)[1..] == NodesOf(ms[1..], isObj);
    }
  }

  /**
   Round trip: parsing an RFC 4627 text with N values below the root returns
   exactly the value it says if the pool has N tokens, and a memory error
   otherwise.
   */
  lemma RoundTrip(r: RText, cap: nat)
    requires IsRfcText(r)
    ensures Parse(WriteText(r), cap) ==
            if ValuesBelow(r.val) <= cap then Done(ValOf(r.val)) else Fail(ERRMEM)
  {
    var c := ToCst(r.val);
    var d := Document(r.lead, r.val.isObj, c.elems, c.gap, Some(r.trail));
    CstIs(r.val);
    CstWritten(r.val, r.trail);
    ParseDocument(d, cap);
    ValuesAreTokens(r.val);
    assert c.gap + End(d) == c.gap + ([CloseOf(r.val.isObj)] + r.trail);
  }

  // ----- the RFC's texts are not all that is accepted

  /** A text of the RFC ends in white space or a closing bracket. */
  lemma RfcEnds(r: RText)
    requires IsRfcText(r)
    ensures var s := WriteText(r); s != [] && (IsWs([s[|s| - 1]]) || s[|s| - 1] == ']' || s[|s| - 1] == '}')
  {
    var c := ToCst(r.val);
    var close := [CloseOf(r.val.isObj)] + r.trail;
    CstWritten(r.val, r.trail);
    LastOfElems(c.elems, c.gap + close);
    assert SameLast(c.gap + close, close);
    var s := WriteText(r);
    assert SameLast(s, close);
    assert r.trail != [] ==> s[|s| - 1] == r.trail[|r.trail| - 1];
  }

  const OneOpen := Document([], false, [Elem([], None, Leaf(SNum(Number(false, "1", None, None))))], ",", None)

  lemma OneOpenWritten()
    ensures Write(OneOpen) == "[1,"
  {
    var es := OneOpen.elems;
    assert es[1..] == [] && OneOpen.gap + End(OneOpen) == ",";
    assert WriteNumber(es[0].val.sc.num, ",") == "1" + ",";
    assert WriteElem(es[0], ",") == "1,";
    assert WriteElems(es, ",") == [] + "1,";
  }

  lemma OneOpenSays()
    ensures IsDocument(OneOpen) && Tree(OneOpen) == VCont(false, [Node(None, VInt(1))]) && Count(OneOpen) == 1
  {
    var es := OneOpen.elems;
    assert es[1..] == [] && "1"[..0] == [];
    assert DecValue("1") == 1;
    assert CstVal(es[0].val) == VInt(1);
    var ns := [Node(None, VInt(1))];
    assert Nodes(es, false, Opened) == ns && ns[1..] == [];
  }

  /** Accepted, but no text of the RFC: the parser is more lenient than its comments claim. */
  lemma WiderThanRfc(cap: nat)
    requires cap > 0
    ensures Parse("[1,", cap) == Done(VCont(false, [Node(None, VInt(1))]))
    ensures forall r :: IsRfcText(r) ==> WriteText(r) != "[1,"
  {
    hide Parse, Write, Tree, Count, IsDocument, IsRfcText, WriteText;
    OneOpenWritten();
    OneOpenSays();
    ParseDocument(OneOpen, cap);
    forall r | IsRfcText(r)
      ensures WriteText(r) != "[1,"
    {
      RfcEnds(r);
      var s := "[1,";
      assert s[|s| - 1] == ',' && [s[|s| - 1]][0] == ',';
    }
  }

  // ----- which accepted texts are the RFC's

  /** Everything up to and including the first comma; nothing if there is none. */
  function ToComma(g: string): (p: string)
    ensures p <= g && (p != [] ==> p[|p| - 1] == ',')
  {
    if ',' !in g then []
    else if g[0] == ',' then [',']
    else assert g == [g[0]] + g[1..]; [g[0]] + ToComma(g[1..])
  }

  /** White space around exactly one comma. */
  predicate IsOneComma(g: string) {
    var p := ToComma(g);
    p != [] && IsWs(p[..|p| - 1]) && IsWs(g[|p|..])
  }

  /** One comma between elements and none elsewhere, no form feed, and RFC keys, strings and numbers. */
  predicate IsStrictCst(c: Cst)
    decreases c, 0
  {
    match c
    case Leaf(sc) => IsRfcScalar(sc)
    case Group(isObj, es, g) => AreStrict(es, isObj, true) && IsWs(g)
  }

  predicate IsStrictKey(k: Option<Key>, isObj: bool) {
    && k.Some? == isObj
    && (k.Some? ==> IsRfcString(k.value.body) && IsWs(k.value.pre) && IsWs(k.value.post))
  }

  predicate AreStrict(es: seq<Elem>, isObj: bool, first: bool)
    decreases es, 1
  {
    es == [] ||
    (&& (if first then IsWs(es[0].gap) else IsOneComma(es[0].gap))
     && IsStrictKey(es[0].key, isObj)
     && IsStrictCst(es[0].val)
     && AreStrict(es[1..], isObj, false))
  }

  predicate IsStrict(d: Document) {
    && d.tail.Some? && IsWs(d.lead) && IsWs(d.tail.value)
    && IsStrictCst(Group(d.isObj, d.elems, d.gap))
  }

  lemma {:induction false} ToCommaAt(g: string, k: nat)
    requires k < |g| && g[k] == ',' && ',' !in g[..k]
    ensures ToComma(g) == g[..k + 1]
  {
    if k > 0 {
      assert g[0] == g[..k][0];
      assert g[1..][k - 1] == ',' && g[1..][..k - 1] == g[..k][1..];
      ToCommaAt(g[1..], k - 1);
      assert g[..k + 1] == [g[0]] + g[1..][..k];
    }
  }

  lemma NoCommaBefore(g: string, k: nat)
    requires k < |g| && IsWs(g[..k])
    ensures ',' !in g[..k]
  {}

  /** A strict value as one of the RFC: the other way round than `ToCst`. */
  function FromCst(c: Cst): RVal
    decreases c, 0
  {
    match c
    case Leaf(sc) => RLeaf(FromScalar(sc))
    case Group(isObj, es, g) => RGroup(isObj, FromElems(es, g), if es == [] then g else [])
  }

  function FromElems(es: seq<Elem>, g: string): (ms: seq<Member>)
    ensures |ms| == |es|
    decreases es, 1
  {
    if es == [] then []
    else
      [Member(Behind(es[0].gap), FromKey(es[0].key), FromCst(es[0].val), InFront(es[1..], g))]
      + FromElems(es[1..], g)
  }

  function FromKey(k: Option<Key>): Option<RKey> {
    if k.None? then None else Some(RKey(ToUnits(k.value.body), k.value.pre, k.value.post))
  }

  lemma FromKeyIs(k: Option<Key>, isObj: bool)
    requires IsStrictKey(k, isObj)
    ensures IsRfcKey(FromKey(k), isObj) && ToKey(FromKey(k)) == k
  {
    if k.Some? {
      ToUnitsAre(k.value.body);
    }
  }

  /** The white space of a gap that belongs to the element behind it. */
  function Behind(gap: string): string {
    gap[|ToComma(gap)|..]
  }

  /** The white space that belongs to the member in front of `es` or, if there are none, of the closing bracket. */
  function InFront(es: seq<Elem>, g: string): string {
    if es == [] then g
    else var p := ToComma(es[0].gap); if p == [] then [] else p[..|p| - 1]
  }

  lemma {:induction false} FromCstIs(c: Cst)
    requires IsStrictCst(c)
    ensures IsRfcVal(FromCst(c)) && ToCst(FromCst(c)) == c
    decreases c, 0
  {
    hide IsWs, IsRfcKey, IsScalar, IsRfcScalar, IsRScalar;
    if c.Group? {
      FromElemsAre(c.elems, c.isObj, true, c.gap);
      LeadOfFirst(c.elems, c.isObj, c.gap);
    } else {
      FromScalarIs(c.sc);
    }
  }

  /** The gap in front of an element is cut behind its comma. */
  lemma GapCut(g: string, first: bool)
    requires if first then IsWs(g) else IsOneComma(g)
    ensures var p := ToComma(g);
      && g == p + g[|p|..] && IsWs(g[|p|..])
      && if first then p == [] else p != [] && p == p[..|p| - 1] + [','] && IsWs(p[..|p| - 1])
  {
    hide ToComma;
    if first {
      NoCommaInWs(g);
    }
  }

  lemma NoCommaInWs(g: string)
    requires IsWs(g)
    ensures ToComma(g) == []
  {}

  /** What stands in front of a list of elements in the text of the RFC. */
  function Lead(es: seq<Elem>): string {
    if es == [] then [] else ToComma(es[0].gap)
  }

  lemma FirstGapCut(es: seq<Elem>, isObj: bool, first: bool, g: string)
    requires AreStrict(es, isObj, first) && IsWs(g)
    ensures es != [] ==> es[0].gap == Lead(es) + Behind(es[0].gap) && IsWs(Behind(es[0].gap))
    ensures es != [] && !first ==> Lead(es) == InFront(es, g) + [',']
    ensures es != [] && first ==> Lead(es) == []
    ensures !first ==> IsWs(InFront(es, g))
  {
    hide ToComma, IsWs, IsOneComma;
    if es != [] {
      GapCut(es[0].gap, first);
    }
  }

  lemma {:induction false} FromElemsAre(es: seq<Elem>, isObj: bool, first: bool, g: string)
    requires AreStrict(es, isObj, first) && IsWs(g)
    ensures var ms := FromElems(es, g); AreMembers(ms, isObj) && ToElems(Lead(es), ms) == es
    ensures es != [] ==> FromElems(es, g)[|es| - 1].after == g
    decreases es, 1
  {
    hide IsWs, IsOneComma, Lead, Behind, InFront, IsRfcKey, IsStrictKey, FromKey, ToKey, IsRfcVal, FromCst, ToCst,
         IsStrictCst;
    if es == [] {
      assert ToElems(Lead(es), []) == [];
    } else {
      var e, ms, rest := es[0], FromElems(es, g), es[1..];
      FirstGapCut(es, isObj, first, g);
      FirstGapCut(rest, isObj, false, g);
      FromCstIs(e.val);
      FromKeyIs(e.key, isObj);
      FromElemsAre(rest, isObj, false, g);
      assert ms[1..] == FromElems(rest, g) && ms[0].after == InFront(rest, g);
      assert rest == [] ==> InFront(rest, g) == g by { NothingInFront(g); }
      assert ToElems(ms[0].after + [','], ms[1..]) == rest;
      assert es == [e] + rest;
      if rest != [] {
        assert ms[|ms| - 1] == ms[1..][|rest| - 1];
      }
    }
  }

  lemma LeadOfFirst(es: seq<Elem>, isObj: bool, g: string)
    requires AreStrict(es, isObj, true) && IsWs(g)
    ensures Lead(es) == [] && IsWs([])
  {
    FirstGapCut(es, isObj, true, g);
  }

  lemma NothingInFront(g: string)
    ensures InFront([], g) == g
  {}

  lemma {:induction false} ToCstStrict(v: RVal)
    requires IsRfcVal(v)
    ensures IsStrictCst(ToCst(v))
    decreases v, 0
  {
    if v.RGroup? {
      ToElemsStrict([], v.members, v.isObj);
      if v.members != [] {
        LastMember(v.members, v.isObj);
      }
    } else {
      ScalarIs(v.r);
    }
  }

  lemma {:induction false} ToElemsStrict(p: string, ms: seq<Member>, isObj: bool)
    requires AreMembers(ms, isObj) && IsSeparator(p)
    ensures AreStrict(ToElems(p, ms), isObj, p == [])
    decreases ms, 1
  {
    if ms != [] {
      var m, g := ms[0], p + ms[0].before;
      if p != [] {
        assert g[|p| - 1] == ',' && g[..|p| - 1] == p[..|p| - 1] && g[|p|..] == m.before && g[..|p|] == p;
        NoCommaBefore(g, |p| - 1);
        ToCommaAt(g, |p| - 1);
      } else {
        assert g == m.before;
      }
      ToCstStrict(m.val);
      KeyIs(m.key, isObj);
      var q := m.after + [','];
      assert IsSeparator(q) by { assert q[..|q| - 1] == m.after; }
      ToElemsStrict(q, ms[1..], isObj);
      assert ToElems(p, ms)[1..] == ToElems(q, ms[1..]);
    }
  }

  lemma RfcIsStrict(r: RText) returns (d: Document)
    requires IsRfcText(r)
    ensures IsDocument(d) && Write(d) == WriteText(r) && IsStrict(d)
  {
    var c := ToCst(r.val);
    d := Document(r.lead, r.val.isObj, c.elems, c.gap, Some(r.trail));
    CstIs(r.val);
    ToCstStrict(r.val);
    CstWritten(r.val, r.trail);
    assert c.gap + End(d) == c.gap + ([CloseOf(r.val.isObj)] + r.trail);
  }

  lemma StrictIsRfc(d: Document) returns (r: RText)
    requires IsStrict(d)
    ensures IsRfcText(r) && WriteText(r) == Write(d)
  {
    var c := Group(d.isObj, d.elems, d.gap);
    r := RText(d.lead, FromCst(c), d.tail.value);
    FromCstIs(c);
    CstWritten(r.val, r.trail);
    assert c.gap + End(d) == c.gap + ([CloseOf(d.isObj)] + d.tail.value);
  }

  /** Exactly the strict ones among the accepted texts are texts of the RFC. */
  lemma AcceptedRfcTexts(text: string, cap: nat)
    requires Parse(text, cap).Done?
    ensures (exists r :: IsRfcText(r) && WriteText(r) == text) <==>
            (exists d :: IsDocument(d) && Write(d) == text && IsStrict(d))
  {
    forall r | IsRfcText(r) && WriteText(r) == text
      ensures exists d :: IsDocument(d) && Write(d) == text && IsStrict(d)
    {
      var d := RfcIsStrict(r);
    }
    forall d | IsDocument(d) && Write(d) == text && IsStrict(d)
      ensures exists r :: IsRfcText(r) && WriteText(r) == text
    {
      var r := StrictIsRfc(d);
    }
  }
}
