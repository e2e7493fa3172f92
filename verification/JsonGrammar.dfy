/**
 The language lwjson accepts, as concrete syntax: a document is a tree of
 elements together with the blanks and commas around them. It is wider than
 RFC 4627: repeated and trailing commas, no comma after a closed container,
 and a root that is never closed.
 */
module JsonGrammar {
  import opened Wrappers
  import opened JsonTree
  import opened JsonLex
  import opened JsonMachine

  datatype Key = Key(body: string, pre: string, post: string)

  /** An element with the blanks and commas in front of it. */
  datatype Elem = Elem(gap: string, key: Option<Key>, val: Cst)

  /** `gap` stands in front of the closing bracket. */
  datatype Cst = Leaf(sc: Scalar) | Group(isObj: bool, elems: seq<Elem>, gap: string)

  /** `tail` is what follows the root's closing bracket; None means the root is never closed. */
  datatype Document = Document(lead: string, isObj: bool, elems: seq<Elem>, gap: string, tail: Option<string>)

  // ----- writing: each printer puts its item in front of the text that follows

  function WriteKey(k: Option<Key>, t: string): string {
    if k.None? then t
    else ['"'] + (k.value.body + (['"'] + (k.value.pre + ([':'] + (k.value.post + t)))))
  }

  function WriteCst(c: Cst, t: string): string
    decreases c, 0
  {
    match c
    case Leaf(sc) => WriteScalar(sc, t)
    case Group(isObj, es, g) => [OpenOf(isObj)] + WriteElems(es, g + ([CloseOf(isObj)] + t))
  }

  function WriteElems(es: seq<Elem>, t: string): string
    decreases es, 1
  {
    if es == [] then t else es[0].gap + WriteElem(es[0], WriteElems(es[1..], t))
  }

  /** An element without the gap in front of it. */
  function WriteElem(e: Elem, t: string): string
    decreases e, 0
  {
    WriteKey(e.key, WriteCst(e.val, t))
  }

  /** What closes the root. */
  function End(d: Document): string {
    if d.tail.Some? then [CloseOf(d.isObj)] + d.tail.value else []
  }

  function Write(d: Document): string {
    d.lead + ([OpenOf(d.isObj)] + WriteElems(d.elems, d.gap + End(d)))
  }

  // ----- well-formedness

  /** What was read last: an opening bracket, a scalar, or something a gap may follow freely. */
  datatype Before = Opened | AfterScalar | Free

  predicate IsGapChar(c: char) {
    IsBlank(c) || c == ','
  }

  predicate IsGap(g: string) {
    forall i :: 0 <= i < |g| ==> IsGapChar(g[i])
  }

  /** Behind a bracket a gap has no comma; between a scalar and the next element it has one. */
  predicate GapOk(g: string, b: Before) {
    && IsGap(g)
    && (b == Opened ==> ',' !in g)
    && (b == AfterScalar ==> ',' in g)
  }

  predicate KeyOk(k: Option<Key>, isObj: bool) {
    && k.Some? == isObj
    && (k.Some? ==> IsStringBody(k.value.body) && AllBlank(k.value.pre) && AllBlank(k.value.post))
  }

  function Next(c: Cst): Before {
    if c.Leaf? then AfterScalar else Free
  }

  function After(es: seq<Elem>, b: Before): Before {
    if es == [] then b else Next(es[|es| - 1].val)
  }

  predicate IsCst(c: Cst)
    decreases c, 0
  {
    match c
    case Leaf(sc) => IsScalar(sc)
    case Group(isObj, es, g) =>
      IsElems(es, isObj, Opened) && IsGap(g) && (es == [] ==> ',' !in g)
  }

  predicate IsElems(es: seq<Elem>, isObj: bool, b: Before)
    decreases es, 1
  {
    es == [] ||
    (&& GapOk(es[0].gap, b)
     && KeyOk(es[0].key, isObj)
     && IsCst(es[0].val)
     && IsElems(es[1..], isObj, Next(es[0].val)))
  }

  /** The text may stop right behind a comma or right behind a closed container. */
  predicate StopOk(g: string, b: Before) {
    if g == [] then b == Free else g[|g| - 1] == ','
  }

  predicate IsDocument(d: Document) {
    && AllBlank(d.lead)
    && IsElems(d.elems, d.isObj, Opened)
    && IsGap(d.gap)
    && (d.elems == [] ==> ',' !in d.gap)
    && (if d.tail.Some? then AllBlank(d.tail.value) else StopOk(d.gap, After(d.elems, Opened)))
  }

  // ----- meaning

  function CstVal(c: Cst): Val
    requires IsCst(c)
    decreases c, 0
  {
    match c
    case Leaf(sc) => ScalarVal(sc)
    case Group(isObj, es, _) => VCont(isObj, Nodes(es, isObj, Opened))
  }

  function Nodes(es: seq<Elem>, isObj: bool, b: Before): (ns: seq<Node>)
    requires IsElems(es, isObj, b)
    ensures |ns| == |es|
    decreases es, 1
  {
    if es == [] then []
    else [Node(KeyName(es[0].key), CstVal(es[0].val))] + Nodes(es[1..], isObj, Next(es[0].val))
  }

  function KeyName(k: Option<Key>): Option<string> {
    if k.Some? then Some(k.value.body) else None
  }

  function Tree(d: Document): Val
    requires IsDocument(d)
  {
    VCont(d.isObj, Nodes(d.elems, d.isObj, Opened))
  }

  /** Number of values below the root. */
  function Count(d: Document): nat
    requires IsDocument(d)
  {
    Sizes(Nodes(d.elems, d.isObj, Opened))
  }
}
