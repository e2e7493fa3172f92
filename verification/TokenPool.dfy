/**
 How the token pool represents values: slots in document order, children linked
 through `next`, and the `next` of an open container lent to its parent.
 */
module TokenPool {
  import opened Wrappers
  import opened JsonTree
  import opened JsonMachine
  import opened JsonReader

  /** A token pointer: NULL, the root token, or a slot of the pool. */
  datatype Ref = Null | RootToken | Slot(i: nat)

  datatype Kind = TString | TInt | TReal | TObject | TArray | TTrue | TFalse | TNull

  /** The token's union; `Zeroed` is what memset leaves and reads as a NULL first child. */
  datatype Payload =
    | Zeroed
    | Chars(start: nat, len: nat)
    | IntNum(n: int)
    | RealNum(r: real)
    | FirstChild(first: Ref)

  datatype Name = NoName | NameAt(start: nat, len: nat)

  datatype Token = Token(next: Ref, kind: Kind, name: Name, u: Payload)

  const ZERO_TOKEN := Token(Null, TString, NoName, Zeroed)

  function ContKind(isObj: bool): Kind {
    if isObj then TObject else TArray
  }

  predicate HasChildren(u: Payload) {
    u.Zeroed? || u.FirstChild?
  }

  function FirstOf(u: Payload): Ref
    requires HasChildren(u)
  {
    if u.Zeroed? then Null else u.first
  }

  // ----- one token

  ghost predicate NameIs(json: CString, t: Name, name: Option<string>) {
    match name
    case None => t == NoName
    case Some(b) => t.NameAt? && Quoted(json, t.start, t.len, b)
  }

  /** The token's kind and payload hold `v`, which is not a container. */
  ghost predicate HoldsScalar(json: CString, t: Token, v: Val) {
    match v
    case VStr(b) => t.kind == TString && t.u.Chars? && Quoted(json, t.u.start, t.u.len, b)
    case VInt(n) => t.kind == TInt && t.u == IntNum(n)
    case VReal(r) => t.kind == TReal && t.u == RealNum(r)
    case VTrue => t.kind == TTrue && t.u.Zeroed?
    case VFalse => t.kind == TFalse && t.u.Zeroed?
    case VNull => t.kind == TNull && t.u.Zeroed?
    case VCont(_, _) => false
  }

  /** Inside an object every child has a name, inside an array none. */
  ghost predicate Named(isObj: bool, kids: seq<Node>) {
    forall i :: 0 <= i < |kids| ==> kids[i].name.Some? == isObj
  }

  // ----- closed values

  /** Where a list of children laid out from slot `lo` starts; an empty list is just what follows it. */
  function Head(lo: nat, kids: seq<Node>, tail: Ref): Ref {
    if kids == [] then tail else Slot(lo)
  }

  /** Slots `lo .. lo + Size(nd)` hold `nd`, and its own token links to `next`. */
  ghost predicate NodeAt(json: CString, pool: seq<Token>, lo: nat, nd: Node, next: Ref)
    decreases nd, 0
  {
    && lo < |pool|
    && pool[lo].next == next
    && NameIs(json, pool[lo].name, nd.name)
    && if nd.val.VCont? then
         && pool[lo].kind == ContKind(nd.val.isObj)
         && HasChildren(pool[lo].u)
         && Named(nd.val.isObj, nd.val.kids)
         && FirstOf(pool[lo].u) == Head(lo + 1, nd.val.kids, Null)
         && ForestAt(json, pool, lo + 1, nd.val.kids, Null)
       else HoldsScalar(json, pool[lo], nd.val)
  }

  /** The children stand one behind the other, each linked to the next and the last to `tail`. */
  ghost predicate ForestAt(json: CString, pool: seq<Token>, lo: nat, kids: seq<Node>, tail: Ref)
    decreases kids, 1
  {
    kids == [] ||
    var hi := lo + Size(kids[0]);
    && NodeAt(json, pool, lo, kids[0], Head(hi, kids[1..], tail))
    && ForestAt(json, pool, hi, kids[1..], tail)
  }

  // ----- the open containers

  function Used(st: Stack): nat {
    match st
    case Bottom(_, kids) => Sizes(kids)
    case Nested(outer, _, _, kids) => Used(outer) + 1 + Sizes(kids)
  }

  /** The token of the innermost open container. */
  function Top(st: Stack): Ref {
    if st.Nested? then Slot(Used(st.outer)) else RootToken
  }

  ghost predicate OpenToken(t: Token, isObj: bool, lo: nat, kids: seq<Node>, tail: Ref) {
    && t.kind == ContKind(isObj)
    && HasChildren(t.u)
    && Named(isObj, kids)
    && FirstOf(t.u) == Head(lo, kids, tail)
  }

  /**
   The pool while containers are open. Every open container is the last child of
   the one around it, and its own `next` is the pointer back to that one; the
   root's is NULL. `tail` is what the innermost container's last child links to.
   */
  ghost predicate StackAt(json: CString, pool: seq<Token>, root: Token, st: Stack, tail: Ref) {
    match st
    case Bottom(isObj, kids) =>
      && root.next == Null && root.name == NoName
      && OpenToken(root, isObj, 0, kids, tail)
      && ForestAt(json, pool, 0, kids, tail)
    case Nested(outer, name, isObj, kids) =>
      var b := Used(outer);
      && b < |pool| && name.Some? == outer.isObj
      && pool[b].next == Top(outer) && NameIs(json, pool[b].name, name)
      && OpenToken(pool[b], isObj, b + 1, kids, tail)
      && ForestAt(json, pool, b + 1, kids, tail)
      && StackAt(json, pool, root, outer, Slot(b))
  }

  // ----- lemmas

  ghost predicate SameSlots(a: seq<Token>, b: seq<Token>, lo: nat, hi: nat) {
    hi <= |a| && hi <= |b| && forall i :: lo <= i < hi ==> a[i] == b[i]
  }

  lemma {:induction false} NodeFrame(json: CString, a: seq<Token>, b: seq<Token>, lo: nat, nd: Node, next: Ref)
    requires NodeAt(json, a, lo, nd, next) && SameSlots(a, b, lo, lo + Size(nd))
    ensures NodeAt(json, b, lo, nd, next)
    decreases nd, 0
  {
    assert a[lo] == b[lo];
    if nd.val.VCont? {
      ForestFrame(json, a, b, lo + 1, nd.val.kids, Null);
    }
  }

  lemma {:induction false} ForestFrame(json: CString, a: seq<Token>, b: seq<Token>, lo: nat, kids: seq<Node>, tail: Ref)
    requires ForestAt(json, a, lo, kids, tail) && SameSlots(a, b, lo, lo + Sizes(kids))
    ensures ForestAt(json, b, lo, kids, tail)
    decreases kids, 1
  {
    if kids != [] {
      var hi := lo + Size(kids[0]);
      NodeFrame(json, a, b, lo, kids[0], Head(hi, kids[1..], tail));
      ForestFrame(json, a, b, hi, kids[1..], tail);
    }
  }

  lemma {:induction false} StackFrame(json: CString, a: seq<Token>, b: seq<Token>, root: Token, st: Stack, tail: Ref)
    requires StackAt(json, a, root, st, tail) && SameSlots(a, b, 0, Used(st))
    ensures StackAt(json, b, root, st, tail)
  {
    match st
    case Bottom(_, kids) => ForestFrame(json, a, b, 0, kids, tail);
    case Nested(outer, _, _, kids) =>
      var lo := Used(outer);
      assert a[lo] == b[lo];
      ForestFrame(json, a, b, lo + 1, kids, tail);
      StackFrame(json, a, b, root, outer, Slot(lo));
  }

  /** A list whose last link points to the slot behind it grows by the node laid out there. */
  lemma {:induction false} ForestSnoc(json: CString, pool: seq<Token>, lo: nat, kids: seq<Node>, nd: Node, tail: Ref)
    requires ForestAt(json, pool, lo, kids, Slot(lo + Sizes(kids)))
    requires NodeAt(json, pool, lo + Sizes(kids), nd, tail)
    ensures ForestAt(json, pool, lo, kids + [nd], tail)
    ensures Head(lo, kids + [nd], tail) == Head(lo, kids, Slot(lo + Sizes(kids)))
    decreases kids, 1
  {
    var all := kids + [nd];
    if kids == [] {
      assert all == [nd] && all[1..] == [];
    } else {
      var hi := lo + Size(kids[0]);
      assert all[1..] == kids[1..] + [nd];
      ForestSnoc(json, pool, hi, kids[1..], nd, tail);
    }
  }

  /** A node laid out behind the used slots becomes the innermost container's last child. */
  lemma StackSnoc(json: CString, pool: seq<Token>, root: Token, st: Stack, nd: Node)
    requires StackAt(json, pool, root, st, Slot(Used(st)))
    requires NodeAt(json, pool, Used(st), nd, Null) && nd.name.Some? == st.isObj
    ensures StackAt(json, pool, root, Attach(st, nd), Null)
    ensures Used(Attach(st, nd)) == Used(st) + Size(nd)
  {
    var lo := if st.Nested? then Used(st.outer) + 1 else 0;
    ForestSnoc(json, pool, lo, st.kids, nd, Null);
    SizesAppend(st.kids, [nd]);
    assert Sizes([nd]) == Size(nd) + Sizes([nd][1..]);
  }

  // ----- the walk to the end of a child list

  /** The slot of the last child of a list laid out from `lo`. */
  function LastSlot(lo: nat, kids: seq<Node>): (i: nat)
    requires kids != []
    ensures lo <= i < lo + Sizes(kids)
    decreases |kids|
  {
    if |kids| == 1 then lo else LastSlot(lo + Size(kids[0]), kids[1..])
  }

  /** Redirecting the last link of a list changes only where the list ends. */
  lemma {:induction false} Retail(json: CString, pool: seq<Token>, lo: nat, kids: seq<Node>, was: Ref, tail: Ref)
    requires kids != [] && lo + Sizes(kids) <= |pool|
    requires ForestAt(json, pool, lo, kids, was)
    ensures var l := LastSlot(lo, kids);
      ForestAt(json, pool[l := pool[l].(next := tail)], lo, kids, tail)
    decreases kids, 1
  {
    var l := LastSlot(lo, kids);
    var q := pool[l := pool[l].(next := tail)];
    var hi := lo + Size(kids[0]);
    if |kids| == 1 {
      assert kids[1..] == [];
      assert l == lo;
      if kids[0].val.VCont? {
        ForestFrame(json, pool, q, lo + 1, kids[0].val.kids, Null);
      }
      assert NodeAt(json, q, lo, kids[0], tail);
    } else {
      Retail(json, pool, hi, kids[1..], was, tail);
      NodeFrame(json, pool, q, lo, kids[0], Head(hi, kids[1..], tail));
    }
  }

  // ----- what the parser's assignments do to the pool

  /** `c->next = t` on the last child of the innermost container. */
  lemma AppendBehindLast(json: CString, pool: seq<Token>, root: Token, st: Stack, t: nat)
    requires StackAt(json, pool, root, st, Null) && st.kids != [] && Used(st) <= |pool|
    ensures var l := LastSlot(First(st), st.kids);
      StackAt(json, pool[l := pool[l].(next := Slot(t))], root, st, Slot(t))
  {
    hide ForestAt;
    var l := LastSlot(First(st), st.kids);
    var q := pool[l := pool[l].(next := Slot(t))];
    Retail(json, pool, First(st), st.kids, Null, Slot(t));
    if st.Nested? {
      StackFrame(json, pool, q, root, st.outer, Slot(Used(st.outer)));
    }
  }

  /** Where the children of the innermost container start. */
  function First(st: Stack): nat {
    if st.Nested? then Used(st.outer) + 1 else 0
  }

  /** `to->u.first_child = t` on a container without children. */
  lemma AppendFirst(json: CString, pool: seq<Token>, root: Token, st: Stack, t: nat)
    requires StackAt(json, pool, root, st, Null) && st.kids == []
    requires t == Used(st)
    ensures st.Bottom? ==> StackAt(json, pool, root.(u := FirstChild(Slot(t))), st, Slot(t))
    ensures st.Nested? ==>
      var b := Used(st.outer);
      StackAt(json, pool[b := pool[b].(u := FirstChild(Slot(t)))], root, st, Slot(t))
  {
    if st.Nested? {
      var b := Used(st.outer);
      StackFrame(json, pool, pool[b := pool[b].(u := FirstChild(Slot(t)))], root, st.outer, Slot(b));
    }
  }

  /** `to->next = NULL` on the innermost container: it is now a complete child. */
  lemma CloseTop(json: CString, pool: seq<Token>, root: Token, st: Stack)
    requires StackAt(json, pool, root, st, Null) && st.Nested? && Used(st) <= |pool|
    ensures var b := Used(st.outer);
      StackAt(json, pool[b := pool[b].(next := Null)], root, Pop(st), Null)
    ensures Used(Pop(st)) == Used(st)
  {
    hide ForestAt;
    var b := Used(st.outer);
    var q := pool[b := pool[b].(next := Null)];
    ForestFrame(json, pool, q, b + 1, st.kids, Null);
    StackFrame(json, pool, q, root, st.outer, Slot(b));
    StackSnoc(json, q, root, st.outer, Node(st.name, VCont(st.isObj, st.kids)));
  }

  /** A scalar written into the slot behind the used ones. */
  lemma AddScalar(json: CString, pool: seq<Token>, root: Token, st: Stack, t: Token, nd: Node)
    requires StackAt(json, pool, root, st, Slot(Used(st))) && Used(st) < |pool|
    requires t.next == Null && NameIs(json, t.name, nd.name) && HoldsScalar(json, t, nd.val)
    requires nd.name.Some? == st.isObj
    ensures StackAt(json, pool[Used(st) := t], root, Attach(st, nd), Null)
    ensures Used(Attach(st, nd)) == Used(st) + 1
  {
    hide StackAt;
    StackFrame(json, pool, pool[Used(st) := t], root, st, Slot(Used(st)));
    StackSnoc(json, pool[Used(st) := t], root, st, nd);
  }

  /** A container opened in the slot behind the used ones. */
  lemma OpenNew(json: CString, pool: seq<Token>, root: Token, st: Stack, t: Token, name: Option<string>, isObj: bool)
    requires StackAt(json, pool, root, st, Slot(Used(st))) && Used(st) < |pool|
    requires t == Token(Top(st), ContKind(isObj), t.name, Zeroed) && NameIs(json, t.name, name)
    requires name.Some? == st.isObj
    ensures StackAt(json, pool[Used(st) := t], root, Nested(st, name, isObj, []), Null)
    ensures Used(Nested(st, name, isObj, [])) == Used(st) + 1
  {
    StackFrame(json, pool, pool[Used(st) := t], root, st, Slot(Used(st)));
  }

  lemma TopToken(json: CString, pool: seq<Token>, root: Token, st: Stack, tail: Ref)
    requires StackAt(json, pool, root, st, tail)
    ensures Top(st).Slot? ==> Top(st).i < |pool| && Top(st).i < Used(st)
    ensures OpenToken(TokenAt(pool, root, Top(st)), st.isObj, First(st), st.kids, tail)
    ensures TokenAt(pool, root, Top(st)).next == if st.Nested? then Top(st.outer) else Null
  {}

  // ----- reading a finished pool

  /** The token holds `v`; the children of a container are laid out from `lo`. */
  ghost predicate Holds(json: CString, pool: seq<Token>, t: Token, v: Val, lo: nat) {
    if v.VCont? then OpenToken(t, v.isObj, lo, v.kids, Null) && ForestAt(json, pool, lo, v.kids, Null)
    else HoldsScalar(json, t, v)
  }

  lemma FirstChildHolds(json: CString, pool: seq<Token>, lo: nat, kids: seq<Node>)
    requires kids != [] && ForestAt(json, pool, lo, kids, Null)
    ensures lo < |pool| && NameIs(json, pool[lo].name, kids[0].name)
    ensures Holds(json, pool, pool[lo], kids[0].val, lo + 1)
    ensures var hi := lo + Size(kids[0]);
      pool[lo].next == Head(hi, kids[1..], Null) && ForestAt(json, pool, hi, kids[1..], Null)
  {}

  lemma KindOfHolder(json: CString, pool: seq<Token>, t: Token, v: Val, lo: nat)
    requires Holds(json, pool, t, v, lo)
    ensures t.kind == TArray <==> v.VCont? && !v.isObj
    ensures t.kind == TObject <==> v.VCont? && v.isObj
    ensures v.VCont? ==> HasChildren(t.u) && FirstOf(t.u) == Head(lo, v.kids, Null) && Named(v.isObj, v.kids)
  {}

  // ----- following the links

  function TokenAt(pool: seq<Token>, root: Token, r: Ref): Token
    requires r.RootToken? || (r.Slot? && r.i < |pool|)
  {
    if r.RootToken? then root else pool[r.i]
  }

  /** The first `n` pointers met from `r` along `next`, fewer if NULL comes first. */
  ghost function NextChain(pool: seq<Token>, root: Token, r: Ref, n: nat): seq<Ref>
    decreases n
  {
    if n == 0 || r.Null? || (r.Slot? && r.i >= |pool|) then []
    else [r] + NextChain(pool, root, TokenAt(pool, root, r).next, n - 1)
  }

  /** The open containers from the innermost to the root. */
  function Open(st: Stack): seq<Ref> {
    [Top(st)] + (if st.Nested? then Open(st.outer) else [])
  }

  lemma ChainStep(pool: seq<Token>, root: Token, r: Ref, n: nat)
    requires n > 0 && (r.RootToken? || (r.Slot? && r.i < |pool|))
    ensures NextChain(pool, root, r, n) == [r] + NextChain(pool, root, TokenAt(pool, root, r).next, n - 1)
  {}

  lemma OuterStack(json: CString, pool: seq<Token>, root: Token, st: Stack, tail: Ref)
    requires st.Nested? && StackAt(json, pool, root, st, tail)
    ensures StackAt(json, pool, root, st.outer, Slot(Used(st.outer)))
  {}

  /** From the current container `next` visits exactly the open containers and ends in NULL behind the root. */
  lemma {:induction false} ChainIsOpen(json: CString, pool: seq<Token>, root: Token, st: Stack, tail: Ref, n: nat)
    requires StackAt(json, pool, root, st, tail) && n >= |Open(st)|
    ensures NextChain(pool, root, Top(st), n) == Open(st)
  {
    hide StackAt, Used, NextChain;
    TopToken(json, pool, root, st, tail);
    ChainStep(pool, root, Top(st), n);
    if st.Nested? {
      OuterStack(json, pool, root, st, tail);
      ChainIsOpen(json, pool, root, st.outer, Slot(Used(st.outer)), n - 1);
    } else {
      ChainEnds(pool, root, n - 1);
    }
  }

  lemma ChainEnds(pool: seq<Token>, root: Token, n: nat)
    ensures NextChain(pool, root, Null, n) == []
  {}

  /** Slots in the order a walk over `first_child` and `next` meets them, from `lo` on. */
  ghost function Walk(pool: seq<Token>, r: Ref, lo: nat): seq<nat>
    decreases |pool| - lo
  {
    if !r.Slot? || !(lo <= r.i < |pool|) then []
    else
      var t := pool[r.i];
      [r.i] +
      (if HasChildren(t.u) then Walk(pool, FirstOf(t.u), r.i + 1) else []) +
      Walk(pool, t.next, r.i + 1)
  }

  function Range(lo: nat, hi: nat): seq<nat>
    requires lo <= hi
  {
    seq(hi - lo, i requires 0 <= i < hi - lo => lo + i)
  }

  lemma RangeJoin(a: nat, b: nat, c: nat)
    requires a < b <= c
    ensures Range(a, c) == [a] + Range(a + 1, b) + Range(b, c)
  {}

  /** The part of a walk below one token. */
  ghost function WalkBelow(pool: seq<Token>, i: nat): seq<nat>
    requires i < |pool|
  {
    if HasChildren(pool[i].u) then Walk(pool, FirstOf(pool[i].u), i + 1) else []
  }

  lemma WalkStep(pool: seq<Token>, i: nat, b: nat)
    requires b <= i < |pool|
    ensures Walk(pool, Slot(i), b) == [i] + WalkBelow(pool, i) + Walk(pool, pool[i].next, i + 1)
  {}

  /** A walk over a laid-out list meets each of its slots once, in document order. */
  lemma {:induction false} WalkIsPreorder(json: CString, pool: seq<Token>, lo: nat, kids: seq<Node>, b: nat)
    requires ForestAt(json, pool, lo, kids, Null) && b <= lo
    ensures Walk(pool, Head(lo, kids, Null), b) == Range(lo, lo + Sizes(kids))
    decreases Sizes(kids), 0
  {
    hide Walk, Range, WalkBelow;
    if kids == [] {
      WalkNull(pool, b);
      assert Range(lo, lo) == [] by { RangeEmpty(lo); }
    } else {
      var nd, hi := kids[0], lo + Size(kids[0]);
      var next := Head(hi, kids[1..], Null);
      assert NodeAt(json, pool, lo, nd, next);
      WalkIsPreorder(json, pool, hi, kids[1..], lo + 1);
      WalkNodeBelow(json, pool, lo, nd, next);
      WalkStep(pool, lo, b);
      RangeJoin(lo, hi, hi + Sizes(kids[1..]));
    }
  }

  lemma WalkNull(pool: seq<Token>, b: nat)
    ensures Walk(pool, Null, b) == []
  {}

  lemma RangeEmpty(lo: nat)
    ensures Range(lo, lo) == []
  {}

  lemma {:induction false} WalkNodeBelow(json: CString, pool: seq<Token>, lo: nat, nd: Node, next: Ref)
    requires NodeAt(json, pool, lo, nd, next)
    ensures WalkBelow(pool, lo) == Range(lo + 1, lo + Size(nd))
    decreases Size(nd) - 1, 1
  {
    hide Walk, Range, ForestAt;
    if nd.val.VCont? {
      WalkIsPreorder(json, pool, lo + 1, nd.val.kids, lo + 1);
    } else {
      WalkNull(pool, lo + 1);
      RangeEmpty(lo + 1);
    }
  }
}
