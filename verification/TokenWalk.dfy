/**
 A parsed token pool as a reader of it sees it: values read back through the links,
 and what a dotted path leads to, step by step along them.
 */
module TokenWalk {
  import opened Wrappers
  import opened JsonTree
  import opened JsonLex
  import opened JsonReader
  import opened TokenPool
  import opened Decimals
  import P = JsonPath

  // ----- reading values back

  function Slice(json: CString, start: nat, len: nat): string {
    if start + len <= |json| then json[start..start + len] else []
  }

  /** The value of a token, by its kind; the links lead upwards from slot `lo`. */
  function ValueOf(json: CString, pool: seq<Token>, t: Token, lo: nat): Val
    requires lo <= |pool|
    decreases |pool| - lo, 1
  {
    match t.kind
    case TString => if t.u.Chars? then VStr(Slice(json, t.u.start, t.u.len)) else VStr([])
    case TInt => if t.u.IntNum? then VInt(t.u.n) else VInt(0)
    case TReal => if t.u.RealNum? then VReal(t.u.r) else VReal(0.0)
    case TTrue => VTrue
    case TFalse => VFalse
    case TNull => VNull
    case TObject => VCont(true, ListOf(json, pool, FirstChildOf(t), lo))
    case TArray => VCont(false, ListOf(json, pool, FirstChildOf(t), lo))
  }

  /** The tokens from `r` on along `next`, as members. */
  function ListOf(json: CString, pool: seq<Token>, r: Ref, lo: nat): seq<Node>
    requires lo <= |pool|
    decreases |pool| - lo, 0
  {
    if !r.Slot? || r.i < lo || r.i >= |pool| then []
    else
      [Node(NameOf(json, pool[r.i].name), ValueOf(json, pool, pool[r.i], r.i + 1))]
      + ListOf(json, pool, pool[r.i].next, r.i + 1)
  }

  function NameOf(json: CString, n: Name): Option<string> {
    if n.NameAt? then Some(Slice(json, n.start, n.len)) else None
  }

  function FirstChildOf(t: Token): Ref {
    if t.u.FirstChild? then t.u.first else Null
  }

  lemma {:induction false} NodeReadsBack(json: CString, pool: seq<Token>, lo: nat, nd: Node, next: Ref)
    requires NodeAt(json, pool, lo, nd, next)
    ensures Node(NameOf(json, pool[lo].name), ValueOf(json, pool, pool[lo], lo + 1)) == nd
    decreases nd, 0
  {
    if nd.val.VCont? {
      ListReadsBack(json, pool, lo + 1, nd.val.kids, lo + 1);
    }
  }

  lemma {:induction false} ListReadsBack(json: CString, pool: seq<Token>, lo: nat, kids: seq<Node>, from: nat)
    requires ForestAt(json, pool, lo, kids, Null) && from <= lo && from <= |pool|
    ensures ListOf(json, pool, Head(lo, kids, Null), from) == kids
    decreases kids, 1
  {
    if kids != [] {
      var hi := lo + Size(kids[0]);
      NodeReadsBack(json, pool, lo, kids[0], Head(hi, kids[1..], Null));
      ListReadsBack(json, pool, hi, kids[1..], lo + 1);
    }
  }

  /** A token that holds a value reads back as that value. */
  lemma ReadsBack(json: CString, pool: seq<Token>, t: Token, v: Val, lo: nat)
    requires Holds(json, pool, t, v, lo) && lo <= |pool|
    ensures ValueOf(json, pool, t, lo) == v
  {
    if v.VCont? {
      ListReadsBack(json, pool, lo, v.kids, lo);
    }
  }

  // ----- following the links

  predicate InPool(pool: seq<Token>, r: Ref) {
    r.RootToken? || (r.Slot? && r.i < |pool|)
  }

  /** Child `j` of a token, counted from 0: `first_child`, then `j` times `next`. */
  function ChildAt(pool: seq<Token>, root: Token, r: Ref, j: nat): Ref {
    if j == 0 then
      if InPool(pool, r) then FirstChildOf(TokenAt(pool, root, r)) else Null
    else
      var c := ChildAt(pool, root, r, j - 1);
      if InPool(pool, c) then TokenAt(pool, root, c).next else Null
  }

  /** The slots behind a token's own, where what it holds is laid out. */
  function Below(r: Ref): nat {
    if r.Slot? then r.i + 1 else 0
  }

  lemma {:induction false} ChildIsAt(json: CString, pool: seq<Token>, root: Token, r: Ref, v: Val, lo: nat, j: nat)
    requires InPool(pool, r) && Holds(json, pool, TokenAt(pool, root, r), v, lo) && v.VCont? && j <= |v.kids|
    ensures ChildAt(pool, root, r, j) == Head(P.SlotAt(lo, v.kids, j), v.kids[j..], Null)
    ensures ForestAt(json, pool, P.SlotAt(lo, v.kids, j), v.kids[j..], Null)
    decreases j
  {
    if j == 0 {
      P.SlotAtZero(lo, v.kids);
      assert v.kids[0..] == v.kids;
    } else {
      ChildIsAt(json, pool, root, r, v, lo, j - 1);
      var s := P.SlotAt(lo, v.kids, j - 1);
      FirstChildHolds(json, pool, s, v.kids[j - 1..]);
      P.SlotNext(lo, v.kids, j - 1);
      assert v.kids[j - 1..][1..] == v.kids[j..];
    }
  }

  // ----- what a path leads to

  /**
   The child fits one part of a path: a name is its name; `#` and digits are its
   place, as a 32-bit number; `#` alone is any element of an array.
   */
  predicate Fits(json: CString, part: string, parent: Token, child: Token, j: nat) {
    if part == [] || part[0] != '#' then
      && parent.kind == TObject
      && child.name.NameAt? && child.name.start + child.name.len <= |json|
      && json[child.name.start..child.name.start + child.name.len] == part
    else
      && parent.kind == TArray
      && (|part| == 1 || (OnlyDigits(part[1..]) && j == Read(part[1..]) % 0x1_0000_0000))
  }

  /**
   From token `from`, which has the value `v`, child `addr[0]` fits `parts[0]`, its
   child `addr[1]` fits `parts[1]`, and so on; the last one is `to`, and it reads
   back as the value reached in `v` on the same way.
   */
  predicate Leads(json: CString, pool: seq<Token>, root: Token, from: Ref, v: Val,
                  parts: seq<string>, addr: seq<nat>, to: Ref)
    decreases |parts|
  {
    && InPool(pool, from)
    && if parts == [] then addr == [] && to == from && ValueOf(json, pool, TokenAt(pool, root, from), Below(from)) == v
       else
         && addr != [] && v.VCont? && addr[0] < |v.kids|
         && var c := ChildAt(pool, root, from, addr[0]);
         && c.Slot? && c.i < |pool|
         && Fits(json, parts[0], TokenAt(pool, root, from), pool[c.i], addr[0])
         && Leads(json, pool, root, c, v.kids[addr[0]].val, parts[1..], addr[1..], to)
  }

  /** Parts joined by dots. */
  function Dotted(parts: seq<string>): string
    requires parts != []
  {
    if |parts| == 1 then parts[0] else parts[0] + (['.'] + Dotted(parts[1..]))
  }

  /**
   The parts of a path. The last one is neither empty nor a wildcard, and a dot
   behind it is overlooked if it starts with `#`.
   */
  predicate Names(path: string, parts: seq<string>) {
    && parts != []
    && (forall i :: 0 <= i < |parts| ==> '.' !in parts[i])
    && var last := parts[|parts| - 1];
       && last != "" && last != "#"
       && (path == Dotted(parts) || (last[0] == '#' && path == Dotted(parts) + ['.']))
  }

  /** The answer to a search: the first token in the pool that the path leads to, NULL if it leads nowhere. */
  ghost predicate IsFound(json: CString, pool: seq<Token>, root: Token, from: Ref, v: Val, path: string, r: Ref) {
    if r == Null then
      forall parts, addr, to :: Names(path, parts) ==> !Leads(json, pool, root, from, v, parts, addr, to)
    else
      && r.Slot?
      && (exists parts, addr :: Names(path, parts) && Leads(json, pool, root, from, v, parts, addr, r))
      && forall parts, addr, to :: Names(path, parts) && Leads(json, pool, root, from, v, parts, addr, to) ==>
           to.Slot? && r.i <= to.i
  }

  // ----- the steps of the search are these parts

  function Segs(parts: seq<string>): seq<P.Seg> {
    if parts == [] then [] else [P.SegOf(parts[0])] + Segs(parts[1..])
  }

  lemma {:induction false} FirstPart(part: string, t: string)
    requires '.' !in part && (t == [] || t[0] == '.')
    ensures P.SegLen(part + t) == |part|
  {
    if part == [] {
      assert part + t == t;
    } else {
      assert (part + t)[1..] == part[1..] + t;
      FirstPart(part[1..], t);
    }
  }

  lemma NamesRest(path: string, parts: seq<string>) returns (rest: string)
    requires Names(path, parts) && |parts| > 1
    ensures path == parts[0] + (['.'] + rest) && '.' !in parts[0] && Names(rest, parts[1..]) && rest != []
  {
    var t := Dotted(parts[1..]);
    assert parts[1..][|parts| - 2] == parts[|parts| - 1];
    NotEmpty(parts[1..]);
    if path == Dotted(parts) {
      rest := t;
    } else {
      rest := t + ['.'];
      Assoc(parts[0], ['.'] + t, ['.']);
      Assoc(['.'], t, ['.']);
    }
  }

  lemma NotEmpty(parts: seq<string>)
    requires parts != [] && parts[|parts| - 1] != ""
    ensures Dotted(parts) != []
  {}

  lemma NamesMore(part: string, rest: string, parts: seq<string>)
    requires '.' !in part && Names(rest, parts)
    ensures Names(part + (['.'] + rest), [part] + parts)
  {
    var all := [part] + parts;
    assert all[1..] == parts && all[|all| - 1] == parts[|parts| - 1];
    if rest != Dotted(parts) {
      Assoc(part, ['.'] + Dotted(parts), ['.']);
      Assoc(['.'], Dotted(parts), ['.']);
    }
  }

  lemma OnePart(path: string, part: string)
    requires Names(path, [part])
    ensures '.' !in part && part != "" && part != "#"
    ensures path == part || (part[0] == '#' && path == part + ['.'])
  {
    assert [part][0] == part;
  }

  lemma {:induction false} StepsOfNames(path: string, parts: seq<string>)
    requires Names(path, parts)
    ensures P.Steps(path) == Segs(parts)
    decreases |parts|
  {
    hide Names, P.Steps, P.SegOf;
    NamesSome(path, parts);
    var part := parts[0];
    P.StepsCut(path);
    if |parts| == 1 {
      assert parts == [part] && parts[1..] == [];
      OnePart(path, part);
      FirstPart(part, path[|part|..]);
      assert path == part + path[|part|..] && path[..|part|] == part;
    } else {
      var rest := NamesRest(path, parts);
      FirstPart(part, ['.'] + rest);
      assert path[..|part|] == part && path[|part| + 1..] == rest;
      StepsOfNames(rest, parts[1..]);
    }
  }

  /** A path without parts has a step that nothing satisfies. */
  lemma {:induction false} PartsOf(path: string) returns (parts: seq<string>)
    ensures Names(path, parts) || P.Never in P.Steps(path)
    decreases |path|
  {
    hide Names, P.Steps, P.SegOf, P.SegLen;
    var k := P.SegLen(path);
    P.StepsCut(path);
    if path == [] || path == "#" {
      parts := [];
    } else if k == |path| {
      parts := [path];
      assert Names(path, parts) by { NamesOne(path, path); }
    } else if path[k + 1..] == [] && path[0] == '#' && k > 1 {
      parts := [path[..k]];
      assert path == path[..k] + ['.'];
      NamesOne(path, path[..k]);
    } else {
      var rest := PartsOf(path[k + 1..]);
      parts := [path[..k]] + rest;
      assert path == path[..k] + (['.'] + path[k + 1..]);
      if Names(path[k + 1..], rest) {
        NamesMore(path[..k], path[k + 1..], rest);
      }
    }
  }

  lemma NamesOne(path: string, part: string)
    requires '.' !in part && part != "" && part != "#"
    requires path == part || (part[0] == '#' && path == part + ['.'])
    ensures Names(path, [part])
  {}

  lemma {:induction false} NeverSelected(v: Val, addr: seq<nat>, segs: seq<P.Seg>)
    requires P.Never in segs
    ensures !P.Selected(v, addr, segs)
    decreases |segs|
  {
    if P.Selected(v, addr, segs) && segs[0] != P.Never {
      assert P.Never in segs[1..];
      NeverSelected(v.kids[addr[0]].val, addr[1..], segs[1..]);
    }
  }

  // ----- selected means led to

  /** One step: accepting a child is its fitting the part. */
  lemma StepFits(json: CString, pool: seq<Token>, root: Token, from: Ref, v: Val, lo: nat, part: string, j: nat)
    requires InPool(pool, from) && Holds(json, pool, TokenAt(pool, root, from), v, lo)
    requires v.VCont? && j < |v.kids|
    ensures var c := ChildAt(pool, root, from, j);
      && c == Slot(P.SlotAt(lo, v.kids, j)) && c.i < |pool|
      && Holds(json, pool, pool[c.i], v.kids[j].val, c.i + 1)
      && (P.Accepts(P.SegOf(part), v, j) <==> Fits(json, part, TokenAt(pool, root, from), pool[c.i], j))
  {
    ChildIsAt(json, pool, root, from, v, lo, j);
    FirstChildHolds(json, pool, P.SlotAt(lo, v.kids, j), v.kids[j..]);
    KindOfHolder(json, pool, TokenAt(pool, root, from), v, lo);
    if |part| > 1 && part[0] == '#' && AllDigits(part[1..]) {
      ReadIs(part[1..]);
    }
  }

  lemma {:induction false} SelectedLeads(json: CString, pool: seq<Token>, root: Token, from: Ref, v: Val, lo: nat,
                                         parts: seq<string>, addr: seq<nat>)
    requires InPool(pool, from) && Holds(json, pool, TokenAt(pool, root, from), v, lo)
    requires parts != [] && P.Selected(v, addr, Segs(parts))
    ensures Leads(json, pool, root, from, v, parts, addr, Slot(P.SlotOf(v, lo, addr, Segs(parts))))
    decreases |parts|
  {
    hide Holds, Fits, ChildAt, ValueOf;
    var j := addr[0];
    StepFits(json, pool, root, from, v, lo, parts[0], j);
    var s, w := P.SlotAt(lo, v.kids, j), v.kids[j].val;
    assert Segs(parts)[1..] == Segs(parts[1..]);
    if |parts| == 1 {
      assert addr[1..] == [];
      ReadsBack(json, pool, pool[s], w, s + 1);
    } else {
      SelectedLeads(json, pool, root, Slot(s), w, s + 1, parts[1..], addr[1..]);
    }
  }

  lemma FirstLead(json: CString, pool: seq<Token>, root: Token, from: Ref, v: Val, lo: nat,
                  parts: seq<string>, addr: seq<nat>, to: Ref)
    requires InPool(pool, from) && Holds(json, pool, TokenAt(pool, root, from), v, lo)
    requires parts != [] && Leads(json, pool, root, from, v, parts, addr, to)
    ensures addr != [] && v.VCont? && addr[0] < |v.kids| && P.Accepts(P.SegOf(parts[0]), v, addr[0])
    ensures var s := P.SlotAt(lo, v.kids, addr[0]);
      && s < |pool| && Holds(json, pool, pool[s], v.kids[addr[0]].val, s + 1)
      && Leads(json, pool, root, Slot(s), v.kids[addr[0]].val, parts[1..], addr[1..], to)
  {
    hide Holds, Fits, ChildAt, ValueOf, P.SegOf, P.Accepts;
    StepFits(json, pool, root, from, v, lo, parts[0], addr[0]);
  }

  lemma LastLead(json: CString, pool: seq<Token>, root: Token, from: Ref, v: Val, addr: seq<nat>, to: Ref)
    requires Leads(json, pool, root, from, v, [], addr, to)
    ensures addr == [] && to == from
  {}

  lemma {:induction false} LeadsSelected(json: CString, pool: seq<Token>, root: Token, from: Ref, v: Val, lo: nat,
                                         parts: seq<string>, addr: seq<nat>, to: Ref)
    requires InPool(pool, from) && Holds(json, pool, TokenAt(pool, root, from), v, lo)
    requires parts != [] && Leads(json, pool, root, from, v, parts, addr, to)
    ensures P.Selected(v, addr, Segs(parts)) && to == Slot(P.SlotOf(v, lo, addr, Segs(parts)))
    decreases |parts|
  {
    hide Holds, Leads, P.SegOf, P.Accepts, P.SlotAt;
    FirstLead(json, pool, root, from, v, lo, parts, addr, to);
    var s, w := P.SlotAt(lo, v.kids, addr[0]), v.kids[addr[0]].val;
    assert Segs(parts)[1..] == Segs(parts[1..]);
    if |parts| > 1 {
      LeadsSelected(json, pool, root, Slot(s), w, s + 1, parts[1..], addr[1..], to);
    } else {
      assert parts[1..] == [];
      LastLead(json, pool, root, Slot(s), w, addr[1..], to);
    }
  }

  /** What the search computes is what the path leads to. */
  lemma FoundIs(json: CString, pool: seq<Token>, root: Token, from: Ref, v: Val, lo: nat, path: string, r: Ref)
    requires InPool(pool, from) && Holds(json, pool, TokenAt(pool, root, from), v, lo)
    requires !r.RootToken?
    requires P.FindsFirst(v, lo, P.Steps(path), if r.Slot? then Some(r.i) else None)
    ensures IsFound(json, pool, root, from, v, path, r)
  {
    hide Holds, Leads, P.Selected, P.Steps, Names;
    forall parts, addr, to | Names(path, parts) && Leads(json, pool, root, from, v, parts, addr, to)
      ensures r.Slot? && to.Slot? && r.i <= to.i
    {
      StepsOfNames(path, parts);
      NamesSome(path, parts);
      LeadsSelected(json, pool, root, from, v, lo, parts, addr, to);
    }
    if r.Slot? {
      var a :| P.Selected(v, a, P.Steps(path)) && r.i == P.SlotOf(v, lo, a, P.Steps(path));
      var parts := PartsOf(path);
      if P.Never in P.Steps(path) {
        NeverSelected(v, a, P.Steps(path));
      }
      StepsOfNames(path, parts);
      NamesSome(path, parts);
      SelectedLeads(json, pool, root, from, v, lo, parts, a);
    }
  }

  lemma NamesSome(path: string, parts: seq<string>)
    requires Names(path, parts)
    ensures parts != []
  {}

  // ----- what that means for simple paths

  /** A name that can stand alone as a path. */
  predicate IsPlainKey(k: string) {
    k != "" && k[0] != '#' && '.' !in k
  }

  /**
   In an object the path `k` finds the first child of that name: NULL only if there
   is none, and otherwise a token with that name that reads back as that child's
   value.
   */
  lemma KeyFound(json: CString, pool: seq<Token>, root: Token, from: Ref, v: Val, lo: nat, k: string, j: nat, r: Ref)
    requires InPool(pool, from) && Holds(json, pool, TokenAt(pool, root, from), v, lo)
    requires v.VCont? && v.isObj && j < |v.kids| && v.kids[j].name == Some(k) && IsPlainKey(k)
    requires forall i :: 0 <= i < j ==> v.kids[i].name != Some(k)
    requires IsFound(json, pool, root, from, v, k, r)
    ensures r.Slot? && r.i < |pool| && NameOf(json, pool[r.i].name) == Some(k)
    ensures ValueOf(json, pool, pool[r.i], r.i + 1) == v.kids[j].val
  {
    hide Holds, Leads, Fits, ChildAt, ValueOf, Names;
    var c := OneStep(json, pool, root, from, v, lo, k, j);
    assert Names(k, [k]) by { NamesOne(k, k); }
    var parts, addr :| Names(k, parts) && Leads(json, pool, root, from, v, parts, addr, r);
    SinglePart(k, parts);
    OneStepOnly(json, pool, root, from, v, lo, k, addr, r);
    if addr[0] > j {
      SlotsGrow(v, lo, j, addr[0]);
    }
  }

  lemma SlotsGrow(v: Val, lo: nat, i: nat, j: nat)
    requires v.VCont? && i < j < |v.kids|
    ensures P.SlotAt(lo, v.kids, i) < P.SlotAt(lo, v.kids, j)
  {
    P.SlotMonotone(lo, v.kids, i, j);
  }

  /** Child `j` of name `k` is led to. */
  lemma OneStep(json: CString, pool: seq<Token>, root: Token, from: Ref, v: Val, lo: nat, k: string, j: nat)
      returns (c: Ref)
    requires InPool(pool, from) && Holds(json, pool, TokenAt(pool, root, from), v, lo)
    requires v.VCont? && v.isObj && j < |v.kids| && v.kids[j].name == Some(k) && IsPlainKey(k)
    ensures c == Slot(P.SlotAt(lo, v.kids, j)) && c.i < |pool|
    ensures NameOf(json, pool[c.i].name) == Some(k)
    ensures ValueOf(json, pool, pool[c.i], c.i + 1) == v.kids[j].val
    ensures Leads(json, pool, root, from, v, [k], [j], c)
  {
    hide Holds, ChildAt, ValueOf;
    StepFits(json, pool, root, from, v, lo, k, j);
    c := ChildAt(pool, root, from, j);
    ReadsBack(json, pool, pool[c.i], v.kids[j].val, c.i + 1);
    assert [k][1..] == [] && [j][1..] == [];
  }

  /** What the path `k` leads to is a child of that name. */
  lemma OneStepOnly(json: CString, pool: seq<Token>, root: Token, from: Ref, v: Val, lo: nat, k: string,
                    addr: seq<nat>, r: Ref)
    requires InPool(pool, from) && Holds(json, pool, TokenAt(pool, root, from), v, lo)
    requires v.VCont? && v.isObj && IsPlainKey(k) && Leads(json, pool, root, from, v, [k], addr, r)
    ensures |addr| == 1 && addr[0] < |v.kids| && v.kids[addr[0]].name == Some(k)
    ensures r == Slot(P.SlotAt(lo, v.kids, addr[0]))
  {
    hide Holds, ChildAt, ValueOf;
    StepFits(json, pool, root, from, v, lo, k, addr[0]);
    assert [k][1..] == [];
  }

  /**
   In an array the path `#` and digits finds the element of that number, counted
   from 0 and modulo 2^32: NULL exactly if the array is too short.
   */
  lemma IndexFound(json: CString, pool: seq<Token>, root: Token, from: Ref, v: Val, lo: nat, d: string, r: Ref)
    requires InPool(pool, from) && Holds(json, pool, TokenAt(pool, root, from), v, lo)
    requires v.VCont? && !v.isObj && d != "" && OnlyDigits(d)
    requires IsFound(json, pool, root, from, v, ['#'] + d, r)
    ensures var n := Read(d) % 0x1_0000_0000;
      if n < |v.kids| then r.Slot? && r.i < |pool| && ValueOf(json, pool, pool[r.i], r.i + 1) == v.kids[n].val
      else r == Null
  {
    hide Holds, Leads, Fits, ChildAt, ValueOf, ReadOn, Names;
    var path, n := ['#'] + d, Read(d) % 0x1_0000_0000;
    assert path[1..] == d && '.' !in path;
    assert Names(path, [path]) by { NamesOne(path, path); }
    if n < |v.kids| {
      var c := OneIndex(json, pool, root, from, v, lo, path, n);
    }
    if r != Null {
      var parts, addr :| Names(path, parts) && Leads(json, pool, root, from, v, parts, addr, r);
      SinglePart(path, parts);
      OneIndexOnly(json, pool, root, from, v, lo, path, addr, r);
    }
  }

  lemma OneIndex(json: CString, pool: seq<Token>, root: Token, from: Ref, v: Val, lo: nat, path: string, n: nat)
      returns (c: Ref)
    requires InPool(pool, from) && Holds(json, pool, TokenAt(pool, root, from), v, lo)
    requires v.VCont? && !v.isObj && n < |v.kids|
    requires |path| > 1 && path[0] == '#' && OnlyDigits(path[1..]) && n == Read(path[1..]) % 0x1_0000_0000
    ensures c == Slot(P.SlotAt(lo, v.kids, n)) && c.i < |pool|
    ensures ValueOf(json, pool, pool[c.i], c.i + 1) == v.kids[n].val
    ensures Leads(json, pool, root, from, v, [path], [n], c)
  {
    hide Holds, ChildAt, ValueOf, ReadOn;
    KindOfHolder(json, pool, TokenAt(pool, root, from), v, lo);
    StepFits(json, pool, root, from, v, lo, path, n);
    c := ChildAt(pool, root, from, n);
    ReadsBack(json, pool, pool[c.i], v.kids[n].val, c.i + 1);
    assert [path][1..] == [] && [n][1..] == [];
  }

  lemma OneIndexOnly(json: CString, pool: seq<Token>, root: Token, from: Ref, v: Val, lo: nat, path: string,
                     addr: seq<nat>, r: Ref)
    requires InPool(pool, from) && Holds(json, pool, TokenAt(pool, root, from), v, lo)
    requires v.VCont? && |path| > 1 && path[0] == '#' && OnlyDigits(path[1..])
    requires Leads(json, pool, root, from, v, [path], addr, r)
    ensures var n := Read(path[1..]) % 0x1_0000_0000; addr == [n] && n < |v.kids| && r == Slot(P.SlotAt(lo, v.kids, n))
  {
    hide Holds, ChildAt, ValueOf, ReadOn;
    StepFits(json, pool, root, from, v, lo, path, addr[0]);
    assert [path][1..] == [];
  }

  lemma SinglePart(path: string, parts: seq<string>)
    requires '.' !in path && Names(path, parts)
    ensures parts == [path]
  {
    if |parts| > 1 {
      var rest := NamesRest(path, parts);
    } else {
      assert parts == [parts[0]];
      OnePart(path, parts[0]);
    }
  }

  /** `a` and `b` in `{"a":1,"b":2}`. */
  lemma KeyCases(json: CString, pool: seq<Token>, root: Token, v: Val, r: Ref, r': Ref)
    requires v == VCont(true, [Node(Some("a"), VInt(1)), Node(Some("b"), VInt(2))])
    requires Holds(json, pool, root, v, 0)
    requires IsFound(json, pool, root, RootToken, v, "a", r) && IsFound(json, pool, root, RootToken, v, "b", r')
    ensures r.Slot? && r.i < |pool| && ValueOf(json, pool, pool[r.i], r.i + 1) == VInt(1)
    ensures r'.Slot? && r'.i < |pool| && ValueOf(json, pool, pool[r'.i], r'.i + 1) == VInt(2)
  {
    hide Holds, IsFound, ValueOf;
    KeyFound(json, pool, root, RootToken, v, 0, "a", 0, r);
    KeyFound(json, pool, root, RootToken, v, 0, "b", 1, r');
  }

  /** `#0` and `#1` in `[7,8]`. */
  lemma IndexCases(json: CString, pool: seq<Token>, root: Token, v: Val, r: Ref, r': Ref)
    requires v == VCont(false, [Node(None, VInt(7)), Node(None, VInt(8))])
    requires Holds(json, pool, root, v, 0)
    requires IsFound(json, pool, root, RootToken, v, "#0", r) && IsFound(json, pool, root, RootToken, v, "#1", r')
    ensures r.Slot? && r.i < |pool| && ValueOf(json, pool, pool[r.i], r.i + 1) == VInt(7)
    ensures r'.Slot? && r'.i < |pool| && ValueOf(json, pool, pool[r'.i], r'.i + 1) == VInt(8)
  {
    hide Holds, IsFound, ValueOf;
    assert ['#'] + "0" == "#0" && ['#'] + "1" == "#1";
    ReadDecimal(0);
    ReadDecimal(1);
    assert Decimal(0) == "0" && Decimal(1) == "1";
    IndexFound(json, pool, root, RootToken, v, 0, "0", r);
    IndexFound(json, pool, root, RootToken, v, 0, "1", r');
  }
}
