/**
 Path search on values: which descendants a dotted path selects, and the first
 of them in document order.
 */
module JsonPath {
  import opened Wrappers
  import opened JsonTree
  import opened JsonLex

  /** One step of a path. `Never` is a step that no child satisfies. */
  datatype Seg = Key(name: string) | Index(n: nat) | Any | Never

  /** One more than the largest index `size_t` can hold. */
  const SIZE_MOD := 0x1_0000_0000

  /** Length of the first segment: up to the first dot or the end. */
  function SegLen(path: string): (k: nat)
    ensures k <= |path| && (k < |path| ==> path[k] == '.')
    ensures forall i :: 0 <= i < k ==> path[i] != '.'
  {
    if path == [] || path[0] == '.' then 0 else 1 + SegLen(path[1..])
  }

  /** `#` alone is the wildcard, `#` and digits an index that wraps around, anything else a key. */
  function SegOf(part: string): Seg {
    if part == [] || part[0] != '#' then Key(part)
    else if |part| == 1 then Any
    else if AllDigits(part[1..]) then Index(DecValue(part[1..]) % SIZE_MOD)
    else Never
  }

  /**
   The steps of a path. An empty rest never matches, so neither does a path that
   ends in a dot, except behind an index, where the dot is ignored; a wildcard
   cannot be the last step.
   */
  function Steps(path: string): (r: seq<Seg>)
    ensures r != []
    decreases |path|
  {
    var k := SegLen(path);
    if path == [] || path == "#" then [Never]
    else if k == |path| then [SegOf(path)]
    else if path[k + 1..] == [] && path[0] == '#' && k > 1 then [SegOf(path[..k])]
    else [SegOf(path[..k])] + Steps(path[k + 1..])
  }

  lemma StepsCut(q: string)
    ensures var k := SegLen(q);
      Steps(q) ==
      if q == [] || q == "#" then [Never]
      else if k == |q| || (q[k + 1..] == [] && q[0] == '#' && k > 1) then [SegOf(q[..k])]
      else [SegOf(q[..k])] + Steps(q[k + 1..])
  {
    var k := SegLen(q);
    if k == |q| {
      assert q[..k] == q;
    }
  }

  // ----- what a path selects

  predicate Accepts(seg: Seg, v: Val, j: nat)
    requires v.VCont? && j < |v.kids|
  {
    match seg
    case Key(k) => v.isObj && v.kids[j].name == Some(k)
    case Index(n) => !v.isObj && j == n
    case Any => !v.isObj
    case Never => false
  }

  /** The descendant reached by taking child `addr[0]`, then child `addr[1]`, ... matches every step. */
  predicate Selected(v: Val, addr: seq<nat>, segs: seq<Seg>)
    decreases |segs|
  {
    if segs == [] then addr == []
    else
      && addr != [] && v.VCont? && addr[0] < |v.kids|
      && Accepts(segs[0], v, addr[0])
      && Selected(v.kids[addr[0]].val, addr[1..], segs[1..])
  }

  /** Document order on addresses of one depth. */
  predicate Leq(a: seq<nat>, b: seq<nat>)
    decreases |a|
  {
    a == [] || (b != [] && (a[0] < b[0] || (a[0] == b[0] && Leq(a[1..], b[1..]))))
  }

  // ----- the search

  /** Depth-first search with backtracking. */
  function First(v: Val, segs: seq<Seg>): (r: Option<seq<nat>>)
    requires segs != []
    ensures r.Some? ==> Selected(v, r.value, segs)
    decreases |segs|, 0, 0
  {
    if v.VCont? then FirstFrom(v, 0, segs) else None
  }

  function FirstFrom(v: Val, j: nat, segs: seq<Seg>): (r: Option<seq<nat>>)
    requires v.VCont? && j <= |v.kids| && segs != []
    ensures r.Some? ==> Selected(v, r.value, segs)
    decreases |segs|, -1, |v.kids| - j
  {
    if j == |v.kids| then None
    else if !Accepts(segs[0], v, j) then FirstFrom(v, j + 1, segs)
    else if |segs| == 1 then
      assert segs[1..] == [] && [j][1..] == [];
      Some([j])
    else
      match First(v.kids[j].val, segs[1..])
      case Some(a) => assert ([j] + a)[1..] == a; Some([j] + a)
      case None => FirstFrom(v, j + 1, segs)
  }

  /** The search returns the least selected address, and nothing exactly if none is selected. */
  lemma {:induction false} FirstIsLeast(v: Val, segs: seq<Seg>)
    requires segs != []
    ensures match First(v, segs)
      case None => forall b :: !Selected(v, b, segs)
      case Some(a) => Selected(v, a, segs) && forall b :: Selected(v, b, segs) ==> Leq(a, b)
    decreases |segs|, 1, 0
  {
    if v.VCont? {
      FirstFromIsLeast(v, 0, segs);
    }
  }

  lemma {:induction false} FirstFromIsLeast(v: Val, j: nat, segs: seq<Seg>)
    requires v.VCont? && j <= |v.kids| && segs != []
    ensures match FirstFrom(v, j, segs)
      case None => forall b :: Selected(v, b, segs) ==> b[0] < j
      case Some(a) =>
        && Selected(v, a, segs) && a[0] >= j
        && forall b :: Selected(v, b, segs) && b[0] >= j ==> Leq(a, b)
    decreases |segs|, 0, |v.kids| - j
  {
    if j < |v.kids| {
      var w := v.kids[j].val;
      FirstFromIsLeast(v, j + 1, segs);
      if Accepts(segs[0], v, j) {
        if |segs| == 1 {
          SelectedOne(v, segs);
        } else {
          FirstIsLeast(w, segs[1..]);
          if First(w, segs[1..]).Some? {
            var a := First(w, segs[1..]).value;
            assert ([j] + a)[1..] == a;
          }
        }
      }
    }
  }

  lemma SelectedOne(v: Val, segs: seq<Seg>)
    requires |segs| == 1 && v.VCont?
    ensures forall j: nat :: j < |v.kids| && Accepts(segs[0], v, j) ==> Selected(v, [j], segs)
    ensures forall b :: Selected(v, b, segs) ==> |b| == 1
  {
    forall j: nat | j < |v.kids| && Accepts(segs[0], v, j)
      ensures Selected(v, [j], segs)
    {
      assert [j][1..] == [] && segs[1..] == [];
    }
    forall b | Selected(v, b, segs)
      ensures |b| == 1
    {
      assert Selected(v.kids[b[0]].val, b[1..], segs[1..]);
    }
  }

  /** What the search does at child `j`. */
  lemma FirstFromStep(v: Val, j: nat, segs: seq<Seg>)
    requires v.VCont? && j < |v.kids| && segs != []
    ensures FirstFrom(v, j, segs) ==
            if !Accepts(segs[0], v, j) then FirstFrom(v, j + 1, segs)
            else if |segs| == 1 then Some([j])
            else if First(v.kids[j].val, segs[1..]).None? then FirstFrom(v, j + 1, segs)
            else Some([j] + First(v.kids[j].val, segs[1..]).value)
  {}

  lemma FirstFromEnd(v: Val, segs: seq<Seg>)
    requires v.VCont? && segs != []
    ensures FirstFrom(v, |v.kids|, segs) == None
  {}

  /** A step that accepts at most child `n`. */
  lemma {:induction false} OnlyChild(v: Val, j: nat, n: nat, segs: seq<Seg>)
    requires v.VCont? && j <= |v.kids| && segs != []
    requires forall i :: j <= i < |v.kids| && i != n ==> !Accepts(segs[0], v, i)
    ensures j <= n < |v.kids| ==> FirstFrom(v, j, segs) == FirstFrom(v, n, segs)
    ensures !(j <= n < |v.kids|) ==> FirstFrom(v, j, segs) == None
    ensures j <= n < |v.kids| ==> FirstFrom(v, n + 1, segs) == None
    decreases |v.kids| - j
  {
    if j < |v.kids| {
      OnlyChild(v, j + 1, n, segs);
      if j == n {
        OnlyChild(v, n + 1, n, segs);
      }
    }
  }

  // ----- addresses and slots

  /** The slot of child `j` of a list laid out from `lo`. */
  function SlotAt(lo: nat, kids: seq<Node>, j: nat): nat
    requires j <= |kids|
  {
    lo + Sizes(kids[..j])
  }

  /** The slot of the descendant at an address, below a container whose children are laid out from `lo`. */
  function SlotOf(v: Val, lo: nat, addr: seq<nat>, segs: seq<Seg>): nat
    requires segs != [] && Selected(v, addr, segs)
    decreases |segs|
  {
    var s := SlotAt(lo, v.kids, addr[0]);
    if |segs| == 1 then s else SlotOf(v.kids[addr[0]].val, s + 1, addr[1..], segs[1..])
  }

  lemma SlotAtZero(lo: nat, kids: seq<Node>)
    ensures SlotAt(lo, kids, 0) == lo
  {}

  lemma SlotNext(lo: nat, kids: seq<Node>, j: nat)
    requires j < |kids|
    ensures SlotAt(lo, kids, j + 1) == SlotAt(lo, kids, j) + Size(kids[j])
  {
    assert kids[..j + 1] == kids[..j] + [kids[j]];
    SizesAppend(kids[..j], [kids[j]]);
    assert [kids[j]][1..] == [];
  }

  lemma {:induction false} SlotMonotone(lo: nat, kids: seq<Node>, i: nat, j: nat)
    requires i < j <= |kids|
    ensures SlotAt(lo, kids, i) + Size(kids[i]) <= SlotAt(lo, kids, j)
    decreases j - i
  {
    SlotNext(lo, kids, i);
    if i + 1 < j {
      SlotMonotone(lo, kids, i + 1, j);
    }
  }

  /** A descendant's slot lies inside the slots of its ancestor. */
  lemma {:induction false} SlotInside(v: Val, lo: nat, addr: seq<nat>, segs: seq<Seg>)
    requires segs != [] && Selected(v, addr, segs)
    ensures var s := SlotAt(lo, v.kids, addr[0]);
      s <= SlotOf(v, lo, addr, segs) < s + Size(v.kids[addr[0]])
    decreases |segs|
  {
    var j := addr[0];
    var s, w := SlotAt(lo, v.kids, j), v.kids[j].val;
    if |segs| > 1 {
      SlotInside(w, s + 1, addr[1..], segs[1..]);
      var i := addr[1];
      assert addr[1..][0] == i;
      SlotNext(s + 1, w.kids, i);
      if i + 1 < |w.kids| {
        SlotMonotone(s + 1, w.kids, i + 1, |w.kids|);
      }
      assert w.kids[..|w.kids|] == w.kids;
    }
  }

  /** Document order of addresses is the order of their slots. */
  lemma {:induction false} SlotsFollowOrder(v: Val, lo: nat, a: seq<nat>, b: seq<nat>, segs: seq<Seg>)
    requires segs != [] && Selected(v, a, segs) && Selected(v, b, segs) && Leq(a, b)
    ensures SlotOf(v, lo, a, segs) <= SlotOf(v, lo, b, segs)
    decreases |segs|
  {
    if a[0] < b[0] {
      SlotInside(v, lo, a, segs);
      SlotInside(v, lo, b, segs);
      SlotMonotone(lo, v.kids, a[0], b[0]);
    } else if |segs| > 1 {
      SlotsFollowOrder(v.kids[a[0]].val, SlotAt(lo, v.kids, a[0]) + 1, a[1..], b[1..], segs[1..]);
    }
  }

  /** The slot the search finds is that of the first match in document order. */
  ghost predicate FindsFirst(v: Val, lo: nat, segs: seq<Seg>, found: Option<nat>)
    requires segs != []
  {
    match found
    case None => forall b :: !Selected(v, b, segs)
    case Some(i) =>
      && (exists a :: Selected(v, a, segs) && i == SlotOf(v, lo, a, segs))
      && forall b :: Selected(v, b, segs) ==> i <= SlotOf(v, lo, b, segs)
  }

  lemma FirstFindsFirst(v: Val, lo: nat, segs: seq<Seg>)
    requires segs != []
    ensures First(v, segs).None? ==> FindsFirst(v, lo, segs, None)
    ensures First(v, segs).Some? ==>
      FindsFirst(v, lo, segs, Some(SlotOf(v, lo, First(v, segs).value, segs)))
  {
    FirstIsLeast(v, segs);
    if First(v, segs).Some? {
      var a := First(v, segs).value;
      forall b | Selected(v, b, segs)
        ensures SlotOf(v, lo, a, segs) <= SlotOf(v, lo, b, segs)
      {
        SlotsFollowOrder(v, lo, a, b, segs);
      }
    }
  }
}
