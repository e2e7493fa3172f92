/**
 Abstract JSON values: what a finished parse means, independent of the token
 pool that stores it and of the text it came from.
 */
module JsonTree {
  import opened Wrappers

  /** `isObj` distinguishes an object from an array; children keep document order and duplicates. */
  datatype Val =
    | VStr(body: string)      // the bytes between the quotes, escapes not decoded
    | VInt(n: int)
    | VReal(r: real)
    | VTrue
    | VFalse
    | VNull
    | VCont(isObj: bool, kids: seq<Node>)

  /** A child of a container. `name` is None inside arrays. */
  datatype Node = Node(name: Option<string>, val: Val)

  /** Number of tokens a child needs: itself and everything below it. */
  function Size(nd: Node): (n: nat)
    ensures n >= 1
    decreases nd, 0
  {
    1 + (if nd.val.VCont? then Sizes(nd.val.kids) else 0)
  }

  function Sizes(kids: seq<Node>): nat
    decreases kids, 1
  {
    if kids == [] then 0 else Size(kids[0]) + Sizes(kids[1..])
  }

  lemma {:induction false} SizesAppend(a: seq<Node>, b: seq<Node>)
    ensures Sizes(a + b) == Sizes(a) + Sizes(b)
  {
    if a == [] {
      assert a + b == b;
    } else {
      assert (a + b)[1..] == a[1..] + b;
      SizesAppend(a[1..], b);
    }
  }
}
