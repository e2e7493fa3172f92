/**
 The lwjson instance: a caller's token array, the root token, and the parser that
 fills them in place without recursion.
 */
module LwJson {
  import opened Wrappers
  import opened JsonTree
  import opened JsonLex
  import M = JsonMachine
  import opened JsonReader
  import opened TokenPool
  import opened TokenWalk
  import P = JsonPath

  /** The scalar at the cursor, written into a copy of the token. */
  method ReadScalar(s: CString, p0: nat, t0: Token) returns (res: M.Code, p: nat, t: Token)
    requires p0 < |s| && Rest(s, p0) != [] && !M.IsOpen(Rest(s, p0)[0]) && !IsBlank(Rest(s, p0)[0])
    requires t0.u == Zeroed
    ensures p < |s|
    ensures match LexScalar(Rest(s, p0))
      case None => res == M.ERRJSON
      case Some(l) =>
        && res == M.OK && p0 < p && Rest(s, p) == l.rest
        && t.next == t0.next && t.name == t0.name && HoldsScalar(s, t, ScalarVal(l.item))
  {
    hide Rest, LexString, LexNumber, SkipBlank, NumberVal;
    p, t, res := p0, t0, M.ERRJSON;
    RestIs(s, p);
    if s[p] == '"' {
      var start, len;
      NoBlanks(Rest(s, p));
      res, p, start, len := ParseString(s, p);
      if res == M.OK {
        t := t.(kind := TString, u := Chars(start, len));
      }
    } else if s[p] == 't' || s[p] == 'f' || s[p] == 'n' {
      var sc := Word(s[p]).value;
      var eq := Matches(s, p, Spelling(sc));
      if eq {
        t := t.(kind := if sc.STrue? then TTrue else if sc.SFalse? then TFalse else TNull);
        WordRead(s, p, Spelling(sc));
        p, res := p + |Spelling(sc)|, M.OK;
      }
    } else if s[p] == '-' || '0' <= s[p] <= '9' {
      var v;
      res, p, v := ParseNumber(s, p);
      if res == M.OK {
        NumberValIs(LexNumber(Rest(s, p0)).value.item);
        t := if v.VInt? then t.(kind := TInt, u := IntNum(v.n)) else t.(kind := TReal, u := RealNum(v.r));
      }
    }
  }

  lemma WordRead(s: CString, p: nat, w: string)
    requires p < |s| && StartsWith(Rest(s, p), w)
    ensures p + |w| < |s| && Rest(s, p)[|w|..] == Rest(s, p + |w|)
  {}

  lemma NumberValIs(n: Number)
    requires IsNumber(n)
    ensures NumberVal(n).VInt? || NumberVal(n).VReal?
  {}

  class LwJson {
    const tokens: array<Token>
    var nextFree: nat
    var first: Token
    var parsed: bool
    var json: CString      // the text the tokens point into
    ghost var tree: Val    // what they denote once `parsed`

    /** The whole pool is the layout of `v`: its values in slots 0, 1, .. in document order, and nothing open. */
    ghost predicate Shows(v: Val)
      reads this, tokens
    {
      && v.VCont?
      && nextFree == Sizes(v.kids) <= tokens.Length
      && StackAt(json, tokens[..], first, M.Bottom(v.isObj, v.kids), Null)
    }

    ghost predicate Valid()
      reads this, tokens
    {
      parsed ==> Shows(tree)
    }

    constructor (tokens: array<Token>)
      modifies tokens
      ensures Valid() && !parsed && this.tokens == tokens
      ensures forall i :: 0 <= i < tokens.Length ==> tokens[i] == ZERO_TOKEN
    {
      this.tokens := tokens;
      nextFree, parsed, json := 0, false, ['\0'];
      first := ZERO_TOKEN.(kind := TObject);
      tree := VNull;
      new;
      forall i | 0 <= i < tokens.Length {
        tokens[i] := ZERO_TOKEN;
      }
    }

    // ----- pointers

    function Get(r: Ref): Token
      requires r.RootToken? || (r.Slot? && r.i < tokens.Length)
      reads this, tokens
    {
      if r.RootToken? then first else tokens[r.i]
    }

    method Put(r: Ref, t: Token)
      requires r.RootToken? || (r.Slot? && r.i < tokens.Length)
      modifies this`first, tokens
      ensures first == if r.RootToken? then t else old(first)
      ensures tokens[..] == if r.Slot? then old(tokens[..])[r.i := t] else old(tokens[..])
    {
      if r.RootToken? {
        first := t;
      } else {
        tokens[r.i] := t;
      }
    }

    // ----- parsing

    /** The parser stands between two turns of its loop, with the containers of `st` open. */
    ghost predicate Building(st: M.Stack, to: Ref, tail: Ref)
      reads this, tokens
    {
      && to == Top(st)
      && Used(st) <= nextFree <= tokens.Length
      && StackAt(json, tokens[..], first, st, tail)
    }

    method AllocToken() returns (t: Ref)
      requires nextFree <= tokens.Length
      modifies this`nextFree, tokens
      ensures t == if old(nextFree) < tokens.Length then Slot(old(nextFree)) else Null
      ensures t.Null? ==> nextFree == old(nextFree) && tokens[..] == old(tokens[..])
      ensures t.Slot? ==> nextFree == old(nextFree) + 1 && tokens[..] == old(tokens[..])[t.i := ZERO_TOKEN]
    {
      if nextFree < tokens.Length {
        tokens[nextFree] := ZERO_TOKEN;
        nextFree := nextFree + 1;
        return Slot(nextFree - 1);
      }
      return Null;
    }

    /** Links the new token behind the last child of `to`. */
    method AppendChild(to: Ref, t: nat, ghost st: M.Stack)
      requires Building(st, to, Null) && t == Used(st) < tokens.Length
      modifies this`first, tokens
      ensures StackAt(json, tokens[..], first, st, Slot(t))
      ensures tokens[t] == old(tokens[t])
    {
      TopToken(json, tokens[..], first, st, Null);
      var toToken := Get(to);
      if FirstOf(toToken.u).Null? {
        AppendFirst(json, tokens[..], first, st, t);
        Put(to, toToken.(u := FirstChild(Slot(t))));
      } else {
        var c := FirstOf(toToken.u);
        ghost var rest := st.kids;
        while Get(c).next != Null
          invariant c.Slot? && c.i < tokens.Length && rest != []
          invariant ForestAt(json, tokens[..], c.i, rest, Null)
          invariant LastSlot(c.i, rest) == LastSlot(First(st), st.kids)
          decreases |rest|
        {
          c, rest := Get(c).next, rest[1..];
        }
        AppendBehindLast(json, tokens[..], first, st, t);
        Put(c, Get(c).(next := Slot(t)));
      }
    }

    /** The value at the cursor, written into token `t`, which is already linked. */
    method ReadValue(s: CString, p0: nat, t: nat, to0: Ref, ghost st0: M.Stack, ghost name: Option<string>)
        returns (res: M.Code, p: nat, to: Ref, ghost st: M.Stack)
      requires s == json && p0 < |s| && Rest(s, p0) != [] && !IsBlank(Rest(s, p0)[0])
      requires Building(st0, to0, Slot(t)) && t == Used(st0) < nextFree == t + 1
      requires tokens[t] == ZERO_TOKEN.(name := tokens[t].name) && NameIs(json, tokens[t].name, name)
      requires name.Some? == st0.isObj
      modifies this`first, tokens
      ensures p < |s| && (res == M.OK ==> p0 < p) && res != M.ERRPAR
      ensures var outcome := M.RunValue(name, Rest(s, p0), st0, t, tokens.Length);
        if res == M.OK then
          && Building(st, to, Null) && nextFree == Used(st)
          && outcome == M.Run(Rest(s, p), st, nextFree, tokens.Length)
        else outcome == M.Fail(res)
    {
      hide StackAt, M.Run, Rest, M.OpenOk, LexScalar, SkipBlank, Used, HoldsScalar, NameIs;
      p, to, st := p0, to0, st0;
      RestIs(s, p);
      if s[p] == '{' || s[p] == '[' {
        var isObj := s[p] == '{';
        p := p + 1;
        res, p := CheckAfterOpen(s, p, isObj);
        if res != M.OK {
          return;
        }
        OpenNew(json, tokens[..], first, st, tokens[t].(kind := ContKind(isObj), next := to), name, isObj);
        tokens[t] := tokens[t].(kind := ContKind(isObj), next := to);
        to, st := Slot(t), M.Nested(st, name, isObj, []);
        return;
      }
      var tok, ok;
      res, p, tok := ReadScalar(s, p, tokens[t]);
      if res != M.OK {
        return;
      }
      ghost var l := LexScalar(Rest(s, p0)).value;
      ghost var nd := Node(name, ScalarVal(l.item));
      AddScalar(json, tokens[..], first, st, tok, nd);
      tokens[t] := tok;
      st := M.Attach(st, nd);
      ok, p := SkipBlanks(s, p);
      RestIs(s, p);
      if !ok || (s[p] != ',' && s[p] != ']' && s[p] != '}') {
        return M.ERRJSON, p, to, st;
      }
      if s[p] == ',' {
        p := p + 1;
      }
    }

    /** One element: its token, its name if it has one, its value, and the delimiter behind a scalar. */
    method Member(s: CString, p0: nat, to0: Ref, ghost st0: M.Stack)
        returns (res: M.Code, p: nat, to: Ref, ghost st: M.Stack)
      requires s == json && p0 < |s| && Building(st0, to0, Null) && nextFree == Used(st0)
      requires var r := Rest(s, p0); r != [] && !IsBlank(r[0]) && r[0] != ',' && r[0] != M.CloseOf(st0.isObj)
      modifies this`first, this`nextFree, tokens
      ensures p < |s| && (res == M.OK ==> p0 < p) && res != M.ERRPAR
      ensures var outcome := M.Step(Rest(s, p0), st0, old(nextFree), tokens.Length);
        if res == M.OK then
          && Building(st, to, Null) && nextFree == Used(st)
          && outcome == M.Run(Rest(s, p), st, nextFree, tokens.Length)
        else outcome == M.Fail(res)
    {
      hide StackAt, M.Run, M.RunValue, M.LexKey, Rest, M.OpenOk, LexScalar, SkipBlank, Used, HoldsScalar;
      p, to, st := p0, to0, st0;
      RestIs(s, p);
      TopToken(json, tokens[..], first, st, Null);
      var isObj := Get(to).kind == TObject;
      var t := AllocToken();
      if t.Null? {
        return M.ERRMEM, p, to, st;
      }
      StackFrame(json, old(tokens[..]), tokens[..], first, st, Null);
      ghost var name: Option<string> := None;
      if isObj {
        if s[p] != '"' {
          NoKey(Rest(s, p0));
          return M.ERRJSON, p, to, st;
        }
        var start, len;
        res, p, start, len := ParsePropertyName(s, p);
        if res != M.OK {
          return;
        }
        label Named:
        tokens[t.i] := tokens[t.i].(name := NameAt(start, len));
        StackFrame(json, old@Named(tokens[..]), tokens[..], first, st, Null);
        name := M.LexKey(true, Rest(s, p0)).value.item;
      } else {
        NoKeyNeeded(Rest(s, p0));
      }
      AppendChild(to, t.i, st);
      assert M.LexKey(isObj, Rest(s, p0)) == Some(Lexed(name, Rest(s, p)));
      res, p, to, st := ReadValue(s, p, t.i, to, st, name);
    }

    /** The parser's main loop, from behind the root's opening bracket. */
    method Loop(s: CString, p0: nat, isObj: bool) returns (res: M.Code, ghost v: Val)
      requires s == json && p0 < |s| && nextFree == 0
      requires first == ZERO_TOKEN.(kind := ContKind(isObj))
      modifies this`first, this`nextFree, tokens
      ensures res != M.ERRPAR
      ensures var outcome := M.Run(Rest(s, p0), M.Bottom(isObj, []), 0, tokens.Length);
        if res == M.OK then Shows(v) && outcome == M.Done(v) else outcome == M.Fail(res)
    {
      hide StackAt, M.Run, M.Step, Rest, SkipBlank, Used;
      var p, to, ok := p0, RootToken, true;
      ghost var st := M.Bottom(isObj, []);
      v := VNull;
      EmptyStack(s, tokens[..], first, isObj);
      while s[p] != '\0'
        invariant s == json && p < |s| && Building(st, to, Null) && nextFree == Used(st)
        invariant M.Run(Rest(s, p), st, nextFree, tokens.Length) ==
                  M.Run(Rest(s, p0), M.Bottom(isObj, []), 0, tokens.Length)
        decreases |s| - p
      {
        RestIs(s, p);
        RunBegins(Rest(s, p), st, nextFree, tokens.Length);
        ok, p := SkipBlanks(s, p);
        if !ok {
          return M.ERRJSON, v;
        }
        RestIs(s, p);
        TopToken(json, tokens[..], first, st, Null);
        StepComma(Rest(s, p), st, nextFree, tokens.Length);
        if s[p] == ',' {
          p := p + 1;
          continue;
        }
        var toToken := Get(to);
        if s[p] == (if toToken.kind == TObject then '}' else ']') {
          var parent := toToken.next;
          p := p + 1;
          if st.Nested? {
            CloseTop(json, tokens[..], first, st);
          } else {
            assert first.(next := Null) == first;
          }
          Put(to, toToken.(next := Null));
          to := parent;
          if to == Null {
            ok, p := SkipBlanks(s, p);
            RestIs(s, p);
            v := VCont(st.isObj, st.kids);
            BottomIs(st);
            return if s[p] == '\0' then M.OK else M.ERR, v;
          }
          st := M.Pop(st);
          continue;
        }
        res, p, to, st := Member(s, p, to, st);
        if res != M.OK {
          return;
        }
      }
      RestIs(s, p);
      RunStops(st, nextFree, tokens.Length);
      if to != RootToken || first.next != Null {
        RootIsOpen(json, tokens[..], first, st);
        return M.ERRJSON, v;
      }
      v := VCont(st.isObj, st.kids);
      BottomIs(st);
      RootName(json, tokens[..], first, st);
      first := first.(name := NoName);
      res := M.OK;
    }

    /** lwjson_parse: the result and the tree are those of the machine, for any text and any pool. */
    method Parse(s: CString) returns (res: M.Code)
      requires Valid()
      modifies this, tokens
      ensures Valid()
      ensures match M.Parse(Rest(s, 0), tokens.Length)
        case Done(v) => res == M.OK && parsed && tree == v && json == s
        case Fail(c) => res == c && parsed == (c == M.ERRPAR && old(parsed))
      ensures res == M.ERRPAR ==>
        tree == old(tree) && json == old(json) && first == old(first) && nextFree == old(nextFree)
        && tokens[..] == old(tokens[..])
    {
      hide M.Run, SkipBlank, M.OpenOk, Rest, StackAt;
      RestIs(s, 0);
      if |s| - 1 == 0 {
        return M.ERRPAR;
      }
      json, parsed, nextFree, first := s, false, 0, ZERO_TOKEN;
      var ok, p;
      ok, p := SkipBlanks(s, 0);
      if !ok {
        return M.ERRJSON;
      }
      RestIs(s, p);
      if s[p] == '{' {
        first := first.(kind := TObject);
      } else if s[p] == '[' {
        first := first.(kind := TArray);
      } else {
        return M.ERRJSON;
      }
      var isObj := s[p] == '{';
      p := p + 1;
      res, p := CheckAfterOpen(s, p, isObj);
      if res != M.OK {
        return;
      }
      ghost var v;
      res, v := Loop(s, p, isObj);
      if res == M.OK {
        parsed, tree := true, v;
      }
    }

    /** A parsed pool is one tree: a walk over its links meets every allocated token once, in document order. */
    lemma EachTokenOnce()
      requires Valid() && parsed
      ensures HasChildren(first.u) && Walk(tokens[..], FirstOf(first.u), 0) == Range(0, nextFree)
    {
      WalkIsPreorder(json, tokens[..], 0, tree.kids, 0);
    }

    /** A parsed pool, read back by kinds and links, is the value that was parsed. */
    lemma ParsedReadsBack()
      requires Valid() && parsed
      ensures ValueOf(json, tokens[..], first, 0) == tree
    {
      ReadsBack(json, tokens[..], first, tree, 0);
    }

    // ----- path search

    /** Child `j` of a container and its later siblings are what `c` points to. */
    ghost predicate AtChild(v: Val, lo: nat, j: nat, c: Ref)
      reads this, tokens
    {
      && v.VCont? && j <= |v.kids|
      && c == Head(P.SlotAt(lo, v.kids, j), v.kids[j..], Null)
      && ForestAt(json, tokens[..], P.SlotAt(lo, v.kids, j), v.kids[j..], Null)
    }

    /** Equal lengths and strncmp on the bytes. */
    method NameMatches(t: Name, path: CString, pos: nat, len: nat, ghost name: Option<string>) returns (same: bool)
      requires NameIs(json, t, name) && name.Some? && pos + len < |path|
      ensures same == (name.value == path[pos..pos + len])
    {
      if t.len != len {
        return false;
      }
      for i := 0 to len
        invariant json[t.start..t.start + i] == path[pos..pos + i]
      {
        if json[t.start + i] != path[pos + i] {
          assert name.value[i] == json[t.start + i] && path[pos..pos + len][i] == path[pos + i];
          return false;
        }
        assert json[t.start..t.start + i + 1] == json[t.start..t.start + i] + [json[t.start + i]];
        assert path[pos..pos + i + 1] == path[pos..pos + i] + [path[pos + i]];
      }
      return true;
    }

    /** `tkn = parent->u.first_child` */
    method Children(parent: Ref, ghost v: Val, ghost lo: nat) returns (c: Ref)
      requires parent.RootToken? || (parent.Slot? && parent.i < tokens.Length)
      requires v.VCont? && Holds(json, tokens[..], Get(parent), v, lo)
      ensures AtChild(v, lo, 0, c)
    {
      c := FirstOf(Get(parent).u);
      P.SlotAtZero(lo, v.kids);
      assert v.kids[0..] == v.kids;
    }

    /** `tkn = tkn->next` */
    method NextChild(c: Ref, ghost v: Val, ghost lo: nat, ghost j: nat) returns (d: Ref)
      requires AtChild(v, lo, j, c) && c != Null
      ensures AtChild(v, lo, j + 1, d)
    {
      ChildIs(v, lo, j, c);
      FirstChildHolds(json, tokens[..], c.i, v.kids[j..]);
      d := Get(c).next;
      P.SlotNext(lo, v.kids, j);
      assert v.kids[j..][1..] == v.kids[j + 1..];
    }

    lemma ChildIs(v: Val, lo: nat, j: nat, c: Ref)
      requires AtChild(v, lo, j, c)
      ensures c == Null <==> j == |v.kids|
      ensures c != Null ==>
        && c == Slot(P.SlotAt(lo, v.kids, j)) && c.i < tokens.Length
        && NameIs(json, tokens[c.i].name, v.kids[j].name)
        && Holds(json, tokens[..], tokens[c.i], v.kids[j].val, c.i + 1)
    {
      if j < |v.kids| {
        FirstChildHolds(json, tokens[..], P.SlotAt(lo, v.kids, j), v.kids[j..]);
      }
    }

    /** The search below `parent` for the rest of the path at `pos`. */
    method Find(parent: Ref, path: CString, pos: nat, ghost v: Val, ghost lo: nat) returns (r: Ref)
      requires parent.RootToken? || (parent.Slot? && parent.i < tokens.Length)
      requires Holds(json, tokens[..], Get(parent), v, lo) && pos < |path|
      ensures var segs := P.Steps(Rest(path, pos)); r == Answer(v, lo, P.First(v, segs), segs)
      decreases |path| - pos, 1
    {
      hide P.Steps, P.FirstFrom, Rest, Holds;
      ghost var q := Rest(path, pos);
      ghost var segs := P.Steps(q);
      KindOfHolder(json, tokens[..], Get(parent), v, lo);
      P.StepsCut(q);
      var ok, next, len, last := PathSegment(path, pos);
      if !ok {
        NeverFound(v, segs);
        return Null;
      }
      RestIs(path, pos);
      SegOfIs(path, pos, len);
      if path[pos] == '#' {
        if Get(parent).kind != TArray {
          NothingAccepted(v, segs);
          return Null;
        }
        if len > 1 {
          r := FindIndex(parent, path, pos, len, last, next, v, lo, segs);
        } else {
          r := FindAny(parent, path, pos, next, v, lo, segs);
        }
      } else {
        if Get(parent).kind != TObject {
          NothingAccepted(v, segs);
          return Null;
        }
        r := FindKey(parent, path, pos, len, last, next, v, lo, segs);
      }
    }

    /** A key: every child of that name in turn. */
    method FindKey(parent: Ref, path: CString, pos: nat, len: nat, last: bool, next: nat,
                   ghost v: Val, ghost lo: nat, ghost segs: seq<P.Seg>)
        returns (r: Ref)
      requires parent.RootToken? || (parent.Slot? && parent.i < tokens.Length)
      requires Holds(json, tokens[..], Get(parent), v, lo) && v.VCont? && v.isObj
      requires pos + len < |path| && segs != [] && segs[0] == P.Key(path[pos..pos + len])
      requires last == (|segs| == 1)
      requires !last ==> pos < next < |path| && segs[1..] == P.Steps(Rest(path, next))
      ensures r == Answer(v, lo, P.First(v, segs), segs)
      decreases |path| - pos, 0
    {
      hide P.Steps, P.FirstFrom, Rest, Holds, AtChild;
      KindOfHolder(json, tokens[..], Get(parent), v, lo);
      var c := Children(parent, v, lo);
      ghost var j := 0;
      ChildIs(v, lo, j, c);
      while c != Null
        invariant AtChild(v, lo, j, c) && j <= |v.kids| && (c == Null <==> j == |v.kids|)
        invariant P.FirstFrom(v, j, segs) == P.FirstFrom(v, 0, segs)
        decreases |v.kids| - j
      {
        ChildIs(v, lo, j, c);
        P.FirstFromStep(v, j, segs);
        var same := NameMatches(Get(c).name, path, pos, len, v.kids[j].name);
        if same {
          if last {
            FoundHere(v, lo, j, segs);
            return c;
          }
          var tmp := Find(c, path, next, v.kids[j].val, c.i + 1);
          if tmp != Null {
            FoundBelow(v, lo, j, segs);
            return tmp;
          }
        }
        c := NextChild(c, v, lo, j);
        j := j + 1;
        ChildIs(v, lo, j, c);
      }
      P.FirstFromEnd(v, segs);
      return Null;
    }

    /** A wildcard: every child in turn. */
    method FindAny(parent: Ref, path: CString, pos: nat, next: nat,
                   ghost v: Val, ghost lo: nat, ghost segs: seq<P.Seg>)
        returns (r: Ref)
      requires parent.RootToken? || (parent.Slot? && parent.i < tokens.Length)
      requires Holds(json, tokens[..], Get(parent), v, lo) && v.VCont? && !v.isObj
      requires segs != [] && segs[0] == P.Any && |segs| > 1
      requires pos < next < |path| && segs[1..] == P.Steps(Rest(path, next))
      ensures r == Answer(v, lo, P.First(v, segs), segs)
      decreases |path| - pos, 0
    {
      hide P.Steps, P.FirstFrom, Rest, Holds, AtChild;
      var c := Children(parent, v, lo);
      ghost var j := 0;
      ChildIs(v, lo, j, c);
      while c != Null
        invariant AtChild(v, lo, j, c) && j <= |v.kids| && (c == Null <==> j == |v.kids|)
        invariant P.FirstFrom(v, j, segs) == P.FirstFrom(v, 0, segs)
        decreases |v.kids| - j
      {
        ChildIs(v, lo, j, c);
        P.FirstFromStep(v, j, segs);
        var tmp := Find(c, path, next, v.kids[j].val, c.i + 1);
        if tmp != Null {
          FoundBelow(v, lo, j, segs);
          return tmp;
        }
        c := NextChild(c, v, lo, j);
        j := j + 1;
        ChildIs(v, lo, j, c);
      }
      P.FirstFromEnd(v, segs);
      return Null;
    }

    /** An index: counts down along the children. */
    method FindIndex(parent: Ref, path: CString, pos: nat, len: nat, last: bool, next: nat,
                     ghost v: Val, ghost lo: nat, ghost segs: seq<P.Seg>)
        returns (r: Ref)
      requires parent.RootToken? || (parent.Slot? && parent.i < tokens.Length)
      requires Holds(json, tokens[..], Get(parent), v, lo) && v.VCont? && !v.isObj
      requires pos + len < |path| && len > 1 && path[pos] == '#'
      requires segs != [] && segs[0] == P.SegOf(path[pos..pos + len])
      requires last == (|segs| == 1)
      requires !last ==> pos < next < |path| && segs[1..] == P.Steps(Rest(path, next))
      ensures r == Answer(v, lo, P.First(v, segs), segs)
      decreases |path| - pos, 0
    {
      hide P.Steps, P.FirstFrom, Rest, Holds, AtChild;
      var ok, index := ParseIndex(path, pos, len);
      if !ok {
        NothingAccepted(v, segs);
        return Null;
      }
      ghost var n := index;
      var c := Children(parent, v, lo);
      ghost var j := 0;
      ChildIs(v, lo, j, c);
      while c != Null && index > 0
        invariant AtChild(v, lo, j, c) && j <= |v.kids| && (c == Null <==> j == |v.kids|)
        invariant 0 <= index && j + index == n
        decreases |v.kids| - j
      {
        c := NextChild(c, v, lo, j);
        j, index := j + 1, index - 1;
        ChildIs(v, lo, j, c);
      }
      ChildIs(v, lo, j, c);
      P.OnlyChild(v, 0, n, segs);
      if c != Null {
        P.FirstFromStep(v, n, segs);
        if last {
          FoundHere(v, lo, n, segs);
          return c;
        }
        r := Find(c, path, next, v.kids[n].val, c.i + 1);
        if r != Null {
          FoundBelow(v, lo, n, segs);
        }
        return;
      }
      return Null;
    }

    /** lwjson_find: the first match in document order, or NULL exactly if there is none. */
    method FindPath(path: CString) returns (r: Ref)
      requires Valid()
      ensures !parsed ==> r == Null
      ensures parsed ==> IsFound(json, tokens[..], first, RootToken, tree, Rest(path, 0), r)
    {
      if !parsed {
        return Null;
      }
      r := Find(RootToken, path, 0, tree, 0);
      P.FirstFindsFirst(tree, 0, P.Steps(Rest(path, 0)));
      FoundIs(json, tokens[..], first, RootToken, tree, 0, Rest(path, 0), r);
    }

    /** lwjson_find_ex: the same below a given token, and NULL for one that is no container. */
    method FindPathFrom(token: Ref, path: CString, ghost v: Val, ghost lo: nat) returns (r: Ref)
      requires Valid()
      requires parsed && token.Null? ==> v == tree && lo == 0
      requires parsed && !token.Null? ==>
        (token.Slot? ==> token.i < tokens.Length) && Holds(json, tokens[..], Get(token), v, lo)
      ensures !parsed ==> r == Null
      ensures parsed ==>
        IsFound(json, tokens[..], first, if token.Null? then RootToken else token, v, Rest(path, 0), r)
    {
      if !parsed {
        return Null;
      }
      var t := if token.Null? then RootToken else token;
      KindOfHolder(json, tokens[..], Get(t), v, lo);
      P.FirstFindsFirst(v, lo, P.Steps(Rest(path, 0)));
      if Get(t).kind != TArray && Get(t).kind != TObject {
        r := Null;
      } else {
        r := Find(t, path, 0, v, lo);
      }
      FoundIs(json, tokens[..], first, t, v, lo, Rest(path, 0), r);
    }
  }

  // ----- paths

  /** The pointer the search returns for what it found. */
  ghost function Answer(v: Val, lo: nat, a: Option<seq<nat>>, segs: seq<P.Seg>): Ref
    requires segs != [] && (a.Some? ==> P.Selected(v, a.value, segs))
  {
    if a.None? then Null else Slot(P.SlotOf(v, lo, a.value, segs))
  }

  lemma FoundHere(v: Val, lo: nat, j: nat, segs: seq<P.Seg>)
    requires v.VCont? && j < |v.kids| && |segs| == 1 && P.FirstFrom(v, j, segs) == Some([j])
    ensures Answer(v, lo, P.FirstFrom(v, j, segs), segs) == Slot(P.SlotAt(lo, v.kids, j))
  {
    hide P.FirstFrom;
  }

  lemma FoundBelow(v: Val, lo: nat, j: nat, segs: seq<P.Seg>)
    requires v.VCont? && j < |v.kids| && |segs| > 1 && P.First(v.kids[j].val, segs[1..]).Some?
    requires P.FirstFrom(v, j, segs) == Some([j] + P.First(v.kids[j].val, segs[1..]).value)
    ensures Answer(v, lo, P.FirstFrom(v, j, segs), segs) ==
            Answer(v.kids[j].val, P.SlotAt(lo, v.kids, j) + 1, P.First(v.kids[j].val, segs[1..]), segs[1..])
  {
    hide P.FirstFrom, P.First;
    var a := P.First(v.kids[j].val, segs[1..]).value;
    assert ([j] + a)[1..] == a;
  }

  lemma NothingAccepted(v: Val, segs: seq<P.Seg>)
    requires segs != []
    requires v.VCont? ==> forall i :: 0 <= i < |v.kids| ==> !P.Accepts(segs[0], v, i)
    ensures P.First(v, segs) == None
  {
    if v.VCont? {
      P.OnlyChild(v, 0, |v.kids|, segs);
    }
  }

  lemma NeverFound(v: Val, segs: seq<P.Seg>)
    requires segs == [P.Never]
    ensures P.First(v, segs) == None
  {
    NothingAccepted(v, segs);
  }

  lemma SegOfIs(path: CString, pos: nat, len: nat)
    requires pos + len < |path|
    ensures Rest(path, pos)[..len] == path[pos..pos + len]
    ensures len > 0 && path[pos] == '#' ==>
      (len == 1 ==> P.SegOf(path[pos..pos + len]) == P.Any) && !P.SegOf(path[pos..pos + len]).Key?
    ensures len == 0 || path[pos] != '#' ==> P.SegOf(path[pos..pos + len]) == P.Key(path[pos..pos + len])
  {}

  lemma SegLenAt(path: CString, p: nat)
    requires p < |path|
    ensures P.SegLen(Rest(path, p)) ==
            if path[p] == '\0' || path[p] == '.' then 0 else 1 + P.SegLen(Rest(path, p + 1))
  {
    RestIs(path, p);
  }

  /** The scan from `pos` has stopped at the end of the segment. */
  lemma SegmentEnds(path: CString, pos: nat, p: nat)
    requires pos <= p < |path| && P.SegLen(Rest(path, pos)) == p - pos
    requires path[p] == '\0' || path[p] == '.'
    ensures var q := Rest(path, pos); var k := P.SegLen(q);
      && (k == |q| <==> path[p] == '\0')
      && (path[p] == '.' ==> p + 1 < |path| && Rest(path, p + 1) == q[k + 1..])
      && (q == "#" <==> path[pos] == '#' && k == 1 && path[p] == '\0')
  {
    RestIs(path, pos);
    RestSplit(path, pos, p);
    RestIs(path, p);
  }

  /** Cuts the segment at `pos` off the path; `next` is where the rest starts. */
  method PathSegment(path: CString, pos: nat) returns (ok: bool, next: nat, len: nat, last: bool)
    requires pos < |path|
    ensures var q := Rest(path, pos); var k := P.SegLen(q);
      && ok == (q != [] && q != "#")
      && (ok ==>
            && len == k && pos + len < |path|
            && last == (k == |q| || (q[0] == '#' && q[k + 1..] == []))
            && (k < |q| ==> pos < next < |path| && Rest(path, next) == q[k + 1..]))
  {
    hide Rest, P.SegLen;
    RestIs(path, pos);
    var segment := pos;
    len, next, last := 0, pos, false;
    if path[segment] == '\0' {
      return false, next, len, true;
    }
    if path[segment] == '#' {
      while path[segment] != '.' && path[segment] != '\0'
        invariant pos <= segment < |path| && len == segment - pos
        invariant P.SegLen(Rest(path, pos)) == len + P.SegLen(Rest(path, segment))
        decreases |path| - segment
      {
        SegLenAt(path, segment);
        segment, len := segment + 1, len + 1;
      }
      SegLenAt(path, segment);
      SegmentEnds(path, pos, segment);
      if path[segment] == '.' {
        segment := segment + 1;
      } else if len == 1 {
        return false, next, len, last;
      }
      next := segment;
    } else {
      while path[segment] != '\0' && path[segment] != '.'
        invariant pos <= segment < |path| && len == segment - pos
        invariant P.SegLen(Rest(path, pos)) == len + P.SegLen(Rest(path, segment))
        decreases |path| - segment
      {
        SegLenAt(path, segment);
        segment, len := segment + 1, len + 1;
      }
      SegLenAt(path, segment);
      SegmentEnds(path, pos, segment);
      next := segment + 1;
    }
    RestIs(path, segment);
    last := path[segment] == '\0';
    ok := true;
  }

  lemma WrapStep(a: nat, d: nat)
    ensures ((a % P.SIZE_MOD) * 10 + d) % P.SIZE_MOD == (a * 10 + d) % P.SIZE_MOD
  {
    var m := a % P.SIZE_MOD;
    assert a * 10 + d == m * 10 + d + (a / P.SIZE_MOD) * 10 * P.SIZE_MOD;
  }

  /** The digits behind `#`, in `size_t` arithmetic. */
  method ParseIndex(path: CString, pos: nat, len: nat) returns (ok: bool, index: nat)
    requires pos + len < |path| && len > 1 && path[pos] == '#'
    ensures P.SegOf(path[pos..pos + len]) == if ok then P.Index(index) else P.Never
  {
    index := 0;
    ghost var d := path[pos..pos + len][1..];
    assert d == path[pos + 1..pos + len];
    for i := 1 to len
      invariant AllDigits(path[pos + 1..pos + i])
      invariant index == DecValue(path[pos + 1..pos + i]) % P.SIZE_MOD
    {
      if path[pos + i] < '0' || path[pos + i] > '9' {
        assert d[i - 1] == path[pos + i];
        return false, index;
      }
      DecMore(path, pos + 1, pos + i);
      WrapStep(DecValue(path[pos + 1..pos + i]), DigitValue(path[pos + i]));
      index := (index * 10 + (path[pos + i] as int - '0' as int)) % P.SIZE_MOD;
    }
    return true, index;
  }

  lemma EmptyStack(json: CString, pool: seq<Token>, root: Token, isObj: bool)
    requires root == ZERO_TOKEN.(kind := ContKind(isObj))
    ensures StackAt(json, pool, root, M.Bottom(isObj, []), Null) && Used(M.Bottom(isObj, [])) == 0
  {}

  lemma BottomIs(st: M.Stack)
    requires st.Bottom?
    ensures st == M.Bottom(st.isObj, st.kids) && Used(st) == Sizes(st.kids)
  {}

  lemma RootName(json: CString, pool: seq<Token>, root: Token, st: M.Stack)
    requires st.Bottom? && StackAt(json, pool, root, st, Null)
    ensures root.(name := NoName) == root
  {}

  lemma RootIsOpen(json: CString, pool: seq<Token>, root: Token, st: M.Stack)
    requires StackAt(json, pool, root, st, Null)
    ensures st.Bottom? ==> Top(st) == RootToken && root.next == Null
  {}

  lemma RunBegins(r: string, st: M.Stack, used: nat, cap: nat)
    requires r != []
    ensures M.Run(r, st, used, cap) ==
            if SkipBlank(r) == [] then M.Fail(M.ERRJSON) else M.Step(SkipBlank(r), st, used, cap)
  {
    hide SkipBlank, M.Step;
  }

  lemma RunStops(st: M.Stack, used: nat, cap: nat)
    ensures M.Run([], st, used, cap) ==
            if st.Bottom? then M.Done(VCont(st.isObj, st.kids)) else M.Fail(M.ERRJSON)
  {}

  /** A turn that does not read an element. */
  lemma StepComma(r: string, st: M.Stack, used: nat, cap: nat)
    requires r != []
    ensures r[0] == ',' ==> M.Step(r, st, used, cap) == M.Run(r[1..], st, used, cap)
    ensures r[0] == M.CloseOf(st.isObj) ==>
      M.Step(r, st, used, cap) ==
      if st.Nested? then M.Run(r[1..], M.Pop(st), used, cap)
      else if SkipBlank(r[1..]) == [] then M.Done(VCont(st.isObj, st.kids))
      else M.Fail(M.ERR)
  {
    hide SkipBlank, M.Run;
  }

  lemma NoKey(r: string)
    requires r != [] && r[0] != '"'
    ensures M.LexKey(true, r).None?
  {}

  lemma NoKeyNeeded(r: string)
    requires r != []
    ensures M.LexKey(false, r) == Some(Lexed(None, r))
  {}
}
