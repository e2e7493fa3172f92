/**
 Which error a text that is not accepted gets.
 */
module JsonErrors {
  import opened Wrappers
  import opened JsonTree
  import opened JsonLex
  import opened JsonMachine
  import opened JsonGrammar
  import opened JsonComplete
  import opened JsonSound
  import opened JsonLanguage

  /** The document with `j` behind it. */
  function WithMore(d: Document, j: string): Document
    requires d.tail.Some?
  {
    d.(tail := Some(d.tail.value + j))
  }

  /** lwjsonERR: exactly a closed document that fits the pool and has something behind it. */
  lemma ErrIff(text: string, cap: nat)
    ensures Parse(text, cap) == Fail(ERR) <==>
            exists d, j :: IsDocument(d) && d.tail.Some? && Count(d) <= cap
              && j != [] && !IsBlank(j[0]) && text == Write(WithMore(d, j))
  {
    hide Parse, Write, IsElems, Nodes, SkipBlank;
    if Parse(text, cap) == Fail(ERR) {
      var e := ParseReads(text, cap);
      var t := e.tail.value;
      var d, j := e.(tail := Some(Blanks(t))), SkipBlank(t);
      assert WithMore(d, j) == e;
      assert IsDocument(d) && Count(d) <= cap && j != [] && !IsBlank(j[0]);
    }
    forall d, j | IsDocument(d) && d.tail.Some? && Count(d) <= cap
                  && j != [] && !IsBlank(j[0]) && text == Write(WithMore(d, j))
      ensures Parse(text, cap) == Fail(ERR)
    {
      MoreBehind(d, j, cap);
    }
  }

  lemma MoreBehind(d: Document, j: string, cap: nat)
    requires IsDocument(d) && d.tail.Some? && Count(d) <= cap && j != [] && !IsBlank(j[0])
    ensures Parse(Write(WithMore(d, j)), cap) == Fail(ERR)
  {
    hide Parse, Run, IsElems, WriteElems, Nodes, OpenOk;
    var t := d.tail.value + j;
    SkipBlankTo(d.tail.value, j);
    BodyHead(d.elems, d.isObj, d.gap, [CloseOf(d.isObj)] + t);
    ParseIsRun(d.lead, d.isObj, WriteElems(d.elems, d.gap + ([CloseOf(d.isObj)] + t)), cap);
    RunRoot(d.isObj, d.elems, d.gap, t, cap);
  }

  /** lwjsonERRPAR: exactly the empty text. */
  lemma ParIff(text: string, cap: nat)
    ensures Parse(text, cap) == Fail(ERRPAR) <==> text == []
  {
    hide Run, SkipBlank;
    if text != [] && SkipBlank(text) != [] {
      NoParError(SkipBlank(SkipBlank(text)[1..]), Bottom(SkipBlank(text)[0] == '{', []), 0, cap);
    }
  }

  /** What one turn of the parser's loop leads to: the text still to be read and the state, or the outcome. */
  datatype Turned = On(rest: string, st: Stack, used: nat) | Ends(o: Outcome)

  function Turn(s: string, st: Stack, used: nat, cap: nat): (t: Turned)
    ensures t.On? ==> |t.rest| < |s| && used <= t.used <= used + 1 && t.used + |t.rest| <= used + |s|
  {
    if s == [] then Ends(if st.Bottom? then Done(VCont(st.isObj, st.kids)) else Fail(ERRJSON))
    else if SkipBlank(s) == [] then Ends(Fail(ERRJSON))
    else
      var r := SkipBlank(s);
      if r[0] == ',' then On(r[1..], st, used)
      else if r[0] == CloseOf(st.isObj) then
        if st.Nested? then On(r[1..], Pop(st), used)
        else Ends(RootEnd(VCont(st.isObj, st.kids), r[1..]))
      else if used >= cap then Ends(Fail(ERRMEM))
      else if LexKey(st.isObj, r).None? then Ends(Fail(ERRJSON))
      else
        var k := LexKey(st.isObj, r).value;
        if IsOpen(k.rest[0]) then
          var isObj := k.rest[0] == '{';
          if OpenOk(isObj, k.rest[1..]) then On(SkipBlank(k.rest[1..]), Nested(st, k.item, isObj, []), used + 1)
          else Ends(Fail(ERRJSON))
        else if LexScalar(k.rest).None? || !DelimAhead(LexScalar(k.rest).value.rest) then Ends(Fail(ERRJSON))
        else
          var l := LexScalar(k.rest).value;
          On(PastDelim(l.rest), Attach(st, Node(k.item, ScalarVal(l.item))), used + 1)
  }

  lemma RunTurns(s: string, st: Stack, used: nat, cap: nat)
    ensures Run(s, st, used, cap) ==
            match Turn(s, st, used, cap)
            case On(rest, st', used') => Run(rest, st', used', cap)
            case Ends(o) => o
  {
    hide LexKey, LexScalar, SkipBlank, OpenOk, DelimAhead;
    if s != [] && SkipBlank(s) != [] {
      var r := SkipBlank(s);
      assert Run(s, st, used, cap) == Step(r, st, used, cap);
      if r[0] != ',' && r[0] != CloseOf(st.isObj) && used < cap && LexKey(st.isObj, r).Some? {
        var k := LexKey(st.isObj, r).value;
        assert Step(r, st, used, cap) == RunValue(k.item, k.rest, st, used, cap);
      }
    }
  }

  lemma {:induction false} NoParError(s: string, st: Stack, used: nat, cap: nat)
    ensures Run(s, st, used, cap) != Fail(ERRPAR)
    decreases |s|
  {
    hide Run, LexKey, LexScalar, SkipBlank, OpenOk, DelimAhead;
    RunTurns(s, st, used, cap);
    var t := Turn(s, st, used, cap);
    if t.On? {
      NoParError(t.rest, t.st, t.used, cap);
    }
  }

  /**
   lwjsonERRMEM says only that the pool is too small: with more tokens any other
   outcome is the same.
   */
  lemma {:induction false} MoreTokens(s: string, st: Stack, used: nat, cap: nat, more: nat)
    requires cap <= more && Run(s, st, used, cap) != Fail(ERRMEM)
    ensures Run(s, st, used, more) == Run(s, st, used, cap)
    decreases |s|
  {
    hide Run, LexKey, LexScalar, SkipBlank, OpenOk, DelimAhead;
    RunTurns(s, st, used, cap);
    RunTurns(s, st, used, more);
    var t := Turn(s, st, used, cap);
    if t.On? {
      MoreTokens(t.rest, t.st, t.used, cap, more);
    }
  }

  /** With a token for every character the pool is never too small. */
  lemma {:induction false} EnoughTokens(s: string, st: Stack, used: nat, cap: nat)
    requires used + |s| <= cap
    ensures Run(s, st, used, cap) != Fail(ERRMEM)
    decreases |s|
  {
    hide Run, LexKey, LexScalar, SkipBlank, OpenOk, DelimAhead;
    RunTurns(s, st, used, cap);
    var t := Turn(s, st, used, cap);
    if t.On? {
      EnoughTokens(t.rest, t.st, t.used, cap);
    }
  }

  /** So whether a text gets lwjsonERRMEM depends on the pool alone, and the outcome without it on the text alone. */
  lemma MemoryOnly(text: string, cap: nat)
    ensures Parse(text, |text|) != Fail(ERRMEM)
    ensures Parse(text, cap) != Fail(ERRMEM) && cap <= |text| ==> Parse(text, cap) == Parse(text, |text|)
    ensures cap > |text| ==> Parse(text, cap) == Parse(text, |text|)
  {
    hide Run, SkipBlank, OpenOk;
    var s := SkipBlank(text);
    if s != [] && IsOpen(s[0]) && OpenOk(s[0] == '{', s[1..]) {
      var u, st := SkipBlank(s[1..]), Bottom(s[0] == '{', []);
      EnoughTokens(u, st, 0, |text|);
      if cap > |text| {
        MoreTokens(u, st, 0, |text|, cap);
      } else if Run(u, st, 0, cap) != Fail(ERRMEM) {
        MoreTokens(u, st, 0, cap, |text|);
      }
    }
  }
}
