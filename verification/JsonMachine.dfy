/**
 The lwjson parser as a machine on values: the text still to be read, the stack
 of open containers with the children each has so far, and the number of tokens
 in use. `LwJson` shows that the in-place parser computes exactly this; the
 grammar modules show what this means.
 */
module JsonMachine {
  import opened Wrappers
  import opened JsonTree
  import opened JsonLex

  datatype Code = OK | ERR | ERRJSON | ERRMEM | ERRPAR

  datatype Outcome = Fail(code: Code) | Done(tree: Val)

  /** The open containers; the innermost one is the outermost constructor. */
  datatype Stack =
    | Bottom(isObj: bool, kids: seq<Node>)
    | Nested(outer: Stack, name: Option<string>, isObj: bool, kids: seq<Node>)

  function Attach(st: Stack, nd: Node): Stack {
    st.(kids := st.kids + [nd])
  }

  function AttachAll(st: Stack, nds: seq<Node>): Stack {
    st.(kids := st.kids + nds)
  }

  /** The innermost container is complete and becomes a child of the next one. */
  function Pop(st: Stack): Stack
    requires st.Nested?
  {
    Attach(st.outer, Node(st.name, VCont(st.isObj, st.kids)))
  }

  function OpenOf(isObj: bool): char {
    if isObj then '{' else '['
  }

  function CloseOf(isObj: bool): char {
    if isObj then '}' else ']'
  }

  predicate IsOpen(c: char) {
    c == '{' || c == '['
  }

  predicate IsDelim(c: char) {
    c == ',' || c == ']' || c == '}'
  }

  /** After optional blanks comes a comma or a closing bracket of either kind. */
  predicate DelimAhead(s: string) {
    SkipBlank(s) != [] && IsDelim(SkipBlank(s)[0])
  }

  /** What may come, after optional blanks, behind an opening bracket. */
  predicate OpenOk(isObj: bool, s: string) {
    var r := SkipBlank(s);
    r != [] && if isObj then r[0] == '"' || r[0] == '}' else r[0] == ']' || StartsValue(r[0])
  }

  predicate StartsValue(c: char) {
    c == '"' || IsOpen(c) || c == '-' || IsDigit(c) || c == 't' || c == 'n' || c == 'f'
  }

  /** The value behind a property name's colon. */
  function LexColon(s: string): (r: Option<string>)
    ensures r.Some? ==> r.value != [] && !IsBlank(r.value[0]) && |r.value| < |s|
  {
    var c := SkipBlank(s);
    if c == [] || c[0] != ':' || SkipBlank(c[1..]) == [] then None else Some(SkipBlank(c[1..]))
  }

  /** Inside an object, the property name with its colon; inside an array, nothing. */
  function LexKey(isObj: bool, s: string): (r: Option<Lexed<Option<string>>>)
    requires s != []
    ensures r.Some? ==> r.value.rest != [] && |r.value.rest| <= |s| && r.value.item.Some? == isObj
    ensures r.Some? && !IsBlank(s[0]) ==> !IsBlank(r.value.rest[0])
  {
    if !isObj then Some(Lexed(None, s))
    else if s[0] != '"' then None
    else
      match LexString(s[1..])
      case None => None
      case Some(l) =>
        match LexColon(l.rest)
        case None => None
        case Some(v) => Some(Lexed(Some(l.item), v))
  }

  /** What remains once a scalar's delimiter has been looked at. */
  function PastDelim(s: string): (r: string)
    requires DelimAhead(s)
    ensures |r| <= |s|
  {
    var d := SkipBlank(s);
    if d[0] == ',' then d[1..] else d
  }

  /** One turn of the parser's main loop and all that follow it. */
  function Run(s: string, st: Stack, used: nat, cap: nat): Outcome
    decreases |s|, 2
  {
    if s == [] then
      if st.Bottom? then Done(VCont(st.isObj, st.kids)) else Fail(ERRJSON)
    else if SkipBlank(s) == [] then Fail(ERRJSON)
    else Step(SkipBlank(s), st, used, cap)
  }

  /** The rest of a turn, once blanks are skipped. */
  function Step(s: string, st: Stack, used: nat, cap: nat): Outcome
    requires s != []
    decreases |s|, 1
  {
    if s[0] == ',' then Run(s[1..], st, used, cap)
    else if s[0] == CloseOf(st.isObj) then
      if st.Nested? then Run(s[1..], Pop(st), used, cap)
      else if SkipBlank(s[1..]) == [] then Done(VCont(st.isObj, st.kids))
      else Fail(ERR)
    else if used >= cap then Fail(ERRMEM)
    else
      match LexKey(st.isObj, s)
      case None => Fail(ERRJSON)
      case Some(k) => RunValue(k.item, k.rest, st, used, cap)
  }

  /** The step that reads a value whose name, if any, is already read. */
  function RunValue(name: Option<string>, s: string, st: Stack, used: nat, cap: nat): Outcome
    requires s != []
    decreases |s|, 0
  {
    if IsOpen(s[0]) then
      var isObj := s[0] == '{';
      if OpenOk(isObj, s[1..]) then
        Run(SkipBlank(s[1..]), Nested(st, name, isObj, []), used + 1, cap)
      else Fail(ERRJSON)
    else
      match LexScalar(s)
      case None => Fail(ERRJSON)
      case Some(l) =>
        if DelimAhead(l.rest) then
          Run(PastDelim(l.rest), Attach(st, Node(name, ScalarVal(l.item))), used + 1, cap)
        else Fail(ERRJSON)
  }

  /** The whole text, with room for `cap` tokens below the root. */
  function Parse(text: string, cap: nat): Outcome {
    var s := SkipBlank(text);
    if text == [] then Fail(ERRPAR)
    else if s == [] || !IsOpen(s[0]) then Fail(ERRJSON)
    else
      var isObj := s[0] == '{';
      if OpenOk(isObj, s[1..]) then Run(SkipBlank(s[1..]), Bottom(isObj, []), 0, cap)
      else Fail(ERRJSON)
  }
}
