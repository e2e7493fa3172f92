/**
 src/lib/ip.c: addresses as text, and sending and receiving over a stream socket
 that may take less than it is given, or fail.
 */
module Ip {
  import opened Wrappers
  import opened JsonLex
  import opened Decimals

  // ----- addresses

  datatype IpAddr = IpAddr(addr: bv32, port: bv16)

  const PK_IP_ADDR_STR_LEN := 16 + 1 + 6 + 1

  /** The most significant byte first. */
  function Octet(a: bv32, i: nat): bv32
    requires i < 4
  {
    if i == 0 then (a & 0xff000000) >> 24
    else if i == 1 then (a & 0x00ff0000) >> 16
    else if i == 2 then (a & 0x0000ff00) >> 8
    else a & 0x000000ff
  }

  /** "%d.%d.%d.%d:%d" */
  function Dotted(a: nat, b: nat, c: nat, d: nat, port: nat): string {
    Decimal(a) + (['.'] + (Decimal(b) + (['.'] + (Decimal(c) + (['.'] + (Decimal(d) + ([':'] + Decimal(port))))))))
  }

  function Text(a: IpAddr): string {
    Dotted(Octet(a.addr, 0) as nat, Octet(a.addr, 1) as nat, Octet(a.addr, 2) as nat, Octet(a.addr, 3) as nat,
           a.port as nat)
  }

  lemma OctetSmall(a: bv32, i: nat)
    requires i < 4
    ensures Octet(a, i) as nat < 256
  {
    assert Octet(a, i) < 256;
  }

  lemma DecimalFits(n: nat, k: nat)
    requires k > 0 && n < Exp10(k)
    ensures |Decimal(n)| <= k && '\0' !in Decimal(n)
  {
    DecimalShort(n, k);
    DecimalIs(n);
  }

  lemma DottedFits(a: nat, b: nat, c: nat, d: nat, port: nat)
    requires a < 256 && b < 256 && c < 256 && d < 256 && port < 65536
    ensures |Dotted(a, b, c, d, port)| + 1 <= PK_IP_ADDR_STR_LEN
    ensures '\0' !in Dotted(a, b, c, d, port)
  {
    assert Exp10(1) == 10 && Exp10(2) == 100 && Exp10(3) == 1000 && Exp10(4) == 10000 && Exp10(5) == 100000;
    hide Decimal, Exp10;
    DecimalFits(a, 3);
    DecimalFits(b, 3);
    DecimalFits(c, 3);
    DecimalFits(d, 3);
    DecimalFits(port, 5);
  }

  /** The text fits its buffer with the terminating NUL, so snprintf never cuts it. */
  lemma TextFits(a: IpAddr)
    ensures |Text(a)| + 1 <= PK_IP_ADDR_STR_LEN
    ensures '\0' !in Text(a)
  {
    hide Dotted, Octet;
    OctetSmall(a.addr, 0);
    OctetSmall(a.addr, 1);
    OctetSmall(a.addr, 2);
    OctetSmall(a.addr, 3);
    DottedFits(Octet(a.addr, 0) as nat, Octet(a.addr, 1) as nat, Octet(a.addr, 2) as nat, Octet(a.addr, 3) as nat,
               a.port as nat);
  }

  /** Two numbers in front of a separator are the same if the texts are. */
  lemma SameFirstNumber(x: nat, y: nat, c: char, u: string, v: string)
    requires !IsDigit(c) && Decimal(x) + ([c] + u) == Decimal(y) + ([c] + v)
    ensures x == y && u == v
  {
    DecimalIs(x);
    DecimalIs(y);
    var d, e := Decimal(x), Decimal(y);
    hide Decimal, DecValue;
    var s := d + ([c] + u);
    DigitsLenIs(d, [c] + u);
    DigitsLenIs(e, [c] + v);
    assert s[..|d|] == d && s[..|e|] == e;
    assert s[|d|..] == [c] + u && s[|e|..] == [c] + v;
    assert ([c] + u)[1..] == u && ([c] + v)[1..] == v;
  }

  lemma DottedInjective(a: nat, b: nat, c: nat, d: nat, p: nat, a': nat, b': nat, c': nat, d': nat, p': nat)
    requires Dotted(a, b, c, d, p) == Dotted(a', b', c', d', p')
    ensures a == a' && b == b' && c == c' && d == d' && p == p'
  {
    hide Decimal;
    var u3, v3 := Decimal(d) + ([':'] + Decimal(p)), Decimal(d') + ([':'] + Decimal(p'));
    var u2, v2 := Decimal(c) + (['.'] + u3), Decimal(c') + (['.'] + v3);
    var u1, v1 := Decimal(b) + (['.'] + u2), Decimal(b') + (['.'] + v2);
    SameFirstNumber(a, a', '.', u1, v1);
    SameFirstNumber(b, b', '.', u2, v2);
    SameFirstNumber(c, c', '.', u3, v3);
    SameFirstNumber(d, d', ':', Decimal(p), Decimal(p'));
    SameDecimal(p, p');
  }

  lemma OctetsAreAddress(a: bv32, b: bv32)
    requires forall i: nat :: i < 4 ==> Octet(a, i) == Octet(b, i)
    ensures a == b
  {
    assert Octet(a, 0) == Octet(b, 0) && Octet(a, 1) == Octet(b, 1);
    assert Octet(a, 2) == Octet(b, 2) && Octet(a, 3) == Octet(b, 3);
  }

  /** The octet, or the port, with that value. */
  function ToWord(n: nat): bv32
    requires n < 0x1_0000_0000
  {
    n as bv32
  }

  function ToPort(n: nat): bv16
    requires n < 0x1_0000
  {
    n as bv16
  }

  lemma WordBack(x: bv32)
    ensures ToWord(x as nat) == x
  {}

  lemma PortBack(x: bv16)
    ensures ToPort(x as nat) == x
  {}

  /** The four octets as numbers identify the address. */
  lemma SameAddress(x: bv32, y: bv32)
    requires forall i: nat :: i < 4 ==> Octet(x, i) as nat == Octet(y, i) as nat
    ensures x == y
  {
    hide Octet, ToWord;
    forall i: nat | i < 4
      ensures Octet(x, i) == Octet(y, i)
    {
      WordBack(Octet(x, i));
      WordBack(Octet(y, i));
    }
    OctetsAreAddress(x, y);
  }

  /** The text identifies the address and the port. */
  lemma TextInjective(a: IpAddr, b: IpAddr)
    ensures Text(a) == Text(b) <==> a == b
  {
    hide Dotted, Octet, ToPort;
    if Text(a) == Text(b) {
      var x, y := a.addr, b.addr;
      DottedInjective(Octet(x, 0) as nat, Octet(x, 1) as nat, Octet(x, 2) as nat, Octet(x, 3) as nat, a.port as nat,
                      Octet(y, 0) as nat, Octet(y, 1) as nat, Octet(y, 2) as nat, Octet(y, 3) as nat, b.port as nat);
      SameAddress(x, y);
      PortBack(a.port);
      PortBack(b.port);
    }
  }

  /** Four octets as an address, the first one the most significant. */
  function FromOctets(a: bv32, b: bv32, c: bv32, d: bv32): bv32 {
    (a << 24) | (b << 16) | (c << 8) | d
  }

  lemma OctetsBack(a: bv32, b: bv32, c: bv32, d: bv32)
    requires a < 256 && b < 256 && c < 256 && d < 256
    ensures var x := FromOctets(a, b, c, d);
      Octet(x, 0) == a && Octet(x, 1) == b && Octet(x, 2) == c && Octet(x, 3) == d
  {}

  lemma DottedIs(a: nat, b: nat, c: nat, d: nat, port: nat)
    ensures Dotted(a, b, c, d, port) ==
            Decimal(a) + "." + Decimal(b) + "." + Decimal(c) + "." + Decimal(d) + ":" + Decimal(port)
  {
    hide Decimal;
  }

  /** The text of an address: its octets in that order, in decimal, and the port. */
  lemma TextIs(a: bv32, b: bv32, c: bv32, d: bv32, port: bv16)
    requires a < 256 && b < 256 && c < 256 && d < 256
    ensures Text(IpAddr(FromOctets(a, b, c, d), port)) == Dotted(a as nat, b as nat, c as nat, d as nat, port as nat)
  {
    hide Dotted, Octet, FromOctets;
    OctetsBack(a, b, c, d);
  }

  /** snprintf of a finished text: at most `n - 1` characters and a NUL. */
  method Snprintf(str: array<char>, n: nat, text: string)
    requires 0 < n <= str.Length
    modifies str
    ensures var k := if |text| < n then |text| else n - 1;
      && (forall j :: 0 <= j < k ==> str[j] == text[j])
      && str[k] == '\0'
      && forall j :: k < j < str.Length ==> str[j] == old(str[j])
  {
    var k := if |text| < n then |text| else n - 1;
    for i := 0 to k
      invariant forall j :: 0 <= j < i ==> str[j] == text[j]
      invariant forall j :: i <= j < str.Length ==> str[j] == old(str[j])
    {
      str[i] := text[i];
    }
    str[k] := '\0';
  }

  method AddrToStr(a: IpAddr, str: array<char>)
    requires str.Length == PK_IP_ADDR_STR_LEN
    modifies str
    ensures |Text(a)| < str.Length && str[..|Text(a)| + 1] == Text(a) + ['\0']
  {
    hide Text;
    TextFits(a);
    Snprintf(str, PK_IP_ADDR_STR_LEN, Text(a));
    assert str[..|Text(a)| + 1] == Text(a) + ['\0'];
  }

  // ----- stream sockets

  const MAX_RETRIES_ON_ENOMEM := 100

  datatype Attempt = Taken | NoMemory | OtherError

  /** A connection: what the peer has received, and how every `write` so far went. */
  class Socket {
    ghost var stream: seq<Byte>
    ghost var attempts: seq<Attempt>
    var incoming: seq<Byte>    // what the peer sends and is not read yet

    /** `write`: takes 1 to n bytes, none if there are none, or fails, with ENOMEM or another error. */
    method Write(buf: seq<Byte>) returns (written: int, enomem: bool)
      modifies this
      ensures attempts == old(attempts) + [if written >= 0 then Taken else if enomem then NoMemory else OtherError]
      ensures incoming == old(incoming)
      ensures if written < 0 then stream == old(stream)
              else (buf == [] || written > 0) && written <= |buf| && stream == old(stream) + buf[..written]
    {
      enomem := *;
      if * {
        written := -1;
        attempts := attempts + [if enomem then NoMemory else OtherError];
      } else {
        written :| 0 <= written <= |buf| && (written == 0 ==> buf == []);
        stream := stream + buf[..written];
        attempts := attempts + [Taken];
      }
    }

    /** `read`: 1 to n of the bytes that arrive, 0 once there are no more, or an error. */
    method Read(n: nat) returns (rcv: int, data: seq<Byte>)
      requires n > 0
      modifies this`incoming
      ensures rcv < 0 ==> incoming == old(incoming)
      ensures rcv >= 0 ==> rcv == |data| <= n && old(incoming) == data + incoming
      ensures rcv == 0 ==> incoming == []
    {
      if * {
        return -1, [];
      }
      var m := if n < |incoming| then n else |incoming|;
      var k :| 0 <= k <= m && (k == 0 ==> m == 0);
      data, incoming := incoming[..k], incoming[k..];
      rcv := k;
    }
  }

  datatype SendStatus = SendRetry | SendErr | SendOk

  /** Decides what a `write` result means; counts a retry only on ENOMEM. */
  method HandleSend(retries0: nat, written: int, enomem: bool) returns (st: SendStatus, retries: nat)
    ensures st == if written >= 0 then SendOk
                  else if enomem && retries0 < MAX_RETRIES_ON_ENOMEM then SendRetry else SendErr
    ensures retries == if written < 0 && enomem then retries0 + 1 else retries0
  {
    retries := retries0;
    if written < 0 {
      if enomem {
        retries := retries + 1;
        if retries0 < MAX_RETRIES_ON_ENOMEM {
          return SendRetry, retries;
        }
      }
      return SendErr, retries;
    }
    st := SendOk;
  }

  /** Calls of `write` that end a send: up to 101 of them, all but the last out of memory. */
  predicate IsSend(tries: seq<Attempt>) {
    && 0 < |tries| <= 101
    && (forall i :: 0 <= i < |tries| - 1 ==> tries[i] == NoMemory)
    && (tries[|tries| - 1] == NoMemory ==> |tries| == 101)
  }

  /** pk_tcp_send: goes on while memory is short, up to 101 times, and reports how the last `write` went. */
  method TcpSend(s: Socket, buf: seq<Byte>) returns (sent: int)
    modifies s
    ensures old(s.attempts) <= s.attempts
    ensures var tries := s.attempts[|old(s.attempts)|..];
      IsSend(tries) && (sent >= 0 <==> tries[|tries| - 1] == Taken)
    ensures if sent < 0 then s.stream == old(s.stream)
            else (buf == [] || sent > 0) && sent <= |buf| && s.stream == old(s.stream) + buf[..sent]
  {
    var retries := 0;
    while true
      invariant 0 <= retries <= MAX_RETRIES_ON_ENOMEM
      invariant s.attempts == old(s.attempts) + seq(retries, _ => NoMemory) && s.stream == old(s.stream)
      decreases MAX_RETRIES_ON_ENOMEM - retries
    {
      var written, enomem := s.Write(buf);
      var st;
      st, retries := HandleSend(retries, written, enomem);
      if st != SendRetry {
        return if st == SendOk then written else -1;
      }
    }
  }

  /** pk_tcp_sendn: all of the buffer, or a proper prefix of it and failure; always returns. */
  method TcpSendN(s: Socket, buf: seq<Byte>) returns (ok: bool)
    modifies s
    ensures ok ==> s.stream == old(s.stream) + buf
    ensures !ok ==> exists k :: 0 <= k < |buf| && s.stream == old(s.stream) + buf[..k]
  {
    var total := 0;
    assert buf[..0] == [];
    while total < |buf|
      invariant 0 <= total <= |buf|
      invariant s.stream == old(s.stream) + buf[..total]
      decreases |buf| - total
    {
      var sent := TcpSend(s, buf[total..]);
      if sent < 0 {
        return false;
      }
      assert buf[..total] + buf[total..][..sent] == buf[..total + sent];
      total := total + sent;
    }
    assert buf[..total] == buf;
    ok := total == |buf|;
  }

  // ----- receiving exactly n bytes

  function Concat(chunks: seq<seq<Byte>>): seq<Byte> {
    if chunks == [] then [] else Concat(chunks[..|chunks| - 1]) + chunks[|chunks| - 1]
  }

  /** The buffer after every chunk was read to its start. */
  function Overlay(buf: seq<Byte>, chunks: seq<seq<Byte>>): (r: seq<Byte>)
    ensures |Concat(chunks)| <= |buf| ==> |r| == |buf|
  {
    if chunks == [] then buf
    else
      var c := chunks[|chunks| - 1];
      var b := Overlay(buf, chunks[..|chunks| - 1]);
      if |c| <= |b| then c + b[|c|..] else c
  }

  /** pk_tcp_recvn as it is written: every read goes to the start of the buffer. */
  method TcpRecvN(s: Socket, buf: array<Byte>, n: nat) returns (ok: bool, ghost chunks: seq<seq<Byte>>)
    requires n <= buf.Length
    modifies s`incoming, buf
    ensures forall c :: c in chunks ==> c != []
    ensures old(s.incoming) == Concat(chunks) + s.incoming
    ensures |Concat(chunks)| <= n && (ok ==> |Concat(chunks)| == n)
    ensures buf[..] == Overlay(old(buf[..]), chunks)
  {
    chunks := [];
    var total := 0;
    while total < n
      invariant total == |Concat(chunks)| <= n && forall c :: c in chunks ==> c != []
      invariant old(s.incoming) == Concat(chunks) + s.incoming
      invariant buf[..] == Overlay(old(buf[..]), chunks)
      decreases n - total
    {
      var rcv, data := s.Read(n - total);
      if rcv < 0 {
        return false, chunks;
      }
      if rcv == 0 {
        break;
      }
      forall i | 0 <= i < rcv {
        buf[i] := data[i];
      }
      ghost var more := chunks + [data];
      assert more[..|more| - 1] == chunks;
      assert buf[..] == data + Overlay(old(buf[..]), chunks)[|data|..];
      chunks := more;
      total := total + rcv;
    }
    ok := total == n;
  }

  /** The buffer holds what was received. */
  predicate Received(buf: seq<Byte>, chunks: seq<seq<Byte>>) {
    Concat(chunks) <= Overlay(buf, chunks)
  }

  ghost predicate Sized(chunks: seq<seq<Byte>>, lens: seq<nat>) {
    |chunks| == |lens| && forall i :: 0 <= i < |lens| ==> |chunks[i]| == lens[i]
  }

  function Sum(lens: seq<nat>): nat {
    if lens == [] then 0 else Sum(lens[..|lens| - 1]) + lens[|lens| - 1]
  }

  lemma {:induction false} ConcatHead(chunks: seq<seq<Byte>>)
    requires chunks != [] && chunks[0] != []
    ensures Concat(chunks) != [] && Concat(chunks)[0] == chunks[0][0]
  {
    if |chunks| > 1 {
      ConcatHead(chunks[..|chunks| - 1]);
    } else {
      assert chunks[..0] == [];
    }
  }

  lemma {:induction false} OverlayHead(buf: seq<Byte>, chunks: seq<seq<Byte>>)
    requires chunks != [] && chunks[|chunks| - 1] != []
    ensures Overlay(buf, chunks) != [] && Overlay(buf, chunks)[0] == chunks[|chunks| - 1][0]
  {}

  /** Several reads: a payload whose first and last chunk start with different bytes is damaged. */
  lemma DamagedBySecondRead(lens: seq<nat>, buf: seq<Byte>) returns (chunks: seq<seq<Byte>>)
    requires |lens| > 1 && (forall i :: 0 <= i < |lens| ==> lens[i] > 0)
    ensures Sized(chunks, lens) && !Received(buf, chunks)
  {
    chunks := seq(|lens|, i requires 0 <= i < |lens| => seq(lens[i], _ => if i == 0 then 1 else 0));
    assert Sized(chunks, lens);
    hide Overlay, Concat;
    assert lens[0] > 0 && lens[|lens| - 1] > 0;
    assert chunks[0][0] == 1 && chunks[|lens| - 1][0] == 0;
    ConcatHead(chunks);
    OverlayHead(buf, chunks);
  }

  lemma IntactInOneRead(c: seq<Byte>, buf: seq<Byte>)
    requires |c| <= |buf|
    ensures Received(buf, [c])
  {
    assert [c][..0] == [];
    assert Concat([c]) == c;
    assert Overlay(buf, [c]) == c + buf[|c|..];
  }

  /**
   Reads of the given lengths deliver every payload intact exactly if there is
   only one of them: otherwise the last read overwrites the first byte.
   */
  lemma IntactOnlyInOneRead(lens: seq<nat>, buf: seq<Byte>)
    requires lens != [] && (forall i :: 0 <= i < |lens| ==> lens[i] > 0) && Sum(lens) <= |buf|
    ensures (forall chunks :: Sized(chunks, lens) ==> Received(buf, chunks)) <==> |lens| == 1
  {
    if |lens| == 1 {
      assert lens[..0] == [] && Sum(lens) == lens[0];
      forall chunks | Sized(chunks, lens)
        ensures Received(buf, chunks)
      {
        assert chunks == [chunks[0]];
        IntactInOneRead(chunks[0], buf);
      }
    } else {
      var chunks := DamagedBySecondRead(lens, buf);
    }
  }
}
