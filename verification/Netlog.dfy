/**
 src/lib/netlog.c: the client table in its array, the sections that run under
 clients_mutex, and the flush loop over it. Every method is one critical section
 or a helper called inside one.
 */
module Netlog {
  import opened Wrappers
  import opened NetlogTable
  import Ip

  class Netlog {
    const maxClients: nat
    const bufSize: Size
    const clients: array<Client>
    const udpbuf: array<Byte>      // first byte for the packet number
    var clientsNum: int
    var udpClientsNum: int
    var sends: nat
    ghost var wire: seq<Delivery>
    ghost var closed: seq<nat>
    ghost var console: seq<Byte>

    ghost predicate Valid()
      reads this, clients
    {
      && clients.Length == maxClients && udpbuf.Length == 1 + bufSize
      && clients as object != udpbuf as object
      && 0 <= clientsNum <= maxClients
      && udpClientsNum == CountUdp(clients[..clientsNum])
    }

    ghost function State(): Net
      requires 0 <= clientsNum <= clients.Length
      reads this, clients
    {
      Net(clients[..clientsNum], udpClientsNum, wire, closed, console, sends)
    }

    constructor (maxClients: nat, bufSize: Size, filler: Client)
      ensures Valid() && State() == Net([], 0, [], [], [], 0)
      ensures this.maxClients == maxClients && this.bufSize == bufSize
    {
      this.maxClients, this.bufSize := maxClients, bufSize;
      clients := new Client[maxClients](_ => filler);
      udpbuf := new Byte[1 + bufSize];
      clientsNum, udpClientsNum, sends := 0, 0, 0;
      wire, closed, console := [], [], [];
    }

    /** get_client_idx_by_addr_str */
    method GetClientIdx(addrStr: string) returns (i: int)
      requires Valid()
      ensures i == IndexOf(State().table, addrStr)
    {
      i := 0;
      while i < clientsNum
        invariant 0 <= i <= clientsNum && IndexOf(clients[..i], addrStr) < 0
      {
        assert clients[..i + 1][..i] == clients[..i];
        if clients[i].addrStr == addrStr {
          assert clients[..clientsNum][..i] == clients[..i];
          FoundFirst(clients[..clientsNum], addrStr, i);
          return;
        }
        i := i + 1;
      }
      i := -1;
    }

    /** get_free_idx_in_clients */
    method GetFreeIdx() returns (i: int)
      requires Valid()
      ensures i == if |State().table| == maxClients then -1 else |State().table|
    {
      if clientsNum == maxClients {
        return -1;
      }
      return clientsNum;
    }

    /** memmove of the slots behind `i` down by one. */
    method MoveDown(i: nat, n: nat)
      requires i < n <= clients.Length
      modifies clients
      ensures clients[..n - 1] == old(clients[..i]) + old(clients[i + 1..n])
      ensures forall x :: n - 1 <= x < clients.Length ==> clients[x] == old(clients[x])
    {
      var j := i;
      while j < n - 1
        invariant i <= j <= n - 1
        invariant forall x :: 0 <= x < i || j <= x < clients.Length ==> clients[x] == old(clients[x])
        invariant forall x :: i <= x < j ==> clients[x] == old(clients[..])[x + 1]
      {
        clients[j] := clients[j + 1];
        j := j + 1;
      }
    }

    /** del_client: closes the socket and moves the later clients down by one. */
    method DelClient(i: nat)
      requires Valid() && i < clientsNum
      modifies this`clientsNum, this`udpClientsNum, this`closed, clients
      ensures Valid()
      ensures var c := old(State().table[i]);
        State() == old(State()).(table := Remove(old(State().table), i),
                                 udpNum := old(udpClientsNum) - (if c.udp then 1 else 0),
                                 closed := old(closed) + [c.hd])
    {
      ghost var cs := clients[..clientsNum];
      CountUdpAt(cs, i);
      CountUdpAppend(cs[..i], cs[i + 1..]);
      closed := closed + [clients[i].hd];
      if clients[i].udp {
        udpClientsNum := udpClientsNum - 1;
      }
      assert clients[..i] == cs[..i] && clients[i + 1..clientsNum] == cs[i + 1..];
      if i != clientsNum - 1 {
        MoveDown(i, clientsNum);
      }
      clientsNum := clientsNum - 1;
      assert clients[..clientsNum] == Remove(cs, i);
    }

    /** The last section of ctl_sub. The assertion in it needs a free slot. */
    method Insert(hd: nat, isUdp: bool, addr: Ip.IpAddr)
      requires Valid() && clientsNum < maxClients
      modifies this`clientsNum, this`udpClientsNum, clients
      ensures Valid()
      ensures exists c :: (
        && IsSubscription(c, hd, isUdp, addr) && State() == Subscribed(old(State()), c)
        && State().table == old(State().table) + [c])
      ensures State().udpNum == old(udpClientsNum) + (if isUdp then 1 else 0) && State().closed == old(closed)
    {
      var i := GetFreeIdx();
      assert i >= 0;
      // a TCP client keeps whatever the slot held before
      var c := clients[i].(hd := hd, udp := isUdp, addrStr := Ip.Text(addr));
      if isUdp {
        c := c.(packCnt := 0, addrPort := addr);
        udpClientsNum := udpClientsNum + 1;
      }
      clients[i] := c;
      clientsNum := clientsNum + 1;
      CountUdpAppend(old(State().table), [c]);
      assert [c][1..] == [];
      assert clients[..clientsNum] == old(State().table) + [c];
      assert IsSubscription(c, hd, isUdp, addr) && State() == Subscribed(old(State()), c);
    }

    /** ctl_unsub */
    method Unsub(addrStr: string) returns (removed: bool)
      requires Valid()
      modifies this`clientsNum, this`udpClientsNum, this`closed, clients
      ensures Valid()
      ensures removed == (addrStr in Addrs(old(State().table)))
      ensures State() == Unsubscribed(old(State()), addrStr) && Leaves(old(State()), State(), addrStr)
    {
      UnsubscribedLeaves(State(), addrStr);
      var i := GetClientIdx(addrStr);
      if i < 0 {
        return false;
      }
      DelClient(i);
      return true;
    }

    /** Over the client's socket, and for a UDP client to its address and port. */
    ghost function Sent(i: nat, bytes: seq<Byte>): Delivery
      requires i < clients.Length
      reads clients
    {
      Delivery(clients[i].hd, if clients[i].udp then Some(clients[i].addrPort) else None, bytes)
    }

    /** The environment's answer to a send, and the record of it. */
    method SendTo(i: nat, bytes: seq<Byte>, w: Weather) returns (ok: bool)
      requires i < clients.Length
      modifies this`sends, this`wire
      ensures ok == w(old(sends)) && sends == old(sends) + 1
      ensures wire == old(wire) + (if ok then [Sent(i, bytes)] else [])
    {
      ok := w(sends);
      sends := sends + 1;
      if ok {
        wire := wire + [Sent(i, bytes)];
      }
    }

    /** One client's turn: a UDP client's packet number goes in front of the buffered block and is advanced. */
    method SendOne(i: nat, block: seq<Byte>, w: Weather) returns (ok: bool)
      requires Valid() && i < clientsNum
      requires udpClientsNum != 0 ==> |block| <= bufSize && udpbuf[1..1 + |block|] == block
      modifies this`sends, this`wire, clients, udpbuf
      ensures Valid() && ok == w(old(sends))
      ensures udpClientsNum != 0 ==> udpbuf[1..1 + |block|] == block
      ensures var c := old(clients[i]);
        State() == old(State()).(table := old(State().table)[i := Bump(c)], sends := old(sends) + 1,
                                 wire := old(wire) + (if ok then [Packet(c, block)] else []))
    {
      ghost var c, cs := clients[i], clients[..clientsNum];
      CountUdpAt(cs, i);
      CountUdpAt(cs[i := Bump(c)], i);
      assert cs[i := Bump(c)][..i] == cs[..i] && cs[i := Bump(c)][i + 1..] == cs[i + 1..];
      if clients[i].udp {
        udpbuf[0] := CountByte(clients[i].packCnt);
        var n := |block| + 1;
        assert udpbuf[..n] == [CountByte(c.packCnt)] + block;
        clients[i] := clients[i].(packCnt := (clients[i].packCnt + 1) % PACK_MOD);
        ok := SendTo(i, udpbuf[..n], w);
      } else {
        ok := SendTo(i, block, w);
      }
      assert clients[..clientsNum] == cs[i := Bump(c)];
    }

    /** One turn of the inner loop: a client whose send fails is removed on the spot. */
    method Turn(i: nat, block: seq<Byte>, w: Weather)
      requires Valid() && i < clientsNum
      requires udpClientsNum != 0 ==> |block| <= bufSize && udpbuf[1..1 + |block|] == block
      modifies this`clientsNum, this`udpClientsNum, this`closed, this`sends, this`wire, clients, udpbuf
      ensures Valid()
      ensures udpClientsNum != 0 ==> |block| <= bufSize && udpbuf[1..1 + |block|] == block
      ensures State() == AfterTurn(old(State()), i, block, w)
    {
      ghost var net := State();
      var ok := SendOne(i, block, w);
      BumpKeeps(net.table[i]);
      if !ok {
        assert Remove(net.table[i := Bump(net.table[i])], i) == Remove(net.table, i);
        DelClient(i);
        LostUdp(net.table, i);
        assert net.wire + [] == net.wire;
      }
    }

    /** The inner loop: one block to every client. */
    method SendBlockToAll(block: seq<Byte>, w: Weather)
      requires Valid()
      requires udpClientsNum != 0 ==> |block| <= bufSize && udpbuf[1..1 + |block|] == block
      modifies this`clientsNum, this`udpClientsNum, this`closed, this`sends, this`wire, clients, udpbuf
      ensures Valid()
      ensures State() == SendBlock(old(State()), block, w).(console := old(console))
    {
      hide AfterTurn, Ahead, SendAll;
      ghost var net := State();
      var i := 0;
      AheadAtStart(net, block, w);
      while i < clientsNum
        invariant Valid() && 0 <= i
        invariant udpClientsNum != 0 ==> |block| <= bufSize && udpbuf[1..1 + |block|] == block
        invariant Ahead(State(), i, block, w) == Ahead(net, 0, block, w)
        decreases clientsNum - i
      {
        AheadStep(State(), i, block, w);
        Turn(i, block, w);
        i := i + 1;
      }
      AheadAtEnd(State(), i, block, w);
    }

    /** memcpy of the block behind the packet number. */
    method FillUdpBuf(block: seq<Byte>)
      requires 1 + |block| <= udpbuf.Length
      modifies udpbuf
      ensures udpbuf[1..1 + |block|] == block
    {
      for j := 0 to |block|
        invariant udpbuf[1..1 + j] == block[..j]
      {
        udpbuf[1 + j] := block[j];
      }
    }

    /** stdout_flush with clients_mutex held: cuts the buffer into blocks. */
    method Flush(buf: seq<Byte>, w: Weather)
      requires Valid()
      modifies this`clientsNum, this`udpClientsNum, this`closed, this`sends, this`wire, this`console, clients, udpbuf
      ensures Valid()
      ensures State() == NetlogTable.Flush(old(State()), buf, w, bufSize)
    {
      hide SendAll;
      var sent := 0;
      assert buf[0..] == buf;
      while sent < |buf|
        invariant Valid() && 0 <= sent <= |buf|
        invariant NetlogTable.Flush(State(), buf[sent..], w, bufSize) ==
                  NetlogTable.Flush(old(State()), buf, w, bufSize)
        decreases |buf| - sent
      {
        ghost var net := State();
        var blk := |buf| - sent;
        if udpClientsNum != 0 {
          blk := if |buf| - sent < bufSize then |buf| - sent else bufSize;
          FillUdpBuf(buf[sent..sent + blk]);
        }
        assert blk == BlockSize(net, |buf[sent..]|, bufSize);
        assert buf[sent..][..blk] == buf[sent..sent + blk] && buf[sent..][blk..] == buf[sent + blk..];
        SendBlockToAll(buf[sent..sent + blk], w);
        if clientsNum == 0 {
          console := console + buf[sent..sent + blk];
        }
        assert State() == SendBlock(net, buf[sent..sent + blk], w);
        sent := sent + blk;
      }
      assert buf[sent..] == [];
    }
  }

  lemma BumpKeeps(c: Client)
    ensures Bump(c).hd == c.hd && Bump(c).udp == c.udp
  {}

  lemma LostUdp(cs: seq<Client>, i: nat)
    requires i < |cs|
    ensures cs[i].udp ==> CountUdp(cs) > 0
  {
    CountUdpAt(cs, i);
  }

  /** The state behind the turn of the client in slot `i`. */
  ghost function AfterTurn(net: Net, i: nat, block: seq<Byte>, w: Weather): Net
    requires i < |net.table|
  {
    var c := net.table[i];
    if w(net.sends) then
      net.(table := net.table[i := Bump(c)], wire := net.wire + [Packet(c, block)], sends := net.sends + 1)
    else
      net.(table := Remove(net.table, i), udpNum := net.udpNum - (if c.udp then 1 else 0),
           closed := net.closed + [c.hd], sends := net.sends + 1)
  }

  /** The state when the loop, now at slot `i`, is through. */
  ghost function Ahead(net: Net, i: nat, block: seq<Byte>, w: Weather): Net {
    if i >= |net.table| then net
    else
      var r := SendAll(net.table[i..], block, w, net.sends);
      Net(net.table[..i] + r.table, net.udpNum - r.udpGone, net.wire + r.wire, net.closed + r.closed, net.console,
          r.sends)
  }

  lemma AheadAtStart(net: Net, block: seq<Byte>, w: Weather)
    ensures Ahead(net, 0, block, w) == SendBlock(net, block, w).(console := net.console)
  {
    assert net.table[0..] == net.table;
    var r := SendAll(net.table, block, w, net.sends);
    assert net.table[..0] + r.table == r.table;
    assert net.table == [] ==> net.wire + [] == net.wire && net.closed + [] == net.closed;
  }

  lemma AheadAtEnd(net: Net, i: nat, block: seq<Byte>, w: Weather)
    requires i >= |net.table|
    ensures Ahead(net, i, block, w) == net
  {}

  /** A turn and the rest of the loop. */
  lemma AheadStep(net: Net, i: nat, block: seq<Byte>, w: Weather)
    requires i < |net.table|
    ensures |AfterTurn(net, i, block, w).table| <= |net.table|
    ensures Ahead(AfterTurn(net, i, block, w), i + 1, block, w) == Ahead(net, i, block, w)
  {
    hide SendAll, Packet, Bump;
    if w(net.sends) {
      AheadSent(net, i, block, w);
    } else {
      AheadFailed(net, i, block, w);
    }
  }

  lemma AheadSent(net: Net, i: nat, block: seq<Byte>, w: Weather)
    requires i < |net.table| && w(net.sends)
    ensures Ahead(AfterTurn(net, i, block, w), i + 1, block, w) == Ahead(net, i, block, w)
  {
    hide SendAll, Packet, Bump;
    var c, cs := net.table[i], net.table[i..];
    SendAllStep(cs, block, w, net.sends);
    SendAllNothing(block, w, net.sends + 1);
    var t := net.table[i := Bump(c)];
    var r := SendAll(cs[1..], block, w, net.sends + 1);
    assert cs[1..] == t[i + 1..];
    assert t[..i + 1] == net.table[..i] + [Bump(c)];
    assert t[..i + 1] + r.table == net.table[..i] + ([Bump(c)] + r.table);
    assert net.wire + [Packet(c, block)] + r.wire == net.wire + ([Packet(c, block)] + r.wire);
    if i + 1 == |t| {
      assert t == t[..i + 1] + [];
    }
  }

  lemma AheadFailed(net: Net, i: nat, block: seq<Byte>, w: Weather)
    requires i < |net.table| && !w(net.sends)
    ensures Ahead(AfterTurn(net, i, block, w), i + 1, block, w) == Ahead(net, i, block, w)
  {
    hide SendAll;
    var c, cs := net.table[i], net.table[i..];
    SendAllStep(cs, block, w, net.sends);
    SendAllNothing(block, w, net.sends + 1);
    var t := Remove(net.table, i);
    if |cs| > 1 {
      var r := SendAll(cs[2..], block, w, net.sends + 1);
      assert cs[2..] == t[i + 1..];
      assert t[..i + 1] == net.table[..i] + [cs[1]];
      assert t[..i + 1] + r.table == net.table[..i] + ([cs[1]] + r.table);
      assert net.closed + [c.hd] + r.closed == net.closed + ([c.hd] + r.closed);
      if i + 1 == |t| {
        assert t == t[..i + 1] + [];
        assert net.wire + [] == net.wire;
      }
    } else {
      assert t == net.table[..i] + [];
      assert net.wire + [] == net.wire;
    }
  }

  lemma FoundFirst(cs: seq<Client>, a: string, i: nat)
    requires i < |cs| && cs[i].addrStr == a && IndexOf(cs[..i], a) < 0
    ensures IndexOf(cs, a) == i
    decreases |cs|
  {
    var n := |cs| - 1;
    if i < n {
      assert cs[..n][..i] == cs[..i];
      FoundFirst(cs[..n], a, i);
    }
  }
}
