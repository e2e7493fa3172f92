/**
 The client table of src/lib/netlog.c as a value, and what one flush of stdout
 does to it: blocks are sent to every client in turn, and a client whose send
 fails is removed while the loop goes on.
 */
module NetlogTable {
  import opened Wrappers
  import Ip

  type SevenBits = n: nat | n < PACK_MOD

  datatype Client = Client(hd: nat, addrStr: string, udp: bool, packCnt: SevenBits, addrPort: Ip.IpAddr)

  /** Something a socket accepted for its client. */
  datatype Delivery = Delivery(hd: nat, dest: Option<Ip.IpAddr>, bytes: seq<Byte>)

  /** The module's state: the table, its redundant counter, and what left the board so far. */
  datatype Net = Net(
    table: seq<Client>,
    udpNum: int,
    wire: seq<Delivery>,
    closed: seq<nat>,
    console: seq<Byte>,
    sends: nat)              // sends attempted so far; the environment decides each by its number

  /** Size of the datagram buffer. */
  type Size = n: nat | n > 0 witness 1

  /** Whether the send of each number succeeds. */
  type Weather = nat -> bool

  const PACK_MOD := 128      // pack_cnt is a 7-bit field

  function CountUdp(cs: seq<Client>): nat {
    if cs == [] then 0 else (if cs[0].udp then 1 else 0) + CountUdp(cs[1..])
  }

  function Hds(cs: seq<Client>): seq<nat> {
    seq(|cs|, i requires 0 <= i < |cs| => cs[i].hd)
  }

  function Addrs(cs: seq<Client>): seq<string> {
    seq(|cs|, i requires 0 <= i < |cs| => cs[i].addrStr)
  }

  /** The first client of that address, or -1. */
  function IndexOf(cs: seq<Client>, a: string): (r: int)
    ensures -1 <= r < |cs|
    ensures r >= 0 ==> cs[r].addrStr == a
    ensures r < 0 <==> a !in Addrs(cs)
    ensures forall j :: 0 <= j < r ==> cs[j].addrStr != a
    decreases |cs|
  {
    if cs == [] then -1
    else if cs[|cs| - 1].addrStr == a && IndexOf(cs[..|cs| - 1], a) < 0 then
      assert Addrs(cs)[|cs| - 1] == a;
      assert forall j :: 0 <= j < |cs| - 1 ==> Addrs(cs[..|cs| - 1])[j] == cs[j].addrStr;
      |cs| - 1
    else
      assert Addrs(cs) == Addrs(cs[..|cs| - 1]) + [cs[|cs| - 1].addrStr];
      IndexOf(cs[..|cs| - 1], a)
  }

  function Remove(cs: seq<Client>, i: nat): seq<Client>
    requires i < |cs|
  {
    cs[..i] + cs[i + 1..]
  }

  /** A table entry as the last section of ctl_sub writes it; a TCP one keeps what is not its own. */
  predicate IsSubscription(c: Client, hd: nat, udp: bool, addr: Ip.IpAddr) {
    && c.hd == hd && c.udp == udp && c.addrStr == Ip.Text(addr)
    && (udp ==> c.packCnt == 0 && c.addrPort == addr)
  }

  function Subscribed(net: Net, c: Client): Net {
    net.(table := net.table + [c], udpNum := net.udpNum + (if c.udp then 1 else 0))
  }

  /** The table after ctl_unsub for that address. */
  function Unsubscribed(net: Net, a: string): Net {
    var i := IndexOf(net.table, a);
    if i < 0 then net
    else
      var c := net.table[i];
      net.(table := Remove(net.table, i), udpNum := net.udpNum - (if c.udp then 1 else 0),
           closed := net.closed + [c.hd])
  }

  /** The clients of other addresses, in order. */
  function Others(cs: seq<Client>, a: string): seq<Client> {
    if cs == [] then []
    else (if cs[0].addrStr == a then [] else [cs[0]]) + Others(cs[1..], a)
  }

  predicate AddrsDiffer(cs: seq<Client>) {
    forall i, j :: 0 <= i < j < |cs| ==> cs[i].addrStr != cs[j].addrStr
  }

  lemma {:induction false} AllOthers(cs: seq<Client>, a: string)
    requires forall i :: 0 <= i < |cs| ==> cs[i].addrStr != a
    ensures Others(cs, a) == cs
  {
    if cs != [] {
      AllOthers(cs[1..], a);
    }
  }

  lemma {:induction false} NoneOfThem(cs: seq<Client>, a: string)
    ensures a !in Addrs(Others(cs, a))
  {
    if cs != [] {
      NoneOfThem(cs[1..], a);
      assert Others(cs, a) == (if cs[0].addrStr == a then [] else [cs[0]]) + Others(cs[1..], a);
      var r := Others(cs, a);
      forall i | 0 <= i < |r|
        ensures r[i].addrStr != a
      {
        if cs[0].addrStr == a || i > 0 {
          var k := if cs[0].addrStr == a then i else i - 1;
          assert r[i] == Others(cs[1..], a)[k] && Addrs(Others(cs[1..], a))[k] == r[i].addrStr;
        }
      }
    }
  }

  lemma {:induction false} RemoveIsOthers(cs: seq<Client>, i: nat)
    requires i < |cs| && AddrsDiffer(cs)
    ensures Remove(cs, i) == Others(cs, cs[i].addrStr)
  {
    if i == 0 {
      AllOthers(cs[1..], cs[0].addrStr);
      assert Remove(cs, 0) == cs[1..];
    } else {
      RemoveIsOthers(cs[1..], i - 1);
      assert Remove(cs, i) == [cs[0]] + Remove(cs[1..], i - 1);
    }
  }

  /**
   Unsubscribing an address: with distinct addresses exactly its client is gone, its
   socket is closed, and the UDP counter loses one if it was a UDP client.
   */
  predicate Leaves(a: Net, b: Net, addr: string) {
    && b.wire == a.wire && b.console == a.console && b.sends == a.sends
    && (addr !in Addrs(a.table) ==> b == a)
    && (addr in Addrs(a.table) ==>
          exists c :: c in a.table && c.addrStr == addr
            && b.closed == a.closed + [c.hd] && b.udpNum == a.udpNum - (if c.udp then 1 else 0))
    && (AddrsDiffer(a.table) ==> b.table == Others(a.table, addr) && addr !in Addrs(b.table))
  }

  lemma UnsubscribedLeaves(net: Net, a: string)
    ensures Leaves(net, Unsubscribed(net, a), a)
  {
    var i := IndexOf(net.table, a);
    NoneOfThem(net.table, a);
    if i >= 0 {
      var c := net.table[i];
      assert Addrs(net.table)[i] == a;
      if AddrsDiffer(net.table) {
        RemoveIsOthers(net.table, i);
      }
    } else {
      forall k | 0 <= k < |net.table|
        ensures net.table[k].addrStr != a
      {
        assert Addrs(net.table)[k] == net.table[k].addrStr;
      }
      AllOthers(net.table, a);
    }
  }

  lemma {:induction false} CountUdpAppend(a: seq<Client>, b: seq<Client>)
    ensures CountUdp(a + b) == CountUdp(a) + CountUdp(b)
  {
    if a == [] {
      assert a + b == b;
    } else {
      assert (a + b)[1..] == a[1..] + b;
      CountUdpAppend(a[1..], b);
    }
  }

  /** A table is what comes before a slot, the slot, and what comes behind it. */
  lemma CountUdpAt(cs: seq<Client>, i: nat)
    requires i < |cs|
    ensures CountUdp(cs) == CountUdp(cs[..i]) + (if cs[i].udp then 1 else 0) + CountUdp(cs[i + 1..])
  {
    assert cs == cs[..i] + ([cs[i]] + cs[i + 1..]);
    CountUdpAppend(cs[..i], [cs[i]] + cs[i + 1..]);
    assert ([cs[i]] + cs[i + 1..])[1..] == cs[i + 1..];
  }

  // ----- one block

  function CountByte(n: nat): Byte
    requires n < PACK_MOD
  {
    n
  }

  /** What a client is sent: a datagram starts with its 7-bit packet number. */
  function Packet(c: Client, block: seq<Byte>): Delivery {
    Delivery(c.hd, if c.udp then Some(c.addrPort) else None, if c.udp then [CountByte(c.packCnt)] + block else block)
  }

  function Bump(c: Client): Client {
    if c.udp then c.(packCnt := (c.packCnt + 1) % PACK_MOD) else c
  }

  datatype Pass = Pass(table: seq<Client>, wire: seq<Delivery>, closed: seq<nat>, udpGone: nat, sends: nat)

  /**
   The loop over the clients from here on. Removing a client moves its successor
   into the slot the loop leaves behind.
   */
  function SendAll(cs: seq<Client>, block: seq<Byte>, w: Weather, k: nat): Pass
    decreases |cs|
  {
    if cs == [] then Pass([], [], [], 0, k)
    else if w(k) then
      var r := SendAll(cs[1..], block, w, k + 1);
      r.(table := [Bump(cs[0])] + r.table, wire := [Packet(cs[0], block)] + r.wire)
    else
      var gone := if cs[0].udp then 1 else 0;
      if |cs| == 1 then Pass([], [], [cs[0].hd], gone, k + 1)
      else
        var r := SendAll(cs[2..], block, w, k + 1);
        r.(table := [cs[1]] + r.table, closed := [cs[0].hd] + r.closed, udpGone := gone + r.udpGone)
  }

  lemma SendAllStep(cs: seq<Client>, block: seq<Byte>, w: Weather, k: nat)
    requires cs != []
    ensures SendAll(cs, block, w, k) ==
      if w(k) then
        var r := SendAll(cs[1..], block, w, k + 1);
        r.(table := [Bump(cs[0])] + r.table, wire := [Packet(cs[0], block)] + r.wire)
      else if |cs| == 1 then Pass([], [], [cs[0].hd], if cs[0].udp then 1 else 0, k + 1)
      else
        var r := SendAll(cs[2..], block, w, k + 1);
        r.(table := [cs[1]] + r.table, closed := [cs[0].hd] + r.closed,
           udpGone := (if cs[0].udp then 1 else 0) + r.udpGone)
  {}

  lemma SendAllNothing(block: seq<Byte>, w: Weather, k: nat)
    ensures SendAll([], block, w, k) == Pass([], [], [], 0, k)
  {}

  // ----- who got the block

  datatype Fate = Delivered | Failed | Skipped

  function Fates(n: nat, w: Weather, k: nat): (fs: seq<Fate>)
    ensures |fs| == n
  {
    if n == 0 then []
    else if w(k) then [Delivered] + Fates(n - 1, w, k + 1)
    else if n == 1 then [Failed]
    else [Failed, Skipped] + Fates(n - 2, w, k + 1)
  }

  /** The table without the clients whose send failed; a datagram sent advances its counter. */
  function Kept(cs: seq<Client>, fs: seq<Fate>): seq<Client>
    requires |cs| == |fs|
  {
    if cs == [] then []
    else
      (match fs[0] case Failed => [] case Delivered => [Bump(cs[0])] case Skipped => [cs[0]]) + Kept(cs[1..], fs[1..])
  }

  function Sent(cs: seq<Client>, fs: seq<Fate>, block: seq<Byte>): seq<Delivery>
    requires |cs| == |fs|
  {
    if cs == [] then []
    else (if fs[0].Delivered? then [Packet(cs[0], block)] else []) + Sent(cs[1..], fs[1..], block)
  }

  function Dropped(cs: seq<Client>, fs: seq<Fate>): seq<nat>
    requires |cs| == |fs|
  {
    if cs == [] then []
    else (if fs[0].Failed? then [cs[0].hd] else []) + Dropped(cs[1..], fs[1..])
  }

  /**
   After the loop the table is the starting one minus the clients whose send
   failed, in order; the block reached exactly the delivered ones and the failed
   ones' sockets are closed.
   */
  lemma {:induction false} SendAllIs(cs: seq<Client>, block: seq<Byte>, w: Weather, k: nat)
    ensures var r, fs := SendAll(cs, block, w, k), Fates(|cs|, w, k);
      && r.table == Kept(cs, fs)
      && r.wire == Sent(cs, fs, block)
      && r.closed == Dropped(cs, fs)
    decreases |cs|
  {
    hide SendAll, Packet, Bump;
    SendAllNothing(block, w, k);
    if cs != [] {
      var fs := Fates(|cs|, w, k);
      SendAllStep(cs, block, w, k);
      if w(k) {
        SendAllIs(cs[1..], block, w, k + 1);
        assert fs[1..] == Fates(|cs| - 1, w, k + 1);
      } else if |cs| > 1 {
        SendAllIs(cs[2..], block, w, k + 1);
        assert cs[1..][1..] == cs[2..] && fs[1..][1..] == Fates(|cs| - 2, w, k + 1);
        assert fs[1..][0] == Skipped && cs[1..][0] == cs[1];
      } else {
        assert fs[1..] == [] && cs[1..] == [];
      }
    }
  }

  /** Who misses the block: the failed clients and the immediate successor of each. */
  lemma {:induction false} WhoMissesTheBlock(n: nat, w: Weather, k: nat, i: nat)
    requires i < n
    ensures var fs := Fates(n, w, k);
      && (fs[i] == Skipped <==> i > 0 && fs[i - 1] == Failed)
      && (fs[i] != Delivered <==> fs[i] == Failed || (i > 0 && fs[i - 1] == Failed))
    decreases n
  {
    var fs := Fates(n, w, k);
    if w(k) {
      if i > 0 {
        WhoMissesTheBlock(n - 1, w, k + 1, i - 1);
        assert fs[i] == Fates(n - 1, w, k + 1)[i - 1];
        if i > 1 { assert fs[i - 1] == Fates(n - 1, w, k + 1)[i - 2]; }
      }
    } else if i >= 2 {
      WhoMissesTheBlock(n - 2, w, k + 1, i - 2);
      assert fs[i] == Fates(n - 2, w, k + 1)[i - 2];
      if i > 2 { assert fs[i - 1] == Fates(n - 2, w, k + 1)[i - 3]; }
    }
  }

  /** Every client that is kept got the block exactly if only the last client's send may have failed. */
  lemma {:induction false} NobodySkippedIff(n: nat, w: Weather, k: nat)
    ensures Skipped !in Fates(n, w, k) <==> forall j :: k <= j < k + n - 1 ==> w(j)
  {
    if n > 1 && w(k) {
      NobodySkippedIff(n - 1, w, k + 1);
      assert Skipped in Fates(n, w, k) <==> Skipped in Fates(n - 1, w, k + 1);
    } else if n > 1 {
      assert Fates(n, w, k)[1] == Skipped && !w(k);
    }
  }

  // ----- a whole flush

  function Min(a: nat, b: nat): nat {
    if a < b then a else b
  }

  /** With a UDP client in the table a block fits the datagram buffer; otherwise all that is left is one block. */
  function BlockSize(net: Net, left: nat, bufSize: Size): (n: nat)
    ensures n <= left && (left > 0 ==> n > 0)
    ensures net.udpNum != 0 ==> n <= bufSize
  {
    if net.udpNum == 0 then left else Min(left, bufSize)
  }

  function SendBlock(net: Net, block: seq<Byte>, w: Weather): Net {
    var r := SendAll(net.table, block, w, net.sends);
    Net(r.table, net.udpNum - r.udpGone, net.wire + r.wire, net.closed + r.closed,
        net.console + (if r.table == [] then block else []), r.sends)
  }

  lemma {:induction false} SendAllSize(cs: seq<Client>, block: seq<Byte>, w: Weather, k: nat)
    ensures |SendAll(cs, block, w, k).table| <= |cs|
    decreases |cs|
  {
    if cs != [] {
      if w(k) {
        SendAllSize(cs[1..], block, w, k + 1);
      } else if |cs| > 1 {
        SendAllSize(cs[2..], block, w, k + 1);
      }
    }
  }

  function Flush(net: Net, buf: seq<Byte>, w: Weather, bufSize: Size): (r: Net)
    decreases |buf|
  {
    if buf == [] then net
    else
      var n := BlockSize(net, |buf|, bufSize);
      Flush(SendBlock(net, buf[..n], w), buf[n..], w, bufSize)
  }

  // ----- what a flush keeps

  /** Every socket of the module, in the table or closed. */
  function Sockets(net: Net): multiset<nat> {
    multiset(Hds(net.table)) + multiset(net.closed)
  }

  lemma HdsCons(c: Client, cs: seq<Client>)
    ensures Hds([c] + cs) == [c.hd] + Hds(cs)
    ensures Addrs([c] + cs) == [c.addrStr] + Addrs(cs)
    ensures CountUdp([c] + cs) == (if c.udp then 1 else 0) + CountUdp(cs)
  {
    assert ([c] + cs)[1..] == cs;
  }

  lemma NoClients()
    ensures Hds([]) == [] && Addrs([]) == [] && CountUdp([]) == 0
  {}

  /** Sockets are conserved, addresses only leave, and the counter loses exactly the UDP clients removed. */
  ghost predicate Conserves(cs: seq<Client>, table: seq<Client>, closed: seq<nat>, udpGone: nat) {
    && multiset(Hds(table)) + multiset(closed) == multiset(Hds(cs))
    && multiset(Addrs(table)) <= multiset(Addrs(cs))
    && CountUdp(table) + udpGone == CountUdp(cs)
  }

  /** A client that stays, perhaps with its counter advanced. */
  lemma ConservesKept(c: Client, d: Client, cs: seq<Client>, table: seq<Client>, closed: seq<nat>, udpGone: nat)
    requires Conserves(cs, table, closed, udpGone) && (d == c || d == Bump(c))
    ensures Conserves([c] + cs, [d] + table, closed, udpGone)
  {
    HdsCons(c, cs);
    HdsCons(d, table);
    hide Hds, Addrs, CountUdp;
  }

  lemma ConservesRemoved(c: Client, cs: seq<Client>, table: seq<Client>, closed: seq<nat>, udpGone: nat)
    requires Conserves(cs, table, closed, udpGone)
    ensures Conserves([c] + cs, table, [c.hd] + closed, (if c.udp then 1 else 0) + udpGone)
  {
    HdsCons(c, cs);
    hide Hds, Addrs, CountUdp;
  }

  lemma ConservesNothing()
    ensures Conserves([], [], [], 0)
  {
    NoClients();
  }

  /** One block conserves all that, whatever sends fail. */
  lemma {:induction false} SendAllKeeps(cs: seq<Client>, block: seq<Byte>, w: Weather, k: nat)
    ensures var r := SendAll(cs, block, w, k); Conserves(cs, r.table, r.closed, r.udpGone)
    decreases |cs|
  {
    hide SendAll, Conserves, Bump, Packet;
    SendAllNothing(block, w, k);
    ConservesNothing();
    if cs != [] {
      var c := cs[0];
      SendAllStep(cs, block, w, k);
      assert cs == [c] + cs[1..];
      if w(k) {
        var r := SendAll(cs[1..], block, w, k + 1);
        SendAllKeeps(cs[1..], block, w, k + 1);
        ConservesKept(c, Bump(c), cs[1..], r.table, r.closed, r.udpGone);
      } else if |cs| > 1 {
        var r := SendAll(cs[2..], block, w, k + 1);
        SendAllKeeps(cs[2..], block, w, k + 1);
        assert cs[1..] == [cs[1]] + cs[2..];
        ConservesKept(cs[1], cs[1], cs[2..], r.table, r.closed, r.udpGone);
        ConservesRemoved(c, cs[1..], [cs[1]] + r.table, r.closed, r.udpGone);
      } else {
        ConservesRemoved(c, [], [], [], 0);
        assert [c.hd] + [] == [c.hd] && cs[1..] == [];
      }
    }
  }

  lemma SendBlockKeeps(net: Net, block: seq<Byte>, w: Weather)
    ensures var r := SendBlock(net, block, w);
      && |r.table| <= |net.table|
      && Sockets(r) == Sockets(net)
      && multiset(Addrs(r.table)) <= multiset(Addrs(net.table))
      && r.udpNum - CountUdp(r.table) == net.udpNum - CountUdp(net.table)
  {
    SendAllSize(net.table, block, w, net.sends);
    SendAllKeeps(net.table, block, w, net.sends);
  }

  lemma {:induction false} FlushKeeps(net: Net, buf: seq<Byte>, w: Weather, bufSize: Size)
    ensures var r := Flush(net, buf, w, bufSize);
      && |r.table| <= |net.table|
      && Sockets(r) == Sockets(net)
      && multiset(Addrs(r.table)) <= multiset(Addrs(net.table))
      && r.udpNum - CountUdp(r.table) == net.udpNum - CountUdp(net.table)
    decreases |buf|
  {
    if buf != [] {
      var n := BlockSize(net, |buf|, bufSize);
      SendBlockKeeps(net, buf[..n], w);
      FlushKeeps(SendBlock(net, buf[..n], w), buf[n..], w, bufSize);
    }
  }
}
