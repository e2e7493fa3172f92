/**
 What a netlog client gets to see over a sequence of flushes: the logs, whole and
 in order, and consecutively numbered datagrams.
 */
module NetlogStreams {
  import opened Wrappers
  import opened NetlogTable
  import Ip

  predicate Distinct(cs: seq<Client>) {
    forall i, j :: 0 <= i < j < |cs| ==> cs[i].hd != cs[j].hd
  }

  /** What a socket has accepted, in order. */
  function To(wire: seq<Delivery>, hd: nat): seq<Delivery> {
    if wire == [] then []
    else To(wire[..|wire| - 1], hd) + (if wire[|wire| - 1].hd == hd then [wire[|wire| - 1]] else [])
  }

  lemma {:induction false} ToAppend(a: seq<Delivery>, b: seq<Delivery>, hd: nat)
    ensures To(a + b, hd) == To(a, hd) + To(b, hd)
  {
    if b == [] {
      assert a + b == a;
    } else {
      var c := b[..|b| - 1];
      assert (a + b)[..|a + b| - 1] == a + c;
      ToAppend(a, c, hd);
    }
  }

  /** The log text in a sequence of deliveries: a datagram's first byte is its number. */
  function Logs(ds: seq<Delivery>): seq<Byte> {
    if ds == [] then [] else Logs(ds[..|ds| - 1]) + LogOf(ds[|ds| - 1])
  }

  function LogOf(d: Delivery): seq<Byte> {
    if d.dest.Some? && d.bytes != [] then d.bytes[1..] else d.bytes
  }

  // ----- one block

  /** The first client's part of what a block puts on the wire. */
  function SentToFirst(c: Client, f: Fate, block: seq<Byte>): seq<Delivery> {
    if f.Delivered? then [Packet(c, block)] else []
  }

  lemma ToFirst(c: Client, f: Fate, block: seq<Byte>, hd: nat)
    ensures To(SentToFirst(c, f, block), hd) == if hd == c.hd then SentToFirst(c, f, block) else []
  {
    var d := SentToFirst(c, f, block);
    if d != [] {
      assert d[..0] == [] && To([], hd) == [];
    }
  }

  lemma {:induction false} NotSent(cs: seq<Client>, fs: seq<Fate>, block: seq<Byte>, hd: nat)
    requires |cs| == |fs| && forall i :: 0 <= i < |cs| ==> cs[i].hd != hd
    ensures To(Sent(cs, fs, block), hd) == []
  {
    if cs != [] {
      NotSent(cs[1..], fs[1..], block, hd);
      ToFirst(cs[0], fs[0], block, hd);
      ToAppend(SentToFirst(cs[0], fs[0], block), Sent(cs[1..], fs[1..], block), hd);
    }
  }

  /** A client's socket gets the block in one piece, or nothing. */
  lemma {:induction false} SentToEach(cs: seq<Client>, fs: seq<Fate>, block: seq<Byte>, i: nat)
    requires i < |cs| == |fs| && Distinct(cs)
    ensures To(Sent(cs, fs, block), cs[i].hd) == SentToFirst(cs[i], fs[i], block)
  {
    hide To, SentToFirst;
    var first, rest := SentToFirst(cs[0], fs[0], block), Sent(cs[1..], fs[1..], block);
    assert Sent(cs, fs, block) == first + rest by { SentSplit(cs, fs, block); }
    ToFirst(cs[0], fs[0], block, cs[i].hd);
    ToAppend(first, rest, cs[i].hd);
    if i == 0 {
      NotSent(cs[1..], fs[1..], block, cs[0].hd);
      assert first + [] == first;
    } else {
      SentToEach(cs[1..], fs[1..], block, i - 1);
      assert [] + To(rest, cs[i].hd) == To(rest, cs[i].hd);
    }
  }

  lemma SentSplit(cs: seq<Client>, fs: seq<Fate>, block: seq<Byte>)
    requires cs != [] && |cs| == |fs|
    ensures Sent(cs, fs, block) == SentToFirst(cs[0], fs[0], block) + Sent(cs[1..], fs[1..], block)
  {}

  /** Every client that stays was one of those before. */
  lemma {:induction false} KeptFrom(cs: seq<Client>, fs: seq<Fate>, j: nat) returns (i: nat)
    requires |cs| == |fs| && j < |Kept(cs, fs)|
    ensures i < |cs| && !fs[i].Failed? && j <= i
    ensures Kept(cs, fs)[j] == if fs[i].Delivered? then Bump(cs[i]) else cs[i]
  {
    var here := if fs[0].Failed? then 0 else 1;
    if j < here {
      i := 0;
    } else {
      var i' := KeptFrom(cs[1..], fs[1..], j - here);
      i := i' + 1;
    }
  }

  lemma {:induction false} KeptDistinct(cs: seq<Client>, fs: seq<Fate>)
    requires |cs| == |fs| && Distinct(cs)
    ensures Distinct(Kept(cs, fs))
  {
    if cs != [] {
      var rest := Kept(cs[1..], fs[1..]);
      KeptDistinct(cs[1..], fs[1..]);
      forall j | 0 <= j < |rest|
        ensures rest[j].hd != cs[0].hd
      {
        var i := KeptFrom(cs[1..], fs[1..], j);
      }
    }
  }

  // ----- packet numbers

  /** Datagrams numbered 0, 1, 2, ... modulo 128. */
  predicate Numbered(ds: seq<Delivery>) {
    forall j :: 0 <= j < |ds| ==> ds[j].dest.Some? && ds[j].bytes != [] && ds[j].bytes[0] == CountByte(j % PACK_MOD)
  }

  /** The datagrams a client got went to its address and are numbered; the next number is the one in the table. */
  predicate InStep(wire: seq<Delivery>, c: Client) {
    c.udp ==>
      var ds := To(wire, c.hd);
      && c.packCnt == |ds| % PACK_MOD && Numbered(ds)
      && c.addrStr == Ip.Text(c.addrPort) && forall j :: 0 <= j < |ds| ==> ds[j].dest == Some(c.addrPort)
  }

  predicate AllInStep(net: Net) {
    forall i :: 0 <= i < |net.table| ==> InStep(net.wire, net.table[i])
  }

  lemma NumberedMore(ds: seq<Delivery>, c: Client, block: seq<Byte>)
    requires Numbered(ds) && c.udp && c.packCnt == |ds| % PACK_MOD
    ensures Numbered(ds + [Packet(c, block)]) && Bump(c).packCnt == (|ds| + 1) % PACK_MOD
  {
    hide CountByte;
    NextNumber(|ds|);
    assert Packet(c, block).bytes[0] == CountByte(c.packCnt);
  }

  lemma NextNumber(n: nat)
    ensures (n % PACK_MOD + 1) % PACK_MOD == (n + 1) % PACK_MOD
  {}

  lemma PacketGoes(c: Client, block: seq<Byte>)
    requires c.udp
    ensures Packet(c, block).dest == Some(c.addrPort) && Bump(c).addrPort == c.addrPort
  {}

  lemma StepsOn(wire: seq<Delivery>, more: seq<Delivery>, c: Client, block: seq<Byte>)
    requires InStep(wire, c)
    ensures To(more, c.hd) == [Packet(c, block)] ==> InStep(wire + more, Bump(c))
    ensures To(more, c.hd) == [] ==> InStep(wire + more, c)
  {
    hide To, Numbered, Packet, Ip.Text;
    ToAppend(wire, more, c.hd);
    var ds := To(wire, c.hd);
    assert ds + [] == ds;
    if c.udp {
      NumberedMore(ds, c, block);
      PacketGoes(c, block);
    }
  }

  lemma BlockInStep(net: Net, block: seq<Byte>, w: Weather)
    requires Distinct(net.table) && AllInStep(net)
    ensures var r := SendBlock(net, block, w); Distinct(r.table) && AllInStep(r)
  {
    hide InStep, SendAll, Kept, Sent, Fates, Packet;
    var r := SendAll(net.table, block, w, net.sends);
    var fs := Fates(|net.table|, w, net.sends);
    SendAllIs(net.table, block, w, net.sends);
    KeptDistinct(net.table, fs);
    forall j | 0 <= j < |r.table|
      ensures InStep(net.wire + r.wire, r.table[j])
    {
      var i := KeptFrom(net.table, fs, j);
      SentToEach(net.table, fs, block, i);
      StepsOn(net.wire, r.wire, net.table[i], block);
    }
  }

  /** Whatever sends fail, the clients still in the table see consecutive numbers. */
  lemma {:induction false} FlushInStep(net: Net, buf: seq<Byte>, w: Weather, bufSize: Size)
    requires Distinct(net.table) && AllInStep(net)
    ensures var r := Flush(net, buf, w, bufSize); Distinct(r.table) && AllInStep(r)
    decreases |buf|
  {
    hide AllInStep, SendBlock;
    if buf != [] {
      var n := BlockSize(net, |buf|, bufSize);
      BlockInStep(net, buf[..n], w);
      FlushInStep(SendBlock(net, buf[..n], w), buf[n..], w, bufSize);
    }
  }

  lemma {:induction false} KeptHas(cs: seq<Client>, fs: seq<Fate>, i: nat)
    requires i < |cs| == |fs| && fs[i].Skipped?
    ensures cs[i] in Kept(cs, fs)
  {
    if i > 0 {
      KeptHas(cs[1..], fs[1..], i - 1);
    }
  }

  /**
   The client behind a removed one loses the block without a trace: it stays in
   the table with the same next number, so its next datagram looks consecutive.
   */
  lemma SkippedUnnoticed(net: Net, block: seq<Byte>, w: Weather, i: nat)
    requires Distinct(net.table) && i < |net.table|
    requires Fates(|net.table|, w, net.sends)[i] == Skipped
    ensures var r := SendBlock(net, block, w);
      net.table[i] in r.table && To(r.wire, net.table[i].hd) == To(net.wire, net.table[i].hd)
  {
    hide SendAll, Kept, Sent, Fates, To;
    var c, fs := net.table[i], Fates(|net.table|, w, net.sends);
    SendAllIs(net.table, block, w, net.sends);
    KeptHas(net.table, fs, i);
    SentToEach(net.table, fs, block, i);
    ToAppend(net.wire, SendAll(net.table, block, w, net.sends).wire, c.hd);
    assert To(net.wire, c.hd) + [] == To(net.wire, c.hd);
  }

  // ----- datagram size

  predicate Fits(wire: seq<Delivery>, bufSize: Size) {
    forall d :: d in wire && d.dest.Some? ==> |d.bytes| <= 1 + bufSize
  }

  lemma {:induction false} NoUdp(cs: seq<Client>)
    requires CountUdp(cs) == 0
    ensures forall c :: c in cs ==> !c.udp
  {
    if cs != [] {
      NoUdp(cs[1..]);
      assert forall c :: c in cs ==> c == cs[0] || c in cs[1..];
    }
  }

  lemma {:induction false} SentFits(cs: seq<Client>, fs: seq<Fate>, block: seq<Byte>, bufSize: Size)
    requires |cs| == |fs|
    requires |block| <= bufSize || forall c :: c in cs ==> !c.udp
    ensures Fits(Sent(cs, fs, block), bufSize)
  {
    if cs != [] {
      SentFits(cs[1..], fs[1..], block, bufSize);
      assert cs[0] in cs;
    }
  }

  /** Every datagram fits the UDP buffer. */
  lemma {:induction false} FlushFits(net: Net, buf: seq<Byte>, w: Weather, bufSize: Size)
    requires net.udpNum == CountUdp(net.table) && Fits(net.wire, bufSize)
    ensures Fits(Flush(net, buf, w, bufSize).wire, bufSize)
    decreases |buf|
  {
    if buf != [] {
      var n := BlockSize(net, |buf|, bufSize);
      var fs := Fates(|net.table|, w, net.sends);
      if net.udpNum == 0 {
        NoUdp(net.table);
      }
      SendAllIs(net.table, buf[..n], w, net.sends);
      SentFits(net.table, fs, buf[..n], bufSize);
      SendBlockKeeps(net, buf[..n], w);
      FlushFits(SendBlock(net, buf[..n], w), buf[n..], w, bufSize);
    }
  }

  // ----- what a client receives

  /** The client with that socket gets the block. */
  predicate Gets(net: Net, w: Weather, hd: nat) {
    exists i :: 0 <= i < |net.table| && net.table[i].hd == hd && Fates(|net.table|, w, net.sends)[i] == Delivered
  }

  lemma LogsOne(ds: seq<Delivery>, d: Delivery)
    ensures Logs(ds + [d]) == Logs(ds) + LogOf(d)
  {
    assert (ds + [d])[..|ds|] == ds;
  }

  lemma LogOfPacket(c: Client, block: seq<Byte>)
    ensures LogOf(Packet(c, block)) == block
  {}

  lemma BlockText(net: Net, block: seq<Byte>, w: Weather, hd: nat)
    requires Distinct(net.table)
    ensures Logs(To(SendBlock(net, block, w).wire, hd)) ==
            Logs(To(net.wire, hd)) + (if Gets(net, w, hd) then block else [])
  {
    hide SendAll, Kept, Sent, Fates, To, Logs, LogOf, Packet;
    var r := SendAll(net.table, block, w, net.sends);
    var fs := Fates(|net.table|, w, net.sends);
    SendAllIs(net.table, block, w, net.sends);
    ToAppend(net.wire, r.wire, hd);
    var old' := To(net.wire, hd);
    if i :| 0 <= i < |net.table| && net.table[i].hd == hd {
      SentToEach(net.table, fs, block, i);
      if fs[i].Delivered? {
        LogsOne(old', Packet(net.table[i], block));
        LogOfPacket(net.table[i], block);
      } else {
        assert forall k :: 0 <= k < |net.table| && net.table[k].hd == hd ==> k == i;
        assert old' + [] == old';
      }
    } else {
      NotSent(net.table, fs, block, hd);
      assert old' + [] == old';
    }
  }

  /** The blocks of a flush that the client with that socket gets, one behind the other. */
  function Received(net: Net, buf: seq<Byte>, w: Weather, bufSize: Size, hd: nat): seq<Byte>
    decreases |buf|
  {
    if buf == [] then []
    else
      var n := BlockSize(net, |buf|, bufSize);
      (if Gets(net, w, hd) then buf[..n] else []) +
      Received(SendBlock(net, buf[..n], w), buf[n..], w, bufSize, hd)
  }

  lemma BlockDistinct(net: Net, block: seq<Byte>, w: Weather)
    requires Distinct(net.table)
    ensures Distinct(SendBlock(net, block, w).table)
  {
    SendAllIs(net.table, block, w, net.sends);
    KeptDistinct(net.table, Fates(|net.table|, w, net.sends));
  }

  /** Whatever sends fail, a client receives exactly the blocks that were delivered to it. */
  lemma {:induction false} FlushText(net: Net, buf: seq<Byte>, w: Weather, bufSize: Size, hd: nat)
    requires Distinct(net.table)
    ensures Logs(To(Flush(net, buf, w, bufSize).wire, hd)) ==
            Logs(To(net.wire, hd)) + Received(net, buf, w, bufSize, hd)
    decreases |buf|
  {
    hide To, Logs, SendBlock, Gets;
    if buf == [] {
      assert Logs(To(net.wire, hd)) + [] == Logs(To(net.wire, hd));
    } else {
      var n := BlockSize(net, |buf|, bufSize);
      var b := SendBlock(net, buf[..n], w);
      BlockText(net, buf[..n], w, hd);
      BlockDistinct(net, buf[..n], w);
      FlushText(b, buf[n..], w, bufSize, hd);
      var x, y := if Gets(net, w, hd) then buf[..n] else [], Received(b, buf[n..], w, bufSize, hd);
      assert (Logs(To(net.wire, hd)) + x) + y == Logs(To(net.wire, hd)) + (x + y);
    }
  }

  // ----- nothing lost while no send fails

  /** The sends of these numbers succeed. */
  ghost predicate Quiet(w: Weather, lo: nat, hi: nat) {
    forall j: nat :: lo <= j < hi ==> w(j)
  }

  lemma {:induction false} SendsGrow(cs: seq<Client>, block: seq<Byte>, w: Weather, k: nat)
    ensures SendAll(cs, block, w, k).sends >= if cs == [] then k else k + 1
    decreases |cs|
  {
    if cs != [] {
      if w(k) {
        SendsGrow(cs[1..], block, w, k + 1);
      } else if |cs| > 1 {
        SendsGrow(cs[2..], block, w, k + 1);
      }
    }
  }

  lemma {:induction false} FlushSendsGrow(net: Net, buf: seq<Byte>, w: Weather, bufSize: Size)
    ensures Flush(net, buf, w, bufSize).sends >= net.sends
    decreases |buf|
  {
    if buf != [] {
      var n := BlockSize(net, |buf|, bufSize);
      SendsGrow(net.table, buf[..n], w, net.sends);
      FlushSendsGrow(SendBlock(net, buf[..n], w), buf[n..], w, bufSize);
    }
  }

  lemma {:induction false} QuietFates(cs: seq<Client>, block: seq<Byte>, w: Weather, k: nat)
    requires Quiet(w, k, SendAll(cs, block, w, k).sends)
    ensures forall i :: 0 <= i < |cs| ==> Fates(|cs|, w, k)[i] == Delivered
    decreases |cs|
  {
    if cs != [] {
      SendsGrow(cs, block, w, k);
      assert w(k);
      QuietFates(cs[1..], block, w, k + 1);
    }
  }

  lemma {:induction false} AllKept(cs: seq<Client>, fs: seq<Fate>)
    requires |cs| == |fs| && forall i :: 0 <= i < |fs| ==> fs[i] == Delivered
    ensures |Kept(cs, fs)| == |cs|
    ensures forall i :: 0 <= i < |cs| ==> Kept(cs, fs)[i] == Bump(cs[i])
  {
    if cs != [] {
      AllKept(cs[1..], fs[1..]);
    }
  }

  /** The same client, whatever its packet counter. */
  predicate Same(c: Client, d: Client) {
    c.hd == d.hd && c.udp == d.udp && c.addrStr == d.addrStr
  }

  /** The clients are the same ones, and each has got exactly `logs` since, a UDP client in `n` datagrams. */
  ghost predicate Gained(a: Net, b: Net, logs: seq<Byte>, n: nat) {
    && |a.table| == |b.table|
    && forall i :: 0 <= i < |a.table| ==>
         && Same(a.table[i], b.table[i])
         && Logs(To(b.wire, a.table[i].hd)) == Logs(To(a.wire, a.table[i].hd)) + logs
         && |To(b.wire, a.table[i].hd)| == |To(a.wire, a.table[i].hd)| + n
  }

  lemma BlockGained(net: Net, block: seq<Byte>, w: Weather)
    requires Distinct(net.table)
    requires Quiet(w, net.sends, SendBlock(net, block, w).sends)
    ensures Gained(net, SendBlock(net, block, w), block, 1)
  {
    hide SendAll, Kept, Sent, Fates, To, Logs, LogOf;
    var r := SendAll(net.table, block, w, net.sends);
    var fs := Fates(|net.table|, w, net.sends);
    SendAllIs(net.table, block, w, net.sends);
    QuietFates(net.table, block, w, net.sends);
    AllKept(net.table, fs);
    forall i | 0 <= i < |net.table|
      ensures Same(net.table[i], r.table[i])
      ensures Logs(To(net.wire + r.wire, net.table[i].hd)) == Logs(To(net.wire, net.table[i].hd)) + block
      ensures |To(net.wire + r.wire, net.table[i].hd)| == |To(net.wire, net.table[i].hd)| + 1
    {
      var c := net.table[i];
      SentToEach(net.table, fs, block, i);
      ToAppend(net.wire, r.wire, c.hd);
      LogsOne(To(net.wire, c.hd), Packet(c, block));
      LogOfPacket(c, block);
    }
  }

  lemma GainedMore(a: Net, b: Net, c: Net, x: seq<Byte>, y: seq<Byte>, m: nat, n: nat)
    requires Gained(a, b, x, m) && Gained(b, c, y, n)
    ensures Gained(a, c, x + y, m + n)
  {
    hide To, Logs;
    forall i | 0 <= i < |a.table|
      ensures Same(a.table[i], c.table[i])
      ensures Logs(To(c.wire, a.table[i].hd)) == Logs(To(a.wire, a.table[i].hd)) + (x + y)
      ensures |To(c.wire, a.table[i].hd)| == |To(a.wire, a.table[i].hd)| + (m + n)
    {
      var l := Logs(To(a.wire, a.table[i].hd));
      assert Same(a.table[i], b.table[i]) && Same(b.table[i], c.table[i]);
      assert (l + x) + y == l + (x + y);
    }
  }

  lemma NothingGained(net: Net)
    ensures Gained(net, net, [], 0)
  {
    hide To, Logs;
    forall i | 0 <= i < |net.table|
      ensures Logs(To(net.wire, net.table[i].hd)) + [] == Logs(To(net.wire, net.table[i].hd))
    {}
  }

  /** How many pieces of at most `size` bytes make `n` bytes. */
  function Pieces(n: nat, size: nat): nat
    requires size > 0
  {
    if n == 0 then 0 else 1 + Pieces(n - Min(n, size), size)
  }

  /** How many blocks a flush is cut into: with a UDP client as many as it takes, else one. */
  function Blocks(net: Net, n: nat, bufSize: Size): nat {
    if net.udpNum != 0 then Pieces(n, bufSize) else if n == 0 then 0 else 1
  }

  lemma {:induction false} SameCount(cs: seq<Client>, ds: seq<Client>)
    requires |cs| == |ds| && forall i :: 0 <= i < |cs| ==> Same(cs[i], ds[i])
    ensures CountUdp(cs) == CountUdp(ds)
  {
    if cs != [] {
      SameCount(cs[1..], ds[1..]);
    }
  }

  lemma BlockSame(net: Net, block: seq<Byte>, w: Weather)
    requires Distinct(net.table)
    requires Quiet(w, net.sends, SendBlock(net, block, w).sends)
    ensures SendBlock(net, block, w).udpNum == net.udpNum
  {
    hide SendBlock;
    var b := SendBlock(net, block, w);
    BlockGained(net, block, w);
    SameCount(net.table, b.table);
    SendBlockKeeps(net, block, w);
  }

  /**
   While no send fails each client gets exactly the flushed bytes, however they
   are cut into blocks, and a UDP client a datagram for each block.
   */
  lemma {:induction false} FlushGained(net: Net, buf: seq<Byte>, w: Weather, bufSize: Size)
    requires Distinct(net.table)
    requires Quiet(w, net.sends, Flush(net, buf, w, bufSize).sends)
    ensures Gained(net, Flush(net, buf, w, bufSize), buf, Blocks(net, |buf|, bufSize))
    decreases |buf|
  {
    hide Gained, SendBlock, Distinct;
    if buf == [] {
      NothingGained(net);
    } else {
      var n := BlockSize(net, |buf|, bufSize);
      var b := SendBlock(net, buf[..n], w);
      BlockSends(net, buf[..n], w);
      FlushSendsGrow(b, buf[n..], w, bufSize);
      BlockGained(net, buf[..n], w);
      BlockDistinct(net, buf[..n], w);
      BlockSame(net, buf[..n], w);
      assert Blocks(net, |buf|, bufSize) == 1 + Blocks(b, |buf| - n, bufSize);
      FlushGained(b, buf[n..], w, bufSize);
      GainedMore(net, b, Flush(b, buf[n..], w, bufSize), buf[..n], buf[n..], 1, Blocks(b, |buf| - n, bufSize));
      assert buf[..n] + buf[n..] == buf;
    }
  }

  lemma BlockSends(net: Net, block: seq<Byte>, w: Weather)
    ensures SendBlock(net, block, w).sends >= net.sends
  {
    SendsGrow(net.table, block, w, net.sends);
  }

  /** A flush reaches a UDP client as a single datagram exactly if it is not empty and fits the buffer. */
  lemma OneDatagramIff(net: Net, buf: seq<Byte>, w: Weather, bufSize: Size, i: nat)
    requires Distinct(net.table)
    requires net.udpNum == CountUdp(net.table) && i < |net.table| && net.table[i].udp
    requires Quiet(w, net.sends, Flush(net, buf, w, bufSize).sends)
    ensures var hd := net.table[i].hd;
      |To(Flush(net, buf, w, bufSize).wire, hd)| == |To(net.wire, hd)| + 1 <==> 0 < |buf| <= bufSize
  {
    hide To, Logs, Flush;
    CountUdpAt(net.table, i);
    FlushGained(net, buf, w, bufSize);
    OnePiece(|buf|, bufSize);
  }

  lemma OnePiece(n: nat, size: nat)
    requires size > 0
    ensures Pieces(n, size) == 1 <==> 0 < n <= size
  {
    if n > size {
      assert Pieces(n - size, size) > 0;
    } else if n > 0 {
      assert Pieces(n - Min(n, size), size) == 0;
    }
  }

  /** One byte more than the buffer holds makes two datagrams. */
  lemma TwoDatagrams(net: Net, buf: seq<Byte>, w: Weather, bufSize: Size, i: nat)
    requires Distinct(net.table) && |buf| == bufSize + 1
    requires net.udpNum == CountUdp(net.table) && i < |net.table| && net.table[i].udp
    requires Quiet(w, net.sends, Flush(net, buf, w, bufSize).sends)
    ensures var hd := net.table[i].hd;
      |To(Flush(net, buf, w, bufSize).wire, hd)| == |To(net.wire, hd)| + 2
  {
    hide To, Logs, Flush;
    CountUdpAt(net.table, i);
    FlushGained(net, buf, w, bufSize);
    assert Pieces(1, bufSize) == 1;
  }

  // ----- a send that fails

  /** Two clients, and the first one's send fails: the second gets nothing either, and is kept. */
  lemma SecondOfTwoSkipped(a: Client, b: Client, block: seq<Byte>)
    ensures var w: Weather := k => k > 0;
      var r := SendBlock(Net([a, b], CountUdp([a, b]), [], [], [], 0), block, w);
      r.table == [b] && r.wire == [] && r.closed == [a.hd]
  {
    var w: Weather := k => k > 0;
    SendAllStep([a, b], block, w, 0);
    assert [a, b][2..] == [];
    SendAllNothing(block, w, 1);
  }

  // ----- the console

  /** A flush with nobody in the table goes to the console whole; one that leaves a client in it, not at all. */
  lemma {:induction false} FlushToConsole(net: Net, buf: seq<Byte>, w: Weather, bufSize: Size)
    ensures net.table == [] ==>
      Flush(net, buf, w, bufSize).table == [] && Flush(net, buf, w, bufSize).console == net.console + buf
    ensures Flush(net, buf, w, bufSize).table != [] ==> Flush(net, buf, w, bufSize).console == net.console
    decreases |buf|
  {
    if buf == [] {
      assert net.console + [] == net.console;
    } else {
      var n := BlockSize(net, |buf|, bufSize);
      var b := SendBlock(net, buf[..n], w);
      FlushToConsole(b, buf[n..], w, bufSize);
      SendAllSize(net.table, buf[..n], w, net.sends);
      assert net.console + buf == (net.console + buf[..n]) + buf[n..];
      assert net.console + [] == net.console;
    }
  }
}
