/**
 Every run of NetlogRuns is safe: each section and each flush keeps the invariant,
 whatever the interleaving.
 */
module NetlogSafety {
  import opened Wrappers
  import opened NetlogTable
  import opened NetlogStreams
  import opened NetlogRuns
  import Ip

  // ----- adding a client

  lemma SocketsDistinct(net: Net, nextHd: nat)
    requires SocketsOk(net, nextHd)
    ensures Distinct(net.table)
  {
    var hds := Hds(net.table);
    forall i, j | 0 <= i < j < |net.table|
      ensures net.table[i].hd != net.table[j].hd
    {
      TwiceIn(hds, i, j);
      assert Sockets(net)[hds[i]] <= 1;
    }
  }

  lemma TwiceIn<T>(s: seq<T>, i: nat, j: nat)
    requires i < j < |s|
    ensures s[i] == s[j] ==> multiset(s)[s[i]] >= 2
  {
    assert s == s[..i] + [s[i]] + s[i + 1..j] + [s[j]] + s[j + 1..];
  }

  lemma AddedLists(cs: seq<Client>, c: Client)
    ensures Hds(cs + [c]) == Hds(cs) + [c.hd] && Addrs(cs + [c]) == Addrs(cs) + [c.addrStr]
    ensures CountUdp(cs + [c]) == CountUdp(cs) + (if c.udp then 1 else 0)
  {
    CountUdpAppend(cs, [c]);
    assert [c][1..] == [];
  }

  lemma InsertKeeps(s: Sys, c: Client, maxClients: nat, bufSize: Size)
    requires Inv(s, maxClients, bufSize) && s.ctl.Connected?
    requires IsSubscription(c, s.ctl.hd, s.ctl.udp, s.ctl.addr)
    ensures Inv(s.(net := Subscribed(s.net, c), ctl := Idle), maxClients, bufSize)
  {
    var net, t := s.net, Subscribed(s.net, c);
    AddedLists(net.table, c);
    assert multiset(Addrs(t.table)) == multiset(Addrs(net.table)) + multiset{c.addrStr};
    assert Sockets(t) == Sockets(net) + multiset{c.hd};
    SocketsDistinct(t, s.nextHd);
    InsertInStep(net, c);
  }

  lemma InsertInStep(net: Net, c: Client)
    requires AllInStep(net) && To(net.wire, c.hd) == []
    requires c.udp ==> c.packCnt == 0 && c.addrStr == Ip.Text(c.addrPort)
    ensures AllInStep(Subscribed(net, c))
  {
    var t := Subscribed(net, c);
    forall i | 0 <= i < |t.table|
      ensures InStep(t.wire, t.table[i])
    {
      if i < |net.table| {
        assert t.table[i] == net.table[i];
      }
    }
  }

  // ----- removing a client

  lemma WithoutOne<T>(s: seq<T>, i: nat)
    requires i < |s|
    ensures multiset(s) == multiset(s[..i] + s[i + 1..]) + multiset{s[i]}
  {
    assert s == s[..i] + [s[i]] + s[i + 1..];
  }

  lemma RemovedHds(cs: seq<Client>, i: nat)
    requires i < |cs|
    ensures multiset(Hds(cs)) == multiset(Hds(Remove(cs, i))) + multiset{cs[i].hd}
  {
    var h := Hds(cs);
    WithoutOne(h, i);
    assert Hds(Remove(cs, i)) == h[..i] + h[i + 1..];
  }

  lemma RemovedAddrs(cs: seq<Client>, i: nat)
    requires i < |cs|
    ensures multiset(Addrs(cs)) == multiset(Addrs(Remove(cs, i))) + multiset{cs[i].addrStr}
  {
    var a := Addrs(cs);
    WithoutOne(a, i);
    assert Addrs(Remove(cs, i)) == a[..i] + a[i + 1..];
  }

  lemma RemovedUdp(cs: seq<Client>, i: nat)
    requires i < |cs|
    ensures CountUdp(cs) == CountUdp(Remove(cs, i)) + (if cs[i].udp then 1 else 0)
  {
    CountUdpAt(cs, i);
    CountUdpAppend(cs[..i], cs[i + 1..]);
  }

  lemma RemoveInStep(net: Net, i: nat)
    requires i < |net.table| && AllInStep(net)
    ensures AllInStep(net.(table := Remove(net.table, i)))
  {
    hide InStep;
    var t := Remove(net.table, i);
    forall j | 0 <= j < |t|
      ensures InStep(net.wire, t[j])
    {
      assert t[j] == net.table[if j < i then j else j + 1];
    }
  }

  lemma FewerAddrs(a: Net, b: Net)
    requires AddrsDistinct(a) && multiset(Addrs(b.table)) <= multiset(Addrs(a.table))
    ensures AddrsDistinct(b)
  {
    forall x
      ensures multiset(Addrs(b.table))[x] <= 1
    {
      assert multiset(Addrs(a.table))[x] <= 1;
    }
  }

  lemma UnsubscribeKeeps(s: Sys, a: string, maxClients: nat, bufSize: Size)
    requires Inv(s, maxClients, bufSize) && s.ctl.Idle?
    ensures Inv(s.(net := Unsubscribed(s.net, a)), maxClients, bufSize)
  {
    hide InStep, To, CountUdp, Hds, Addrs, Fits, AddrsDistinct, Silent;
    var net, t := s.net, Unsubscribed(s.net, a);
    var i := IndexOf(net.table, a);
    if i >= 0 {
      RemovedHds(net.table, i);
      RemovedAddrs(net.table, i);
      RemovedUdp(net.table, i);
      assert Sockets(t) == Sockets(net);
      FewerAddrs(net, t);
      SocketsDistinct(t, s.nextHd);
      RemoveInStep(net, i);
      SilentToo(net, t);
    }
  }

  lemma SilentToo(a: Net, b: Net)
    requires Silent(a) && Sockets(b) == Sockets(a) && b.wire == a.wire
    ensures Silent(b)
  {}

  // ----- flushing

  /** A socket that is not in the table gets nothing from a flush. */
  lemma {:induction false} FlushMisses(net: Net, buf: seq<Byte>, w: Weather, bufSize: Size, h: nat)
    requires h !in Hds(net.table)
    ensures To(Flush(net, buf, w, bufSize).wire, h) == To(net.wire, h)
    decreases |buf|
  {
    hide SendAll, Sent, Fates, To;
    if buf != [] {
      var n := BlockSize(net, |buf|, bufSize);
      var fs := Fates(|net.table|, w, net.sends);
      var r := SendAll(net.table, buf[..n], w, net.sends);
      SendAllIs(net.table, buf[..n], w, net.sends);
      forall i | 0 <= i < |net.table|
        ensures net.table[i].hd != h
      {
        assert Hds(net.table)[i] == net.table[i].hd;
      }
      NotSent(net.table, fs, buf[..n], h);
      ToAppend(net.wire, r.wire, h);
      assert To(net.wire, h) + [] == To(net.wire, h);
      SendAllKeeps(net.table, buf[..n], w, net.sends);
      assert h in Hds(r.table) ==> h in multiset(Hds(r.table)) && h in multiset(Hds(net.table));
      FlushMisses(SendBlock(net, buf[..n], w), buf[n..], w, bufSize, h);
    }
  }

  lemma FlushKeepsInv(s: Sys, buf: seq<Byte>, w: Weather, maxClients: nat, bufSize: Size)
    requires Inv(s, maxClients, bufSize)
    ensures Inv(s.(net := Flush(s.net, buf, w, bufSize)), maxClients, bufSize)
  {
    hide Flush;
    var net := s.net;
    var t := Flush(net, buf, w, bufSize);
    FlushKeeps(net, buf, w, bufSize);
    FlushInStep(net, buf, w, bufSize);
    FlushFits(net, buf, w, bufSize);
    forall a
      ensures multiset(Addrs(t.table))[a] <= 1 && (a in Addrs(t.table) ==> a in Addrs(net.table))
    {
      assert multiset(Addrs(t.table))[a] <= multiset(Addrs(net.table))[a] <= 1;
    }
    forall h | h !in Sockets(t)
      ensures To(t.wire, h) == []
    {
      assert h in Hds(net.table) ==> h in multiset(Hds(net.table));
      FlushMisses(net, buf, w, bufSize, h);
    }
  }

  /** Every event keeps the invariant. */
  lemma NextKeeps(s: Sys, ev: Event, t: Sys, maxClients: nat, bufSize: Size)
    requires Inv(s, maxClients, bufSize) && Next(s, ev, t, maxClients, bufSize)
    ensures Inv(t, maxClients, bufSize)
  {
    match ev
    case Subscribe(_, _) =>
    case CheckRoom =>
    case OpenSocket(_, _) =>
      assert Sockets(s.net)[s.nextHd] == 0;
    case InsertEntry(c) => InsertKeeps(s, c, maxClients, bufSize);
    case Unsubscribe(a) => UnsubscribeKeeps(s, Ip.Text(a), maxClients, bufSize);
    case FlushBy(buf, w) => FlushKeepsInv(s, buf, w, maxClients, bufSize);
  }

  lemma {:induction false} RunKeeps(ss: seq<Sys>, evs: seq<Event>, maxClients: nat, bufSize: Size, i: nat)
    requires IsRun(ss, evs, maxClients, bufSize) && i < |ss|
    ensures Inv(ss[i], maxClients, bufSize)
  {
    if i == 0 {
      InitOk(maxClients, bufSize);
    } else {
      RunKeeps(ss, evs, maxClients, bufSize, i - 1);
      assert Next(ss[i - 1], evs[i - 1], ss[i - 1 + 1], maxClients, bufSize);
      NextKeeps(ss[i - 1], evs[i - 1], ss[i], maxClients, bufSize);
    }
  }

  /**
   In every state of every interleaving: the assertion in ctl_sub holds, the table
   is within bounds, its UDP counter is exact, no two clients have the same
   address and port, and no socket was closed twice or is closed and still in use.
   */
  lemma RunSafe(ss: seq<Sys>, evs: seq<Event>, maxClients: nat, bufSize: Size, i: nat)
    requires IsRun(ss, evs, maxClients, bufSize) && i < |ss|
    ensures var net := ss[i].net;
      && AssertHolds(ss[i], maxClients)
      && |net.table| <= maxClients && net.udpNum == CountUdp(net.table)
      && (forall j, k :: 0 <= j < k < |net.table| ==> net.table[j].addrStr != net.table[k].addrStr)
      && (forall j, k :: 0 <= j < k < |net.closed| ==> net.closed[j] != net.closed[k])
      && (forall j, k :: 0 <= j < |net.table| && 0 <= k < |net.closed| ==> net.table[j].hd != net.closed[k])
  {
    RunKeeps(ss, evs, maxClients, bufSize, i);
    var net := ss[i].net;
    forall j, k | 0 <= j < k < |net.table|
      ensures net.table[j].addrStr != net.table[k].addrStr
    {
      TwiceIn(Addrs(net.table), j, k);
    }
    forall j, k | 0 <= j < k < |net.closed|
      ensures net.closed[j] != net.closed[k]
    {
      TwiceIn(net.closed, j, k);
      assert Sockets(net)[net.closed[j]] <= 1;
    }
    forall j, k | 0 <= j < |net.table| && 0 <= k < |net.closed|
      ensures net.table[j].hd != net.closed[k]
    {
      assert Hds(net.table)[j] in multiset(Hds(net.table));
      assert net.closed[k] in multiset(net.closed);
      assert Sockets(net)[net.closed[k]] <= 1;
    }
  }

  /**
   In every state of every interleaving a UDP client's datagrams are numbered
   consecutively from its subscription on.
   */
  lemma RunNumbered(ss: seq<Sys>, evs: seq<Event>, maxClients: nat, bufSize: Size, i: nat, j: nat)
    requires IsRun(ss, evs, maxClients, bufSize) && i < |ss|
    requires j < |ss[i].net.table| && ss[i].net.table[j].udp
    ensures var ds := To(ss[i].net.wire, ss[i].net.table[j].hd);
      forall k :: 0 <= k < |ds| ==>
        && 0 < |ds[k].bytes| <= 1 + bufSize && ds[k].bytes[0] == k % 128
        && ds[k].dest.Some? && Ip.Text(ds[k].dest.value) == ss[i].net.table[j].addrStr
  {
    RunKeeps(ss, evs, maxClients, bufSize, i);
    var net := ss[i].net;
    assert InStep(net.wire, net.table[j]);
    ToIsIn(net.wire, net.table[j].hd);
  }

  lemma {:induction false} ToIsIn(wire: seq<Delivery>, h: nat)
    ensures forall d :: d in To(wire, h) ==> d in wire
  {
    if wire != [] {
      ToIsIn(wire[..|wire| - 1], h);
    }
  }

  // ----- getting in

  /**
   While there is room an absent address gets in: the control task's sections, one
   after the other, lead to a table with its client behind the others. With the
   table full they lead back with nothing changed.
   */
  lemma JoinsIfRoom(s: Sys, a: Ip.IpAddr, udp: bool, maxClients: nat, bufSize: Size)
      returns (ss: seq<Sys>, evs: seq<Event>)
    requires s.ctl.Idle? && Ip.Text(a) !in Addrs(s.net.table) && |s.net.table| <= maxClients
    ensures |ss| == |evs| + 1 && |evs| >= 2 && ss[0] == s && ss[|evs|].ctl.Idle?
    ensures evs[0] == Subscribe(a, if udp then Udp else Tcp)
    ensures forall i :: 0 <= i < |evs| ==> Next(ss[i], evs[i], ss[i + 1], maxClients, bufSize)
    ensures if |s.net.table| < maxClients then
        exists c :: IsSubscription(c, s.nextHd, udp, a) && ss[|evs|].net.table == s.net.table + [c]
      else ss[|evs|] == s
  {
    hide Ip.Text;
    var p := if udp then Udp else Tcp;
    var s1 := s.(ctl := Absent(a, p));
    if |s.net.table| == maxClients {
      ss, evs := [s, s1, s], [Subscribe(a, p), CheckRoom];
    } else {
      var s2 := s.(ctl := Room(a, p));
      var s3 := s.(ctl := Connected(a, udp, s.nextHd), nextHd := s.nextHd + 1);
      var c := NetlogTable.Client(s.nextHd, Ip.Text(a), udp, 0, a);
      var s4 := s3.(net := Subscribed(s.net, c), ctl := Idle);
      assert IsSubscription(c, s.nextHd, udp, a) && s4.net.table == s.net.table + [c];
      ss, evs := [s, s1, s2, s3, s4], [Subscribe(a, p), CheckRoom, OpenSocket(true, true), InsertEntry(c)];
    }
  }

  /** What the control task has been through when it is in the middle of a subscription. */
  ghost predicate Asked(ss: seq<Sys>, evs: seq<Event>, i: nat, a: Ip.IpAddr, p: Proto)
    requires |ss| == |evs| + 1
  {
    i < |evs| && evs[i] == Subscribe(a, p) && Ip.Text(a) !in Addrs(ss[i].net.table)
  }

  ghost predicate FoundRoom(ss: seq<Sys>, evs: seq<Event>, i: nat, maxClients: nat)
    requires |ss| == |evs| + 1
  {
    i < |evs| && evs[i] == CheckRoom && |ss[i].net.table| != maxClients
  }

  ghost predicate Opened(ss: seq<Sys>, evs: seq<Event>, i: nat, p: Proto)
    requires |ss| == |evs| + 1
  {
    i < |evs| && evs[i].OpenSocket? && evs[i].socketOk && (p == Udp || (p == Tcp && evs[i].connectOk))
  }

  lemma {:induction false} WhenAbsent(ss: seq<Sys>, evs: seq<Event>, maxClients: nat, bufSize: Size, n: nat)
      returns (i: nat)
    requires IsRun(ss, evs, maxClients, bufSize) && n < |ss| && ss[n].ctl.Absent?
    ensures i < n && Asked(ss, evs, i, ss[n].ctl.addr, ss[n].ctl.proto)
  {
    hide Flush, Ip.Text;
    assert n > 0;
    assert Next(ss[n - 1], evs[n - 1], ss[n - 1 + 1], maxClients, bufSize);
    if evs[n - 1].Subscribe? {
      i := n - 1;
    } else {
      i := WhenAbsent(ss, evs, maxClients, bufSize, n - 1);
    }
  }

  lemma {:induction false} WhenRoom(ss: seq<Sys>, evs: seq<Event>, maxClients: nat, bufSize: Size, n: nat)
      returns (i: nat, j: nat)
    requires IsRun(ss, evs, maxClients, bufSize) && n < |ss| && ss[n].ctl.Room?
    ensures i < j < n && Asked(ss, evs, i, ss[n].ctl.addr, ss[n].ctl.proto) && FoundRoom(ss, evs, j, maxClients)
  {
    hide Flush, Asked;
    assert n > 0;
    assert Next(ss[n - 1], evs[n - 1], ss[n - 1 + 1], maxClients, bufSize);
    if evs[n - 1].CheckRoom? {
      i := WhenAbsent(ss, evs, maxClients, bufSize, n - 1);
      j := n - 1;
    } else {
      i, j := WhenRoom(ss, evs, maxClients, bufSize, n - 1);
    }
  }

  lemma {:induction false} WhenConnected(ss: seq<Sys>, evs: seq<Event>, maxClients: nat, bufSize: Size, n: nat)
      returns (i: nat, j: nat, k: nat, p: Proto)
    requires IsRun(ss, evs, maxClients, bufSize) && n < |ss| && ss[n].ctl.Connected?
    ensures i < j < k < n && Asked(ss, evs, i, ss[n].ctl.addr, p) && FoundRoom(ss, evs, j, maxClients)
    ensures Opened(ss, evs, k, p) && ss[n].ctl.udp == (p == Udp)
  {
    hide Flush, Asked, FoundRoom;
    assert n > 0;
    assert Next(ss[n - 1], evs[n - 1], ss[n - 1 + 1], maxClients, bufSize);
    if evs[n - 1].OpenSocket? {
      i, j := WhenRoom(ss, evs, maxClients, bufSize, n - 1);
      k, p := n - 1, ss[n - 1].ctl.proto;
    } else {
      i, j, k, p := WhenConnected(ss, evs, maxClients, bufSize, n - 1);
    }
  }

  /**
   In every run a client is put into the table only after it asked while it was not
   in it, room was found, and its socket was opened, for TCP also connected.
   */
  lemma JoinsOnlyIfAsked(ss: seq<Sys>, evs: seq<Event>, maxClients: nat, bufSize: Size, n: nat)
      returns (i: nat, j: nat, k: nat, p: Proto)
    requires IsRun(ss, evs, maxClients, bufSize) && n < |evs| && evs[n].InsertEntry?
    ensures i < j < k < n && p != Other
    ensures evs[i].Subscribe? && evs[i].proto == p && evs[n].c.addrStr == Ip.Text(evs[i].addr)
    ensures evs[n].c.addrStr !in Addrs(ss[i].net.table)
    ensures evs[j] == CheckRoom && |ss[j].net.table| < maxClients
    ensures evs[k].OpenSocket? && evs[k].socketOk && (p == Tcp ==> evs[k].connectOk) && evs[n].c.udp == (p == Udp)
  {
    hide Flush, Ip.Text, Inv;
    assert Next(ss[n], evs[n], ss[n + 1], maxClients, bufSize);
    i, j, k, p := WhenConnected(ss, evs, maxClients, bufSize, n);
    RunKeeps(ss, evs, maxClients, bufSize, j);
    InvSize(ss[j], maxClients, bufSize);
  }

  lemma InvSize(s: Sys, maxClients: nat, bufSize: Size)
    requires Inv(s, maxClients, bufSize)
    ensures |s.net.table| <= maxClients
  {}
}
