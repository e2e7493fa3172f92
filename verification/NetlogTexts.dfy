/**
 The text a client receives over a whole run of NetlogRuns, while others join and
 leave, flush, and fail.
 */
module NetlogTexts {
  import opened Wrappers
  import opened NetlogTable
  import opened NetlogStreams
  import opened NetlogRuns
  import opened NetlogSafety
  import Ip

  /** A client's entry is made in step `i`, for the socket `hd`. */
  ghost predicate Joins(ss: seq<Sys>, evs: seq<Event>, i: nat, hd: nat)
    requires |ss| == |evs| + 1
  {
    i < |evs| && evs[i].InsertEntry? && evs[i].c.hd == hd
  }

  /** The blocks the client with that socket gets in steps `i` to `j`. */
  ghost function ReceivedIn(ss: seq<Sys>, evs: seq<Event>, bufSize: Size, i: nat, j: nat, hd: nat): seq<Byte>
    requires |ss| == |evs| + 1 && i <= j <= |evs|
  {
    if i == j then []
    else
      ReceivedIn(ss, evs, bufSize, i, j - 1, hd) +
      (if evs[j - 1].FlushBy? then Received(ss[j - 1].net, evs[j - 1].buf, evs[j - 1].w, bufSize, hd) else [])
  }

  /** Everything flushed in steps `i` to `j`, by any task. */
  function FlushedIn(evs: seq<Event>, i: nat, j: nat): seq<Byte>
    requires i <= j <= |evs|
  {
    if i == j then []
    else FlushedIn(evs, i, j - 1) + (if evs[j - 1].FlushBy? then evs[j - 1].buf else [])
  }

  /** Every send of the flushes in steps `i` to `j` succeeds. */
  ghost predicate NoSendFails(ss: seq<Sys>, evs: seq<Event>, i: nat, j: nat)
    requires |ss| == |evs| + 1 && j <= |evs|
  {
    forall n :: i <= n < j && evs[n].FlushBy? ==> Quiet(evs[n].w, ss[n].net.sends, ss[n + 1].net.sends)
  }

  lemma JoinsSilent(ss: seq<Sys>, evs: seq<Event>, maxClients: nat, bufSize: Size, i: nat, hd: nat)
    requires IsRun(ss, evs, maxClients, bufSize) && Joins(ss, evs, i, hd)
    ensures To(ss[i + 1].net.wire, hd) == [] && Logs([]) == []
    ensures hd in Sockets(ss[i + 1].net)
  {
    RunKeeps(ss, evs, maxClients, bufSize, i);
    assert Next(ss[i], evs[i], ss[i + 1], maxClients, bufSize);
    AddedLists(ss[i].net.table, evs[i].c);
  }

  /** Anything but a flush sends nothing. */
  lemma OnlyFlushSends(s: Sys, ev: Event, t: Sys, maxClients: nat, bufSize: Size)
    requires Next(s, ev, t, maxClients, bufSize) && !ev.FlushBy?
    ensures t.net.wire == s.net.wire
  {}

  /**
   In every run, whatever joins, leaves and fails: since its subscription a
   client has received exactly the blocks that were delivered to it.
   */
  lemma {:induction false} RunText(ss: seq<Sys>, evs: seq<Event>, maxClients: nat, bufSize: Size,
                                   i: nat, j: nat, hd: nat)
    requires IsRun(ss, evs, maxClients, bufSize) && Joins(ss, evs, i, hd) && i < j < |ss|
    ensures Logs(To(ss[j].net.wire, hd)) == ReceivedIn(ss, evs, bufSize, i + 1, j, hd)
    decreases j
  {
    hide Next, Inv, To, Logs, Received;
    if j == i + 1 {
      JoinsSilent(ss, evs, maxClients, bufSize, i, hd);
    } else {
      RunText(ss, evs, maxClients, bufSize, i, j - 1, hd);
      RunKeeps(ss, evs, maxClients, bufSize, j - 1);
      assert Next(ss[j - 1], evs[j - 1], ss[j - 1 + 1], maxClients, bufSize);
      TextStep(ss[j - 1], evs[j - 1], ss[j], maxClients, bufSize, hd);
    }
  }

  lemma TextStep(s: Sys, ev: Event, t: Sys, maxClients: nat, bufSize: Size, hd: nat)
    requires Inv(s, maxClients, bufSize) && Next(s, ev, t, maxClients, bufSize)
    ensures Logs(To(t.net.wire, hd)) ==
            Logs(To(s.net.wire, hd)) + (if ev.FlushBy? then Received(s.net, ev.buf, ev.w, bufSize, hd) else [])
  {
    hide Logs, To, Received, Flush;
    if ev.FlushBy? {
      FlushText(s.net, ev.buf, ev.w, bufSize, hd);
    } else {
      OnlyFlushSends(s, ev, t, maxClients, bufSize);
      assert Logs(To(s.net.wire, hd)) + [] == Logs(To(s.net.wire, hd));
    }
  }

  /** A socket once known stays known, and none comes back into the table. */
  lemma StillThere(s: Sys, ev: Event, t: Sys, maxClients: nat, bufSize: Size, hd: nat)
    requires Inv(s, maxClients, bufSize) && Next(s, ev, t, maxClients, bufSize)
    requires hd in Sockets(s.net)
    ensures hd in Sockets(t.net)
    ensures hd in Hds(t.net.table) ==> hd in Hds(s.net.table)
  {
    hide Hds, Flush, Addrs, CountUdp, InStep, Fits;
    NextKeeps(s, ev, t, maxClients, bufSize);
    assert Sockets(s.net)[hd] >= 1;
    match ev
    case InsertEntry(c) => AddedLists(s.net.table, c);
    case Unsubscribe(a) =>
      var i := IndexOf(s.net.table, Ip.Text(a));
      if i >= 0 {
        RemovedHds(s.net.table, i);
        assert hd in Hds(t.net.table) ==> hd in multiset(Hds(t.net.table));
        assert hd in multiset(Hds(s.net.table)) ==> hd in Hds(s.net.table);
      }
    case FlushBy(buf, w) =>
      FlushKeeps(s.net, buf, w, bufSize);
      FlushClosesMore(s.net, buf, w, bufSize);
      assert hd in Hds(t.net.table) ==> hd in multiset(Hds(t.net.table));
      assert hd in multiset(Hds(s.net.table)) ==> hd in Hds(s.net.table);
    case _ =>
  }

  lemma {:induction false} FlushClosesMore(net: Net, buf: seq<Byte>, w: Weather, bufSize: Size)
    ensures multiset(net.closed) <= multiset(Flush(net, buf, w, bufSize).closed)
    decreases |buf|
  {
    if buf != [] {
      var n := BlockSize(net, |buf|, bufSize);
      FlushClosesMore(SendBlock(net, buf[..n], w), buf[n..], w, bufSize);
    }
  }

  /**
   In every run: while a client is in the table and no send fails, it has
   received exactly what was flushed since its subscription, by whichever tasks,
   however the coming and going of other clients changed the cutting into blocks.
   */
  lemma {:induction false} RunDelivers(ss: seq<Sys>, evs: seq<Event>, maxClients: nat, bufSize: Size,
                                       i: nat, j: nat, hd: nat)
    requires IsRun(ss, evs, maxClients, bufSize) && Joins(ss, evs, i, hd) && i < j < |ss|
    requires hd in Hds(ss[j].net.table) && NoSendFails(ss, evs, i + 1, j)
    ensures hd in Sockets(ss[j].net)
    ensures Logs(To(ss[j].net.wire, hd)) == FlushedIn(evs, i + 1, j)
    decreases j
  {
    hide Next, Inv, To, Logs, Sockets, Hds, Quiet;
    if j == i + 1 {
      JoinsSilent(ss, evs, maxClients, bufSize, i, hd);
    } else {
      RunKeeps(ss, evs, maxClients, bufSize, j - 1);
      assert Next(ss[j - 1], evs[j - 1], ss[j - 1 + 1], maxClients, bufSize);
      JoinedStays(ss, evs, maxClients, bufSize, i, j - 1, hd);
      StillThere(ss[j - 1], evs[j - 1], ss[j], maxClients, bufSize, hd);
      RunDelivers(ss, evs, maxClients, bufSize, i, j - 1, hd);
      DeliverStep(ss[j - 1], evs[j - 1], ss[j], maxClients, bufSize, hd);
    }
  }

  lemma {:induction false} JoinedStays(ss: seq<Sys>, evs: seq<Event>, maxClients: nat, bufSize: Size,
                                       i: nat, j: nat, hd: nat)
    requires IsRun(ss, evs, maxClients, bufSize) && Joins(ss, evs, i, hd) && i < j < |ss|
    ensures hd in Sockets(ss[j].net)
    decreases j
  {
    hide Next, Inv, Sockets, Hds;
    if j == i + 1 {
      JoinsSilent(ss, evs, maxClients, bufSize, i, hd);
    } else {
      JoinedStays(ss, evs, maxClients, bufSize, i, j - 1, hd);
      RunKeeps(ss, evs, maxClients, bufSize, j - 1);
      assert Next(ss[j - 1], evs[j - 1], ss[j - 1 + 1], maxClients, bufSize);
      StillThere(ss[j - 1], evs[j - 1], ss[j], maxClients, bufSize, hd);
    }
  }

  lemma DeliverStep(s: Sys, ev: Event, t: Sys, maxClients: nat, bufSize: Size, hd: nat)
    requires Inv(s, maxClients, bufSize) && Next(s, ev, t, maxClients, bufSize)
    requires hd in Hds(s.net.table) && (ev.FlushBy? ==> Quiet(ev.w, s.net.sends, t.net.sends))
    ensures Logs(To(t.net.wire, hd)) == Logs(To(s.net.wire, hd)) + (if ev.FlushBy? then ev.buf else [])
  {
    hide Logs, To, Flush;
    if ev.FlushBy? {
      FlushGained(s.net, ev.buf, ev.w, bufSize);
      var i :| 0 <= i < |s.net.table| && Hds(s.net.table)[i] == hd;
      assert s.net.table[i].hd == hd;
    } else {
      OnlyFlushSends(s, ev, t, maxClients, bufSize);
      assert Logs(To(s.net.wire, hd)) + [] == Logs(To(s.net.wire, hd));
    }
  }

  lemma {:induction false} NothingFlushed(evs: seq<Event>, i: nat, k: nat, j: nat)
    requires i <= k <= j <= |evs| && forall n :: i <= n < k ==> !evs[n].FlushBy?
    ensures FlushedIn(evs, i, j) == FlushedIn(evs, k, j)
    decreases j
  {
    if i < j {
      NothingFlushed(evs, i, if k == j then j - 1 else k, j - 1);
    }
  }

  /**
   Two clients that joined with no flush in between have seen the same text, be
   they UDP or TCP, whatever happened to the table since.
   */
  lemma UdpAndTcpAgree(ss: seq<Sys>, evs: seq<Event>, maxClients: nat, bufSize: Size,
                       i: nat, hd: nat, k: nat, hd': nat, j: nat)
    requires IsRun(ss, evs, maxClients, bufSize) && i <= k < j < |ss|
    requires Joins(ss, evs, i, hd) && Joins(ss, evs, k, hd')
    requires forall n :: i < n < k ==> !evs[n].FlushBy?
    requires hd in Hds(ss[j].net.table) && hd' in Hds(ss[j].net.table) && NoSendFails(ss, evs, i + 1, j)
    ensures Logs(To(ss[j].net.wire, hd)) == Logs(To(ss[j].net.wire, hd'))
  {
    hide Next, To, Logs, Hds;
    RunDelivers(ss, evs, maxClients, bufSize, i, j, hd);
    RunDelivers(ss, evs, maxClients, bufSize, k, j, hd');
    NothingFlushed(evs, i + 1, k + 1, j);
  }

  // ----- leaving

  /** The socket is known, and not in the table. */
  predicate Gone(net: Net, hd: nat) {
    hd in Sockets(net) && hd !in Hds(net.table)
  }

  lemma GoneStays(s: Sys, ev: Event, t: Sys, maxClients: nat, bufSize: Size, hd: nat)
    requires Inv(s, maxClients, bufSize) && Next(s, ev, t, maxClients, bufSize) && Gone(s.net, hd)
    ensures Gone(t.net, hd) && To(t.net.wire, hd) == To(s.net.wire, hd)
  {
    hide Inv, To, Flush, Sockets, Hds;
    StillThere(s, ev, t, maxClients, bufSize, hd);
    if ev.FlushBy? {
      FlushMisses(s.net, ev.buf, ev.w, bufSize, hd);
    } else {
      OnlyFlushSends(s, ev, t, maxClients, bufSize);
    }
  }

  /** What an unsubscription does to the table. */
  lemma LeaveStep(s: Sys, a: Ip.IpAddr, t: Sys, maxClients: nat, bufSize: Size, c: Client)
    requires Inv(s, maxClients, bufSize) && Next(s, Unsubscribe(a), t, maxClients, bufSize)
    requires c in s.net.table && c.addrStr == Ip.Text(a)
    ensures Ip.Text(a) !in Addrs(t.net.table) && t.net.table == Others(s.net.table, Ip.Text(a))
    ensures c.hd in t.net.closed && Gone(t.net, c.hd) && t.net.wire == s.net.wire
  {
    hide Ip.Text, InStep, Fits;
    UnsubscribedLeaves(s.net, Ip.Text(a));
    AddrsAreDifferent(s.net);
    NextKeeps(s, Unsubscribe(a), t, maxClients, bufSize);
    var k :| 0 <= k < |s.net.table| && s.net.table[k] == c;
    assert Addrs(s.net.table)[k] == Ip.Text(a);
    var d :| d in s.net.table && d.addrStr == Ip.Text(a) && t.net.closed == s.net.closed + [d.hd];
    assert d == c;
    assert t.net.closed[|s.net.closed|] == c.hd;
    ClosedIsGone(t.net, t.nextHd, c.hd);
  }

  lemma ClosedIsGone(net: Net, nextHd: nat, hd: nat)
    requires SocketsOk(net, nextHd) && hd in net.closed
    ensures Gone(net, hd)
  {
    assert Sockets(net)[hd] <= 1;
    assert hd in multiset(net.closed) && (hd in Hds(net.table) ==> hd in multiset(Hds(net.table)));
  }

  lemma AddrsAreDifferent(net: Net)
    requires AddrsDistinct(net)
    ensures AddrsDiffer(net.table)
  {
    forall i, j | 0 <= i < j < |net.table|
      ensures net.table[i].addrStr != net.table[j].addrStr
    {
      TwiceIn(Addrs(net.table), i, j);
      assert multiset(Addrs(net.table))[net.table[i].addrStr] <= 1;
    }
  }

  /**
   In every run: an unsubscription takes the client of that address and no other out
   of the table, its socket is closed, and that socket never gets anything again.
   */
  lemma {:induction false} LeftForGood(ss: seq<Sys>, evs: seq<Event>, maxClients: nat, bufSize: Size,
                                       i: nat, j: nat, a: Ip.IpAddr, c: Client)
    requires IsRun(ss, evs, maxClients, bufSize) && i < j < |ss| && evs[i] == Unsubscribe(a)
    requires c in ss[i].net.table && c.addrStr == Ip.Text(a)
    ensures ss[i + 1].net.table == Others(ss[i].net.table, Ip.Text(a))
    ensures Ip.Text(a) !in Addrs(ss[i + 1].net.table) && c.hd in ss[i + 1].net.closed
    ensures Gone(ss[j].net, c.hd) && To(ss[j].net.wire, c.hd) == To(ss[i].net.wire, c.hd)
    decreases j
  {
    hide Next, Inv, To, Ip.Text, Gone;
    RunKeeps(ss, evs, maxClients, bufSize, j - 1);
    assert Next(ss[j - 1], evs[j - 1], ss[j - 1 + 1], maxClients, bufSize);
    if j == i + 1 {
      LeaveStep(ss[i], a, ss[j], maxClients, bufSize, c);
    } else {
      LeftForGood(ss, evs, maxClients, bufSize, i, j - 1, a, c);
      GoneStays(ss[j - 1], evs[j - 1], ss[j], maxClients, bufSize, c.hd);
    }
  }
}
