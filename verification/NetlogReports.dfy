/**
 What client and board of NetlogWorld promise each other: restarts are noticed,
 and exactly which datagrams are reported as lost and which log connections are
 kept.
 */
module NetlogReports {
  import opened Wrappers
  import opened NetlogTable
  import opened NetlogStreams
  import opened NetlogRuns
  import opened NetlogSafety
  import opened NetlogClient
  import opened NetlogWorld
  import Ip

  // ----- restarts are tracked

  /**
   Whatever boot messages are lost, repeated, reordered or stale, and whenever the
   board restarts, also in the middle of a subscription: once the client is done
   with a message of the session that is up, it has that session stored and is in
   the board's table exactly once, unless the board has removed its entry since;
   and of that session's messages at most one ever passes the filter.
   */
  lemma RestartTracked(ws: seq<World>, evs: seq<WorldEvent>, su: Setup, i: nat)
    requires IsWorldRun(ws, evs, su) && i < |ws|
    ensures ws[i].passed <= 1
    ensures ws[i].heard && ws[i].phase.Settled? ==>
      && ws[i].stored == BoardInfo(su.mac, ws[i].live)
      && (ws[i].dropped || multiset(Addrs(ws[i].sys.net.table))[Ip.Text(su.me)] == 1)
  {
    WorldRunKeeps(ws, evs, su, i);
    var net := ws[i].sys.net;
    assert multiset(Addrs(net.table))[Ip.Text(su.me)] <= 1;
    assert MeIn(net, su) ==> Ip.Text(su.me) in multiset(Addrs(net.table));
  }

  // ----- reports of lost datagrams

  /** How far apart two datagrams are in the stream, and in their numbers. */
  lemma {:induction false} MailGap(mail: seq<Mail>, a: nat, b: nat)
    requires InOrderMail(mail) && a <= b < |mail|
    ensures mail[a].sub <= mail[b].sub && mail[0].pos == 0
    ensures mail[a].sub == mail[b].sub ==> mail[b].pos == mail[a].pos + (b - a)
    ensures mail[a].sub != mail[b].sub ==> mail[b].pos < b - a
  {
    if a < b {
      MailGap(mail, a, b - 1);
      assert Follows(mail[b - 1], mail[b]);
    }
  }

  lemma SameResidue(a: nat, b: nat)
    requires a < b
    ensures b % PACK_MOD != (a % PACK_MOD + 1) % PACK_MOD <==> (b - a - 1) % PACK_MOD != 0
  {
    NextNumber(a);
    var k, m := (a + 1) / PACK_MOD, b / PACK_MOD;
    assert a + 1 == k * PACK_MOD + (a + 1) % PACK_MOD && b == m * PACK_MOD + b % PACK_MOD;
  }

  /** The datagram `d` is reported when it arrives. */
  predicate IsReported(w: World, d: Mail)
    requires d.bytes != []
  {
    Reported(w.cnt, Number(d.bytes[0]))
  }

  /**
   Exactly which datagrams are reported, in every run, in whatever order they
   arrive: if a boot message was let through since the last one, those not
   numbered 0, and else those not numbered one more than the last one.
   */
  lemma ReportedIff(ws: seq<World>, evs: seq<WorldEvent>, su: Setup, n: nat, i: nat)
    requires IsWorldRun(ws, evs, su) && n < |evs| && evs[n] == Arrive(i)
    ensures var w := ws[n];
      && InOrderMail(w.mail) && w.next <= |w.mail| && i < |w.mail|
      && (IsReported(w, w.mail[i]) <==>
            if w.reset then w.mail[i].pos % PACK_MOD != 0
            else w.next > 0 && w.mail[i].pos % PACK_MOD != (w.mail[w.next - 1].pos + 1) % PACK_MOD)
  {
    hide Ip.Text, Inv, SubOk, LogOk, Number;
    WorldRunKeeps(ws, evs, su, n);
    assert WorldNext(ws[n], evs[n], ws[n + 1], su);
    var w := ws[n];
    if !w.reset {
      NextNumber(w.mail[w.next - 1].pos);
    }
  }

  /**
   Datagrams that arrive in order, `k` of them lost right before this one. Within
   a subscription, and with no boot message let through since the last one, it is
   reported exactly if k mod 128 != 0. The first one behind such a message is
   reported exactly if its number is not 0: for a subscription made since, that is
   the number of its datagrams that were lost; for one that was there already, it
   has nothing to do with losses.
   */
  lemma InOrderReportedIff(ws: seq<World>, evs: seq<WorldEvent>, su: Setup, n: nat, i: nat)
    requires IsWorldRun(ws, evs, su) && n < |evs| && evs[n] == Arrive(i) && ws[n].next <= i
    ensures i < |ws[n].mail| && ws[n].mail[i].bytes != []
    ensures var w := ws[n]; var d, k := w.mail[i], i - w.next;
      if w.reset then
        && (IsReported(w, d) <==> d.pos % PACK_MOD != 0)
        && (d.sub > w.known ==> d.pos <= k)
      else
        && w.next > 0 && (d.sub == w.mail[w.next - 1].sub ==> (IsReported(w, d) <==> k % PACK_MOD != 0))
        && (d.sub != w.mail[w.next - 1].sub ==>
              && d.pos <= k
              && (IsReported(w, d) <==> d.pos % PACK_MOD != (w.mail[w.next - 1].pos + 1) % PACK_MOD))
  {
    hide Ip.Text, Inv, SubOk, LogOk, Number, InOrderMail;
    ReportedIff(ws, evs, su, n, i);
    WorldRunKeeps(ws, evs, su, n);
    assert WorldNext(ws[n], evs[n], ws[n + 1], su);
    var w := ws[n];
    if w.next > 0 {
      MailGap(w.mail, w.next - 1, i);
      NextNumber(w.mail[w.next - 1].pos);
      SameResidue(w.mail[w.next - 1].pos, w.mail[w.next - 1].pos + (i - w.next) + 1);
    } else {
      MailGap(w.mail, 0, i);
    }
  }

  /**
   With nothing lost and nothing out of order, a datagram is reported in exactly
   two cases. A boot message was let through since the last one, or the client has
   only started since, while the entry that sent it was already in the table, and
   its number is not 0. Or it is the first one of a new entry, and the last one was
   a late one of the old entry, read after the message that led to the new one.
   */
  lemma LosslessReportedIff(ws: seq<World>, evs: seq<WorldEvent>, su: Setup, n: nat)
    requires IsWorldRun(ws, evs, su) && n < |evs| && evs[n] == Arrive(ws[n].next)
    ensures var w := ws[n];
      && w.next < |w.mail| && w.mail[w.next].bytes != []
      && var d := w.mail[w.next];
         (IsReported(w, d) <==>
            if w.reset then d.sub <= w.known && d.pos % PACK_MOD != 0
            else w.next > 0 && d.sub != w.mail[w.next - 1].sub && (w.mail[w.next - 1].pos + 1) % PACK_MOD != 0)
  {
    InOrderReportedIff(ws, evs, su, n, ws[n].next);
  }

  // ----- a stale boot message

  /** The client is subscribed to the session that is up, and has got everything sent to it. */
  ghost predicate UpToDate(w: World, su: Setup) {
    && WorldInv(w, su) && |su.mac| == MAC_ADDR_SIZE
    && w.phase == Settled && w.stored.session == w.live && w.sys.ctl.Idle? && MeIn(w.sys.net, su)
    && w.next == |w.mail| && w.offers == []
  }

  predicate IsStale(w: World, old': seq<Byte>) {
    old' in w.used && old' != w.live && |old'| == SESSION_ID_SIZE
  }

  /** The client after a stale message: nothing has changed on the board. */
  function AfterStale(w: World, su: Setup): World {
    w.(known := w.subs, cnt := if su.udp then 127 else w.cnt, reset := true,
       log := if su.udp then w.log else None, kept := None)
  }

  lemma StaleInv(w: World, su: Setup, v: World)
    requires UpToDate(w, su) && v == AfterStale(w, su)
    ensures WorldInv(v, su)
  {
    hide Ip.Text, Inv, InOrderMail;
  }

  /**
   A late boot message of an older session: the client subscribes again, the board
   finds it in the table and changes nothing, and the client has forgotten the
   packet number, or dropped the log connection, for good.
   */
  lemma StaleMessage(w: World, su: Setup, old': seq<Byte>) returns (ws: seq<World>, evs: seq<WorldEvent>)
    requires UpToDate(w, su) && IsStale(w, old')
    ensures |ws| == 5 && IsPath(ws, evs, su) && |evs| == 4 && ws[0] == w && ws[4] == AfterStale(w, su)
    ensures evs[0] == Deliver(BootMessage(BoardInfo(su.mac, old'))) && WorldInv(ws[4], su)
  {
    hide Ip.Text, Inv, MailOk, CntOk, LogOk, ReadBoot;
    var bs := BootMessage(BoardInfo(su.mac, old'));
    BootRoundTrip(bs, BoardInfo(su.mac, old'));
    var sub := Subscribe(su.me, ProtoOf(su));
    var w1 := AfterDeliver(w, bs, su);
    var w2 := w1.(phase := Requested);
    var w3 := w2.(phase := Answered(w.live));
    assert w.mail + [] == w.mail;
    assert AfterBoard(w1, sub, w.sys, su) == w2;
    assert WorldNext(w1, Board(sub, w.sys), w2, su);
    StaleInv(w, su, AfterStale(w, su));
    ws := [w, w1, w2, w3, AfterStale(w, su)];
    evs := [Deliver(bs), Board(sub, w.sys), Answer, TakeAnswer];
  }

  /**
   A UDP client: the next datagram is reported, with nothing lost, exactly if the
   number it would have had anyway is not 0.
   */
  lemma StaleReported(w: World, su: Setup, old': seq<Byte>, b: Byte) returns (ws: seq<World>, evs: seq<WorldEvent>)
    requires UpToDate(w, su) && IsStale(w, old') && ByUdp(w.sys.net, su)
    ensures |ws| == 7 && IsPath(ws, evs, su) && |evs| == 6 && ws[0] == w && evs[5] == Arrive(|w.mail|)
    ensures evs[0] == Deliver(BootMessage(BoardInfo(su.mac, old')))
    ensures |ws[5].mail| == |w.mail| + 1 && ws[5].mail[|w.mail|].bytes != []
    ensures IsReported(ws[5], ws[5].mail[|w.mail|]) <==> Mine(w.sys.net, su).packCnt != 0
  {
    hide IsPath, WorldInv, WorldNext, AfterBoard, Mine;
    ws, evs := StaleMessage(w, su, old');
    var w4 := AfterStale(w, su);
    var fl, t := OneMoreMail(w4, b, su);
    var w5 := AfterBoard(w4, fl, t, su);
    var w6 := AfterArrive(w5, |w.mail|);
    PathMore(ws, evs, Board(fl, t), w5, su);
    PathMore(ws + [w5], evs + [Board(fl, t)], Arrive(|w.mail|), w6, su);
    ws, evs := ws + [w5] + [w6], evs + [Board(fl, t)] + [Arrive(|w.mail|)];
  }

  lemma PathMore(ws: seq<World>, evs: seq<WorldEvent>, ev: WorldEvent, v: World, su: Setup)
    requires IsPath(ws, evs, su) && WorldNext(ws[|ws| - 1], ev, v, su)
    ensures IsPath(ws + [v], evs + [ev], su)
  {
    hide WorldNext;
    var ws', evs' := ws + [v], evs + [ev];
    forall i | 0 <= i < |evs'|
      ensures WorldNext(ws'[i], evs'[i], ws'[i + 1], su)
    {
      if i < |evs| {
        assert ws'[i] == ws[i] && ws'[i + 1] == ws[i + 1];
      }
    }
  }

  /** A flush of one byte sends a UDP client one datagram, numbered as its entry says. */
  lemma FlushOne(net: Net, b: Byte, w: Weather, bufSize: Size, i: nat)
    requires Distinct(net.table) && AllInStep(net)
    requires i < |net.table| && net.table[i].udp && Quiet(w, net.sends, Flush(net, [b], w, bufSize).sends)
    ensures var c := net.table[i];
      var old', ds := To(net.wire, c.hd), To(Flush(net, [b], w, bufSize).wire, c.hd);
      && |ds| == |old'| + 1 && ds[|old'|].bytes != [] && Number(ds[|old'|].bytes[0]) == c.packCnt
  {
    hide Flush, To, Number, CountByte;
    var c := net.table[i];
    FlushGained(net, [b], w, bufSize);
    OnePiece(1, bufSize);
    assert InStep(net.wire, c);
    FlushNumbered(net, [b], w, bufSize, c.hd);
    NumberOfPlace(To(Flush(net, [b], w, bufSize).wire, c.hd), |To(net.wire, c.hd)|);
  }

  lemma OneMoreMail(w: World, b: Byte, su: Setup) returns (fl: Event, t: Sys)
    requires WorldInv(w, su) && w.phase == Settled && ByUdp(w.sys.net, su)
    ensures WorldNext(w, Board(fl, t), AfterBoard(w, fl, t, su), su)
    ensures var v := AfterBoard(w, fl, t, su);
      && v == w.(sys := v.sys, mail := v.mail, dropped := v.dropped)
      && |v.mail| == |w.mail| + 1 && v.mail[|w.mail|].bytes != []
      && WorldNext(v, Arrive(|w.mail|), AfterArrive(v, |w.mail|), su)
      && Number(v.mail[|w.mail|].bytes[0]) == Mine(w.sys.net, su).packCnt
  {
    hide Flush, To, SubOk, MailOk, CntOk, LogOk, Number, Inv;
    fl := FlushBy([b], _ => true);
    InvTable(w.sys, su);
    t := w.sys.(net := Flush(w.sys.net, [b], fl.w, su.bufSize));
    FlushOne(w.sys.net, b, fl.w, su.bufSize, IndexOf(w.sys.net.table, Ip.Text(su.me)));
  }

  lemma {:induction false} ToOnly(wire: seq<Delivery>, hd: nat, h: nat)
    requires forall d :: d in wire ==> d.hd == hd
    ensures To(wire, h) == if h == hd then wire else []
  {
    if wire != [] {
      assert wire[|wire| - 1] in wire;
      ToOnly(wire[..|wire| - 1], hd, h);
      assert wire == wire[..|wire| - 1] + [wire[|wire| - 1]];
    }
  }

  /** A board with one client, which has got datagrams 0 to 4, each of one byte of log. */
  function FiveSent(su: Setup): Sys {
    var c := NetlogTable.Client(0, Ip.Text(su.me), true, 5, su.me);
    var wire := seq(5, j requires 0 <= j < 5 => Delivery(0, Some(su.me), [CountByte(j), 0x41]));
    Sys(Net([c], 1, wire, [], [], 5), Idle, 1)
  }

  lemma FiveSentWire(su: Setup)
    ensures var wire := FiveSent(su).net.wire;
      && Numbered(wire) && |wire| == 5 && Fits(wire, su.bufSize)
      && forall h: nat :: To(wire, h) == if h == 0 then wire else []
  {
    var wire := FiveSent(su).net.wire;
    forall h: nat
      ensures To(wire, h) == if h == 0 then wire else []
    {
      ToOnly(wire, 0, h);
    }
  }

  lemma FiveSentOk(su: Setup)
    requires su.udp && su.maxClients > 0
    ensures var sys := FiveSent(su);
      && Inv(sys, su.maxClients, su.bufSize) && ByUdp(sys.net, su) && Mine(sys.net, su) == sys.net.table[0]
      && To(sys.net.wire, 0) == sys.net.wire && Numbered(sys.net.wire)
  {
    FiveSentWire(su);
    hide To, Numbered, Fits, CountByte;
    var net := FiveSent(su).net;
    assert net.table[1..] == [] && CountUdp([]) == 0;
    assert Addrs(net.table) == [Ip.Text(su.me)] && Hds(net.table) == [0];
    assert Sockets(net) == multiset{0};
    MineIs(net, su, net.table[0]);
  }

  /** Its client, up to date, in the boot after the one of session `old'`. */
  function AtFive(su: Setup, live: seq<Byte>, old': seq<Byte>): World {
    World(FiveSent(su), live, {live, old'}, Settled, BoardInfo(su.mac, live), false, 0, 1, false, 0,
          Mails(FiveSent(su).net.wire, 0, 1), 5, 4, false, [], None, None)
  }

  lemma AtFiveUpToDate(su: Setup, live: seq<Byte>, old': seq<Byte>)
    requires su.udp && su.maxClients > 0 && |su.mac| == MAC_ADDR_SIZE
    ensures var w := AtFive(su, live, old');
      && UpToDate(w, su) && ByUdp(w.sys.net, su) && |w.mail| == 5 && Mine(w.sys.net, su).packCnt == 5
      && WorldInv(w, su)
  {
    hide Ip.Text, Inv, To, Numbered, Number, CountByte;
    var w := AtFive(su, live, old');
    FiveSentOk(su);
    NoMail();
    MoreMail([], w.sys.net.wire, 0, 1);
    assert [] + w.mail == w.mail;
  }

  /**
   The concrete case: stored session live, numbers 0 to 4 received, a late boot
   message of an older session, then datagram 5. It is reported, and nothing was
   lost.
   */
  lemma StaleAtFive(su: Setup, live: seq<Byte>, old': seq<Byte>, b: Byte) returns (ws: seq<World>, evs: seq<WorldEvent>)
    requires su.udp && su.maxClients > 0 && |su.mac| == MAC_ADDR_SIZE
    requires old' != live && |old'| == SESSION_ID_SIZE
    ensures |ws| == 7 && IsPath(ws, evs, su) && |evs| == 6 && ws[0] == AtFive(su, live, old')
    ensures evs[0] == Deliver(BootMessage(BoardInfo(su.mac, old'))) && evs[5] == Arrive(5)
    ensures WorldInv(ws[0], su) && ws[0].next == |ws[0].mail| == 5
    ensures |ws[5].mail| == 6 && ws[5].mail[5].bytes != [] && IsReported(ws[5], ws[5].mail[5])
  {
    hide UpToDate, WorldInv, FiveSent;
    var w := AtFive(su, live, old');
    AtFiveUpToDate(su, live, old');
    ws, evs := StaleReported(w, su, old', b);
  }

  // ----- the log connection of a TCP client

  /**
   In every run: once no connection waits to be accepted, the client's log
   connection is that of its last entry exactly if the entry was made after the
   last boot message it let through, or the entry's connection was the first one
   still waiting then. A message of another session that finds the client in the
   table costs it its connection.
   */
  lemma LogConnectionIff(ws: seq<World>, evs: seq<WorldEvent>, su: Setup, i: nat)
    requires IsWorldRun(ws, evs, su) && i < |ws| && !su.udp
    ensures var w := ws[i];
      w.phase.Settled? && w.offers == [] ==>
        (w.log == Some(w.subs) <==> if w.kept.Some? then w.kept == Some(w.subs) else w.known < w.subs)
  {
    WorldRunKeeps(ws, evs, su, i);
  }

  /** No entry was made since the last message let through, and there is no log connection. */
  ghost predicate WithoutLog(w: World, su: Setup) {
    WorldInv(w, su) && w.kept == None && w.known == w.subs && w.log == None
  }

  lemma WithoutLogStays(w: World, ev: WorldEvent, v: World, su: Setup)
    requires !su.udp && WithoutLog(w, su) && WorldNext(w, ev, v, su)
    ensures v.subs >= w.subs && (v.subs == w.subs ==> WithoutLog(v, su))
  {
    WorldNextKeeps(w, ev, v, su);
    hide Ip.Text, Inv, InOrderMail, To, Flush, Mails;
  }

  /**
   A TCP client that a stale message has cost its connection gets no other one, on
   whatever path, as long as the board makes no new entry for it.
   */
  lemma {:induction false} NeverReconnects(ws: seq<World>, evs: seq<WorldEvent>, su: Setup, i: nat)
    requires !su.udp && IsPath(ws, evs, su) && i < |ws|
    requires WithoutLog(ws[0], su)
    ensures ws[i].subs >= ws[0].subs
    ensures ws[i].subs == ws[0].subs ==> WithoutLog(ws[i], su)
  {
    hide WorldNext, WithoutLog;
    if i > 0 {
      NeverReconnects(ws, evs, su, i - 1);
      assert WorldNext(ws[i - 1], evs[i - 1], ws[i - 1 + 1], su);
      if ws[i - 1].subs == ws[0].subs {
        WithoutLogStays(ws[i - 1], evs[i - 1], ws[i], su);
      } else {
        SubsGrow(ws[i - 1], evs[i - 1], ws[i], su);
      }
    }
  }

  lemma SubsGrow(w: World, ev: WorldEvent, v: World, su: Setup)
    requires WorldNext(w, ev, v, su)
    ensures v.subs >= w.subs
  {
    hide Next, Flush, Mails, To;
  }

  /** The state a stale message leaves a TCP client in: still in the table, and without a log connection. */
  lemma StaleCostsLog(w: World, su: Setup, old': seq<Byte>) returns (ws: seq<World>, evs: seq<WorldEvent>)
    requires UpToDate(w, su) && IsStale(w, old') && !su.udp
    ensures |ws| == 5 && IsPath(ws, evs, su) && |evs| == 4 && ws[0] == w
    ensures evs[0] == Deliver(BootMessage(BoardInfo(su.mac, old')))
    ensures MeIn(ws[4].sys.net, su) && ws[4].stored == w.stored && ws[4].phase == Settled && WithoutLog(ws[4], su)
  {
    hide IsPath, WorldInv;
    ws, evs := StaleMessage(w, su, old');
  }
}
