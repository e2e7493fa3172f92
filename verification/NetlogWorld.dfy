/**
 A client of tools/netlog.py and its board together: the board goes through the
 sections of its control task and its flushes, restarts at any time, and the
 client subscribes, hears boot messages, and receives logs.
 */
module NetlogWorld {
  import opened Wrappers
  import opened NetlogTable
  import opened NetlogStreams
  import opened NetlogRuns
  import opened NetlogSafety
  import opened NetlogTexts
  import opened NetlogClient
  import Ip

  /** What does not change: the board's MAC address and limits, the client's address and protocol. */
  datatype Setup = Setup(mac: seq<Byte>, me: Ip.IpAddr, udp: bool, maxClients: nat, bufSize: Size)

  /** Where the client is: in ctl_sub up to `Answered`, then in its main loop, or stopped by an error. */
  datatype Phase = Connecting | Requested | Answered(session: seq<Byte>) | Settled | Gone

  /** A datagram for the client: the number of the subscription it belongs to, its place there, its bytes. */
  datatype Mail = Mail(sub: nat, pos: nat, bytes: seq<Byte>)

  /**
   `heard` and `passed` are about the boot in progress: whether the client has
   handled a message of it, and how many of its copies the filter let through.
   */
  datatype World = World(
    sys: Sys, live: seq<Byte>, used: set<seq<Byte>>,
    phase: Phase, stored: BoardInfo, heard: bool, passed: nat,
    subs: nat,            // how often the client's entry was made
    dropped: bool,        // the entry was made in this boot, and is gone
    known: nat,           // `subs` when the client last let a boot message through, or started
    mail: seq<Mail>,      // every datagram sent to the client, in order
    next: nat,            // behind the last one that arrived
    cnt: int,             // udp_pack_cnt
    reset: bool,          // no datagram has arrived since `cnt` was set to 127
    offers: seq<nat>,     // log connections the board has opened and the client not yet accepted
    log: Option<nat>,     // the client's log connection; connections have the number of their subscription
    kept: Option<nat>)    // the first of `offers` when the client last let a boot message through

  datatype WorldEvent =
    | Boot(session: seq<Byte>)
    | Board(ev: Event, t: Sys)
    | Answer
    | TakeAnswer
    | Deliver(bs: seq<Byte>)
    | Arrive(i: nat)
    | AcceptLog

  // ----- the client's entry

  function ProtoOf(su: Setup): Proto {
    if su.udp then Udp else Tcp
  }

  predicate MeIn(net: Net, su: Setup) {
    Ip.Text(su.me) in Addrs(net.table)
  }

  function Mine(net: Net, su: Setup): (c: Client)
    requires MeIn(net, su)
    ensures c in net.table && c.addrStr == Ip.Text(su.me)
  {
    net.table[IndexOf(net.table, Ip.Text(su.me))]
  }

  predicate AboutMe(sys: Sys, su: Setup) {
    !sys.ctl.Idle? && sys.ctl.addr == su.me
  }

  /** The client's entry gets datagrams that the client reads. */
  predicate ByUdp(net: Net, su: Setup) {
    su.udp && MeIn(net, su) && Mine(net, su).udp
  }

  /** The datagrams from number `lo` on, as mail of a subscription. */
  function Mails(ds: seq<Delivery>, lo: nat, sub: nat): seq<Mail> {
    if lo > |ds| then []
    else seq(|ds| - lo, j requires 0 <= j < |ds| - lo => Mail(sub, lo + j, ds[lo + j].bytes))
  }

  // ----- the steps

  ghost predicate WorldInit(w: World, su: Setup) {
    && Inv(w.sys, su.maxClients, su.bufSize) && !AboutMe(w.sys, su)
    && w.live in w.used && w.phase == Connecting && !w.heard && w.passed == 0
    && w.subs == w.known == (if MeIn(w.sys.net, su) then 1 else 0) && !w.dropped
    && w.mail == (if ByUdp(w.sys.net, su) then Mails(To(w.sys.net.wire, Mine(w.sys.net, su).hd), 0, 1) else [])
    && w.next == |w.mail| && w.cnt == 127 && w.reset
    && w.offers == [] && w.log == None && w.kept == None
  }

  /** The board's step `ev` makes the client's entry. */
  predicate Makes(w: World, ev: Event, su: Setup) {
    ev.InsertEntry? && AboutMe(w.sys, su)
  }

  ghost function NewMail(w: World, ev: Event, t: Sys, su: Setup): seq<Mail> {
    if ev.FlushBy? && ByUdp(w.sys.net, su) then
      var hd := Mine(w.sys.net, su).hd;
      Mails(To(t.net.wire, hd), |To(w.sys.net.wire, hd)|, w.subs)
    else []
  }

  /** An error answer, or none, ends the script. */
  function PhaseAfter(w: World, ev: Event, t: Sys, su: Setup): Phase {
    if ev.Subscribe? && ev.addr == su.me then Requested
    else if (ev.CheckRoom? || ev.OpenSocket?) && AboutMe(w.sys, su) && t.ctl.Idle? then Gone
    else w.phase
  }

  ghost function AfterBoard(w: World, ev: Event, t: Sys, su: Setup): World {
    w.(sys := t,
       phase := PhaseAfter(w, ev, t, su),
       subs := if Makes(w, ev, su) then w.subs + 1 else w.subs,
       dropped := if Makes(w, ev, su) then false else w.dropped || (MeIn(w.sys.net, su) && !MeIn(t.net, su)),
       mail := w.mail + NewMail(w, ev, t, su),
       offers := if ev.OpenSocket? && AboutMe(w.sys, su) && t.ctl.Connected? && !su.udp then w.offers + [w.subs + 1]
                 else w.offers)
  }

  predicate Passes(w: World, bs: seq<Byte>) {
    ReadBoot(bs).Some? && BcastFilter(w.stored, ReadBoot(bs).value)
  }

  predicate IsLive(w: World, bs: seq<Byte>, su: Setup) {
    ReadBoot(bs) == Some(BoardInfo(su.mac, w.live))
  }

  function AfterDeliver(w: World, bs: seq<Byte>, su: Setup): World {
    var h := w.(heard := w.heard || IsLive(w, bs, su));
    if !Passes(w, bs) then h
    else
      h.(stored := ReadBoot(bs).value, phase := Connecting, known := w.subs,
         passed := w.passed + (if IsLive(w, bs, su) then 1 else 0),
         cnt := if su.udp then 127 else w.cnt, reset := true,
         log := if su.udp then w.log else None,
         kept := if w.offers == [] then None else Some(w.offers[0]))
  }

  /** A datagram that arrives in the client's main loop. */
  function AfterArrive(w: World, i: nat): World
    requires i < |w.mail| && w.mail[i].bytes != []
  {
    w.(cnt := Number(w.mail[i].bytes[0]), reset := false, next := i + 1)
  }

  ghost predicate WorldNext(w: World, ev: WorldEvent, v: World, su: Setup) {
    match ev
    // a restart with an unused session id: an empty table, and a request being served is lost
    case Boot(id) =>
      && id !in w.used
      && v == w.(sys := Init, live := id, used := w.used + {id}, heard := false, passed := 0, dropped := false,
                 phase := if w.phase.Requested? then Gone else w.phase)
    // any section of the control task, any flush; only the client itself subscribes its address
    case Board(e, t) =>
      && Next(w.sys, e, t, su.maxClients, su.bufSize)
      && (e.Subscribe? && e.addr == su.me ==> w.phase.Connecting? && e.proto == ProtoOf(su))
      && v == AfterBoard(w, e, t, su)
    // the board says who it is, and the client reads that, perhaps after a restart
    case Answer =>
      && w.phase.Requested? && !AboutMe(w.sys, su)
      && v == w.(phase := Answered(w.live))
    case TakeAnswer =>
      && w.phase.Answered?
      && v == w.(phase := Settled, stored := BoardInfo(su.mac, w.phase.session))
    // any datagram on the boot port: the board's own are of some session so far, however late or often they come
    case Deliver(bs) =>
      && w.phase.Settled?
      && (ReadBoot(bs).Some? && ReadBoot(bs).value.mac == su.mac ==> ReadBoot(bs).value.session in w.used)
      && v == AfterDeliver(w, bs, su)
    // any datagram that was sent, in any order
    case Arrive(i) =>
      && w.phase.Settled? && su.udp && i < |w.mail| && w.mail[i].bytes != []
      && v == AfterArrive(w, i)
    case AcceptLog =>
      && w.phase.Settled? && w.offers != []
      && v == w.(log := if w.log.None? then Some(w.offers[0]) else w.log, offers := w.offers[1..])
  }

  ghost predicate IsPath(ws: seq<World>, evs: seq<WorldEvent>, su: Setup) {
    && |ws| == |evs| + 1
    && forall i :: 0 <= i < |evs| ==> WorldNext(ws[i], evs[i], ws[i + 1], su)
  }

  ghost predicate IsWorldRun(ws: seq<World>, evs: seq<WorldEvent>, su: Setup) {
    IsPath(ws, evs, su) && WorldInit(ws[0], su)
  }

  // ----- the invariant

  predicate SubOk(w: World, su: Setup) {
    var there := MeIn(w.sys.net, su) || w.dropped;
    && w.live in w.used
    && (AboutMe(w.sys, su) ==>
          && w.phase.Requested?
          && (if w.sys.ctl.Connected? then w.sys.ctl.udp == su.udp else w.sys.ctl.proto == ProtoOf(su)))
    && (w.phase.Requested? && !AboutMe(w.sys, su) ==> there)
    && (w.phase.Answered? ==>
          && w.phase.session in w.used
          && (w.phase.session == w.live ==> there)
          && (w.heard ==> w.phase.session == w.live))
    && (w.phase.Settled? ==>
          && w.stored.mac == su.mac && w.stored.session in w.used
          && (w.stored.session == w.live ==> there)
          && (w.heard ==> w.stored.session == w.live))
    && w.passed <= 1 && (w.passed == 1 ==> w.heard)
  }

  predicate Follows(a: Mail, b: Mail) {
    (b.sub == a.sub && b.pos == a.pos + 1) || (b.sub > a.sub && b.pos == 0)
  }

  /** Within a subscription mail is numbered from 0, without gaps. */
  predicate InOrderMail(mail: seq<Mail>) {
    && (forall j :: 0 <= j < |mail| ==> mail[j].bytes != [] && Number(mail[j].bytes[0]) == mail[j].pos % PACK_MOD)
    && (forall j :: 0 < j < |mail| ==> Follows(mail[j - 1], mail[j]))
    && (mail != [] ==> mail[0].pos == 0)
  }

  /** The last mail is the last datagram of the client's entry. */
  predicate MailIsSent(mail: seq<Mail>, n: nat, sub: nat) {
    if n == 0 then mail == [] || mail[|mail| - 1].sub < sub
    else mail != [] && mail[|mail| - 1].sub == sub && mail[|mail| - 1].pos == n - 1
  }

  predicate MailOk(w: World, su: Setup) {
    && InOrderMail(w.mail)
    && (forall j :: 0 <= j < |w.mail| ==> w.mail[j].sub <= w.subs)
    && (ByUdp(w.sys.net, su) ==> MailIsSent(w.mail, |To(w.sys.net.wire, Mine(w.sys.net, su).hd)|, w.subs))
  }

  predicate CntOk(w: World, su: Setup) {
    && w.known <= w.subs && w.next <= |w.mail|
    && (su.udp ==>
          if w.reset then w.cnt == 127 && (w.next > 0 ==> w.mail[w.next - 1].sub <= w.known)
          else w.next > 0 && w.cnt == w.mail[w.next - 1].pos % PACK_MOD)
  }

  /** The connection made since the last boot message let through is waiting, or is the log connection. */
  predicate NewLogOk(w: World, su: Setup) {
    var made := w.known < w.subs || (AboutMe(w.sys, su) && w.sys.ctl.Connected?);
    && (w.subs == w.known ||
         (w.subs == w.known + 1 && !AboutMe(w.sys, su) && !w.phase.Connecting?))
    && (|| (w.log == None && w.offers == if made then [w.known + 1] else [])
        || (w.phase.Settled? && w.known < w.subs && w.log == Some(w.known + 1) && w.offers == []))
  }

  predicate LogOk(w: World, su: Setup) {
    su.udp || w.phase.Gone? ||
    if w.kept.None? then NewLogOk(w, su)
    else w.log == w.kept || (w.log == None && w.offers != [] && w.offers[0] == w.kept.value)
  }

  ghost predicate WorldInv(w: World, su: Setup) {
    && Inv(w.sys, su.maxClients, su.bufSize)
    && SubOk(w, su) && MailOk(w, su) && CntOk(w, su) && LogOk(w, su)
  }

  // ----- the client's entry over a step of the board

  lemma {:induction false} FlushFrom(net: Net, buf: seq<Byte>, w: Weather, bufSize: Size, c: Client) returns (d: Client)
    requires c in Flush(net, buf, w, bufSize).table
    ensures d in net.table && Same(d, c)
    decreases |buf|
  {
    if buf == [] {
      d := c;
    } else {
      var n := BlockSize(net, |buf|, bufSize);
      SendAllIs(net.table, buf[..n], w, net.sends);
      d := FlushFrom(SendBlock(net, buf[..n], w), buf[n..], w, bufSize, c);
      var fs := Fates(|net.table|, w, net.sends);
      var j :| 0 <= j < |Kept(net.table, fs)| && Kept(net.table, fs)[j] == d;
      var i := KeptFrom(net.table, fs, j);
      d := net.table[i];
    }
  }

  /** Addresses are distinct, so an entry with the client's address is its entry. */
  lemma MineIs(net: Net, su: Setup, c: Client)
    requires AddrsDistinct(net) && c in net.table && c.addrStr == Ip.Text(su.me)
    ensures MeIn(net, su) && Mine(net, su) == c
  {
    var j :| 0 <= j < |net.table| && net.table[j] == c;
    assert Addrs(net.table)[j] == Ip.Text(su.me);
    var i := IndexOf(net.table, Ip.Text(su.me));
    assert multiset(Addrs(net.table))[Ip.Text(su.me)] <= 1;
    if i < j {
      TwiceIn(Addrs(net.table), i, j);
    }
  }

  lemma MineStays(s: Sys, ev: Event, t: Sys, su: Setup)
    requires Inv(s, su.maxClients, su.bufSize) && Next(s, ev, t, su.maxClients, su.bufSize)
    requires MeIn(t.net, su) && !(ev.InsertEntry? && AboutMe(s, su))
    ensures MeIn(s.net, su) && Same(Mine(s.net, su), Mine(t.net, su))
  {
    hide Ip.Text, Inv, Flush;
    var c := Mine(t.net, su);
    assert AddrsDistinct(s.net) by { InvTable(s, su); }
    match ev
    case InsertEntry(d) =>
      if c == d {
        Ip.TextInjective(su.me, s.ctl.addr);
      }
      MineIs(s.net, su, c);
    case Unsubscribe(a) => MineIs(s.net, su, c);
    case FlushBy(buf, w) =>
      var d := FlushFrom(s.net, buf, w, su.bufSize, c);
      MineIs(s.net, su, d);
    case _ =>
  }

  lemma InvTable(s: Sys, su: Setup)
    requires Inv(s, su.maxClients, su.bufSize)
    ensures AddrsDistinct(s.net) && Distinct(s.net.table) && AllInStep(s.net)
  {}

  // ----- steps of the board

  /** The entry is made, or the control task is not about it and goes on. */
  lemma MakesSub(w: World, e: Event, t: Sys, v: World, su: Setup)
    requires SubOk(w, su) && WorldNext(w, Board(e, t), v, su) && e.InsertEntry?
    ensures SubOk(v, su)
  {
    hide Ip.Text, Inv, Addrs, Mails, To;
    var c := e.c;
    AddedLists(w.sys.net.table, c);
    assert Addrs(t.net.table)[|Addrs(w.sys.net.table)|] == c.addrStr;
    assert forall a :: a in Addrs(w.sys.net.table) ==> a in Addrs(t.net.table);
  }

  /** The control task looks an address up. */
  lemma SubscribeSub(w: World, e: Event, t: Sys, v: World, su: Setup)
    requires SubOk(w, su) && WorldNext(w, Board(e, t), v, su) && e.Subscribe?
    ensures SubOk(v, su)
  {
    hide Ip.Text, Inv, Addrs, Mails, To, Flush;
  }

  /** The control task checks for room or opens the socket. */
  lemma ControlSub(w: World, e: Event, t: Sys, v: World, su: Setup)
    requires SubOk(w, su) && WorldNext(w, Board(e, t), v, su) && (e.CheckRoom? || e.OpenSocket?)
    ensures SubOk(v, su)
  {
    hide Ip.Text, Inv, MeIn, Mails, To, Flush;
  }

  /** Entries leave the table. */
  lemma LeaveSub(w: World, e: Event, t: Sys, v: World, su: Setup)
    requires SubOk(w, su) && WorldNext(w, Board(e, t), v, su) && (e.Unsubscribe? || e.FlushBy?)
    ensures SubOk(v, su)
  {
    hide Ip.Text, Inv, MeIn, Flush, Unsubscribed, Mails, To;
  }

  lemma {:induction false} BlockNumbered(net: Net, block: seq<Byte>, w: Weather, hd: nat)
    requires Distinct(net.table) && AllInStep(net) && Numbered(To(net.wire, hd))
    requires forall c :: c in net.table && c.hd == hd ==> c.udp
    ensures var b := SendBlock(net, block, w);
      && Numbered(To(b.wire, hd)) && |To(b.wire, hd)| >= |To(net.wire, hd)|
      && forall c :: c in b.table && c.hd == hd ==> c.udp
  {
    hide SendAll, Kept, Sent, Fates, To, Packet, Numbered;
    var r := SendAll(net.table, block, w, net.sends);
    var fs := Fates(|net.table|, w, net.sends);
    SendAllIs(net.table, block, w, net.sends);
    ToAppend(net.wire, r.wire, hd);
    var ds := To(net.wire, hd);
    assert ds + [] == ds;
    if i :| 0 <= i < |net.table| && net.table[i].hd == hd {
      SentToEach(net.table, fs, block, i);
      assert net.table[i] in net.table && InStep(net.wire, net.table[i]);
      NumberedMore(ds, net.table[i], block);
    } else {
      NotSent(net.table, fs, block, hd);
    }
    forall c | c in r.table && c.hd == hd
      ensures c.udp
    {
      var j :| 0 <= j < |r.table| && r.table[j] == c;
      var i := KeptFrom(net.table, fs, j);
      assert net.table[i] in net.table;
    }
  }

  /** A UDP client's datagrams stay numbered over a flush even if it is removed on the way. */
  lemma {:induction false} FlushNumbered(net: Net, buf: seq<Byte>, w: Weather, bufSize: Size, hd: nat)
    requires Distinct(net.table) && AllInStep(net) && Numbered(To(net.wire, hd))
    requires forall c :: c in net.table && c.hd == hd ==> c.udp
    ensures var f := Flush(net, buf, w, bufSize); Numbered(To(f.wire, hd)) && |To(f.wire, hd)| >= |To(net.wire, hd)|
    decreases |buf|
  {
    hide To, SendBlock, Numbered, AllInStep;
    if buf != [] {
      var n := BlockSize(net, |buf|, bufSize);
      BlockInStep(net, buf[..n], w);
      BlockNumbered(net, buf[..n], w, hd);
      FlushNumbered(SendBlock(net, buf[..n], w), buf[n..], w, bufSize, hd);
    }
  }

  lemma NumberOfPlace(ds: seq<Delivery>, j: nat)
    requires Numbered(ds) && j < |ds|
    ensures ds[j].bytes != [] && Number(ds[j].bytes[0]) == j % PACK_MOD
  {}

  /** Appending the datagrams numbered from `lo` on. */
  lemma MoreMail(mail: seq<Mail>, ds: seq<Delivery>, lo: nat, sub: nat)
    requires InOrderMail(mail) && Numbered(ds) && lo <= |ds| && MailIsSent(mail, lo, sub)
    requires forall j :: 0 <= j < |mail| ==> mail[j].sub <= sub
    ensures var all := mail + Mails(ds, lo, sub);
      InOrderMail(all) && MailIsSent(all, |ds|, sub) && forall j :: 0 <= j < |all| ==> all[j].sub <= sub
  {
    hide Number, CountByte, MailIsSent, Numbered;
    var all := mail + Mails(ds, lo, sub);
    SentAll(mail, ds, lo, sub);
    forall j | 0 <= j < |all|
      ensures all[j].bytes != [] && Number(all[j].bytes[0]) == all[j].pos % PACK_MOD && all[j].sub <= sub
    {
      if j >= |mail| {
        NumberOfPlace(ds, lo + (j - |mail|));
      }
    }
    forall j | 0 < j < |all|
      ensures Follows(all[j - 1], all[j])
    {
      if j == |mail| {
        JoinMail(mail, all[j], lo, sub);
      }
    }
    if mail == [] && all != [] {
      JoinMail(mail, all[0], lo, sub);
    }
  }

  lemma JoinMail(mail: seq<Mail>, d: Mail, lo: nat, sub: nat)
    requires MailIsSent(mail, lo, sub) && d.sub == sub && d.pos == lo
    ensures if mail == [] then d.pos == 0 else Follows(mail[|mail| - 1], d)
  {}

  lemma SentAll(mail: seq<Mail>, ds: seq<Delivery>, lo: nat, sub: nat)
    requires lo <= |ds| && MailIsSent(mail, lo, sub)
    ensures MailIsSent(mail + Mails(ds, lo, sub), |ds|, sub)
  {
    if lo == |ds| {
      assert mail + [] == mail;
    }
  }

  lemma BoardMail(w: World, e: Event, t: Sys, v: World, su: Setup)
    requires Inv(w.sys, su.maxClients, su.bufSize) && MailOk(w, su)
    requires WorldNext(w, Board(e, t), v, su)
    ensures MailOk(v, su)
  {
    hide Ip.Text, Inv, Flush, InOrderMail, To, Mails, Numbered, InStep;
    if Makes(w, e, su) {
      assert w.mail + [] == w.mail;
      MadeSilent(w, e, t, su);
    } else if e.FlushBy? && ByUdp(w.sys.net, su) {
      InvTable(w.sys, su);
      var c := Mine(w.sys.net, su);
      MineNumbered(w.sys.net, su);
      FlushNumbered(w.sys.net, e.buf, e.w, su.bufSize, c.hd);
      MoreMail(w.mail, To(t.net.wire, c.hd), |To(w.sys.net.wire, c.hd)|, w.subs);
      if MeIn(t.net, su) {
        MineStays(w.sys, e, t, su);
      }
    } else {
      assert w.mail + [] == w.mail;
      if MeIn(t.net, su) {
        MineStays(w.sys, e, t, su);
        if !e.FlushBy? {
          OnlyFlushSends(w.sys, e, t, su.maxClients, su.bufSize);
        }
      }
    }
  }

  lemma MineNumbered(net: Net, su: Setup)
    requires ByUdp(net, su) && AllInStep(net) && Distinct(net.table)
    ensures var hd := Mine(net, su).hd; Numbered(To(net.wire, hd)) && forall c :: c in net.table && c.hd == hd ==> c.udp
  {
    var i := IndexOf(net.table, Ip.Text(su.me));
    assert InStep(net.wire, net.table[i]);
  }

  /** A new entry's socket has sent nothing yet. */
  lemma MadeSilent(w: World, e: Event, t: Sys, su: Setup)
    requires Inv(w.sys, su.maxClients, su.bufSize) && Makes(w, e, su)
    requires Next(w.sys, e, t, su.maxClients, su.bufSize)
    ensures MeIn(t.net, su) && Mine(t.net, su) == e.c && To(t.net.wire, e.c.hd) == []
  {
    NextKeeps(w.sys, e, t, su.maxClients, su.bufSize);
    assert t.net.table[|w.sys.net.table|] == e.c;
    MineIs(t.net, su, e.c);
  }

  lemma BoardLog(w: World, e: Event, t: Sys, v: World, su: Setup)
    requires SubOk(w, su) && LogOk(w, su) && w.known <= w.subs
    requires WorldNext(w, Board(e, t), v, su)
    ensures LogOk(v, su)
  {
    hide Ip.Text, Inv, Flush, MeIn, Mails, To;
  }

  lemma BoardKeeps(w: World, e: Event, t: Sys, v: World, su: Setup)
    requires WorldInv(w, su) && WorldNext(w, Board(e, t), v, su)
    ensures WorldInv(v, su)
  {
    hide Ip.Text, Inv, Next, SubOk, MailOk, LogOk;
    NextKeeps(w.sys, e, t, su.maxClients, su.bufSize);
    match e {
      case Subscribe(_, _) => SubscribeSub(w, e, t, v, su);
      case InsertEntry(_) => MakesSub(w, e, t, v, su);
      case Unsubscribe(_) => LeaveSub(w, e, t, v, su);
      case FlushBy(_, _) => LeaveSub(w, e, t, v, su);
      case _ => ControlSub(w, e, t, v, su);
    }
    BoardMail(w, e, t, v, su);
    BoardLog(w, e, t, v, su);
  }

  // ----- the other steps

  lemma BootKeeps(w: World, id: seq<Byte>, v: World, su: Setup)
    requires WorldInv(w, su) && WorldNext(w, Boot(id), v, su)
    ensures WorldInv(v, su)
  {
    hide Ip.Text, Inv, InOrderMail;
    InitOk(su.maxClients, su.bufSize);
  }

  lemma DeliverSub(w: World, bs: seq<Byte>, v: World, su: Setup)
    requires SubOk(w, su) && WorldNext(w, Deliver(bs), v, su)
    ensures SubOk(v, su)
  {
    hide Ip.Text, Inv, ReadBoot, MeIn;
  }

  lemma DeliverKeeps(w: World, bs: seq<Byte>, v: World, su: Setup)
    requires WorldInv(w, su) && WorldNext(w, Deliver(bs), v, su)
    ensures WorldInv(v, su)
  {
    hide Ip.Text, Inv, InOrderMail, ReadBoot, BcastFilter, MailIsSent, MeIn;
    DeliverSub(w, bs, v, su);
  }

  lemma ArriveKeeps(w: World, i: nat, v: World, su: Setup)
    requires WorldInv(w, su) && WorldNext(w, Arrive(i), v, su)
    ensures WorldInv(v, su)
  {
    hide Ip.Text, Inv, Number;
  }

  lemma AcceptKeeps(w: World, v: World, su: Setup)
    requires WorldInv(w, su) && WorldNext(w, AcceptLog, v, su)
    ensures WorldInv(v, su)
  {
    hide Ip.Text, Inv, InOrderMail;
  }

  lemma AnswerKeeps(w: World, ev: WorldEvent, v: World, su: Setup)
    requires WorldInv(w, su) && WorldNext(w, ev, v, su) && (ev.Answer? || ev.TakeAnswer?)
    ensures WorldInv(v, su)
  {
    hide Ip.Text, Inv, InOrderMail;
  }

  /** Every step of board and client keeps them consistent. */
  lemma WorldNextKeeps(w: World, ev: WorldEvent, v: World, su: Setup)
    requires WorldInv(w, su) && WorldNext(w, ev, v, su)
    ensures WorldInv(v, su)
  {
    hide WorldInv, WorldNext;
    match ev
    case Boot(id) => BootKeeps(w, id, v, su);
    case Board(e, t) => BoardKeeps(w, e, t, v, su);
    case Deliver(bs) => DeliverKeeps(w, bs, v, su);
    case Arrive(i) => ArriveKeeps(w, i, v, su);
    case AcceptLog => AcceptKeeps(w, v, su);
    case _ => AnswerKeeps(w, ev, v, su);
  }

  lemma WorldInitOk(w: World, su: Setup)
    requires WorldInit(w, su)
    ensures WorldInv(w, su)
  {
    hide Ip.Text, Inv, InOrderMail, To, Mails;
    if ByUdp(w.sys.net, su) {
      InvTable(w.sys, su);
      MineNumbered(w.sys.net, su);
      NoMail();
      MoreMail([], To(w.sys.net.wire, Mine(w.sys.net, su).hd), 0, 1);
      assert [] + w.mail == w.mail;
    } else {
      NoMail();
    }
  }

  lemma NoMail()
    ensures InOrderMail([])
  {}

  lemma {:induction false} WorldRunKeeps(ws: seq<World>, evs: seq<WorldEvent>, su: Setup, i: nat)
    requires IsWorldRun(ws, evs, su) && i < |ws|
    ensures WorldInv(ws[i], su)
  {
    hide WorldInv, WorldNext, WorldInit;
    if i == 0 {
      WorldInitOk(ws[0], su);
    } else {
      WorldRunKeeps(ws, evs, su, i - 1);
      assert WorldNext(ws[i - 1], evs[i - 1], ws[i - 1 + 1], su);
      WorldNextKeeps(ws[i - 1], evs[i - 1], ws[i], su);
    }
  }
}
