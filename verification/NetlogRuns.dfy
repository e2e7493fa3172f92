/**
 The netlog module under concurrency: the control task goes through the short
 sections of ctl_sub one by one, and between any two of them any task may flush
 its stdout. Each section and each flush is atomic, being under clients_mutex.
 */
module NetlogRuns {
  import opened Wrappers
  import opened NetlogTable
  import opened NetlogStreams
  import Ip

  datatype Proto = Udp | Tcp | Other

  /** Where the control task is inside ctl_sub. */
  datatype Ctl =
    | Idle
    | Absent(addr: Ip.IpAddr, proto: Proto)               // the address was not in the table
    | Room(addr: Ip.IpAddr, proto: Proto)                 // and the table was not full
    | Connected(addr: Ip.IpAddr, udp: bool, hd: nat)      // and the socket is open

  /** Sockets are numbered in the order they are opened; `nextHd` is the next one. */
  datatype Sys = Sys(net: Net, ctl: Ctl, nextHd: nat)

  datatype Event =
    | Subscribe(addr: Ip.IpAddr, proto: Proto)
    | CheckRoom
    | OpenSocket(socketOk: bool, connectOk: bool)
    | InsertEntry(c: Client)
    | Unsubscribe(addr: Ip.IpAddr)
    | FlushBy(buf: seq<Byte>, w: Weather)

  const Init := Sys(Net([], 0, [], [], [], 0), Idle, 0)

  ghost predicate Next(s: Sys, ev: Event, t: Sys, maxClients: nat, bufSize: Size) {
    match ev
    case Subscribe(a, p) =>
      && s.ctl.Idle?
      && t == s.(ctl := if IndexOf(s.net.table, Ip.Text(a)) >= 0 then Idle else Absent(a, p))
    case CheckRoom =>
      && s.ctl.Absent?
      && t == s.(ctl := if |s.net.table| == maxClients then Idle else Room(s.ctl.addr, s.ctl.proto))
    case OpenSocket(socketOk, connectOk) =>
      && s.ctl.Room?
      && t == (if s.ctl.proto.Other? || !socketOk then s.(ctl := Idle)
               else if s.ctl.proto.Tcp? && !connectOk then s.(ctl := Idle, nextHd := s.nextHd + 1)
               else s.(ctl := Connected(s.ctl.addr, s.ctl.proto.Udp?, s.nextHd), nextHd := s.nextHd + 1))
    case InsertEntry(c) =>
      && s.ctl.Connected? && AssertHolds(s, maxClients)
      && IsSubscription(c, s.ctl.hd, s.ctl.udp, s.ctl.addr)
      && t == s.(net := Subscribed(s.net, c), ctl := Idle)
    case Unsubscribe(a) =>
      && s.ctl.Idle?
      && t == s.(net := Unsubscribed(s.net, Ip.Text(a)))
    case FlushBy(buf, w) =>
      && t == s.(net := Flush(s.net, buf, w, bufSize))
  }

  /** The assertion marked "should never fail": the last section of ctl_sub finds a free slot. */
  predicate AssertHolds(s: Sys, maxClients: nat) {
    s.ctl.Connected? ==> |s.net.table| < maxClients
  }

  /** Any interleaving at all. */
  ghost predicate IsRun(ss: seq<Sys>, evs: seq<Event>, maxClients: nat, bufSize: Size) {
    && |ss| == |evs| + 1 && ss[0] == Init
    && forall i :: 0 <= i < |evs| ==> Next(ss[i], evs[i], ss[i + 1], maxClients, bufSize)
  }

  // ----- the invariant

  ghost predicate AddrsDistinct(net: Net) {
    forall a :: multiset(Addrs(net.table))[a] <= 1
  }

  /** Every socket is in the table once or was closed once, not both. */
  ghost predicate SocketsOk(net: Net, nextHd: nat) {
    forall h :: Sockets(net)[h] <= (if h < nextHd then 1 else 0)
  }

  /** A socket that never was in the table has sent nothing. */
  ghost predicate Silent(net: Net) {
    forall h :: h !in Sockets(net) ==> To(net.wire, h) == []
  }

  /** What the control task knows between its sections stays true, because others only remove clients. */
  predicate CtlOk(s: Sys, maxClients: nat) {
    && (!s.ctl.Idle? ==> Ip.Text(s.ctl.addr) !in Addrs(s.net.table))
    && (s.ctl.Room? || s.ctl.Connected? ==> |s.net.table| < maxClients)
    && (s.ctl.Connected? ==> s.ctl.hd < s.nextHd && s.ctl.hd !in Sockets(s.net))
  }

  ghost predicate TableOk(net: Net, maxClients: nat) {
    && |net.table| <= maxClients
    && net.udpNum == CountUdp(net.table)
    && AddrsDistinct(net)
  }

  ghost predicate StreamsOk(net: Net, bufSize: Size) {
    Distinct(net.table) && AllInStep(net) && Fits(net.wire, bufSize) && Silent(net)
  }

  ghost predicate Inv(s: Sys, maxClients: nat, bufSize: Size) {
    && TableOk(s.net, maxClients)
    && SocketsOk(s.net, s.nextHd)
    && CtlOk(s, maxClients)
    && StreamsOk(s.net, bufSize)
  }

  lemma InitOk(maxClients: nat, bufSize: Size)
    ensures Inv(Init, maxClients, bufSize)
  {
    NoClients();
  }
}
