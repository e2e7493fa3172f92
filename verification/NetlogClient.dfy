/**
 tools/netlog.py: boot messages and the filter on them, and the check of
 datagram numbers.
 */
module NetlogClient {
  import opened Wrappers
  import opened NetlogTable

  // ----- boot messages

  const MAGIC: seq<Byte> := [0x32, 0x37, 0x32, 0x30, 0x4e, 0x45, 0x54, 0x4c, 0x4f, 0x47]  // "2720NETLOG"
  const MAC_ADDR_SIZE := 6
  const SESSION_ID_SIZE := 32

  datatype BoardInfo = BoardInfo(mac: seq<Byte>, session: seq<Byte>)

  predicate IsBoardInfo(b: BoardInfo) {
    |b.mac| == MAC_ADDR_SIZE && |b.session| == SESSION_ID_SIZE
  }

  /** The datagram the board broadcasts when it starts. */
  function BootMessage(b: BoardInfo): seq<Byte> {
    MAGIC + b.mac + b.session
  }

  /** Magic, MAC address and session, in that order. */
  lemma BootLayout(b: BoardInfo)
    requires IsBoardInfo(b)
    ensures var m := BootMessage(b);
      && |m| == 48 && m[..10] == [0x32, 0x37, 0x32, 0x30, 0x4e, 0x45, 0x54, 0x4c, 0x4f, 0x47]
      && m[10..16] == b.mac && m[16..48] == b.session
  {}

  /** What the client makes of a datagram, of which it reads no more than a boot message's length. */
  function ReadBoot(bs: seq<Byte>): Option<BoardInfo> {
    var n := |MAGIC| + MAC_ADDR_SIZE + SESSION_ID_SIZE;
    var r := if |bs| <= n then bs else bs[..n];
    if |r| < |MAGIC| || r[..|MAGIC|] != MAGIC || |r| != n then None
    else Some(BoardInfo(r[|MAGIC|..|MAGIC| + MAC_ADDR_SIZE], r[|MAGIC| + MAC_ADDR_SIZE..]))
  }

  /** A datagram reads as a boot message exactly if it starts with that message. */
  lemma BootRoundTrip(bs: seq<Byte>, b: BoardInfo)
    ensures ReadBoot(bs) == Some(b) <==> IsBoardInfo(b) && BootMessage(b) <= bs
  {
    var n, m := |MAGIC| + MAC_ADDR_SIZE + SESSION_ID_SIZE, |MAGIC| + MAC_ADDR_SIZE;
    if ReadBoot(bs) == Some(b) {
      assert bs[..n] == BootMessage(b);
    }
    if IsBoardInfo(b) && BootMessage(b) <= bs {
      var r := bs[..n];
      assert r == BootMessage(b);
      assert r[..|MAGIC|] == MAGIC && r[|MAGIC|..m] == b.mac && r[m..] == b.session;
      assert |bs| == n ==> bs == r;
    }
  }

  /** bcast_filter: the message is of the same board, and of another session. */
  predicate BcastFilter(cur: BoardInfo, bcast: BoardInfo) {
    cur.mac == bcast.mac && cur.session != bcast.session
  }

  // ----- the client's state

  class LogClient {
    var boardInfo: BoardInfo
    var udpPackCnt: int
    var tcp: bool
    var tcpLog: bool       // a TCP connection for logs is open

    /** handle_bcast up to the call of ctl_sub, which it makes exactly if the filter lets the message through. */
    method HandleBcast(bs: seq<Byte>) returns (resubscribe: bool)
      modifies this
      ensures tcp == old(tcp)
      ensures resubscribe == (ReadBoot(bs).Some? && BcastFilter(old(boardInfo), ReadBoot(bs).value))
      ensures !resubscribe ==> boardInfo == old(boardInfo) && udpPackCnt == old(udpPackCnt) && tcpLog == old(tcpLog)
      ensures resubscribe ==>
        && boardInfo == ReadBoot(bs).value
        && udpPackCnt == (if tcp then old(udpPackCnt) else 127)
        && tcpLog == (!tcp && old(tcpLog))
    {
      var info := ReadBoot(bs);
      if info.None? || !BcastFilter(boardInfo, info.value) {
        return false;
      }
      boardInfo := info.value;
      if tcp {
        tcpLog := false;
      } else {
        udpPackCnt := 127;
      }
      resubscribe := true;
    }

    /** The end of ctl_sub: the board's answer says who it is. */
    method CtlSubDone(answer: BoardInfo)
      modifies this`boardInfo
      ensures boardInfo == answer
    {
      boardInfo := answer;
    }

    /** The UDP branch of main_loop: prints the log and reports a number that is not the next one. */
    method HandleDatagram(bs: seq<Byte>) returns (log: seq<Byte>, outOfOrder: bool)
      requires bs != []
      modifies this`udpPackCnt
      ensures log == bs[1..]
      ensures outOfOrder == Reported(old(udpPackCnt), Number(bs[0])) && udpPackCnt == Number(bs[0])
    {
      var cnt := bs[0] % PACK_MOD;
      log := bs[1..];
      outOfOrder := cnt != (udpPackCnt + 1) % PACK_MOD;
      udpPackCnt := cnt;
    }
  }

  // ----- datagram numbers

  /** The low seven bits of a datagram's first byte. */
  function Number(b: Byte): int {
    b % PACK_MOD
  }

  /** The client, having seen number `last`, reports a datagram of number `cnt` as out of order. */
  predicate Reported(last: int, cnt: int) {
    cnt != (last + 1) % PACK_MOD
  }
}
