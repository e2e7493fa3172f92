/**
 src/lib/ota.c: a server that writes the payload of a request to NOR flash and,
 after any failure, erases what it may have touched before it accepts again.
 */
module Ota {
  import opened Wrappers

  /** Eight bits of flash. */
  type Cell = bv8

  const FIRMWARE_BUF_SIZE := 4096
  const FIRMWARE_BLK_SIZE := 4096
  const ERASED: Cell := 0xff

  // ----- NOR flash

  /** Writing can only clear bits. */
  function NorWrite(cells: seq<Cell>, off: nat, data: seq<Cell>): (r: seq<Cell>)
    requires off + |data| <= |cells|
    ensures |r| == |cells|
  {
    seq(|cells|, i requires 0 <= i < |cells| =>
      if off <= i < off + |data| then cells[i] & data[i - off] else cells[i])
  }

  function Blank(n: nat): seq<Cell> {
    seq(n, _ => ERASED)
  }

  /** A partition that holds `p` and is erased behind it. */
  function Programmed(size: nat, p: seq<Cell>): seq<Cell>
    requires |p| <= size
  {
    p + Blank(size - |p|)
  }

  lemma AndErased(b: Cell)
    ensures ERASED & b == b
  {}

  /** Behind what is programmed, writing is exact. */
  lemma WriteExact(size: nat, p: seq<Cell>, d: seq<Cell>)
    requires |p| + |d| <= size
    ensures NorWrite(Programmed(size, p), |p|, d) == Programmed(size, p + d)
  {
    var r := NorWrite(Programmed(size, p), |p|, d);
    forall i | 0 <= i < size
      ensures r[i] == Programmed(size, p + d)[i]
    {
      if |p| <= i < |p| + |d| {
        AndErased(d[i - |p|]);
      }
    }
  }

  /** A write leaves the data it was given exactly if it need not set any bit. */
  lemma WriteIsExactIff(cells: seq<Cell>, off: nat, d: seq<Cell>)
    requires off + |d| <= |cells|
    ensures NorWrite(cells, off, d)[off..off + |d|] == d <==>
            forall i :: 0 <= i < |d| ==> d[i] & !cells[off + i] == 0
  {
    var r := NorWrite(cells, off, d);
    forall i | 0 <= i < |d|
      ensures r[off..off + |d|][i] == d[i] <==> d[i] & !cells[off + i] == 0
    {
      NoBitToSet(cells[off + i], d[i]);
    }
  }

  lemma NoBitToSet(c: Cell, d: Cell)
    ensures c & d == d <==> d & !c == 0
  {}

  /** The number of bytes erased for `bytes`: whole blocks. */
  function EraseSize(bytes: nat): nat {
    var blks := bytes / FIRMWARE_BLK_SIZE + (if bytes % FIRMWARE_BLK_SIZE != 0 then 1 else 0);
    blks * FIRMWARE_BLK_SIZE
  }

  /** Rounding up to blocks covers the bytes and stays inside a partition of whole blocks. */
  lemma EraseSizeFits(bytes: nat, size: nat)
    requires bytes <= size && size % FIRMWARE_BLK_SIZE == 0
    ensures bytes <= EraseSize(bytes) <= size && EraseSize(bytes) < bytes + 4096 && EraseSize(bytes) % 4096 == 0
  {
    var q := size / FIRMWARE_BLK_SIZE;
    assert size == q * FIRMWARE_BLK_SIZE;
    assert bytes / FIRMWARE_BLK_SIZE <= q;
  }

  // ----- the environment

  datatype WriteResult = WriteOk | WriteFails(mask: nat -> Cell)  // a failing write may clear any bits of its range

  /** What one receive call brings, and how the write of it goes. */
  datatype Chunk = Data(bytes: seq<Cell>, write: WriteResult) | SockErr

  datatype BootResult = BootOk | BootInvalid | BootErr

  /** One connection; a receive behind the last chunk finds the end of the stream. */
  datatype Conn = Conn(
    accepted: bool, magicOk: bool, size: Option<nat>, md5Ok: bool, mallocOk: bool,
    chunks: seq<Chunk>, boot: BootResult, eraseOk: bool)

  predicate IsConn(c: Conn) {
    forall i :: 0 <= i < |c.chunks| && c.chunks[i].Data? ==> 0 < |c.chunks[i].bytes| <= FIRMWARE_BUF_SIZE
  }

  /** The payload in the first `k` chunks. */
  function Payload(chunks: seq<Chunk>, k: nat): seq<Cell>
    requires k <= |chunks|
  {
    if k == 0 then []
    else Payload(chunks, k - 1) + (if chunks[k - 1].Data? then chunks[k - 1].bytes else [])
  }

  datatype Resp = RespOk | InternalErr | MalformedReq | UnexpectedEnd | TooBig | EspVerifyErr

  /** The end of the receive loop that has taken `k` chunks. */
  function ReceiveVerdict(c: Conn, size: nat, partSize: nat, k: nat): Resp
    requires k <= |c.chunks|
    decreases |c.chunks| - k
  {
    var got := |Payload(c.chunks, k)|;
    if got >= size then RespOk
    else if k == |c.chunks| then UnexpectedEnd
    else if c.chunks[k].SockErr? then InternalErr
    else if got + |c.chunks[k].bytes| > partSize || c.chunks[k].write.WriteFails? then InternalErr
    else ReceiveVerdict(c, size, partSize, k + 1)
  }

  /** One turn of that loop. */
  lemma ReceiveTurn(c: Conn, size: nat, partSize: nat, k: nat)
    requires k <= |c.chunks|
    ensures var got := |Payload(c.chunks, k)|;
      ReceiveVerdict(c, size, partSize, k) ==
      if got >= size then RespOk
      else if k == |c.chunks| then UnexpectedEnd
      else if c.chunks[k].SockErr? || got + |c.chunks[k].bytes| > partSize || c.chunks[k].write.WriteFails? then
        InternalErr
      else ReceiveVerdict(c, size, partSize, k + 1)
  {}

  lemma PayloadMore(chunks: seq<Chunk>, k: nat)
    ensures Payload(chunks, 0) == []
    ensures k < |chunks| && chunks[k].Data? ==> Payload(chunks, k + 1) == Payload(chunks, k) + chunks[k].bytes
  {}

  /** The answer to a request, by the first thing that goes wrong with it. */
  function Verdict(c: Conn, partSize: nat): Resp {
    if !c.magicOk || c.size.None? then MalformedReq
    else if c.size.value > partSize then TooBig
    else if !c.md5Ok then MalformedReq
    else if !c.mallocOk then InternalErr
    else
      var r := ReceiveVerdict(c, c.size.value, partSize, 0);
      if r != RespOk || c.boot.BootOk? then r
      else if c.boot.BootInvalid? then EspVerifyErr
      else InternalErr
  }

  /** The first `k` chunks are all stored and are the first ones to reach the announced size. */
  predicate Completes(c: Conn, size: nat, partSize: nat, k: nat) {
    && k <= |c.chunks|
    && (forall i :: 0 <= i < k ==> c.chunks[i].Data? && c.chunks[i].write.WriteOk?)
    && size <= |Payload(c.chunks, k)| <= partSize
    && (k > 0 ==> |Payload(c.chunks, k - 1)| < size)
  }

  lemma {:induction false} PayloadGrows(chunks: seq<Chunk>, j: nat, k: nat)
    requires j <= k <= |chunks|
    ensures |Payload(chunks, j)| <= |Payload(chunks, k)|
  {
    if j < k {
      PayloadGrows(chunks, j, k - 1);
    }
  }

  lemma {:induction false} ReceivedIff(c: Conn, size: nat, partSize: nat, j: nat)
    requires j <= |c.chunks| && |Payload(c.chunks, j)| <= partSize
    requires forall i :: 0 <= i < j ==> c.chunks[i].Data? && c.chunks[i].write.WriteOk?
    requires j > 0 ==> |Payload(c.chunks, j - 1)| < size
    ensures ReceiveVerdict(c, size, partSize, j) == RespOk <==> exists k: nat :: Completes(c, size, partSize, k)
    decreases |c.chunks| - j
  {
    var got := |Payload(c.chunks, j)|;
    if got >= size {
      assert Completes(c, size, partSize, j);
    } else {
      forall k: nat | Completes(c, size, partSize, k)
        ensures k > j && got + |c.chunks[j].bytes| <= partSize
      {
        PayloadGrows(c.chunks, if k <= j then k else j + 1, if k <= j then j else k);
      }
      if j < |c.chunks| && c.chunks[j].Data? && c.chunks[j].write.WriteOk? && got + |c.chunks[j].bytes| <= partSize {
        ReceivedIff(c, size, partSize, j + 1);
      }
    }
  }

  /**
   A request is answered OK exactly if its header is read and announces what the
   partition can hold, some first chunks reach that size inside the partition
   with every write succeeding, and the image is accepted for booting.
   */
  lemma AnsweredOkIff(c: Conn, partSize: nat)
    ensures Verdict(c, partSize) == RespOk <==>
      && c.magicOk && c.md5Ok && c.mallocOk && c.boot.BootOk?
      && c.size.Some? && c.size.value <= partSize
      && exists k: nat :: Completes(c, c.size.value, partSize, k)
  {
    if c.size.Some? && c.size.value <= partSize {
      ReceivedIff(c, c.size.value, partSize, 0);
    }
  }

  // ----- each answer, by what happened

  /** The header is read and announces what the partition can hold. */
  predicate HeaderFits(c: Conn, partSize: nat) {
    c.magicOk && c.size.Some? && c.size.value <= partSize && c.md5Ok
  }

  /** The first `k` chunks are in the partition. */
  predicate Stored(c: Conn, partSize: nat, k: nat) {
    && k <= |c.chunks|
    && (forall i :: 0 <= i < k ==> c.chunks[i].Data? && c.chunks[i].write.WriteOk?)
    && |Payload(c.chunks, k)| <= partSize
  }

  /** All there is came and was stored, and it is less than announced. */
  predicate EndsEarly(c: Conn, size: nat, partSize: nat) {
    Stored(c, partSize, |c.chunks|) && |Payload(c.chunks, |c.chunks|)| < size
  }

  /** With less than announced so far, chunk `k` is a failed receive, does not fit, or is not written. */
  predicate Breaks(c: Conn, size: nat, partSize: nat, k: nat) {
    && k < |c.chunks| && Stored(c, partSize, k) && |Payload(c.chunks, k)| < size
    && (|| c.chunks[k].SockErr?
        || |Payload(c.chunks, k)| + |c.chunks[k].bytes| > partSize
        || c.chunks[k].write.WriteFails?)
  }

  /** What must have happened for that answer. */
  ghost predicate IsAnswer(c: Conn, partSize: nat, r: Resp) {
    match r
    case TooBig => c.magicOk && c.size.Some? && c.size.value > partSize
    case MalformedReq => !c.magicOk || c.size.None? || (c.size.value <= partSize && !c.md5Ok)
    case UnexpectedEnd => HeaderFits(c, partSize) && c.mallocOk && EndsEarly(c, c.size.value, partSize)
    case RespOk =>
      && HeaderFits(c, partSize) && c.mallocOk && c.boot.BootOk?
      && exists k: nat :: Completes(c, c.size.value, partSize, k)
    case EspVerifyErr =>
      && HeaderFits(c, partSize) && c.mallocOk && c.boot.BootInvalid?
      && exists k: nat :: Completes(c, c.size.value, partSize, k)
    case InternalErr =>
      && HeaderFits(c, partSize)
      && (|| !c.mallocOk
          || (exists k: nat :: Breaks(c, c.size.value, partSize, k))
          || (c.boot.BootErr? && exists k: nat :: Completes(c, c.size.value, partSize, k)))
  }

  lemma BreaksLater(c: Conn, size: nat, partSize: nat, j: nat, k: nat)
    requires Stored(c, partSize, j) && Breaks(c, size, partSize, k)
    ensures k >= j && |Payload(c.chunks, j)| < size
  {
    if k < j {
      PayloadGrows(c.chunks, k + 1, j);
    } else {
      PayloadGrows(c.chunks, j, k);
    }
  }

  lemma StoredMore(c: Conn, partSize: nat, j: nat)
    requires Stored(c, partSize, j) && j < |c.chunks|
    ensures Stored(c, partSize, j + 1) <==>
            && c.chunks[j].Data? && c.chunks[j].write.WriteOk?
            && |Payload(c.chunks, j)| + |c.chunks[j].bytes| <= partSize
  {}

  lemma StoredFirst(c: Conn, size: nat, partSize: nat, j: nat)
    requires EndsEarly(c, size, partSize) && j <= |c.chunks|
    ensures Stored(c, partSize, j) && |Payload(c.chunks, j)| < size
  {
    PayloadGrows(c.chunks, j, |c.chunks|);
  }

  lemma {:induction false} BrokenIff(c: Conn, size: nat, partSize: nat, j: nat)
    requires j <= |c.chunks| && Stored(c, partSize, j)
    ensures ReceiveVerdict(c, size, partSize, j) == UnexpectedEnd <==> EndsEarly(c, size, partSize)
    ensures ReceiveVerdict(c, size, partSize, j) == InternalErr <==> exists k: nat :: Breaks(c, size, partSize, k)
    ensures ReceiveVerdict(c, size, partSize, j) in [RespOk, UnexpectedEnd, InternalErr]
    decreases |c.chunks| - j
  {
    hide ReceiveVerdict, Payload, Stored;
    ReceiveTurn(c, size, partSize, j);
    forall k: nat | Breaks(c, size, partSize, k)
      ensures k >= j && |Payload(c.chunks, j)| < size
    {
      BreaksLater(c, size, partSize, j, k);
    }
    if EndsEarly(c, size, partSize) {
      StoredFirst(c, size, partSize, j);
    }
    if |Payload(c.chunks, j)| < size && j < |c.chunks| {
      StoredMore(c, partSize, j);
      if Stored(c, partSize, j + 1) {
        BrokenIff(c, size, partSize, j + 1);
      } else {
        assert Breaks(c, size, partSize, j);
        if EndsEarly(c, size, partSize) {
          StoredFirst(c, size, partSize, j + 1);
        }
      }
    }
  }

  /** Each answer is given exactly if what it stands for has happened. */
  lemma AnswerIs(c: Conn, partSize: nat)
    ensures forall r :: IsAnswer(c, partSize, r) <==> r == Verdict(c, partSize)
  {
    if HeaderFits(c, partSize) {
      ReceivedIff(c, c.size.value, partSize, 0);
      BrokenIff(c, c.size.value, partSize, 0);
    }
  }

  datatype PartStatus = PartClean | PartNeedErase | PartErr

  /** How the server task ends: it has restarted the board, it has shut down, or it waits in accept. */
  datatype Outcome = Rebooted(served: nat) | Dead | Accepting

  class Server {
    const part: array<Cell>
    var partBytesWritten: nat
    var headerSize: nat

    predicate Valid() {
      part.Length % FIRMWARE_BLK_SIZE == 0
    }

    /** Where every request starts: the whole partition is erased and nothing is counted. */
    ghost predicate CleanSlate()
      reads this, part
    {
      part[..] == Blank(part.Length) && partBytesWritten == 0
    }

    /** Nothing behind the counted bytes has been touched. */
    ghost predicate DirtyWithinCount()
      reads this, part
    {
      forall i :: 0 <= i < part.Length && i >= partBytesWritten ==> part[i] == ERASED
    }

    /** The partition is exactly the payload the request delivered, block-rounded only by what came in one receive. */
    ghost predicate Updated(c: Conn)
      reads this, part
    {
      && c.size == Some(headerSize)
      && headerSize <= partBytesWritten < headerSize + FIRMWARE_BUF_SIZE
      && partBytesWritten <= part.Length
      && exists k :: IsReceived(c, k) && |Payload(c.chunks, k)| == partBytesWritten
                     && part[..] == Programmed(part.Length, Payload(c.chunks, k))
    }

    /** The loop took `k` chunks: the first ones, as many as it needed to reach the announced size. */
    ghost predicate IsReceived(c: Conn, k: nat)
      reads this
    {
      && k <= |c.chunks|
      && (forall i :: 0 <= i < k ==> c.chunks[i].Data?)
      && |Payload(c.chunks, k)| >= headerSize
      && (k > 0 ==> |Payload(c.chunks, k - 1)| < headerSize)
    }

    /** The connection is taken and its request is answered OK. */
    predicate Answered(c: Conn) {
      c.accepted && Verdict(c, part.Length) == RespOk
    }

    constructor (part: array<Cell>)
      ensures this.part == part && partBytesWritten == 0
    {
      this.part := part;
      partBytesWritten, headerSize := 0, 0;
    }

    /** esp_partition_write_raw */
    method WriteRaw(off: nat, data: seq<Cell>, res: WriteResult) returns (ok: bool)
      modifies part
      ensures ok == (off + |data| <= part.Length && res.WriteOk?)
      ensures ok ==> part[..] == NorWrite(old(part[..]), off, data)
      ensures forall i :: 0 <= i < part.Length && !(off <= i < off + |data|) ==> part[i] == old(part[i])
    {
      if off + |data| > part.Length {
        return false;
      }
      for j := 0 to |data|
        invariant forall i :: 0 <= i < part.Length && !(off <= i < off + j) ==> part[i] == old(part[i])
        invariant res.WriteOk? ==> forall i :: off <= i < off + j ==> part[i] == old(part[..])[i] & data[i - off]
      {
        part[off + j] := part[off + j] & (if res.WriteOk? then data[j] else res.mask(j));
      }
      ok := res.WriteOk?;
    }

    /** esp_partition_erase_range from the start of the partition. */
    method EraseRange(n: nat, ok: bool)
      requires n <= part.Length
      modifies part
      ensures ok ==> forall i :: 0 <= i < n ==> part[i] == ERASED
      ensures forall i :: n <= i < part.Length ==> part[i] == old(part[i])
    {
      if ok {
        forall i | 0 <= i < n {
          part[i] := ERASED;
        }
      }
    }

    /** erase_upd_part: clamps to the partition and rounds up to blocks. */
    method EraseUpdPart(bytes: nat, eraseOk: bool) returns (ok: bool)
      requires Valid()
      modifies part
      ensures ok == eraseOk
      ensures var n := EraseSize(if bytes > part.Length then part.Length else bytes);
        && n <= part.Length
        && (ok ==> forall i :: 0 <= i < n ==> part[i] == ERASED)
        && forall i :: n <= i < part.Length ==> part[i] == old(part[i])
      ensures old(forall i :: 0 <= i < part.Length && i >= bytes ==> part[i] == ERASED) && ok
              ==> part[..] == Blank(part.Length)
    {
      var n := if bytes > part.Length then part.Length else bytes;
      EraseSizeFits(n, part.Length);
      var blks := n / FIRMWARE_BLK_SIZE;
      if n % FIRMWARE_BLK_SIZE != 0 {
        blks := blks + 1;
      }
      EraseRange(blks * FIRMWARE_BLK_SIZE, eraseOk);
      ok := eraseOk;
    }

    /** The first look at the partition can be taken: `readOk` says which block reads succeed. */
    ghost predicate Readable(mallocOk: bool, readOk: nat -> bool) {
      mallocOk && forall b :: 0 <= b < part.Length / FIRMWARE_BLK_SIZE ==> readOk(b)
    }

    /** check_upd_part */
    method CheckUpdPart(mallocOk: bool, readOk: nat -> bool) returns (st: PartStatus)
      requires Valid()
      ensures st == PartClean ==> part[..] == Blank(part.Length)
      ensures st == PartNeedErase ==> part[..] != Blank(part.Length)
      ensures st == PartErr ==> !Readable(mallocOk, readOk)
    {
      if !mallocOk {
        return PartErr;
      }
      var offs := 0;
      while offs < part.Length
        invariant offs % FIRMWARE_BLK_SIZE == 0 && 0 <= offs <= part.Length
        invariant forall i :: 0 <= i < offs ==> part[i] == ERASED
        decreases part.Length - offs
      {
        WholeBlock(offs, part.Length);
        if !readOk(offs / FIRMWARE_BLK_SIZE) {
          assert !Readable(mallocOk, readOk);
          return PartErr;
        }
        var clean := true;
        for i := 0 to FIRMWARE_BLK_SIZE
          invariant clean == (forall j :: offs <= j < offs + i ==> part[j] == ERASED)
        {
          clean := clean && part[offs + i] == ERASED;
        }
        if !clean {
          var j :| offs <= j < offs + FIRMWARE_BLK_SIZE && part[j] != ERASED;
          assert part[..][j] != Blank(part.Length)[j];
          return PartNeedErase;
        }
        offs := offs + FIRMWARE_BLK_SIZE;
      }
      return PartClean;
    }

    /** The receive and write loop of handle_req. */
    method Receive(c: Conn) returns (resp: Resp)
      requires Valid() && CleanSlate() && IsConn(c) && c.size == Some(headerSize)
      modifies this`partBytesWritten, part
      ensures DirtyWithinCount()
      ensures resp == ReceiveVerdict(c, headerSize, part.Length, 0)
      ensures resp == RespOk ==> Updated(c)
    {
      hide NorWrite, Programmed, ReceiveVerdict, Payload, Blank;
      var k: nat := 0;
      PayloadMore(c.chunks, 0);
      EmptySlate();
      partBytesWritten := 0;
      while partBytesWritten < headerSize
        invariant k <= |c.chunks| && partBytesWritten == |Payload(c.chunks, k)| <= part.Length
        invariant part[..] == Programmed(part.Length, Payload(c.chunks, k))
        invariant partBytesWritten < headerSize + FIRMWARE_BUF_SIZE
        invariant forall i :: 0 <= i < k ==> c.chunks[i].Data?
        invariant k > 0 ==> |Payload(c.chunks, k - 1)| < headerSize
        invariant ReceiveVerdict(c, headerSize, part.Length, k) == ReceiveVerdict(c, headerSize, part.Length, 0)
        decreases |c.chunks| - k
      {
        BehindProgrammed();
        ReceiveTurn(c, headerSize, part.Length, k);
        if k == |c.chunks| {
          return UnexpectedEnd;
        }
        if c.chunks[k].SockErr? {
          return InternalErr;
        }
        var buf := c.chunks[k].bytes;
        PayloadMore(c.chunks, k);
        if partBytesWritten + |buf| <= part.Length {
          WriteExact(part.Length, Payload(c.chunks, k), buf);
        }
        var ok := WriteRaw(partBytesWritten, buf, c.chunks[k].write);
        partBytesWritten := partBytesWritten + |buf|;
        if !ok {
          return InternalErr;
        }
        k := k + 1;
      }
      BehindProgrammed();
      ReceiveTurn(c, headerSize, part.Length, k);
      resp := RespOk;
    }

    lemma EmptySlate()
      requires CleanSlate()
      ensures part[..] == Programmed(part.Length, [])
    {}

    lemma BehindProgrammed()
      requires partBytesWritten <= part.Length
      requires exists p :: |p| == partBytesWritten && part[..] == Programmed(part.Length, p)
      ensures DirtyWithinCount()
    {
      var p :| |p| == partBytesWritten && part[..] == Programmed(part.Length, p);
      forall i | 0 <= i < part.Length && i >= partBytesWritten
        ensures part[i] == ERASED
      {
        assert part[i] == part[..][i];
      }
    }

    method HandleReq(c: Conn) returns (resp: Resp)
      requires Valid() && CleanSlate() && IsConn(c)
      modifies this`partBytesWritten, this`headerSize, part
      ensures DirtyWithinCount()
      ensures resp == Verdict(c, part.Length)
      ensures forall r :: IsAnswer(c, part.Length, r) <==> r == resp
      ensures resp == RespOk ==> Updated(c)
    {
      AnswerIs(c, part.Length);
      if !c.magicOk || c.size.None? {
        return MalformedReq;
      }
      headerSize := c.size.value;
      if headerSize > part.Length {
        return TooBig;
      }
      if !c.md5Ok {
        return MalformedReq;
      }
      if !c.mallocOk {
        return InternalErr;
      }
      resp := Receive(c);
      if resp == RespOk && !c.boot.BootOk? {
        resp := if c.boot.BootInvalid? then EspVerifyErr else InternalErr;
      }
    }

    /**
     The server task over any sequence of connections. When it answers OK the
     partition is exactly that request's payload, whatever failed before; when it
     is back in accept, the slate is clean; and only flash or memory that fails
     can shut it down. Being so for every sequence, it is so behind each of its
     prefixes.
     */
    method ServerTask(conns: seq<Conn>, mallocOk: bool, readOk: nat -> bool, firstEraseOk: bool)
        returns (outcome: Outcome)
      requires Valid() && partBytesWritten == 0
      requires forall i :: 0 <= i < |conns| ==> IsConn(conns[i])
      modifies this`partBytesWritten, this`headerSize, part
      ensures outcome == Accepting ==> CleanSlate()
      ensures outcome.Rebooted? ==>
        && outcome.served < |conns| && Answered(conns[outcome.served]) && Updated(conns[outcome.served])
        && forall i :: 0 <= i < outcome.served ==> !Answered(conns[i])
      ensures outcome == Accepting ==> forall i :: 0 <= i < |conns| ==> !Answered(conns[i])
      ensures outcome == Dead ==>
        || !Readable(mallocOk, readOk) || !firstEraseOk
        || exists i :: 0 <= i < |conns| && conns[i].accepted && !Answered(conns[i]) && !conns[i].eraseOk
    {
      var st := CheckUpdPart(mallocOk, readOk);
      if st == PartErr {
        return Dead;
      }
      if st == PartNeedErase {
        var ok := EraseUpdPart(part.Length, firstEraseOk);
        if !ok {
          return Dead;
        }
      }
      for i := 0 to |conns|
        invariant CleanSlate()
        invariant forall j :: 0 <= j < i ==> !Answered(conns[j])
      {
        if !conns[i].accepted {
          continue;
        }
        var resp := HandleReq(conns[i]);
        if resp == RespOk {
          return Rebooted(i);
        }
        if partBytesWritten != 0 {
          var ok := EraseUpdPart(partBytesWritten, conns[i].eraseOk);
          if !ok {
            return Dead;
          }
          partBytesWritten := 0;
        } else {
          UntouchedIsBlank();
        }
      }
      outcome := Accepting;
    }

    lemma UntouchedIsBlank()
      requires DirtyWithinCount() && partBytesWritten == 0
      ensures CleanSlate()
    {}
  }

  lemma WholeBlock(offs: nat, size: nat)
    requires offs % FIRMWARE_BLK_SIZE == 0 && size % FIRMWARE_BLK_SIZE == 0 && offs < size
    ensures offs + FIRMWARE_BLK_SIZE <= size && (offs + FIRMWARE_BLK_SIZE) % FIRMWARE_BLK_SIZE == 0
  {
    var a, b := offs / FIRMWARE_BLK_SIZE, size / FIRMWARE_BLK_SIZE;
    assert offs == a * FIRMWARE_BLK_SIZE && size == b * FIRMWARE_BLK_SIZE;
    assert a + 1 <= b;
  }
}
