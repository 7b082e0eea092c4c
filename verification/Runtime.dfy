/** struct PtpRuntime and the code that works on its buffer: src/transport.c, the builders of
    src/packet.c, and ptp_send/ptp_send_data of src/lib.c as one thread sees them. */
module Runtime {
  import opened Bytes
  import opened Packets
  import opened PacketAccess
  import opened UsbReceive
  import opened IpReceive
  import opened UsbSend
  import opened DeviceModel

  /** Room the buffer sums need to stay inside 31 bits. */
  const HEADROOM := 0x1000

  /** PTP_DEFAULT_SIZE; the buffer never becomes smaller than it was made. */
  const DEFAULT_SIZE := 1000000

  class PtpRuntime {
    const conn: Conn
    const dev: Device
    const responseWaitDefault: byte
    var operationKillSwitch: bool
    var transaction: nat
    var session: nat
    var data: array<byte>
    var dataLength: u32
    var dataFilledLength: u32
    var dataPhaseLength: u32
    var waitForResponse: byte
    var lockDepth: nat  // how often the calling thread holds the recursive mutex

    ghost predicate Valid()
      reads this, dev
    {
      DEFAULT_SIZE <= data.Length == dataLength < U32_MOD - 4 && dev.Valid()
    }

    /** ptp_init followed by a successful connection. */
    constructor (conn: Conn, dev: Device, responseWaitDefault: byte)
      ensures Valid() && fresh(data)
      requires dev.Valid()
      ensures this.conn == conn && this.dev == dev && this.responseWaitDefault == responseWaitDefault
      ensures !operationKillSwitch && transaction == 0 && session == 0 && lockDepth == 0
    {
      this.conn, this.dev, this.responseWaitDefault := conn, dev, responseWaitDefault;
      waitForResponse := responseWaitDefault;
      operationKillSwitch := false;
      transaction, session, lockDepth := 0, 0, 0;
      data, dataLength := new byte[DEFAULT_SIZE], DEFAULT_SIZE;
      dataFilledLength, dataPhaseLength := 0, 0;
    }

    /** ptp_buffer_resize: the buffer only grows, by a hundred bytes more than asked for, and keeps
        everything already in it. */
    method BufferResize(size: nat) returns (rc: int)
      requires Valid() && (size <= dataLength || size + 104 < U32_MOD)
      modifies this`data, this`dataLength
      ensures Valid() && rc == PTP_OK && dataLength >= size && dataLength >= old(dataLength)
      ensures fresh({data} - {old(data)})
      ensures dataLength == if size <= old(dataLength) then old(dataLength) else size + 100
      ensures data[..old(data.Length)] == old(data[..])
    {
      if size <= dataLength {
        return PTP_OK;
      }
      var grown := new byte[size + 100];
      forall i | 0 <= i < data.Length {
        grown[i] := data[i];
      }
      data, dataLength := grown, size + 100;
      rc := PTP_OK;
    }

    function LoadU16(of: nat): u16
      requires of + 2 <= data.Length
      reads this, data
    {
      ReadU16(data[..], of)
    }

    function LoadU32(of: nat): u32
      requires of + 4 <= data.Length
      reads this, data
    {
      ReadU32(data[..], of)
    }

    lemma LoadPrefix(n: nat, of: nat)
      requires n <= data.Length
      ensures of + 2 <= n ==> LoadU16(of) == ReadU16(data[..n], of)
      ensures of + 4 <= n ==> LoadU32(of) == ReadU32(data[..n], of)
    {
    }

    /** The first `read` bytes of s, which is what the device had to send at position `from`, are in the
        buffer, and the rest is with the device. */
    ghost predicate Holding(s: seq<byte>, from: nat, read: nat)
      reads this`data, data, dev`pos
    {
      && from + read == dev.pos <= |dev.stream| && s == dev.stream[from..]
      && read <= data.Length && data[..read] == s[..read]
    }

    lemma HoldingStart()
      requires Valid()
      ensures Holding(dev.Unread(), dev.pos, 0)
    {
    }

    lemma HoldingMeans(s: seq<byte>, from: nat, read: nat)
      requires Holding(s, from, read)
      ensures dev.pos == from + read <= |dev.stream| && read <= |s| && read <= data.Length
      ensures data[..read] == s[..read] == dev.stream[from..from + read]
    {
    }

    /** Resizing keeps every byte already received. */
    method ResizeHolding(ghost s: seq<byte>, ghost from: nat, n: nat, size: nat) returns (rc: int)
      requires Valid() && Holding(s, from, n) && (size <= dataLength || size + 104 < U32_MOD)
      modifies this`data, this`dataLength
      ensures Valid() && rc == PTP_OK && dataLength >= size && fresh({data} - {old(data)})
              && dataLength == if size <= old(dataLength) then old(dataLength) else size + 100
      ensures Holding(s, from, n) && old(data.Length) <= data.Length && data[..old(data.Length)] == old(data[..])
    {
      ghost var all := data[..];
      rc := BufferResize(size);
      assert data[..n] == data[..|all|][..n] == all[..n];
    }

    /** A backend read that continues the bytes already held. */
    method Transfer(ghost s: seq<byte>, ghost from: nat, at: nat, n: nat) returns (rc: int)
      requires Valid() && Holding(s, from, at) && at + n <= dataLength
      modifies data, dev`pos, dev`clock
      ensures Valid() && at <= |s|
      ensures rc == Granted(Ask(dev.sched, old(dev.clock)), n, |s| - at) && dev.clock == old(dev.clock) + 1
      ensures var end := if rc > 0 then at + rc else at;
              Holding(s, from, end) && Untouched(old(data[..]), data[..], end)
    {
      hide Ask, Untouched, Granted;
      ghost var all := data[..];
      assert data[..at] == all[..at];
      rc := dev.Read(data, at, n);
      if rc > 0 {
        assert old(data[at + rc..]) == all[at + rc..];
        ReadContinues(dev.stream, s, from, at, rc, all, data[..]);
      } else {
        UntouchedWhole(all, data[..], at);
      }
    }

    static lemma ReadContinues(stream: seq<byte>, s: seq<byte>, from: nat, at: nat, rc: nat, before: seq<byte>,
                               after: seq<byte>)
      requires from + at + rc <= |stream| && s == stream[from..] && at + rc <= |before| && before[..at] == s[..at]
      requires after == before[..at] + stream[from + at..from + at + rc] + before[at + rc..]
      ensures after[..at + rc] == s[..at + rc] && Untouched(before, after, at + rc)
    {
      assert s[at..at + rc] == stream[from + at..from + at + rc];
      assert s[..at + rc] == s[..at] + s[at..at + rc];
    }

    /** The top of the loop of ptpusb_read_all_packets: make room for a full transfer, then ask the
        backend for one. */
    method UsbTransfer(ghost s: seq<byte>, ghost from: nat, read: nat) returns (rc: int)
      requires Valid() && Holding(s, from, read)
      requires |s| + dev.maxPacketSize + HEADROOM < INT_MAX_PLUS_1
      modifies this`data, this`dataLength, this`dataFilledLength, data, dev`pos, dev`clock
      ensures Valid() && fresh({data} - {old(data)}) && dataLength >= old(dataLength)
      ensures rc == Granted(Ask(dev.sched, old(dev.clock)), dev.maxPacketSize, |s| - read)
              && dev.clock == old(dev.clock) + 1
      ensures Holding(s, from, if rc > 0 then read + rc else read)
    {
      if dataLength < (read + dev.maxPacketSize) % U32_MOD {
        rc := ResizeHolding(s, from, read, read + dev.maxPacketSize);
        dataFilledLength := read;
      }
      rc := Transfer(s, from, read, dev.maxPacketSize);
    }

    /** The header checks at the end of each round of ptpusb_read_all_packets: keep reading, stop, or
        give up. */
    method Inspect(ghost s: seq<byte>, ghost from: nat, read: nat) returns (verdict: Verdict)
      requires Holding(s, from, read) && |s| < INT_MAX_PLUS_1
      ensures verdict == JudgeFirst(s, read)
    {
      hide ReadU16, ReadU32;
      if read < 12 { return More; }
      LoadPrefix(read, 0);
      LoadPrefix(read, 4);
      var length, kind := LoadU32(0), LoadU16(4);
      if read < length { return More; }
      if kind == TYPE_RESPONSE { return Done; }
      if kind == TYPE_DATA {
        if (length + 12) % U32_MOD > read { return More; }
        LoadPrefix(read, length);
        LoadPrefix(read, length + 4);
        var dataLen, kind2 := LoadU32(length), LoadU16(length + 4);
        if kind2 != TYPE_RESPONSE { return Broken; }
        if read == (dataLen + length) % U32_MOD { return Done; }
        if read > (dataLen + length) % U32_MOD { return Broken; }
      }
      return More;
    }

    /** ptpusb_read_all_packets.  The buffer ends up holding exactly the bytes consumed, and the outcome
        is the one UsbReceive speaks about; the loop stops for every schedule. */
    method UsbReadAllPackets() returns (rc: int)
      requires Valid() && conn != PTP_IP && responseWaitDefault >= 1
      requires |dev.Unread()| + dev.maxPacketSize + HEADROOM < INT_MAX_PLUS_1
      modifies this`data, this`dataLength, this`dataFilledLength, this`waitForResponse, data, dev`pos, dev`clock
      ensures Valid() && fresh({data} - {old(data)}) && dataLength >= old(dataLength)
      ensures dev.pos == old(dev.pos) + dataFilledLength && dataFilledLength <= dataLength
      ensures data[..dataFilledLength] == dev.stream[old(dev.pos)..dev.pos]
      ensures UsbReceived(old(dev.Unread()), dev.sched, dev.maxPacketSize, responseWaitDefault, old(dev.clock))
              == UsbOutcome(rc, dataFilledLength, waitForResponse, dev.clock)
    {
      hide UsbReceived, Reaching, JudgeFirst, Granted, Holding, Ask;
      ghost var s, from, c, sched, max := dev.Unread(), dev.pos, dev.clock, dev.sched, dev.maxPacketSize;
      ghost var out := UsbReceived(s, sched, max, responseWaitDefault, c);
      ReachingStart(s, sched, max, responseWaitDefault, c);
      HoldingStart();
      waitForResponse := responseWaitDefault;
      var read: nat := 0;
      var readAttempts: nat := 0;
      while true
        invariant Valid() && fresh({data} - {old(data)}) && dataLength >= old(dataLength)
        invariant Holding(s, from, read) && read <= |s|
        invariant waitForResponse + readAttempts >= 1
        invariant Reaching(out, s, sched, max, read, waitForResponse, readAttempts, dev.clock)
        decreases waitForResponse, |s| - read
      {
        rc := UsbTransfer(s, from, read);
        Reached(out, s, sched, max, read, waitForResponse, readAttempts, dev.clock - 1, rc);
        if rc <= 0 && waitForResponse > 0 {
          waitForResponse := waitForResponse - 1;
          readAttempts := readAttempts + 1;
          continue;
        }
        if rc < 0 {
          rc := PTP_IO_ERR;
          break;
        }
        read := read + rc;
        if waitForResponse == 0 && readAttempts > 0 {
          rc := PTP_COMMAND_IGNORED;
          break;
        }
        var verdict := Inspect(s, from, read);
        if verdict != More {
          rc := if verdict == Done then PTP_OK else PTP_IO_ERR;
          break;
        }
      }
      dataFilledLength := read;
      HoldingMeans(s, from, read);
    }

    // ---- PTP/IP ----

    lemma HoldingU32(s: seq<byte>, from: nat, n: nat, of: nat)
      requires Holding(s, from, n) && of + 4 <= n
      ensures LoadU32(of) == ReadU32(s, of)
    {
      LoadPrefix(n, of);
      assert data[..n] == s[..n];
    }

    /** The first n bytes of the buffer are those received, as in Holding; behind them it is still what it was
        when it was b0. */
    ghost predicate Filling(b0: seq<byte>, s: seq<byte>, from: nat, n: nat)
      reads this`data, data, dev`pos
    {
      Holding(s, from, n) && Untouched(b0, data[..], n)
    }

    /** The same for a buffer that was b0. */
    method IpTransfer(ghost b0: seq<byte>, ghost s: seq<byte>, ghost from: nat, at: nat, n: nat) returns (rc: int)
      requires Valid() && Filling(b0, s, from, at) && at + n <= dataLength
      modifies data, dev`pos, dev`clock
      ensures Valid() && at <= |s|
      ensures rc == Granted(Ask(dev.sched, old(dev.clock)), n, |s| - at) && dev.clock == old(dev.clock) + 1
      ensures Filling(b0, s, from, if rc > 0 then at + rc else at)
    {
      hide Untouched, Holding;
      ghost var all := data[..];
      rc := Transfer(s, from, at, n);
      UntouchedOn(b0, all, data[..], at, if rc > 0 then at + rc else at);
    }

    /** The first loop of ptpip_read_packet. */
    method IpReadPrefix(ghost b0: seq<byte>, ghost s: seq<byte>, ghost from: nat, of: nat) returns (rc: int)
      requires Valid() && Filling(b0, s, from, of) && of + 4 <= dataLength
      modifies this`waitForResponse, data, dev`pos, dev`clock
      ensures Valid() && rc <= 4 && of <= |s|
      ensures (rc, dev.clock) == PrefixRun(|s| - of, dev.sched, old(waitForResponse), 0, old(dev.clock))
      ensures Filling(b0, s, from, if rc > 0 then of + rc else of)
    {
      HoldingMeans(s, from, of);
      ghost var r := PrefixRun(|s| - of, dev.sched, waitForResponse, 0, dev.clock);
      rc := 0;
      while waitForResponse > 0
        invariant Valid() && Filling(b0, s, from, of)
        invariant PrefixReaching(r, |s| - of, dev.sched, waitForResponse, rc, dev.clock)
        decreases waitForResponse
      {
        hide Filling, PrefixRun, Granted;
        ghost var last := rc;
        rc := IpTransfer(b0, s, from, of, 4);
        PrefixReached(r, |s| - of, dev.sched, waitForResponse, last, dev.clock - 1, rc);
        waitForResponse := waitForResponse - 1;
        if rc > 0 { break; }
      }
    }

    /** The second loop of ptpip_read_packet; it takes the length from the buffer every time round.  The end-th
        call would end it. */
    method IpReadBody(ghost b0: seq<byte>, ghost s: seq<byte>, ghost from: nat, of: nat, ghost end: nat)
      returns (rc: int)
      requires Valid() && of + 4 <= |s| && Filling(b0, s, from, of + 4)
      requires 4 < ReadU32(s, of) && of + ReadU32(s, of) <= dataLength
      requires BodyEnds(ReadU32(s, of) - 4, |s| - of - 4, dev.sched, dev.clock, end)
      modifies data, dev`pos, dev`clock
      ensures Valid()
      ensures var length := ReadU32(s, of);
              var b := BodyRun(length - 4, |s| - of - 4, dev.sched, old(dev.clock));
              && b.Body? && rc == (if b.ok then length else PTP_IO_ERR)
              && dev.clock == b.clock && Filling(b0, s, from, of + 4 + b.got)
    {
      hide Filling, Holding, ReadU32, BodyRun, BodyEnds, BodyGoing, Granted, Ask;
      ghost var length, avail, c, k := ReadU32(s, of), |s| - of - 4, dev.clock, 0;
      BodyStart(length - 4, avail, dev.sched, c);
      var read: nat := 4;
      while true
        invariant Valid() && 4 <= read < length && read - 4 <= avail && Filling(b0, s, from, of + read)
        invariant k == dev.clock - c && k <= end && BodyGoing(length - 4, avail, dev.sched, c, k, read - 4)
        decreases end - k
      {
        FilledU32(b0, s, from, of + read, of);
        rc := IpTransfer(b0, s, from, of + read, (LoadU32(of) - read) % U32_MOD);
        BodyNext(length - 4, avail, dev.sched, c, k, read - 4, rc, end);
        k := k + 1;
        if rc < 0 {
          return PTP_IO_ERR;
        }
        read := read + rc;
        FilledU32(b0, s, from, of + read, of);
        if (LoadU32(of) - read) % U32_MOD == 0 {
          return read;
        }
      }
    }

    lemma FilledU32(b0: seq<byte>, s: seq<byte>, from: nat, n: nat, of: nat)
      requires Filling(b0, s, from, n) && of + 4 <= n
      ensures n <= data.Length && n <= |s| && LoadU32(of) == ReadU32(s, of)
    {
      hide ReadU32;
      HoldingU32(s, from, n, of);
      HoldingMeans(s, from, n);
    }

    /** The resize test of ptpip_read_packet, and what it does to the buffer; false if the read that follows it
        would leave the buffer, or the size of the buffer data_length. */
    method IpMakeRoom(ghost b0: seq<byte>, ghost s: seq<byte>, ghost from: nat, of: nat, length: u32)
      returns (ok: bool)
      requires Valid() && Filling(b0, s, from, of + 4) && length != 4
      modifies this`data, this`dataLength
      ensures Valid() && fresh({data} - {old(data)}) && Filling(b0, s, from, of + 4)
      ensures ok == Fits(of, old(dataLength), length)
      ensures ok ==> of + length <= dataLength == Grown(old(dataLength), of, length)
    {
      hide Holding, Fits, Untouched;
      HoldingMeans(s, from, of + 4);
      FitsIsRoom(of, dataLength, length);
      var size := (of + 4 + length) % U32_MOD;
      if size >= dataLength {
        if size > dataLength && size + 104 >= U32_MOD { return false; }
        ghost var all := data[..];
        var rc := ResizeHolding(s, from, of + 4, size);
        UntouchedWhole(all, data[..], of + 4);
        UntouchedOn(b0, all, data[..], of + 4, of + 4);
      }
      ok := of + 4 + (length - 4) % U32_MOD <= dataLength;
    }

    lemma FillingStale(b0: seq<byte>, s: seq<byte>, from: nat, of: nat, n: nat)
      requires Filling(b0, s, from, n) && n <= of + 4
      ensures Filling(data[..], s, from, n) && Untouched(b0, data[..], n)
      ensures Leftover(b0, of, WordAt(b0, of)) && Leftover(b0, of, WordAt(data[..], of))
    {
      LeftoverThen(b0, data[..], of, n);
    }

    lemma FillingOn(b0: seq<byte>, b1: seq<byte>, s: seq<byte>, from: nat, m: nat, n: nat)
      requires Untouched(b0, b1, m) && Filling(b1, s, from, n) && m <= n
      ensures Filling(b0, s, from, n)
    {
      hide Holding, Untouched;
      UntouchedOn(b0, b1, data[..], m, n);
    }

    /** The length and type fields of a packet that has been stored at offset of, when the buffer was b. */
    lemma TypeStored(b: seq<byte>, s: seq<byte>, from: nat, of: nat, u: seq<byte>, length: nat)
      requires Filling(b, s, from, of + length) && Tail(s, of, u)
      requires |u| >= 4 && 4 <= length == ReadU32(u, 0) <= |u| && |b| == data.Length
      ensures of + 8 <= |b| ==> LoadU32(of) == length && LoadU32(of + 4) == KindSeen(u, length, WordAt(b, of))
    {
      hide ReadU32, KindSeen, WordAt, Untouched;
      HoldingMeans(s, from, of + length);
      HoldingU32(s, from, of + length, of);
      ReadShift(s, u, of, 0);
      if of + 8 <= |b| {
        KindInBuffer(b, data[..], s, of, u, length);
      }
    }

    /** ptpip_read_packet; u is the stream from that packet on. */
    method IpReadPacket(ghost b0: seq<byte>, ghost s: seq<byte>, ghost from: nat, of: nat, ghost u: seq<byte>)
      returns (rc: int, ghost stale: Word)
      requires Valid() && Filling(b0, s, from, of) && of + 4 <= dataLength && Tail(s, of, u)
      requires IpPacket(u, of, dataLength, dev.sched, waitForResponse, dev.clock).rc != HANGS
      modifies this`data, this`dataLength, this`waitForResponse, data, dev`pos, dev`clock
      ensures Valid() && fresh({data} - {old(data)}) && waitForResponse == responseWaitDefault
      ensures var out := IpPacket(u, of, old(dataLength), dev.sched, old(waitForResponse), old(dev.clock));
              && rc == out.rc && dev.clock == out.clock && Filling(b0, s, from, of + out.used)
      ensures rc >= 0 ==> |u| >= rc && dataLength == Grown(old(dataLength), of, rc)
      ensures Leftover(b0, of, stale)
      ensures rc >= 0 && of + 8 <= dataLength ==> LoadU32(of) == rc && LoadU32(of + 4) == KindSeen(u, rc, stale)
    {
      hide Filling, Holding, ReadU32, PrefixRun, BodyRun, BodyEnds, Ask, Granted, Fits, KindSeen, Untouched, Leftover,
        WordAt;
      stale := WordAt(b0, of);
      FillingStale(b0, s, from, of, of);
      TailMeans(b0, s, from, of, u);
      rc := IpReadPrefix(b0, s, from, of);
      waitForResponse := responseWaitDefault;
      if rc < 0 { return PTP_COMMAND_IGNORED, stale; }
      if rc < 4 { return PTP_IO_ERR, stale; }
      var read: nat := rc;
      FilledU32(b0, s, from, of + 4, of);
      ReadShift(s, u, of, 0);
      var length := LoadU32(of);
      if (length - read) % U32_MOD == 0 {
        FillingStale(b0, s, from, of, of + 4);
        TypeStored(data[..], s, from, of, u, 4);
        return read, WordAt(data[..], of);
      }
      var ok := IpMakeRoom(b0, s, from, of, length);
      if !ok { return OVERRUNS, stale; }
      ghost var b1 := data[..];
      FillingStale(b0, s, from, of, of + 4);
      stale := WordAt(b1, of);
      BodyExists(length - 4, |u| - 4, dev.sched, dev.clock);
      ghost var end: nat :| BodyEnds(length - 4, |u| - 4, dev.sched, dev.clock, end);
      ghost var b := BodyRun(length - 4, |u| - 4, dev.sched, dev.clock);
      rc := IpReadBody(b1, s, from, of, end);
      FillingOn(b0, b1, s, from, of + 4, of + 4 + b.got);
      if rc >= 0 {
        TypeStored(b1, s, from, of, u, length);
      }
    }

    /** ptpip_receive_bulk_packets.  stale is what the buffer held at the type fields of the three packets. */
    method IpReceiveBulk() returns (rc: int, ghost stale: Stale)
      requires Valid() && conn == PTP_IP && |dev.Unread()| < INT_MAX_PLUS_1
      requires BulkEnds(dev.Unread(), dataLength, dev.sched, waitForResponse, responseWaitDefault, dev.clock)
      modifies this`data, this`dataLength, this`dataFilledLength, this`waitForResponse, data, dev`pos, dev`clock
      ensures Valid() && fresh({data} - {old(data)})
      ensures var out := IpBulk(old(dev.Unread()), old(dataLength), dev.sched, old(waitForResponse),
              responseWaitDefault, old(dev.clock), stale);
              && rc == out.rc && dev.clock == out.clock && dataFilledLength == out.filled
              && Holding(old(dev.Unread()), old(dev.pos), out.used)
      ensures waitForResponse == responseWaitDefault
      ensures FromBuffer(old(data[..]), old(dev.Unread()), stale)
    {
      hide Filling, Tail, ReadU32, IpPacket, IpDataPhase, Rest, KindSeen, Leftover, WordAt;
      ghost var s, from, b0, cap, c, wait := dev.Unread(), dev.pos, data[..], dataLength, dev.clock, waitForResponse;
      FillingStart();
      TailStart(s);
      stale := Remnants(b0, s);
      dataFilledLength := 0;
      ghost var first;
      BulkPacketEnds(s, cap, dev.sched, wait, responseWaitDefault, c);
      rc, first := IpReadPacket(b0, s, from, 0, s);
      stale := stale.(first := first);
      FillingHolds(b0, s, from, IpPacket(s, 0, cap, dev.sched, wait, c).used);
      if rc < 0 { return; }
      BulkDataEnds(s, cap, dev.sched, wait, responseWaitDefault, c, first);
      var kind := LoadU32(4);
      if kind == IP_DATA_START {
        TailStep(s, 0, s, rc);
        rc, stale := IpReceiveData(b0, s, from, rc, Rest(s, rc), stale);
      } else if kind == IP_COMMAND_RESPONSE {
        rc := PTP_OK;
      } else {
        rc := PTP_IO_ERR;
      }
    }

    /** The data phase: END, then the response. */
    method IpReceiveData(ghost b0: seq<byte>, ghost s: seq<byte>, ghost from: nat, pk1: nat, ghost s2: seq<byte>,
                         ghost remnants: Stale) returns (rc: int, ghost stale: Stale)
      requires Valid() && Filling(b0, s, from, pk1) && pk1 + 4 <= dataLength && Tail(s, pk1, s2)
      requires |s| < INT_MAX_PLUS_1 && dataFilledLength == 0 && waitForResponse == responseWaitDefault
      requires DataEnds(s2, pk1, dataLength, dev.sched, responseWaitDefault, dev.clock)
      requires Leftover(b0, pk1, remnants.second) && ThirdLeft(b0, pk1, s2, remnants.third)
      modifies this`data, this`dataLength, this`dataFilledLength, this`waitForResponse, data, dev`pos, dev`clock
      ensures Valid() && fresh({data} - {old(data)}) && waitForResponse == responseWaitDefault
      ensures var out := IpDataPhase(s2, pk1, old(dataLength), dev.sched, responseWaitDefault, old(dev.clock), stale);
              && rc == out.rc && dev.clock == out.clock && dataFilledLength == out.filled
              && Holding(s, from, out.used)
      ensures stale.first == remnants.first
      ensures Leftover(b0, pk1, stale.second) && ThirdLeft(b0, pk1, s2, stale.third)
    {
      hide Filling, Tail, ReadU32, IpPacket, IpResponsePhase, Rest, KindSeen, Leftover, WordAt, Holding;
      ghost var cap, c := dataLength, dev.clock;
      stale := remnants;
      ghost var second, third;
      DataPacketEnds(s2, pk1, cap, dev.sched, responseWaitDefault, c);
      rc, second := IpReadPacket(b0, s, from, pk1, s2);
      stale := stale.(second := second);
      ghost var p2 := IpPacket(s2, pk1, cap, dev.sched, responseWaitDefault, c);
      FillingHolds(b0, s, from, pk1 + p2.used);
      if rc < 0 { return; }
      dataFilledLength := dataFilledLength + rc;
      if pk1 + 8 > dataLength { return OVERRUNS, stale; }
      if LoadU32(pk1 + 4) != IP_DATA_END { return PTP_IO_ERR, stale; }
      var pk2 := pk1 + LoadU32(pk1);
      ghost var s3 := Rest(s2, rc);
      TailStep(s, pk1, s2, rc);
      DataResponseEnds(s2, pk1, cap, dev.sched, responseWaitDefault, c, second);
      rc, third := IpReceiveResponse(b0, s, from, pk2, s3);
      stale := stale.(third := third);
    }

    /** The response behind it. */
    method IpReceiveResponse(ghost b0: seq<byte>, ghost s: seq<byte>, ghost from: nat, pk2: nat, ghost s3: seq<byte>)
      returns (rc: int, ghost third: Word)
      requires Valid() && Filling(b0, s, from, pk2) && pk2 + 4 <= dataLength && Tail(s, pk2, s3)
      requires |s| < INT_MAX_PLUS_1 && dataFilledLength <= pk2 && waitForResponse == responseWaitDefault
      requires IpPacket(s3, pk2, dataLength, dev.sched, responseWaitDefault, dev.clock).rc != HANGS
      modifies this`data, this`dataLength, this`dataFilledLength, this`waitForResponse, data, dev`pos, dev`clock
      ensures Valid() && fresh({data} - {old(data)}) && waitForResponse == responseWaitDefault
      ensures var out := IpResponsePhase(s3, pk2, old(dataLength), old(dataFilledLength), dev.sched,
              responseWaitDefault, old(dev.clock), third);
              && rc == out.rc && dev.clock == out.clock && dataFilledLength == out.filled
              && Holding(s, from, out.used)
      ensures Leftover(b0, pk2, third)
    {
      hide Filling, Tail, ReadU32, IpPacket, KindSeen, Leftover, WordAt, Holding;
      ghost var cap, c := dataLength, dev.clock;
      rc, third := IpReadPacket(b0, s, from, pk2, s3);
      ghost var p3 := IpPacket(s3, pk2, cap, dev.sched, responseWaitDefault, c);
      FillingHolds(b0, s, from, pk2 + p3.used);
      if rc < 0 { return; }
      HoldingMeans(s, from, pk2 + p3.used);
      dataFilledLength := dataFilledLength + rc;
      if pk2 + 8 > dataLength { return OVERRUNS, third; }
      rc := if LoadU32(pk2 + 4) == IP_COMMAND_RESPONSE then PTP_OK else PTP_IO_ERR;
    }

    lemma FillingStart()
      requires Valid()
      ensures Filling(data[..], dev.Unread(), dev.pos, 0)
    {
    }

    lemma FillingHolds(b0: seq<byte>, s: seq<byte>, from: nat, n: nat)
      requires Filling(b0, s, from, n)
      ensures Holding(s, from, n)
    {
    }

    /** u is what is left of s after of bytes. */
    ghost predicate Tail(s: seq<byte>, of: nat, u: seq<byte>) {
      of <= |s| && u == s[of..]
    }

    lemma TailMeans(b0: seq<byte>, s: seq<byte>, from: nat, of: nat, u: seq<byte>)
      requires Filling(b0, s, from, of) && Tail(s, of, u)
      ensures of <= |s| && |u| == |s| - of && u == s[of..]
    {
    }

    lemma TailStart(s: seq<byte>)
      ensures Tail(s, 0, s)
    {
    }

    lemma TailStep(s: seq<byte>, of: nat, u: seq<byte>, n: nat)
      requires Tail(s, of, u) && n <= |u|
      ensures Tail(s, of + n, Rest(u, n))
    {
    }

    // ---- building and sending packets ----

    /** The four header stores shared by both USB builders.  They are all 32 bits wide, at offsets 0, 4, 6
        and 8, so the second and third spill over the fields behind them; the next store repairs that. */
    method StoreUsbHeader(bulk: array<byte>, size: u32, kind: u16, code: u16)
      requires bulk.Length >= 12
      modifies bulk
      ensures bulk[..12] == UsbHeader(size, kind, code, transaction % U32_MOD)
    {
      StoreU32(bulk, 0, size);
      StoreU32(bulk, 4, kind);
      ghost var kinds := bulk[..8];
      StoreU32(bulk, 6, code);
      ghost var codes := bulk[..10];
      assert codes == kinds[..6] + U32(code);
      StoreU32(bulk, 8, transaction % U32_MOD);
      assert kinds == U32(size) + U32(kind);
      assert kinds[..6] == U32(size) + U16(kind) by { LowHalf(kind); }
      assert codes[..8] == U32(size) + U16(kind) + U16(code) by { LowHalf(code); }
      assert bulk[..12] == codes[..8] + U32(transaction % U32_MOD);
    }

    lemma LowHalf(x: u16)
      ensures U32(x)[..2] == U16(x)
    {
    }

    /** The parameter loop of both command builders. */
    method StoreParams(bulk: array<byte>, of: nat, params: seq<u32>)
      requires of + 4 * |params| <= bulk.Length
      modifies bulk
      ensures bulk[..of + 4 * |params|] == old(bulk[..of]) + Params(params)
    {
      hide U32;
      for i := 0 to |params|
        invariant bulk[..of + 4 * i] == old(bulk[..of]) + Params(params[..i])
      {
        StoreU32(bulk, of + 4 * i, params[i]);
        assert params[..i + 1][..i] == params[..i];
      }
      assert params[..|params|] == params;
    }

    /** ptpusb_new_cmd_packet */
    method NewUsbCommand(cmd: Command) returns (size: u32)
      requires Valid()
      modifies data
      ensures Valid() && size == 12 + 4 * |cmd.params|
      ensures data[..size] == UsbCommand(cmd, transaction % U32_MOD)
    {
      hide U16, U32, Params, UsbHeader;
      size := 12 + 4 * |cmd.params|;
      var bulk := new byte[32];
      StoreUsbHeader(bulk, size, TYPE_COMMAND, cmd.code);
      StoreParams(bulk, 12, cmd.params);
      Copy(data, 0, bulk[..size]);
    }

    /** ptpusb_new_data_packet */
    method NewUsbData(cmd: Command, payload: seq<byte>) returns (size: u32)
      requires Valid() && |payload| + 50 <= dataLength
      modifies data
      ensures Valid() && size == 12 + |payload|
      ensures data[..size] == UsbData(cmd.code, transaction % U32_MOD, payload)
    {
      hide U16, U32, UsbHeader;
      size := 12 + |payload|;
      var bulk := new byte[32];
      StoreUsbHeader(bulk, size, TYPE_DATA, cmd.code);
      Copy(data, 0, bulk[..12]);
      Copy(data, 12, payload);
    }

    /** ptpip_bulk_packet, as ptp_new_cmd_packet calls it */
    method NewIpCommand(cmd: Command) returns (size: u32)
      requires Valid()
      modifies data
      ensures Valid() && size == 18 + 4 * |cmd.params|
      ensures data[..size] == IpCommand(cmd, transaction % U32_MOD, if dataPhaseLength == 0 then 1 else 2)
    {
      hide U16, U32, Params;
      size := 18 + 4 * |cmd.params|;
      var bulk := new byte[38];
      StoreU32(bulk, 0, size);
      StoreU32(bulk, 4, IP_COMMAND_REQUEST);
      StoreU32(bulk, 8, if dataPhaseLength == 0 then 1 else 2);
      StoreU16(bulk, 12, cmd.code);
      StoreU32(bulk, 14, transaction % U32_MOD);
      StoreParams(bulk, 18, cmd.params);
      Copy(data, 0, bulk[..size]);
    }

    /** ptp_send_packet, for the two connection types it supports.  A success means that exactly the
        packet was written; a failure, that some prefix of it was.  It succeeds exactly when the backend
        accepts the whole packet before any call fails. */
    method SendPacket(length: u32, ghost end: nat) returns (rc: int)
      requires Valid() && conn != PTP_IP && length <= dataLength
      requires WriteEnds(length, dev.sched, dev.maxPacketSize, dev.clock, end)
      modifies this`dataFilledLength, dev`written, dev`clock
      ensures Valid() && (rc == length || rc == PTP_IO_ERR)
      ensures rc == length ==> dev.written == old(dev.written) + data[..length] && dataFilledLength == length
      ensures rc == PTP_IO_ERR ==>
                dataFilledLength == 0 && old(dev.written) <= dev.written <= old(dev.written) + data[..length]
      ensures rc == length <==> exists k :: SendsIn(length, dev.sched, dev.maxPacketSize, old(dev.clock), k)
      ensures dev.clock > old(dev.clock)
      ensures rc == length ==> SentBy(length, dev.sched, dev.maxPacketSize, old(dev.clock), dev.clock - old(dev.clock))
    {
      hide Ask, Moved, Granted, WriteEnds, Sending, SendsIn, SentBy;
      ghost var c, k, sched, pkt, had := dev.clock, 0, dev.sched, dev.maxPacketSize, dev.written;
      SendingStart(length, sched, pkt, c);
      var sent: u32 := 0;
      while true
        invariant sent <= length && k == dev.clock - c && Sending(length, sched, pkt, c, k, sent)
        invariant dev.written == had + data[..sent]
        invariant k <= end
        decreases end - k
      {
        var max := (length - sent) % U32_MOD;
        if max > dev.maxPacketSize { max := dev.maxPacketSize; }
        rc := dev.Write(data, sent, max);
        SendingNext(length, sched, pkt, c, k, sent, max, rc);
        SendingEnds(length, sched, pkt, c, k, sent);
        if rc < 0 {
          assert data[..sent] <= data[..length];
          dataFilledLength := 0;
          return PTP_IO_ERR;
        }
        k := k + 1;
        assert data[..sent] + data[sent..sent + rc] == data[..sent + rc];
        sent := sent + rc;
        if sent != length {
          EndIsAhead(length, sched, pkt, c, k, sent, end);
        }
        if sent == length {
          dataFilledLength := sent;
          return sent;
        }
      }
    }

    // ---- transactions, as the calling thread sees them ----

    /** ptp_mutex_lock: while the caller waits, another thread may flip the kill switch. */
    method MutexLock()
      modifies this`lockDepth, this`operationKillSwitch
      ensures lockDepth == old(lockDepth) + 1 && (old(operationKillSwitch) ==> operationKillSwitch)
    {
      if * {
        operationKillSwitch := true;
      }
      lockDepth := lockDepth + 1;
    }

    /** ptp_mutex_unlock; unlocking a mutex the thread does not hold has no effect. */
    method MutexUnlock()
      modifies this`lockDepth
      ensures lockDepth == if old(lockDepth) > 0 then old(lockDepth) - 1 else 0
    {
      if lockDepth > 0 {
        lockDepth := lockDepth - 1;
      }
    }

    /** ptp_receive_all_packets on a USB-style connection, and what success is worth to the accessors. */
    method UsbReceiveAll() returns (rc: int)
      requires Valid() && conn != PTP_IP && responseWaitDefault >= 1
      requires |dev.Unread()| + dev.maxPacketSize + HEADROOM < INT_MAX_PLUS_1
      modifies this`data, this`dataLength, this`dataFilledLength, this`waitForResponse, data, dev`pos, dev`clock
      ensures Valid() && fresh({data} - {old(data)}) && dataLength >= old(dataLength)
      ensures rc in {PTP_OK, PTP_IO_ERR, PTP_COMMAND_IGNORED}
      ensures dev.pos == old(dev.pos) + dataFilledLength && dataFilledLength <= dataLength
      ensures data[..dataFilledLength] == dev.stream[old(dev.pos)..dev.pos]
      ensures var out := UsbReceived(old(dev.Unread()), dev.sched, dev.maxPacketSize, responseWaitDefault,
              old(dev.clock));
              rc == out.rc && dataFilledLength == out.read && dev.clock == out.clock > old(dev.clock)
      ensures rc == PTP_OK ==>
                && UsbComplete(data[..dataFilledLength])
                && ReturnCode(conn, data[..]) == ReturnCode(conn, data[..dataFilledLength]) != None
                && PayloadAt(conn, data[..]) == PayloadAt(conn, data[..dataFilledLength])
                && PayloadLength(conn, data[..]) == PayloadLength(conn, data[..dataFilledLength])
    {
      hide UsbReceived, UsbComplete, ReturnCode, TransactionId, ParamLength, PayloadAt, PayloadLength, UsbReadable,
        Misses;
      ghost var s, from := dev.Unread(), dev.pos;
      UsbSound(s, dev.sched, dev.maxPacketSize, responseWaitDefault, dev.clock);
      rc := UsbReadAllPackets();
      if rc == PTP_OK {
        assert data[..dataFilledLength] == s[..dataFilledLength];
        CompletePrefix(conn, data[..dataFilledLength], data[..]);
      }
    }

    /** ptp_receive_all_packets on PTP/IP.  On success the layout is what ptpip_get_response_packet relies on, so
        that it cannot panic, if and only if no packet was shorter than its header. */
    method IpReceiveAll() returns (rc: int, ghost stale: Stale)
      requires Valid() && conn == PTP_IP && |dev.Unread()| < INT_MAX_PLUS_1
      requires BulkEnds(dev.Unread(), dataLength, dev.sched, waitForResponse, responseWaitDefault, dev.clock)
      modifies this`data, this`dataLength, this`dataFilledLength, this`waitForResponse, data, dev`pos, dev`clock
      ensures Valid() && fresh({data} - {old(data)})
      ensures dev.pos - old(dev.pos) <= data.Length && old(dev.pos) <= dev.pos
      ensures data[..dev.pos - old(dev.pos)] == dev.stream[old(dev.pos)..dev.pos]
      ensures waitForResponse == responseWaitDefault
      ensures FromBuffer(old(data[..]), old(dev.Unread()), stale)
      ensures var out := IpBulk(old(dev.Unread()), old(dataLength), dev.sched, old(waitForResponse),
              responseWaitDefault, old(dev.clock), stale);
              rc == out.rc && dev.clock == out.clock && dev.pos == old(dev.pos) + out.used
      ensures rc == PTP_OK ==>
                var p := data[..dev.pos - old(dev.pos)];
                && (IpLaidOut(p) <==> Headed(p))
                && (Headed(p) ==> IpResponseAt(data[..]) == IpResponseAt(p) != None)
                && (Headed(p) && ReadU32(p, 4) == IP_DATA_START ==> IpPayloadAt(data[..]) == IpPayloadAt(p) != None)
    {
      hide IpBulk, IpLaidOut, IpResponseAt, IpPayloadAt, BulkEnds, Holding, ReadU32, Headed, FromBuffer;
      ghost var s, from, cap, wait, c := dev.Unread(), dev.pos, dataLength, waitForResponse, dev.clock;
      rc, stale := IpReceiveBulk();
      ghost var out := IpBulk(s, cap, dev.sched, wait, responseWaitDefault, c, stale);
      HoldingMeans(s, from, out.used);
      if rc == PTP_OK {
        IpSound(s, cap, dev.sched, wait, responseWaitDefault, c, stale);
        HeadedIsLong(data[..out.used]);
        if Headed(data[..out.used]) {
          LaidOutPrefixed(data[..out.used], data[..]);
        }
      }
    }

    /** ptp_check_rc */
    method CheckRc() returns (rc: int)
      requires ReturnCode(conn, data[..]).Some?
      ensures rc == CodeResult(ReturnCode(conn, data[..]).value)
    {
      var code := ReturnCode(conn, data[..]).value;
      if code == 0xffff { return PTP_IO_ERR; }
      if code != RC_OK { return PTP_CHECK_CODE; }
      return PTP_OK;
    }

    /** ptp_send_try */
    method SendTry(cmd: Command) returns (rc: int)
      requires Valid() && conn != PTP_IP && responseWaitDefault >= 1
      requires AttemptEnds([12 + 4 * |cmd.params|], dev.sched, dev.maxPacketSize, dev.clock)
      requires |dev.Unread()| + dev.maxPacketSize + HEADROOM < INT_MAX_PLUS_1
      modifies this`data, this`dataLength, this`dataFilledLength, this`waitForResponse, data, dev
      ensures Valid() && fresh({data} - {old(data)}) && old(dev.pos) <= dev.pos
      ensures rc in {PTP_OK, PTP_IO_ERR, PTP_COMMAND_IGNORED}
      ensures var packet := UsbCommand(cmd, transaction % U32_MOD);
              && old(dev.written) <= dev.written <= old(dev.written) + packet
              && (rc != PTP_IO_ERR ==> dev.written == old(dev.written) + packet)
      ensures rc == PTP_OK ==> Answered(old(dev.pos))
      ensures dev.clock > old(dev.clock)
      ensures var o := TryRun([12 + 4 * |cmd.params|], old(dev.Unread()), dev.sched, dev.maxPacketSize,
              responseWaitDefault, old(dev.clock));
              rc == o.rc && (rc != PTP_IO_ERR ==> dev.pos == old(dev.pos) + o.used && dev.clock == o.clock)
    {
      hide UsbCommand, WritesEnd, WriteEnds, SendsIn, SentBy, TryRun, UsbReceived, UsbComplete, ReturnCode;
      ghost var s, sched, pkt, c := dev.Unread(), dev.sched, dev.maxPacketSize, dev.clock;
      var length := NewUsbCommand(cmd);
      ghost var ns: seq<nat> := [12 + 4 * |cmd.params|];
      ghost var end := WritesEndNow(ns[0], sched, pkt, c, c);
      rc := SendPacket(length, end);
      AttemptGoesOn([length], s, sched, pkt, responseWaitDefault, c, dev.clock, rc == length);
      if rc != length { return PTP_IO_ERR; }
      assert dev.Unread() == s && [length] == [12 + 4 * |cmd.params|];
      rc := UsbReceiveAll();
    }

    /** The buffer holds a complete answer, which is what the device has sent since position from. */
    ghost predicate Answered(from: nat)
      reads this`data, this`dataFilledLength, data, dev`pos
    {
      && dataFilledLength <= data.Length && from <= dev.pos <= |dev.stream|
      && data[..dataFilledLength] == dev.stream[from..dev.pos]
      && UsbComplete(data[..dataFilledLength])
      && ReturnCode(conn, data[..]) == ReturnCode(conn, data[..dataFilledLength]) != None
    }

    /** The attempts of ptp_send: an ignored command goes out once more. */
    method SendTries(cmd: Command) returns (rc: int, again: bool)
      requires Valid() && conn != PTP_IP && responseWaitDefault >= 1
      requires |dev.Unread()| + dev.maxPacketSize + HEADROOM < INT_MAX_PLUS_1
      requires AttemptEnds([12 + 4 * |cmd.params|], dev.sched, dev.maxPacketSize, dev.clock)
      modifies this`data, this`dataLength, this`dataFilledLength, this`waitForResponse, data, dev
      ensures Valid() && fresh({data} - {old(data)}) && dev.clock > old(dev.clock)
      ensures var packet := UsbCommand(cmd, transaction % U32_MOD);
              && old(dev.written) <= dev.written <= old(dev.written) + packet + packet
              && (rc == PTP_OK ==>
                   dev.written == old(dev.written) + packet || dev.written == old(dev.written) + packet + packet)
      ensures rc == PTP_OK ==> exists from :: old(dev.pos) <= from && Answered(from)
      ensures var o := TryRun([12 + 4 * |cmd.params|], old(dev.Unread()), dev.sched, dev.maxPacketSize,
              responseWaitDefault, old(dev.clock));
              o.rc == PTP_OK ==> rc == PTP_OK && Answered(old(dev.pos)) && dev.pos == old(dev.pos) + o.used
      ensures rc == PTP_OK <==> Transacts([12 + 4 * |cmd.params|], old(dev.Unread()), dev.sched, dev.maxPacketSize,
                                  responseWaitDefault, old(dev.clock))
    {
      hide UsbCommand, AttemptEnds, UsbComplete, ReturnCode, TryRun, ReadU32;
      ghost var s, from := dev.Unread(), dev.pos;
      again := false;
      ghost var c := dev.clock;
      rc := SendTry(cmd);
      if rc == PTP_COMMAND_IGNORED {
        again := true;
        assert dev.Unread() == s[dev.pos - from..];
        from := dev.pos;
        AttemptEndsLater([12 + 4 * |cmd.params|], dev.sched, dev.maxPacketSize, c, dev.clock);
        rc := SendTry(cmd);
      }
      assert rc == PTP_OK ==> Answered(from);
    }

    /** ptp_send.  Unless the kill switch stops it before any transfer, the transaction ID moves on exactly when
        one of the two attempts is accepted and answered within its retry budget; otherwise no further
        operation will be started.  The command goes out once, or twice with the same bytes. */
    method Send(cmd: Command) returns (rc: int)
      requires Valid() && conn != PTP_IP && responseWaitDefault >= 1
      requires AttemptEnds([12 + 4 * |cmd.params|], dev.sched, dev.maxPacketSize, dev.clock)
      requires |dev.Unread()| + dev.maxPacketSize + HEADROOM < INT_MAX_PLUS_1
      modifies this`data, this`dataLength, this`dataFilledLength, this`waitForResponse, data, dev,
               this`lockDepth, this`operationKillSwitch, this`transaction, this`dataPhaseLength
      ensures Valid() && fresh({data} - {old(data)}) && lockDepth == old(lockDepth)
      ensures var packet := UsbCommand(cmd, old(transaction) % U32_MOD);
              && old(dev.written) <= dev.written <= old(dev.written) + packet + packet
              && (transaction == old(transaction) + 1 ==>
                   dev.written == old(dev.written) + packet || dev.written == old(dev.written) + packet + packet)
      ensures transaction == old(transaction) || transaction == old(transaction) + 1
      ensures transaction == old(transaction) ==> rc == PTP_IO_ERR && operationKillSwitch
      ensures transaction == old(transaction) + 1 ==>
                && (exists from :: old(dev.pos) <= from && Answered(from))
                && var code := ReturnCode(conn, data[..dataFilledLength]).value;
                && (rc == 0 <==> code == 0x2001) && (rc == -5 <==> code == 0xFFFF)
                && (rc == -8 <==> code != 0x2001 && code != 0xFFFF)
      ensures forall r: Response, op: u16 ::
                old(dev.Unread()) == UsbStream(r, op) && dev.clock > old(dev.clock)
                && TryRun([12 + 4 * |cmd.params|], UsbStream(r, op), dev.sched, dev.maxPacketSize, responseWaitDefault,
                     old(dev.clock)).rc == 0 ==>
                  && transaction == old(transaction) + 1 && (rc == 0 <==> r.code == 0x2001)
                  && (rc == -5 <==> r.code == 0xFFFF) && (rc == -8 <==> r.code != 0x2001 && r.code != 0xFFFF)
      ensures dataPhaseLength == if dev.clock == old(dev.clock) then old(dataPhaseLength) else 0
      ensures old(operationKillSwitch) ==> dev.clock == old(dev.clock)
      ensures if dev.clock == old(dev.clock) then transaction == old(transaction) && dev.written == old(dev.written)
              else transaction == old(transaction) + 1 <==>
                   Transacts([12 + 4 * |cmd.params|], old(dev.Unread()), dev.sched, dev.maxPacketSize,
                     responseWaitDefault, old(dev.clock))
    {
      hide UsbCommand, AttemptEnds, UsbComplete, ReturnCode, Transacts, TryRun, CodeResult, ReadU32, UsbStream;
      ghost var s, at, c := dev.Unread(), dev.pos, dev.clock;
      ghost var ns: seq<nat> := [12 + 4 * |cmd.params|];
      if operationKillSwitch { return PTP_IO_ERR; }
      MutexLock();
      if operationKillSwitch {
        MutexUnlock();
        return PTP_IO_ERR;
      }
      dataPhaseLength := 0;
      var again;
      rc, again := SendTries(cmd);
      if rc != PTP_OK {
        if again {
          operationKillSwitch := true;
          MutexUnlock();
        } else {
          MutexUnlock();
          operationKillSwitch := true;
        }
        return PTP_IO_ERR;
      }
      ghost var from :| old(dev.pos) <= from && Answered(from);
      transaction := transaction + 1;
      rc := CheckRc();
      MutexUnlock();
      assert Answered(from);
      forall r: Response, op: u16 | s == UsbStream(r, op)
        && TryRun(ns, s, dev.sched, dev.maxPacketSize, responseWaitDefault, c).rc == 0
        ensures ReturnCode(conn, data[..dataFilledLength]) == Some(r.code)
      {
        FindsTheCode(ns, r, op, conn, dev.sched, dev.maxPacketSize, responseWaitDefault, c);
        assert data[..dataFilledLength] == dev.stream[at..dev.pos] == s[..dev.pos - at];
      }
    }

    /** ptp_open_session: the session command always carries transaction ID 0, so a successful one leaves
        the counter at 1. */
    method OpenSession() returns (rc: int)
      requires Valid() && conn != PTP_IP && responseWaitDefault >= 1
      requires AttemptEnds([16], dev.sched, dev.maxPacketSize, dev.clock)
      requires |dev.Unread()| + dev.maxPacketSize + HEADROOM < INT_MAX_PLUS_1
      modifies this, data, dev
      ensures Valid() && session == old(session) + 1 && lockDepth == old(lockDepth)
      ensures transaction == 1 || (transaction == 0 && operationKillSwitch && rc == PTP_IO_ERR)
      ensures rc == PTP_OK ==> transaction == 1
      ensures transaction == 1 ==>
                && (exists from :: old(dev.pos) <= from && Answered(from))
                && var code := ReturnCode(conn, data[..dataFilledLength]).value;
                && (rc == 0 <==> code == 0x2001) && (rc == -5 <==> code == 0xFFFF)
                && (rc == -8 <==> code != 0x2001 && code != 0xFFFF)
      ensures if dev.clock == old(dev.clock) then transaction == 0 && dev.written == old(dev.written)
              else transaction == 1 <==>
                   Transacts([16], old(dev.Unread()), dev.sched, dev.maxPacketSize, responseWaitDefault, old(dev.clock))
      ensures transaction == 1 ==>
                var packet := UsbCommand(Command(0x1002, [session % U32_MOD]), 0);
                dev.written == old(dev.written) + packet || dev.written == old(dev.written) + packet + packet
    {
      hide UsbCommand, AttemptEnds, Answered, ReturnCode, Transacts;
      session := session + 1;
      transaction := 0;
      rc := Send(Command(OC_OPEN_SESSION, [session % U32_MOD]));
    }

    /** ptp_send_data_try */
    method SendDataTry(cmd: Command, payload: seq<byte>) returns (rc: int)
      requires Valid() && conn != PTP_IP && responseWaitDefault >= 1
      requires AttemptEnds([12 + 4 * |cmd.params|, 12 + |payload|], dev.sched, dev.maxPacketSize, dev.clock)
      requires |payload| + 50 <= dataLength
      requires |dev.Unread()| + dev.maxPacketSize + HEADROOM < INT_MAX_PLUS_1
      modifies this`data, this`dataLength, this`dataFilledLength, this`waitForResponse, data, dev
      ensures Valid() && fresh({data} - {old(data)}) && dataLength >= old(dataLength) && old(dev.pos) <= dev.pos
      ensures rc in {PTP_OK, PTP_IO_ERR, PTP_COMMAND_IGNORED}
      ensures var packets := UsbCommand(cmd, transaction % U32_MOD) + UsbData(cmd.code, transaction % U32_MOD, payload);
              && old(dev.written) <= dev.written <= old(dev.written) + packets
              && (rc != PTP_IO_ERR ==> dev.written == old(dev.written) + packets)
      ensures rc == PTP_OK ==> Answered(old(dev.pos))
      ensures dev.clock > old(dev.clock)
      ensures var o := TryRun([12 + 4 * |cmd.params|, 12 + |payload|], old(dev.Unread()), dev.sched, dev.maxPacketSize,
                              responseWaitDefault, old(dev.clock));
              rc == o.rc && (rc != PTP_IO_ERR ==> dev.pos == old(dev.pos) + o.used && dev.clock == o.clock)
    {
      hide UsbCommand, UsbData, WritesEnd, WriteEnds, SendsIn, SentBy, TryRun, UsbReceived, UsbComplete, ReturnCode;
      ghost var s, sched, pkt, c := dev.Unread(), dev.sched, dev.maxPacketSize, dev.clock;
      ghost var ns: seq<nat> := [12 + 4 * |cmd.params|, 12 + |payload|];
      assert ns[1..] == [12 + |payload|] && ns[0] == 12 + 4 * |cmd.params| && ns[1] == 12 + |payload|;
      var length := NewUsbCommand(cmd);
      ghost var start := c;
      ghost var end := WritesEndNow(ns[0], sched, pkt, c, c);
      rc := SendPacket(length, end);
      AttemptGoesOn(ns, s, sched, pkt, responseWaitDefault, c, dev.clock, rc == length);
      if rc != length { return PTP_IO_ERR; }
      ghost var first := dev.written;
      c := dev.clock;
      length := NewUsbData(cmd, payload);
      end := WritesEndNow(ns[1], sched, pkt, start, c);
      rc := SendPacket(length, end);
      AttemptGoesOn([length], s, sched, pkt, responseWaitDefault, c, dev.clock, rc == length);
      assert first + data[..length] == old(dev.written) + (UsbCommand(cmd, transaction % U32_MOD) + data[..length]);
      if rc != length { return PTP_IO_ERR; }
      assert dev.Unread() == s && [length] == [12 + |payload|];
      rc := UsbReceiveAll();
    }

    /** The attempts of ptp_send_data: an ignored command goes out once more. */
    method SendDataTries(cmd: Command, payload: seq<byte>) returns (rc: int, again: bool)
      requires Valid() && conn != PTP_IP && responseWaitDefault >= 1
      requires |dev.Unread()| + dev.maxPacketSize + HEADROOM < INT_MAX_PLUS_1
      requires |payload| + 50 <= dataLength
      requires AttemptEnds([12 + 4 * |cmd.params|, 12 + |payload|], dev.sched, dev.maxPacketSize, dev.clock)
      modifies this`data, this`dataLength, this`dataFilledLength, this`waitForResponse, data, dev
      ensures Valid() && fresh({data} - {old(data)}) && dev.clock > old(dev.clock)
      ensures var packets := UsbCommand(cmd, transaction % U32_MOD) + UsbData(cmd.code, transaction % U32_MOD, payload);
              && old(dev.written) <= dev.written <= old(dev.written) + packets + packets
              && (rc == PTP_OK ==>
                   dev.written == old(dev.written) + packets || dev.written == old(dev.written) + packets + packets)
      ensures rc == PTP_OK ==> exists from :: old(dev.pos) <= from && Answered(from)
      ensures var o := TryRun([12 + 4 * |cmd.params|, 12 + |payload|], old(dev.Unread()), dev.sched, dev.maxPacketSize,
              responseWaitDefault, old(dev.clock));
              o.rc == PTP_OK ==> rc == PTP_OK && Answered(old(dev.pos)) && dev.pos == old(dev.pos) + o.used
      ensures rc == PTP_OK <==> Transacts([12 + 4 * |cmd.params|, 12 + |payload|], old(dev.Unread()), dev.sched,
                                  dev.maxPacketSize, responseWaitDefault, old(dev.clock))
    {
      hide UsbCommand, UsbData, AttemptEnds, UsbComplete, ReturnCode, TryRun, ReadU32;
      ghost var s, from := dev.Unread(), dev.pos;
      again := false;
      ghost var c := dev.clock;
      rc := SendDataTry(cmd, payload);
      if rc == PTP_COMMAND_IGNORED {
        again := true;
        assert dev.Unread() == s[dev.pos - from..];
        from := dev.pos;
        AttemptEndsLater([12 + 4 * |cmd.params|, 12 + |payload|], dev.sched, dev.maxPacketSize, c, dev.clock);
        rc := SendDataTry(cmd, payload);
      }
      assert rc == PTP_OK ==> Answered(from);
    }

    /** ptp_send_data, for a payload the buffer has room for. */
    method SendData(cmd: Command, payload: seq<byte>) returns (rc: int)
      requires Valid() && conn != PTP_IP && responseWaitDefault >= 1
      requires AttemptEnds([12 + 4 * |cmd.params|, 12 + |payload|], dev.sched, dev.maxPacketSize, dev.clock)
      requires |payload| + 50 <= dataLength
      requires |dev.Unread()| + dev.maxPacketSize + HEADROOM < INT_MAX_PLUS_1
      modifies this`data, this`dataLength, this`dataFilledLength, this`waitForResponse, data, dev,
               this`lockDepth, this`operationKillSwitch, this`transaction, this`dataPhaseLength
      ensures Valid() && fresh({data} - {old(data)}) && lockDepth == old(lockDepth)
      ensures var packets := UsbCommand(cmd, old(transaction) % U32_MOD)
              + UsbData(cmd.code, old(transaction) % U32_MOD, payload);
              && old(dev.written) <= dev.written <= old(dev.written) + packets + packets
              && (transaction == old(transaction) + 1 ==>
                   dev.written == old(dev.written) + packets || dev.written == old(dev.written) + packets + packets)
      ensures transaction == old(transaction) || transaction == old(transaction) + 1
      ensures transaction == old(transaction) ==> rc == PTP_IO_ERR && operationKillSwitch
      ensures transaction == old(transaction) + 1 ==>
                && (exists from :: old(dev.pos) <= from && Answered(from))
                && var code := ReturnCode(conn, data[..dataFilledLength]).value;
                && (rc == 0 <==> code == 0x2001) && (rc == -5 <==> code == 0xFFFF)
                && (rc == -8 <==> code != 0x2001 && code != 0xFFFF)
      ensures forall r: Response, op: u16 ::
                old(dev.Unread()) == UsbStream(r, op) && dev.clock > old(dev.clock)
                && TryRun([12 + 4 * |cmd.params|, 12 + |payload|], UsbStream(r, op), dev.sched, dev.maxPacketSize,
                     responseWaitDefault, old(dev.clock)).rc == 0 ==>
                  && transaction == old(transaction) + 1 && (rc == 0 <==> r.code == 0x2001)
                  && (rc == -5 <==> r.code == 0xFFFF) && (rc == -8 <==> r.code != 0x2001 && r.code != 0xFFFF)
      ensures dataPhaseLength == if dev.clock == old(dev.clock) then old(dataPhaseLength) else |payload|
      ensures old(operationKillSwitch) ==> dev.clock == old(dev.clock)
      ensures if dev.clock == old(dev.clock) then transaction == old(transaction) && dev.written == old(dev.written)
              else transaction == old(transaction) + 1 <==>
                   Transacts([12 + 4 * |cmd.params|, 12 + |payload|], old(dev.Unread()), dev.sched, dev.maxPacketSize,
                             responseWaitDefault, old(dev.clock))
    {
      hide UsbCommand, UsbData, AttemptEnds, UsbComplete, ReturnCode, Transacts, TryRun, CodeResult, ReadU32,
        UsbStream;
      ghost var s, at, c := dev.Unread(), dev.pos, dev.clock;
      ghost var ns: seq<nat> := [12 + 4 * |cmd.params|, 12 + |payload|];
      if operationKillSwitch { return PTP_IO_ERR; }
      MutexLock();
      if operationKillSwitch {
        MutexUnlock();
        return PTP_IO_ERR;
      }
      dataPhaseLength := |payload|;
      var again;
      rc, again := SendDataTries(cmd, payload);
      if rc != PTP_OK {
        if again {
          operationKillSwitch := true;
          MutexUnlock();
        } else {
          MutexUnlock();
          operationKillSwitch := true;
        }
        return PTP_IO_ERR;
      }
      ghost var from :| old(dev.pos) <= from && Answered(from);
      transaction := transaction + 1;
      rc := CheckRc();
      MutexUnlock();
      assert Answered(from);
      forall r: Response, op: u16 | s == UsbStream(r, op)
        && TryRun(ns, s, dev.sched, dev.maxPacketSize, responseWaitDefault, c).rc == 0
        ensures ReturnCode(conn, data[..dataFilledLength]) == Some(r.code)
      {
        FindsTheCode(ns, r, op, conn, dev.sched, dev.maxPacketSize, responseWaitDefault, c);
        assert data[..dataFilledLength] == dev.stream[at..dev.pos] == s[..dev.pos - at];
      }
    }
  }

  const OC_OPEN_SESSION: u16 := 0x1002
}
