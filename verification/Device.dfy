/** The backend behind ptp_cmd_read/ptp_cmd_write and their TCP counterparts: a byte stream in each
    direction, cut up and interrupted at will by a schedule. */
module DeviceModel {
  import opened Bytes
  import opened UsbReceive

  class Device {
    const stream: seq<byte> // everything the device will ever send
    var pos: nat            // how much of it has been delivered
    var written: seq<byte>  // what the host has delivered to the device
    var clock: nat          // backend calls made so far
    const sched: Schedule
    const maxPacketSize: u32

    ghost predicate Valid()
      reads this`pos
    {
      pos <= |stream|
    }

    constructor (stream: seq<byte>, sched: Schedule, maxPacketSize: u32)
      ensures Valid() && this.stream == stream && pos == 0 && written == [] && clock == 0
      ensures this.sched == sched && this.maxPacketSize == maxPacketSize
    {
      this.stream, this.sched, this.maxPacketSize := stream, sched, maxPacketSize;
      pos, written, clock := 0, [], 0;
    }

    /** What the device has yet to deliver. */
    function Unread(): seq<byte>
      requires Valid()
      reads this`pos
    {
      stream[pos..]
    }

    /** Reads up to max bytes into buf at offset of; the bytes requested must fit. */
    method Read(buf: array<byte>, of: nat, max: nat) returns (rc: int)
      requires Valid() && of + max <= buf.Length
      modifies this`pos, this`clock, buf
      ensures Valid() && rc == Granted(Ask(sched, old(clock)), max, |stream| - old(pos)) && clock == old(clock) + 1
      ensures pos == old(pos) + if rc > 0 then rc else 0
      ensures rc <= 0 ==> buf[..] == old(buf[..])
      ensures rc > 0 ==> buf[..] == old(buf[..of]) + stream[old(pos)..pos] + old(buf[of + rc..])
    {
      rc := Granted(Ask(sched, clock), max, |stream| - pos);
      clock := clock + 1;
      if rc > 0 {
        Copy(buf, of, stream[pos..pos + rc]);
        pos := pos + rc;
      }
    }

    /** Writes up to n bytes of buf from offset of; no request exceeds the packet size. */
    method Write(buf: array<byte>, of: nat, n: nat) returns (rc: int)
      requires of + n <= buf.Length && n <= maxPacketSize
      modifies this`written, this`clock
      ensures rc == Granted(Ask(sched, old(clock)), n, n) && clock == old(clock) + 1
      ensures written == old(written) + if rc > 0 then buf[of..of + rc] else []
    {
      rc := Granted(Ask(sched, clock), n, n);
      clock := clock + 1;
      if rc > 0 {
        written := written + buf[of..of + rc];
      }
    }
  }
}
