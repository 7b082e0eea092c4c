/** The two wire formats: the USB bulk container (section 7.1 of the USB Still Image Capture Device
    Definition 1.0) and the PTP/IP packets (CIPA DC-005).  This module says what well-formed bytes look
    like; what src/packet.c stores and re-derives is in PacketAccess and Runtime. */
module Packets {
  import opened Bytes

  const TYPE_COMMAND: u16 := 1
  const TYPE_DATA: u16 := 2
  const TYPE_RESPONSE: u16 := 3

  const IP_COMMAND_REQUEST: u32 := 6
  const IP_COMMAND_RESPONSE: u32 := 7
  const IP_DATA_START: u32 := 9
  const IP_DATA_END: u32 := 0xC

  const RC_OK: u16 := 0x2001

  datatype Option<+T> = None | Some(value: T)

  /** struct PtpCommand; at most five parameters fit its array. */
  datatype RawCommand = Command(code: u16, params: seq<u32>)
  type Command = c: RawCommand | |c.params| <= 5 witness Command(0, [])

  /** A data phase short enough for its containers to be counted in an int. */
  type Payload = p: seq<byte> | |p| < INT_MAX_PLUS_1 - 200

  /** A device's answer, independent of the transport that carries it. */
  datatype RawResponse = Response(code: u16, id: u32, params: seq<u32>, data: Option<Payload>)
  type Response = r: RawResponse | |r.params| <= 5 witness Response(0, 0, [], None)

  function Params(ps: seq<u32>): (s: seq<byte>)
    ensures |s| == 4 * |ps|
  {
    if ps == [] then [] else Params(ps[..|ps| - 1]) + U32(ps[|ps| - 1])
  }

  function ReadParams(s: seq<byte>, of: nat, n: nat): (ps: seq<u32>)
    requires of + 4 * n <= |s|
    ensures |ps| == n
  {
    seq(n, i requires 0 <= i < n => ReadU32(s, of + 4 * i))
  }

  lemma {:induction false} ReadBackParams(s: seq<byte>, of: nat, ps: seq<u32>)
    requires At(s, of, Params(ps))
    ensures ReadParams(s, of, |ps|) == ps
  {
    if ps != [] {
      var n := |ps| - 1;
      AtConcat(s, of, Params(ps[..n]), U32(ps[n]));
      ReadBackParams(s, of, ps[..n]);
      ReadBackU32(s, of + 4 * n, ps[n]);
      forall i | 0 <= i < |ps| ensures ReadU32(s, of + 4 * i) == ps[i] {
        if i < n {
          assert ReadU32(s, of + 4 * i) == ReadParams(s, of, n)[i] == ps[..n][i];
        }
      }
    }
  }

  // ---- USB bulk containers ----

  function UsbHeader(length: u32, kind: u16, code: u16, id: u32): (s: seq<byte>)
    ensures |s| == 12
  {
    U32(length) + (U16(kind) + (U16(code) + U32(id)))
  }

  function UsbContainer(kind: u16, code: u16, id: u32, body: seq<byte>): (s: seq<byte>)
    requires 12 + |body| < U32_MOD
    ensures |s| == 12 + |body|
  {
    UsbHeader(12 + |body|, kind, code, id) + body
  }

  function UsbCommand(cmd: Command, id: u32): (s: seq<byte>)
    ensures |s| == 12 + 4 * |cmd.params|
  {
    UsbContainer(TYPE_COMMAND, cmd.code, id, Params(cmd.params))
  }

  function UsbData(code: u16, id: u32, payload: seq<byte>): (s: seq<byte>)
    requires 12 + |payload| < U32_MOD
    ensures |s| == 12 + |payload|
  {
    UsbContainer(TYPE_DATA, code, id, payload)
  }

  /** What a USB device sends for response r to the operation op. */
  function UsbStream(r: Response, op: u16): (s: seq<byte>)
  {
    (if r.data.Some? then UsbData(op, r.id, r.data.value) else [])
    + UsbContainer(TYPE_RESPONSE, r.code, r.id, Params(r.params))
  }

  /** The header fields of a container found at offset of. */
  lemma UsbHeaderFields(s: seq<byte>, of: nat, length: u32, kind: u16, code: u16, id: u32)
    requires of + 12 <= |s|
    ensures At(s, of, UsbHeader(length, kind, code, id)) <==>
              ReadU32(s, of) == length && ReadU16(s, of + 4) == kind && ReadU16(s, of + 6) == code
                && ReadU32(s, of + 8) == id
  {
    hide ReadU16, ReadU32, ReadU64, U16, U32, U64, Params, ReadParams;
    AtConcat(s, of, U32(length), U16(kind) + (U16(code) + U32(id)));
    AtConcat(s, of + 4, U16(kind), U16(code) + U32(id));
    AtConcat(s, of + 6, U16(code), U32(id));
    ReadBackU32(s, of, length);
    ReadBackU16(s, of + 4, kind);
    ReadBackU16(s, of + 6, code);
    ReadBackU32(s, of + 8, id);
  }

  lemma UsbContainerFields(s: seq<byte>, of: nat, kind: u16, code: u16, id: u32, body: seq<byte>)
    requires 12 + |body| < U32_MOD && At(s, of, UsbContainer(kind, code, id, body))
    ensures ReadU32(s, of) == 12 + |body| && ReadU16(s, of + 4) == kind
    ensures ReadU16(s, of + 6) == code && ReadU32(s, of + 8) == id
    ensures At(s, of + 12, body)
  {
    hide ReadU16, ReadU32, ReadU64, U16, U32, U64, Params, ReadParams;
    AtConcat(s, of, UsbHeader(12 + |body|, kind, code, id), body);
    UsbHeaderFields(s, of, 12 + |body|, kind, code, id);
  }

  // ---- an independent reader of host-to-device traffic ----

  /** One container as a device would decode it from the byte stream, with the bytes that follow it. */
  datatype Parsed = Parsed(kind: u16, code: u16, id: u32, body: seq<byte>, rest: seq<byte>)

  function ParseUsb(s: seq<byte>): Option<Parsed> {
    if |s| < 12 then None
    else
      var length := ReadU32(s, 0);
      if length < 12 || |s| < length then None
      else Some(Parsed(ReadU16(s, 4), ReadU16(s, 6), ReadU32(s, 8), s[12..length], s[length..]))
  }

  lemma ParseUsbInverts(kind: u16, code: u16, id: u32, body: seq<byte>, rest: seq<byte>)
    requires 12 + |body| < U32_MOD
    ensures ParseUsb(UsbContainer(kind, code, id, body) + rest) == Some(Parsed(kind, code, id, body, rest))
  {
    hide ReadU16, ReadU32, U16, U32, UsbHeader;
    var s := UsbContainer(kind, code, id, body) + rest;
    assert At(s, 0, UsbContainer(kind, code, id, body));
    UsbContainerFields(s, 0, kind, code, id, body);
    assert s[12 + |body|..] == rest;
  }

  /** A device that decodes what ptp_send_data put on the wire gets back the code, the transaction ID,
      the parameters and the payload, and nothing is left over. */
  lemma SentTrafficDecodes(cmd: Command, id: u32, payload: seq<byte>)
    requires 12 + |payload| < U32_MOD
    ensures var first := ParseUsb(UsbCommand(cmd, id) + UsbData(cmd.code, id, payload));
            && first.Some? && first.value.kind == TYPE_COMMAND && first.value.code == cmd.code && first.value.id == id
            && |first.value.body| == 4 * |cmd.params| && ReadParams(first.value.body, 0, |cmd.params|) == cmd.params
            && ParseUsb(first.value.rest) == Some(Parsed(TYPE_DATA, cmd.code, id, payload, []))
  {
    var body := Params(cmd.params);
    ParseUsbInverts(TYPE_COMMAND, cmd.code, id, body, UsbData(cmd.code, id, payload));
    assert body[0..|body|] == body;
    ReadBackParams(body, 0, cmd.params);
    ParseUsbInverts(TYPE_DATA, cmd.code, id, payload, []);
    assert UsbData(cmd.code, id, payload) + [] == UsbData(cmd.code, id, payload);
  }

  /** OpenSession, a data phase of one byte and a response with one parameter, byte by byte. */
  lemma UsbExamples()
    ensures UsbCommand(Command(0x1002, [1]), 5) == [16, 0, 0, 0, 1, 0, 2, 0x10, 5, 0, 0, 0, 1, 0, 0, 0]
    ensures UsbData(0x100D, 6, [9]) == [13, 0, 0, 0, 2, 0, 0x0D, 0x10, 6, 0, 0, 0, 9]
    ensures UsbStream(Response(0x2001, 7, [8], None), 0)
            == [16, 0, 0, 0, 3, 0, 1, 0x20, 7, 0, 0, 0, 8, 0, 0, 0]
  {
    hide U16, U32, Params;
    OneParam(1);
    OneParam(8);
    Small(16, 1);
    Small(13, 2);
    Small(1, 3);
    Small(5, 0);
    Small(6, 0);
    Small(7, 0);
    Small(8, 0);
    Code(0x1002, 0x02, 0x10);
    Code(0x100D, 0x0D, 0x10);
    Code(0x2001, 0x01, 0x20);
  }

  lemma Small(x: u32, y: u16)
    requires x < 0x100 && y < 0x100
    ensures U32(x) == [x, 0, 0, 0] && U16(y) == [y, 0]
  {
  }

  lemma Code(c: u16, lo: byte, hi: byte)
    requires c as int == lo as int + 0x100 * hi as int
    ensures U16(c) == [lo, hi]
  {
  }

  lemma OneParam(x: u32)
    ensures Params([x]) == U32(x)
  {
    assert [x][..0] == [];
    assert Params([x]) == Params([]) + U32(x);
  }

  // ---- PTP/IP packets ----

  function IpResponse(r: Response): (s: seq<byte>)
    ensures |s| == 14 + 4 * |r.params|
  {
    U32(14 + 4 * |r.params|) + (U32(IP_COMMAND_RESPONSE) + (U16(r.code) + (U32(r.id) + Params(r.params))))
  }

  function IpStart(id: u32, payloadLength: u64): (s: seq<byte>)
    ensures |s| == 20
  {
    U32(20) + (U32(IP_DATA_START) + (U32(id) + U64(payloadLength)))
  }

  function IpEnd(id: u32, payload: seq<byte>): (s: seq<byte>)
    requires 12 + |payload| < U32_MOD
    ensures |s| == 12 + |payload|
  {
    U32(12 + |payload|) + (U32(IP_DATA_END) + (U32(id) + payload))
  }

  /** What a PTP/IP device sends for response r. */
  function IpStream(r: Response): (s: seq<byte>) {
    if r.data.Some? then IpStart(r.id, |r.data.value|) + (IpEnd(r.id, r.data.value) + IpResponse(r)) else IpResponse(r)
  }

  /** A PTP/IP operation request; phase is 1 without and 2 with a data phase to follow. */
  function IpCommand(cmd: Command, id: u32, phase: u32): (s: seq<byte>)
    ensures |s| == 18 + 4 * |cmd.params|
  {
    U32(18 + 4 * |cmd.params|)
      + (U32(IP_COMMAND_REQUEST) + (U32(phase) + (U16(cmd.code) + (U32(id) + Params(cmd.params)))))
  }

  /** A request, a data phase of one byte and its response, byte by byte. */
  lemma IpExamples()
    ensures IpCommand(Command(0x1002, [1]), 5, 1)
            == [22, 0, 0, 0, 6, 0, 0, 0, 1, 0, 0, 0, 2, 0x10, 5, 0, 0, 0, 1, 0, 0, 0]
    ensures IpStart(6, 1) == [20, 0, 0, 0, 9, 0, 0, 0, 6, 0, 0, 0, 1, 0, 0, 0, 0, 0, 0, 0]
    ensures IpEnd(6, [9]) == [13, 0, 0, 0, 12, 0, 0, 0, 6, 0, 0, 0, 9]
    ensures IpResponse(Response(0x2001, 6, [], None)) == [14, 0, 0, 0, 7, 0, 0, 0, 1, 0x20, 6, 0, 0, 0]
  {
    hide U16, U32, Params;
    OneParam(1);
    NoParams();
    Small(22, 0);
    Small(1, 0);
    Small(5, 0);
    Small(6, 0);
    Small(7, 0);
    Small(9, 0);
    Small(12, 0);
    Small(13, 0);
    Small(14, 0);
    Small(20, 0);
    Small(0, 0);
    Code(0x1002, 0x02, 0x10);
    Code(0x2001, 0x01, 0x20);
  }

  lemma NoParams()
    ensures Params([]) == []
  {
  }

  /** A request as a device would decode it. */
  datatype Request = Request(phase: u32, code: u16, id: u32, params: seq<u32>)

  function ParseIpRequest(s: seq<byte>): Option<Request> {
    if |s| < 18 || ReadU32(s, 4) != 6 || ReadU32(s, 0) != |s| || (|s| - 18) % 4 != 0 then None
    else Some(Request(ReadU32(s, 8), ReadU16(s, 12), ReadU32(s, 14), ReadParams(s, 18, (|s| - 18) / 4)))
  }

  lemma ParseIpInverts(cmd: Command, id: u32, phase: u32)
    ensures ParseIpRequest(IpCommand(cmd, id, phase)) == Some(Request(phase, cmd.code, id, cmd.params))
  {
    hide ReadU16, ReadU32, U16, U32, Params, ReadParams;
    var s := IpCommand(cmd, id, phase);
    var length: u32 := 18 + 4 * |cmd.params|;
    assert s[0..|s|] == s;
    AtConcat(s, 0, U32(length),
             U32(IP_COMMAND_REQUEST) + (U32(phase) + (U16(cmd.code) + (U32(id) + Params(cmd.params)))));
    AtConcat(s, 4, U32(IP_COMMAND_REQUEST), U32(phase) + (U16(cmd.code) + (U32(id) + Params(cmd.params))));
    AtConcat(s, 8, U32(phase), U16(cmd.code) + (U32(id) + Params(cmd.params)));
    AtConcat(s, 12, U16(cmd.code), U32(id) + Params(cmd.params));
    AtConcat(s, 14, U32(id), Params(cmd.params));
    ReadBackU32(s, 0, length);
    ReadBackU32(s, 4, IP_COMMAND_REQUEST);
    ReadBackU32(s, 8, phase);
    ReadBackU16(s, 12, cmd.code);
    ReadBackU32(s, 14, id);
    ReadBackParams(s, 18, cmd.params);
  }

  lemma IpResponseFields(s: seq<byte>, of: nat, r: Response)
    requires At(s, of, IpResponse(r))
    ensures ReadU32(s, of) == 14 + 4 * |r.params| && ReadU32(s, of + 4) == IP_COMMAND_RESPONSE
    ensures ReadU16(s, of + 8) == r.code && ReadU32(s, of + 10) == r.id
    ensures ReadParams(s, of + 14, |r.params|) == r.params
  {
    hide ReadU16, ReadU32, ReadU64, U16, U32, U64, Params, ReadParams;
    var length: u32 := 14 + 4 * |r.params|;
    AtConcat(s, of, U32(length), U32(IP_COMMAND_RESPONSE) + (U16(r.code) + (U32(r.id) + Params(r.params))));
    AtConcat(s, of + 4, U32(IP_COMMAND_RESPONSE), U16(r.code) + (U32(r.id) + Params(r.params)));
    AtConcat(s, of + 8, U16(r.code), U32(r.id) + Params(r.params));
    AtConcat(s, of + 10, U32(r.id), Params(r.params));
    ReadBackU32(s, of, length);
    ReadBackU32(s, of + 4, IP_COMMAND_RESPONSE);
    ReadBackU16(s, of + 8, r.code);
    ReadBackU32(s, of + 10, r.id);
    ReadBackParams(s, of + 14, r.params);
  }

  lemma IpStartFields(s: seq<byte>, of: nat, id: u32, payloadLength: u64)
    requires At(s, of, IpStart(id, payloadLength))
    ensures ReadU32(s, of) == 20 && ReadU32(s, of + 4) == IP_DATA_START
    ensures ReadU32(s, of + 8) == id && ReadU64(s, of + 12) == payloadLength
  {
    hide ReadU16, ReadU32, ReadU64, U16, U32, U64, Params, ReadParams;
    AtConcat(s, of, U32(20), U32(IP_DATA_START) + (U32(id) + U64(payloadLength)));
    AtConcat(s, of + 4, U32(IP_DATA_START), U32(id) + U64(payloadLength));
    AtConcat(s, of + 8, U32(id), U64(payloadLength));
    ReadBackU32(s, of, 20);
    ReadBackU32(s, of + 4, IP_DATA_START);
    ReadBackU32(s, of + 8, id);
    ReadBackU64(s, of + 12, payloadLength);
  }

  lemma IpEndFields(s: seq<byte>, of: nat, id: u32, payload: seq<byte>)
    requires 12 + |payload| < U32_MOD && At(s, of, IpEnd(id, payload))
    ensures ReadU32(s, of) == 12 + |payload| && ReadU32(s, of + 4) == IP_DATA_END
    ensures ReadU32(s, of + 8) == id && At(s, of + 12, payload)
  {
    hide ReadU16, ReadU32, ReadU64, U16, U32, U64, Params, ReadParams;
    AtConcat(s, of, U32(12 + |payload|), U32(IP_DATA_END) + (U32(id) + payload));
    AtConcat(s, of + 4, U32(IP_DATA_END), U32(id) + payload);
    AtConcat(s, of + 8, U32(id), payload);
    ReadBackU32(s, of, 12 + |payload|);
    ReadBackU32(s, of + 4, IP_DATA_END);
    ReadBackU32(s, of + 8, id);
  }
}
