/** The read-only accessors of src/packet.c, as functions of the bytes p lying at the start of r->data.
    None stands for ptp_panic, or for a read outside p. */
module PacketAccess {
  import opened Bytes
  import opened Packets

  /** enum PtpConnType, without the unused PTP_BLE. */
  datatype Conn = PTP_IP | PTP_USB | PTP_IP_USB

  // ---- USB containers ----

  predicate UsbReadable(p: seq<byte>) {
    |p| >= 12 && (ReadU16(p, 4) == TYPE_DATA ==> ReadU32(p, 0) + 12 <= |p|)
  }

  /** What the receiver must leave behind: a response, or a data container followed at the offset its
      length field gives by a response that ends exactly where the bytes end. */
  predicate UsbComplete(p: seq<byte>) {
    && |p| >= 12
    && var length := ReadU32(p, 0);
    && length <= |p|
    && (ReadU16(p, 4) == TYPE_RESPONSE
        || (ReadU16(p, 4) == TYPE_DATA && length + 12 <= |p|
            && ReadU16(p, length + 4) == TYPE_RESPONSE && ReadU32(p, length) == |p| - length))
  }

  /** Where the response container starts. */
  function UsbResponseAt(p: seq<byte>): (of: nat)
    requires UsbReadable(p)
    ensures of + 12 <= |p|
  {
    if ReadU16(p, 4) == TYPE_DATA then ReadU32(p, 0) else 0
  }

  function UsbPayloadAt(p: seq<byte>): nat
    requires UsbReadable(p)
  {
    if ReadU16(p, 4) == TYPE_RESPONSE then 12 else if ReadU16(p, 4) == TYPE_COMMAND then 28 else 12
  }

  function UsbPayloadLength(p: seq<byte>): u32
    requires UsbReadable(p)
  {
    (ReadU32(p, 0) - 12) % U32_MOD
  }

  function UsbParamLength(p: seq<byte>): u32
    requires UsbReadable(p)
  {
    (ReadU32(p, UsbResponseAt(p)) - 12) % U32_MOD / 4
  }

  /** After a data phase the source returns the response code, whatever the index. */
  function UsbParam(p: seq<byte>, i: nat): Option<u32>
    requires UsbReadable(p)
  {
    if ReadU16(p, 4) == TYPE_DATA then Some(ReadU16(p, UsbResponseAt(p) + 6))
    else if 16 + 4 * i <= |p| then Some(ReadU32(p, 12 + 4 * i))
    else None
  }

  // ---- PTP/IP packets ----

  /** ptpip_get_response_packet */
  function IpResponseAt(p: seq<byte>): (of: Option<nat>)
    ensures of.Some? ==> of.value + 8 <= |p| && ReadU32(p, of.value + 4) == IP_COMMAND_RESPONSE
  {
    if |p| < 8 then None
    else if ReadU32(p, 4) == IP_COMMAND_RESPONSE then Some(0)
    else if ReadU32(p, 4) != IP_DATA_START then None
    else
      var end := ReadU32(p, 0);
      if |p| < end + 8 || ReadU32(p, end + 4) != IP_DATA_END then None
      else
        var resp := end + ReadU32(p, end);
        if |p| < resp + 8 || ReadU32(p, resp + 4) != IP_COMMAND_RESPONSE then None
        else Some(resp)
  }

  function IpPayloadAt(p: seq<byte>): (of: Option<nat>)
    ensures of.Some? ==> |p| >= 20
  {
    if |p| < 20 || ReadU32(p, 4) != IP_DATA_START then None
    else
      var end := ReadU32(p, 0);
      if |p| < end + 8 || ReadU32(p, end + 4) != IP_DATA_END then None else Some(end + 12)
  }

  // ---- the public accessors ----

  /** ptp_get_return_code */
  function ReturnCode(conn: Conn, p: seq<byte>): Option<u16> {
    if conn == PTP_IP then
      var of := IpResponseAt(p);
      if of.Some? && of.value + 10 <= |p| then Some(ReadU16(p, of.value + 8)) else None
    else if UsbReadable(p) then Some(ReadU16(p, UsbResponseAt(p) + 6)) else None
  }

  /** ptp_get_last_transaction_id */
  function TransactionId(conn: Conn, p: seq<byte>): Option<u32> {
    if conn == PTP_IP then
      var of := IpResponseAt(p);
      if of.Some? && of.value + 14 <= |p| then Some(ReadU32(p, of.value + 10)) else None
    else if UsbReadable(p) then Some(ReadU32(p, UsbResponseAt(p) + 8)) else None
  }

  /** ptp_get_param_length */
  function ParamLength(conn: Conn, p: seq<byte>): Option<u32> {
    if conn == PTP_IP then
      var of := IpResponseAt(p);
      if of.Some? then Some((ReadU32(p, of.value) - 14) % U32_MOD / 4) else None
    else if UsbReadable(p) then Some(UsbParamLength(p)) else None
  }

  /** ptp_get_param */
  function Param(conn: Conn, p: seq<byte>, i: nat): Option<u32> {
    if conn == PTP_IP then
      var of := IpResponseAt(p);
      if of.Some? && of.value + 18 + 4 * i <= |p| then Some(ReadU32(p, of.value + 14 + 4 * i)) else None
    else if UsbReadable(p) then UsbParam(p, i) else None
  }

  /** ptp_get_payload, as an offset from r->data */
  function PayloadAt(conn: Conn, p: seq<byte>): Option<nat> {
    if conn == PTP_IP then IpPayloadAt(p)
    else if UsbReadable(p) then Some(UsbPayloadAt(p)) else None
  }

  /** ptp_get_payload_length; on PTP/IP the 64-bit field is cut down to 32 bits. */
  function PayloadLength(conn: Conn, p: seq<byte>): Option<u32> {
    if conn == PTP_IP then
      if |p| < 20 || ReadU32(p, 4) != IP_DATA_START then None else Some(ReadU64(p, 12) % U32_MOD)
    else if UsbReadable(p) then Some(UsbPayloadLength(p)) else None
  }

  /** The payload bytes a caller sees through ptp_get_payload and ptp_get_payload_length. */
  function Payload(conn: Conn, p: seq<byte>): Option<seq<byte>> {
    var of, n := PayloadAt(conn, p), PayloadLength(conn, p);
    if of.Some? && n.Some? && of.value + n.value <= |p| then Some(p[of.value..of.value + n.value]) else None
  }

  /** Everything src/packet.c tells about a received response. */
  predicate Carries(conn: Conn, p: seq<byte>, r: Response) {
    && ReturnCode(conn, p) == Some(r.code)
    && TransactionId(conn, p) == Some(r.id)
    && ParamLength(conn, p) == Some(|r.params|)
    && (r.data.Some? ==> Payload(conn, p) == r.data)
    && (r.data.None? ==> forall i :: 0 <= i < |r.params| ==> Param(conn, p, i) == Some(r.params[i]))
  }

  /** Where the accessors look in USB containers, by the type field: 1 is a command, 2 data, 3 a response. */
  lemma UsbOffsets(conn: Conn, p: seq<byte>, i: nat)
    requires conn != PTP_IP && |p| >= 12 && (ReadU16(p, 4) == 2 ==> ReadU32(p, 0) + 12 <= |p|)
    ensures var kind, length := ReadU16(p, 4), ReadU32(p, 0);
            && (kind != 2 ==>
                 && ReturnCode(conn, p) == Some(ReadU16(p, 6)) && TransactionId(conn, p) == Some(ReadU32(p, 8))
                 && (16 + 4 * i <= |p| ==> Param(conn, p, i) == Some(ReadU32(p, 12 + 4 * i))))
            && (kind == 2 ==>
                 && ReturnCode(conn, p) == Some(ReadU16(p, length + 6))
                 && TransactionId(conn, p) == Some(ReadU32(p, length + 8))
                 && Param(conn, p, i) == Some(ReadU16(p, length + 6)))
            && PayloadAt(conn, p) == Some(if kind == 1 then 28 else 12)
  {
    hide ReadU16, ReadU32;
  }

  /** What lies in the buffer behind a complete answer does not change what the accessors say. */
  lemma CompletePrefix(conn: Conn, p: seq<byte>, q: seq<byte>)
    requires conn != PTP_IP && UsbComplete(p) && p <= q
    ensures UsbReadable(q) && ReturnCode(conn, q) == ReturnCode(conn, p) != None
    ensures TransactionId(conn, q) == TransactionId(conn, p) && ParamLength(conn, q) == ParamLength(conn, p)
    ensures PayloadAt(conn, q) == PayloadAt(conn, p) && PayloadLength(conn, q) == PayloadLength(conn, p)
  {
    var length: int := ReadU32(p, 0);
    assert ReadU32(q, 0) == length && ReadU16(q, 4) == ReadU16(p, 4);
    assert ReadU16(q, 6) == ReadU16(p, 6) && ReadU32(q, 8) == ReadU32(p, 8);
    if ReadU16(p, 4) == TYPE_DATA {
      assert ReadU32(q, length) == ReadU32(p, length);
      assert ReadU16(q, length + 6) == ReadU16(p, length + 6) && ReadU32(q, length + 8) == ReadU32(p, length + 8);
    }
  }

  /** Nor does it change the payload. */
  lemma CompletePayload(conn: Conn, p: seq<byte>, q: seq<byte>)
    requires conn != PTP_IP && UsbComplete(p) && p <= q && ReadU32(p, 0) >= 12
    ensures Payload(conn, q) == Payload(conn, p) == Some(p[12..ReadU32(p, 0)])
  {
    PayloadPlace(conn, p);
    hide ReadU16, ReadU32, UsbComplete, PayloadAt, PayloadLength, UsbReadable, ReturnCode, TransactionId, ParamLength;
    CompletePrefix(conn, p, q);
    assert q[12..ReadU32(p, 0)] == p[12..ReadU32(p, 0)];
  }

  lemma PayloadPlace(conn: Conn, p: seq<byte>)
    requires conn != PTP_IP && UsbComplete(p) && ReadU32(p, 0) >= 12
    ensures PayloadAt(conn, p) == Some(12) && PayloadLength(conn, p) == Some(ReadU32(p, 0) - 12) && ReadU32(p, 0) <= |p|
  {
    hide ReadU16, ReadU32;
  }

  /** The payload is the body of the first container, unless its length field falls short of a header: the
      length computed from it is then close to 4 GiB.  Likewise for the response and the number of its
      parameters, which is then close to 2^30. */
  lemma PayloadIff(conn: Conn, p: seq<byte>)
    requires conn != PTP_IP && UsbComplete(p) && |p| < U32_MOD
    ensures ReadU32(p, 0) >= 12 <==> Payload(conn, p).Some?
    ensures ReadU32(p, 0) >= 12 ==> Payload(conn, p) == Some(p[12..ReadU32(p, 0)])
    ensures ReadU32(p, 0) < 12 ==> PayloadLength(conn, p) == Some(U32_MOD - 12 + ReadU32(p, 0))
    ensures UsbReadable(p) && var length := ReadU32(p, UsbResponseAt(p));
            && ParamLength(conn, p) == Some(if length >= 12 then (length - 12) / 4 else (U32_MOD - 12 + length) / 4)
            && (12 + 4 * ParamLength(conn, p).value <= |p| - UsbResponseAt(p) <==> length >= 12)
  {
    hide ReadU16, ReadU32;
    if ReadU32(p, 0) >= 12 {
      CompletePayload(conn, p, p);
    }
  }

  lemma UsbStreamShape(r: Response, op: u16)
    ensures var s := UsbStream(r, op);
            var resp := UsbContainer(TYPE_RESPONSE, r.code, r.id, Params(r.params));
            && (r.data.None? ==> s == resp && At(s, 0, resp))
            && (r.data.Some? ==>
                 var d := UsbData(op, r.id, r.data.value);
                 |s| == |d| + |resp| && At(s, 0, d) && At(s, |d|, resp))
  {
    var s := UsbStream(r, op);
    var resp := UsbContainer(TYPE_RESPONSE, r.code, r.id, Params(r.params));
    if r.data.Some? {
      AtConcat(s, 0, UsbData(op, r.id, r.data.value), resp);
      assert s[0..|s|] == s;
    } else {
      assert s == resp && s[0..|s|] == s;
    }
  }

  lemma UsbStreamCarries(conn: Conn, r: Response, op: u16)
    requires conn != PTP_IP
    ensures UsbComplete(UsbStream(r, op)) && Carries(conn, UsbStream(r, op), r)
  {
    hide ReadU16, ReadU32, ReadU64, U16, U32, U64, Params, UsbHeader, UsbContainer, IpResponse, IpStart, IpEnd,
      ReadParams, UsbStream;
    UsbStreamShape(r, op);
    if r.data.Some? {
      UsbDataCarries(conn, UsbStream(r, op), r, op);
    } else {
      UsbResponseCarries(conn, UsbStream(r, op), r);
    }
  }

  lemma UsbDataCarries(conn: Conn, s: seq<byte>, r: Response, op: u16)
    requires conn != PTP_IP && r.data.Some?
    requires |s| == 24 + |r.data.value| + 4 * |r.params| && At(s, 0, UsbData(op, r.id, r.data.value))
    requires At(s, 12 + |r.data.value|, UsbContainer(TYPE_RESPONSE, r.code, r.id, Params(r.params)))
    ensures UsbComplete(s) && Carries(conn, s, r)
  {
    hide ReadU16, ReadU32, ReadU64, U16, U32, U64, Params, UsbHeader, UsbContainer, IpResponse, IpStart, IpEnd,
      ReadParams, UsbStream;
    UsbContainerFields(s, 0, TYPE_DATA, op, r.id, r.data.value);
    UsbContainerFields(s, 12 + |r.data.value|, TYPE_RESPONSE, r.code, r.id, Params(r.params));
  }

  lemma UsbResponseCarries(conn: Conn, s: seq<byte>, r: Response)
    requires conn != PTP_IP && r.data.None?
    requires |s| == 12 + 4 * |r.params| && At(s, 0, UsbContainer(TYPE_RESPONSE, r.code, r.id, Params(r.params)))
    ensures UsbComplete(s) && Carries(conn, s, r)
  {
    hide ReadU16, ReadU32, ReadU64, U16, U32, U64, Params, UsbHeader, UsbContainer;
    UsbContainerFields(s, 0, TYPE_RESPONSE, r.code, r.id, Params(r.params));
    ReadBackParams(s, 12, r.params);
    forall i | 0 <= i < |r.params| ensures Param(conn, s, i) == Some(r.params[i]) {
      assert ReadParams(s, 12, |r.params|)[i] == ReadU32(s, 12 + 4 * i);
    }
  }

  lemma IpStreamShape(r: Response)
    ensures var s := IpStream(r);
            && (r.data.None? ==> s == IpResponse(r) && At(s, 0, IpResponse(r)))
            && (r.data.Some? ==>
                 && |s| == 20 + 12 + |r.data.value| + |IpResponse(r)|
                 && At(s, 0, IpStart(r.id, |r.data.value|)) && At(s, 20, IpEnd(r.id, r.data.value))
                 && At(s, 32 + |r.data.value|, IpResponse(r)))
  {
    var s := IpStream(r);
    assert s[0..|s|] == s;
    if r.data.Some? {
      var d := r.data.value;
      AtConcat(s, 0, IpStart(r.id, |d|), IpEnd(r.id, d) + IpResponse(r));
      AtConcat(s, 20, IpEnd(r.id, d), IpResponse(r));
    }
  }

  lemma IpStreamCarries(r: Response)
    ensures Carries(PTP_IP, IpStream(r), r)
  {
    hide ReadU16, ReadU32, ReadU64, U16, U32, U64, Params, UsbHeader, UsbContainer, IpResponse, IpStart, IpEnd;
    var s := IpStream(r);
    IpStreamShape(r);
    var of := if r.data.Some? then 32 + |r.data.value| else 0;
    IpResponseFields(s, of, r);
    if r.data.Some? {
      IpStartFields(s, 0, r.id, |r.data.value|);
      IpEndFields(s, 20, r.id, r.data.value);
    }
    assert IpResponseAt(s) == Some(of);
    forall i | r.data.None? && 0 <= i < |r.params| ensures Param(PTP_IP, s, i) == Some(r.params[i]) {
      assert ReadParams(s, of + 14, |r.params|)[i] == ReadU32(s, of + 14 + 4 * i);
    }
  }

  /** After a data phase the two transports agree on parameter i exactly when it equals the response code. */
  lemma ParamAfterDataPhase(r: Response, op: u16, i: nat)
    requires r.data.Some? && i < |r.params|
    ensures Param(PTP_IP, IpStream(r), i) == Some(r.params[i])
    ensures Param(PTP_USB, UsbStream(r, op), i) == Some(r.code)
    ensures Param(PTP_USB, UsbStream(r, op), i) == Param(PTP_IP, IpStream(r), i) <==> r.params[i] == r.code
  {
    hide ReadU16, ReadU32, ReadU64, U16, U32, U64, Params, UsbHeader, UsbContainer, IpResponse, IpStart, IpEnd;
    UsbStreamCarries(PTP_USB, r, op);
    UsbStreamShape(r, op);
    UsbContainerFields(UsbStream(r, op), 0, TYPE_DATA, op, r.id, r.data.value);
    var s := IpStream(r);
    IpStreamShape(r);
    IpResponseFields(s, 32 + |r.data.value|, r);
    IpStartFields(s, 0, r.id, |r.data.value|);
    IpEndFields(s, 20, r.id, r.data.value);
    assert ReadParams(s, 46 + |r.data.value|, |r.params|)[i] == ReadU32(s, 46 + |r.data.value| + 4 * i);
  }

  /** The parameter 7 of a response with an empty data phase: read over PTP/IP it is 7, over USB the code. */
  lemma ParameterIsLost()
    ensures var r := Response(RC_OK, 1, [7], Some([]));
            Param(PTP_IP, IpStream(r), 0) == Some(7) && Param(PTP_USB, UsbStream(r, 0x1007), 0) == Some(RC_OK)
  {
    ParamAfterDataPhase(Response(RC_OK, 1, [7], Some([])), 0x1007, 0);
  }
}
