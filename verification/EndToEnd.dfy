/** Transport and codecs together: what a device encodes as the data phase of a response is what the parser
    of src/data.c makes of the buffer that the receive loop of src/transport.c leaves behind. */
module EndToEnd {
  import opened Bytes
  import opened Packets
  import opened PacketAccess
  import opened UsbReceive
  import opened IpReceive
  import ObjectInfoData
  import DeviceInfoData
  import PropDescData
  import EosEvents

  /** Over USB and over PTP/IP, the schedules hand over all of the response r to operation op. */
  ghost predicate Handed(r: Response, op: u16, usb: Schedule, ip: Schedule, max: nat, retries: nat, c: nat,
                         wait0: nat) {
    && retries >= 1 && Drains(|UsbStream(r, op)|, usb, max, retries, c) && IpDelivers(r, ip, wait0, retries, c)
  }

  /** The parsers' pointer into the buffer p, with the bytes they can read from there. */
  function ParserInput(conn: Conn, p: seq<byte>): (d: Option<seq<byte>>) {
    var of := PayloadAt(conn, p);
    if of.Some? && of.value <= |p| then Some(p[of.value..]) else None
  }

  lemma InputHoldsData(conn: Conn, p: seq<byte>, r: Response)
    requires Carries(conn, p, r) && r.data.Some?
    ensures ParserInput(conn, p).Some? && At(ParserInput(conn, p).value, 0, r.data.value)
    ensures PacketAccess.Payload(conn, p) == r.data
  {
    hide ReturnCode, TransactionId, ParamLength, Param, PayloadAt, PayloadLength;
    var of, n := PayloadAt(conn, p).value, PayloadLength(conn, p).value;
    assert p[of..][..n] == p[of..of + n];
  }

  /** After either receive loop the parsers find the data phase, whole, at the payload pointer. */
  lemma DataArrives(r: Response, op: u16, conn: Conn, usb: Schedule, ip: Schedule, max: nat, retries: nat, c: nat,
                    wait0: nat, cap: nat, stale: Stale)
    requires conn != PTP_IP && cap >= 8 && Handed(r, op, usb, ip, max, retries, c, wait0) && r.data.Some?
    ensures |UsbStream(r, op)| < INT_MAX_PLUS_1
    ensures var u := UsbReceived(UsbStream(r, op), usb, max, retries, c);
            var i := IpBulk(IpStream(r), cap, ip, wait0, retries, c, stale);
            && u.rc == i.rc == PTP_OK && u.read <= |UsbStream(r, op)|
            && Arrived(conn, UsbStream(r, op)[..u.read], r.data.value)
            && Arrived(PTP_IP, IpStream(r)[..i.used], r.data.value)
  {
    hide UsbReceived, IpBulk, Carries, Drains, IpDelivers, UsbStream, IpStream, ParserInput, At;
    TransportIndependence(r, op, conn, usb, ip, max, retries, c, wait0, cap, stale);
    InputHoldsData(conn, UsbStream(r, op)[..UsbReceived(UsbStream(r, op), usb, max, retries, c).read], r);
    InputHoldsData(PTP_IP, IpStream(r)[..IpBulk(IpStream(r), cap, ip, wait0, retries, c, stale).used], r);
  }

  /** The parsers see data at the payload pointer, and the payload accessors delimit exactly it. */
  predicate Arrived(conn: Conn, p: seq<byte>, data: seq<byte>) {
    && ParserInput(conn, p).Some? && At(ParserInput(conn, p).value, 0, data)
    && PacketAccess.Payload(conn, p) == Some(data)
  }

  /** An ObjectInfo comes out of the buffer as the device put it in, strings sanitised. */
  lemma ObjectInfoArrives(conn: Conn, p: seq<byte>, i: ObjectInfoData.Info,
                          filename: seq<byte>, created: seq<byte>, modified: seq<byte>, keywords: seq<byte>)
    requires ObjectInfoData.InFields(i) && ObjectInfoData.Spare(i) && Arrived(conn, p, ObjectInfoData.EncodeInfo(i))
    requires |filename| == ObjectInfoData.FILENAME && |created| == |modified| == ObjectInfoData.DATE
    requires |keywords| == ObjectInfoData.KEYWORDS
    ensures var d := ParserInput(conn, p).value;
            && ObjectInfoData.InfoReadable(d)
            && ObjectInfoData.Parsed(d, filename, created, modified, keywords) == ObjectInfoData.SanitisedInfo(i)
  {
    hide At, ParserInput, ObjectInfoData.EncodeInfo, ObjectInfoData.Parsed, ObjectInfoData.InfoReadable;
    ObjectInfoData.ParsesBack(ParserInput(conn, p).value, i, filename, created, modified, keywords);
  }

  /** A DeviceInfo is parsed without panic, and into what the device put in. */
  lemma DeviceInfoArrives(conn: Conn, p: seq<byte>, v: DeviceInfoData.Device, di: DeviceInfoData.DeviceInfo, be: nat)
    requires DeviceInfoData.Fits(v) && Arrived(conn, p, DeviceInfoData.EncodeDevice(v)) && di.Valid() && |p| <= be
    ensures var d := ParserInput(conn, p).value;
            && DeviceInfoData.DeviceReadable(d, be) && !DeviceInfoData.Panics(d, DeviceInfoData.ListsAt(d), be)
            && (di.HeadParsed(d) && di.ListsParsed(d, DeviceInfoData.ListsAt(d))
                && di.NamesParsed(d, DeviceInfoData.NthArray(d, DeviceInfoData.ListsAt(d), 5)) ==>
                  di.LengthsFit() && di.Value() == DeviceInfoData.SanitisedDevice(v))
  {
    hide At, DeviceInfoData.EncodeDevice, DeviceInfoData.Fits, DeviceInfoData.Panics;
    var d := ParserInput(conn, p).value;
    DeviceInfoData.EncodedIsReadable(d, be, v);
    if di.HeadParsed(d) && di.ListsParsed(d, DeviceInfoData.ListsAt(d))
       && di.NamesParsed(d, DeviceInfoData.NthArray(d, DeviceInfoData.ListsAt(d), 5)) {
      di.Recovers(d, v);
    }
  }

  /** A property description is parsed without panic, and its two values as the device meant them, up to the
      sign of 8-bit ones. */
  lemma PropDescArrives(conn: Conn, p: seq<byte>, v: PropDescData.Desc, pd: PropDescData.PropDesc)
    requires PropDescData.WellTyped(v) && Arrived(conn, p, PropDescData.EncodeDesc(v))
    ensures var d := ParserInput(conn, p).value;
            && PropDescData.DescReadable(d) && PropDescData.Supported(v.dataType)
            && d[PropDescData.FormAt(d)] in {PropDescData.RANGE_FORM, PropDescData.ENUMERATION_FORM}
            && (pd.ValuesParsed(d) ==>
                 && pd.dataType == v.dataType
                 && (PropDescData.Recovered(pd.dataType, v.default_, pd.defaultValue32, pd.defaultValue)
                     <==> !PropDescData.LostSign(pd.dataType, v.default_))
                 && (PropDescData.Recovered(pd.dataType, v.current, pd.currentValue32, pd.currentValue)
                     <==> !PropDescData.LostSign(pd.dataType, v.current)))
  {
    hide At, PropDescData.EncodeDesc, PropDescData.DescReadable, PropDescData.ValuesReadable, PropDescData.OfType;
    var d := ParserInput(conn, p).value;
    PropDescData.EncodedDescParses(d, v);
    if pd.ValuesParsed(d) {
      pd.Recovers(d, v);
    }
  }

  /** The events of a payload are what the messages encoded in it mean. */
  lemma EventsArrive(conn: Conn, p: seq<byte>, data: seq<byte>, t: EosEvents.Tables, ms: seq<EosEvents.Message>,
                     events: seq<EosEvents.Event>)
    requires EosEvents.AllLegal(ms) && EosEvents.Encodes(data, ms) && Arrived(conn, p, data)
    ensures PacketAccess.Payload(conn, p) == Some(data) && EosEvents.Stream(data)
    ensures EosEvents.AreEvents(t, data, events, EosEvents.RecordCount(data, 0)) ==>
              |events| == |ms| && forall k :: 0 <= k < |ms| ==> events[k] == EosEvents.Meaning(t, ms[k])
  {
    hide EosEvents.Encodes, EosEvents.Meaning, EosEvents.EventAt, EosEvents.AreEvents, EosEvents.Legal;
    EosEvents.StreamBack(data, ms);
    if EosEvents.AreEvents(t, data, events, EosEvents.RecordCount(data, 0)) {
      EosEvents.EventsAreMeanings(t, data, ms, events);
    }
  }
}
