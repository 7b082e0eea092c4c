/** The DeviceInfo dataset (section 5.1.1 of MTP 1.1), parsed by src/data.c. */
module DeviceInfoData {
  import opened Bytes
  import opened PtpStrings

  // ---- arrays of 16-bit codes ----

  function Codes(cs: seq<u16>): (s: seq<byte>)
    ensures |s| == 2 * |cs|
  {
    if cs == [] then [] else Codes(cs[..|cs| - 1]) + U16(cs[|cs| - 1])
  }

  function EncodeArray(cs: seq<u16>): (s: seq<byte>)
    requires |cs| < U32_MOD
    ensures |s| == 4 + 2 * |cs|
  {
    U32(|cs|) + Codes(cs)
  }

  /** boundcheck rejects the size, or the loop runs off the field: a panic either way. */
  predicate ArrayPanics(n: u32, room: int, max: nat) {
    var size := ToInt(2 * ToInt(n) + 4);
    room < 0 || size < 0 || room < size || ToInt(n) > max
  }

  /** The codes the loop reads; a count beyond INT_MAX is negative to it. */
  function Count(n: u32): nat {
    if ToInt(n) < 0 then 0 else ToInt(n)
  }

  predicate ArrayReadable(d: seq<byte>, at: nat, max: nat) {
    at + 4 <= |d| && at + 4 + 2 * Min(CountAt(d, at), max) <= |d|
  }

  /** The field and its length are what the array at offset at says. */
  ghost predicate HoldsCodes(buf: array<u16>, length: int, d: seq<byte>, at: nat)
    reads buf
  {
    && at + 4 <= |d| && length == ToInt(ReadU32(d, at)) && CountAt(d, at) <= buf.Length
    && at + 4 + 2 * CountAt(d, at) <= |d|
    && forall i :: 0 <= i < CountAt(d, at) ==> buf[i] == ReadU16(d, at + 4 + 2 * i)
  }

  function CountAt(d: seq<byte>, at: nat): nat {
    if at + 4 <= |d| then Count(ReadU32(d, at)) else 0
  }

  /** ptp_read_uint16_array_s: bs is d[at..] and be the end that the caller names. */
  method ReadUint16Array(d: seq<byte>, at: nat, be: nat, buf: array<u16>) returns (panic: bool, of: nat, length: int)
    requires ArrayReadable(d, at, buf.Length)
    modifies buf
    ensures panic == ArrayPanics(ReadU32(d, at), be - at, buf.Length)
    ensures !panic ==> HoldsCodes(buf, length, d, at) && of == 4 + 2 * CountAt(d, at)
    ensures !panic ==> buf[CountAt(d, at)..] == old(buf[CountAt(d, at)..])
  {
    hide ReadU32, ReadU16;
    panic, of := false, 0;
    var n := ReadU32(d, at + of);
    of := of + 4;
    length := ToInt(n);
    var size := ToInt(2 * ToInt(n) + 4);
    if at > be || size < 0 || be - at < size { return true, of, length; }
    var i := 0;
    while i < ToInt(n)
      invariant 0 <= i <= buf.Length && i <= Count(n) && of == 4 + 2 * i
      invariant forall j :: 0 <= j < i ==> buf[j] == ReadU16(d, at + 4 + 2 * j)
      invariant buf[i..] == old(buf[i..])
    {
      if i >= buf.Length { return true, of, length; }
      buf[i] := ReadU16(d, at + of);
      of := of + 2;
      i := i + 1;
    }
  }

  lemma {:induction false} CodesAt(d: seq<byte>, at: nat, cs: seq<u16>, i: nat)
    requires At(d, at, Codes(cs)) && i < |cs|
    ensures ReadU16(d, at + 2 * i) == cs[i]
  {
    var n := |cs| - 1;
    AtConcat(d, at, Codes(cs[..n]), U16(cs[n]));
    if i == n {
      ReadBackU16(d, at + 2 * n, cs[n]);
    } else {
      CodesAt(d, at, cs[..n], i);
    }
  }

  lemma EncodedCount(d: seq<byte>, at: nat, cs: seq<u16>)
    requires |cs| < U32_MOD && At(d, at, EncodeArray(cs))
    ensures at + 4 + 2 * |cs| <= |d| && ReadU32(d, at) == |cs|
  {
    AtConcat(d, at, U32(|cs|), Codes(cs));
    ReadBackU32(d, at, |cs|);
  }

  /** An encoded array of up to INT_MAX codes is read back, unless it is longer than its field: that is
      the only panic left. */
  lemma ArrayReadsBack(d: seq<byte>, at: nat, be: nat, cs: seq<u16>, max: nat)
    requires |cs| < 0x2000_0000 && At(d, at, EncodeArray(cs)) && |d| <= be
    ensures ArrayReadable(d, at, max) && (ArrayPanics(ReadU32(d, at), be - at, max) <==> |cs| > max)
    ensures ToInt(ReadU32(d, at)) == CountAt(d, at) == |cs|
    ensures forall i :: 0 <= i < |cs| ==> ReadU16(d, at + 4 + 2 * i) == cs[i]
  {
    hide ReadU16, ReadU32, U32, Codes, At;
    AtConcat(d, at, U32(|cs|), Codes(cs));
    EncodedCount(d, at, cs);
    forall i | 0 <= i < |cs| ensures ReadU16(d, at + 4 + 2 * i) == cs[i] {
      CodesAt(d, at + 4, cs, i);
    }
  }

  // ---- the dataset ----

  datatype Device = Device(
    standardVersion: u16, vendorExtId: u32, version: u16, extensions: seq<byte>, functionalMode: u16,
    ops: seq<u16>, events: seq<u16>, props: seq<u16>, captureFormats: seq<u16>, playbackFormats: seq<u16>,
    manufacturer: seq<byte>, model: seq<byte>, deviceVersion: seq<byte>, serialNumber: seq<byte>)

  /** The field sizes of struct PtpDeviceInfo. */
  const NAME := 128
  const VERSION := 64
  const CAPS: seq<nat> := [256, 256, 512, 32, 32]

  function EncodeHead(v: Device): seq<byte> {
    U16(v.standardVersion) + U32(v.vendorExtId) + U16(v.version) + EncodeString(v.extensions) + U16(v.functionalMode)
  }

  function CodeLists(v: Device): (l: seq<seq<u16>>)
    ensures |l| == 5
  {
    [v.ops, v.events, v.props, v.captureFormats, v.playbackFormats]
  }

  function EncodeLists(l: seq<seq<u16>>): (e: seq<byte>)
    requires forall k :: 0 <= k < |l| ==> |l[k]| < U32_MOD
  {
    if l == [] then [] else EncodeLists(l[..|l| - 1]) + EncodeArray(l[|l| - 1])
  }

  function EncodeNames(v: Device): seq<byte> {
    EncodeString(v.manufacturer) + EncodeString(v.model) + EncodeString(v.deviceVersion) + EncodeString(v.serialNumber)
  }

  /** Every array fits its field, every string leaves its field a byte to spare. */
  predicate Fits(v: Device) {
    && (forall k :: 0 <= k < 5 ==> |CodeLists(v)[k]| <= CAPS[k])
    && NoNul(v.extensions) && NoNul(v.manufacturer) && NoNul(v.model) && NoNul(v.deviceVersion) && NoNul(v.serialNumber)
    && |v.extensions| <= NAME - 2 && |v.manufacturer| <= NAME - 2 && |v.model| <= NAME - 2
    && |v.deviceVersion| <= VERSION - 2 && |v.serialNumber| <= NAME - 2
  }

  function EncodeDevice(v: Device): seq<byte>
    requires Fits(v)
  {
    EncodeHead(v) + EncodeLists(CodeLists(v)) + EncodeNames(v)
  }

  function SanitisedDevice(v: Device): Device {
    v.(extensions := Sanitised(v.extensions), manufacturer := Sanitised(v.manufacturer), model := Sanitised(v.model),
       deviceVersion := Sanitised(v.deviceVersion), serialNumber := Sanitised(v.serialNumber))
  }

  // ---- where the reader finds its fields ----

  /** The k-th of consecutive arrays that start at offset at. */
  function NthArray(d: seq<byte>, at: nat, k: nat): nat {
    if k == 0 then at else
      var p := NthArray(d, at, k - 1);
      p + 4 + 2 * CountAt(d, p)
  }

  predicate PanicsAt(d: seq<byte>, at: nat, be: nat, k: nat)
    requires k < 5
  {
    var p := NthArray(d, at, k);
    p + 4 <= |d| && ArrayPanics(ReadU32(d, p), be - p, CAPS[k])
  }

  predicate ArraysReadable(d: seq<byte>, at: nat, be: nat) {
    forall k :: 0 <= k < 5 && (forall j :: 0 <= j < k ==> !PanicsAt(d, at, be, j)) ==>
      ArrayReadable(d, NthArray(d, at, k), CAPS[k])
  }

  predicate Panics(d: seq<byte>, at: nat, be: nat) {
    exists k :: 0 <= k < 5 && PanicsAt(d, at, be, k)
  }

  /** The four names follow one another from offset at. */
  predicate NamesReadable(d: seq<byte>, at: nat) {
    && StringReadable(d, at, NAME) && StringReadable(d, ModelAt(d, at), NAME)
    && StringReadable(d, DeviceVersionAt(d, at), VERSION) && StringReadable(d, SerialNumberAt(d, at), NAME)
  }

  function ModelAt(d: seq<byte>, at: nat): nat
    requires StringReadable(d, at, NAME)
  {
    at + ReadLength(d, at, NAME)
  }

  function DeviceVersionAt(d: seq<byte>, at: nat): nat
    requires StringReadable(d, at, NAME) && StringReadable(d, ModelAt(d, at), NAME)
  {
    ModelAt(d, at) + ReadLength(d, ModelAt(d, at), NAME)
  }

  function SerialNumberAt(d: seq<byte>, at: nat): nat
    requires StringReadable(d, at, NAME) && StringReadable(d, ModelAt(d, at), NAME)
    requires StringReadable(d, DeviceVersionAt(d, at), VERSION)
  {
    DeviceVersionAt(d, at) + ReadLength(d, DeviceVersionAt(d, at), VERSION)
  }

  predicate HeadReadable(d: seq<byte>) {
    |d| >= 8 && StringReadable(d, 8, NAME) && ListsAt(d) <= |d|
  }

  function ListsAt(d: seq<byte>): nat
    requires StringReadable(d, 8, NAME)
  {
    8 + ReadLength(d, 8, NAME) + 2
  }

  predicate DeviceReadable(d: seq<byte>, be: nat) {
    && HeadReadable(d) && ArraysReadable(d, ListsAt(d), be)
    && (!Panics(d, ListsAt(d), be) ==> NamesReadable(d, NthArray(d, ListsAt(d), 5)))
  }

  /** The field is what a string read from offset at leaves in it. */
  ghost predicate HoldsString(f: seq<byte>, d: seq<byte>, at: nat) {
    StringReadable(d, at, |f|) && exists before: seq<byte> :: |before| == |f| && f == ReadField(d, at, before)
  }

  lemma NextArray(d: seq<byte>, at: nat, be: nat, k: nat)
    requires k < 5 && ArraysReadable(d, at, be) && forall j :: 0 <= j < k ==> !PanicsAt(d, at, be, j)
    ensures NthArray(d, at, 0) == at
    ensures var p := NthArray(d, at, k);
            && p + 4 <= |d| && ArrayReadable(d, p, CAPS[k])
            && PanicsAt(d, at, be, k) == ArrayPanics(ReadU32(d, p), be - p, CAPS[k])
            && NthArray(d, at, k + 1) == p + 4 + 2 * CountAt(d, p)
  {
    hide CountAt, ReadU32, ArrayPanics;
  }

  lemma LeavesString(d: seq<byte>, at: nat, before: seq<byte>)
    requires StringReadable(d, at, |before|)
    ensures HoldsString(ReadField(d, at, before), d, at)
  {
  }

  // ---- struct PtpDeviceInfo ----

  class DeviceInfo {
    var standardVersion: u16
    var vendorExtId: u32
    var version: u16
    const extensions: array<byte>
    var functionalMode: u16
    var opsLength: int
    const ops: array<u16>
    var eventsLength: int
    const events: array<u16>
    var propsLength: int
    const props: array<u16>
    var captureFormatsLength: int
    const captureFormats: array<u16>
    var playbackFormatsLength: int
    const playbackFormats: array<u16>
    const manufacturer: array<byte>
    const model: array<byte>
    const deviceVersion: array<byte>
    const serialNumber: array<byte>

    predicate Valid() {
      && extensions.Length == manufacturer.Length == model.Length == serialNumber.Length == NAME
      && deviceVersion.Length == VERSION
      && ops.Length == CAPS[0] && events.Length == CAPS[1] && props.Length == CAPS[2]
      && captureFormats.Length == CAPS[3] && playbackFormats.Length == CAPS[4]
      && extensions !in {manufacturer, model, deviceVersion, serialNumber}
      && manufacturer !in {model, deviceVersion, serialNumber}
      && model !in {deviceVersion, serialNumber} && deviceVersion != serialNumber
      && ops !in {events, props, captureFormats, playbackFormats} && events !in {props, captureFormats, playbackFormats}
      && props !in {captureFormats, playbackFormats} && captureFormats != playbackFormats
    }

    ghost predicate HeadParsed(d: seq<byte>)
      reads this, extensions
    {
      && HeadReadable(d) && standardVersion == ReadU16(d, 0) && vendorExtId == ReadU32(d, 2) && version == ReadU16(d, 6)
      && HoldsString(extensions[..], d, 8) && functionalMode == ReadU16(d, ListsAt(d) - 2)
    }

    ghost predicate ListsParsed(d: seq<byte>, at: nat)
      reads this, ops, events, props, captureFormats, playbackFormats
    {
      && HoldsCodes(ops, opsLength, d, at) && HoldsCodes(events, eventsLength, d, NthArray(d, at, 1))
      && HoldsCodes(props, propsLength, d, NthArray(d, at, 2))
      && HoldsCodes(captureFormats, captureFormatsLength, d, NthArray(d, at, 3))
      && HoldsCodes(playbackFormats, playbackFormatsLength, d, NthArray(d, at, 4))
    }

    ghost predicate NamesParsed(d: seq<byte>, at: nat)
      reads manufacturer, model, deviceVersion, serialNumber
    {
      && Valid() && NamesReadable(d, at)
      && HoldsString(manufacturer[..], d, at) && HoldsString(model[..], d, ModelAt(d, at))
      && HoldsString(deviceVersion[..], d, DeviceVersionAt(d, at))
      && HoldsString(serialNumber[..], d, SerialNumberAt(d, at))
    }

    method ParseHead(d: seq<byte>) returns (b: nat)
      requires Valid() && HeadReadable(d)
      modifies this, extensions
      ensures b == ListsAt(d) && HeadParsed(d)
    {
      hide ReadU16, ReadU32, ReadLength, ReadField, StringReadable;
      b := 0;
      standardVersion := ReadU16(d, b);
      b := b + 2;
      vendorExtId := ReadU32(d, b);
      b := b + 4;
      version := ReadU16(d, b);
      b := b + 2;
      var n := ReadString(d, b, extensions);
      b := b + n;
      functionalMode := ReadU16(d, b);
      b := b + 2;
    }

    /** Operations, events and properties. */
    method ParseCodes(d: seq<byte>, at: nat, be: nat) returns (panic: bool, b: nat)
      requires Valid() && ArraysReadable(d, at, be)
      modifies this`opsLength, this`eventsLength, this`propsLength, ops, events, props
      ensures panic == exists k :: 0 <= k < 3 && PanicsAt(d, at, be, k)
      ensures !panic ==> b == NthArray(d, at, 3) && HoldsCodes(ops, opsLength, d, at)
      ensures !panic ==> HoldsCodes(events, eventsLength, d, NthArray(d, at, 1))
      ensures !panic ==> HoldsCodes(props, propsLength, d, NthArray(d, at, 2))
    {
      hide ReadU16, ReadU32, ArrayPanics, HoldsCodes, ArraysReadable, ArrayReadable, PanicsAt, NthArray, CountAt;
      var n;
      b := at;
      NextArray(d, at, be, 0);
      panic, n, opsLength := ReadUint16Array(d, b, be, ops);
      if panic { return; }
      b := b + n;
      NextArray(d, at, be, 1);
      panic, n, eventsLength := ReadUint16Array(d, b, be, events);
      if panic { return; }
      b := b + n;
      NextArray(d, at, be, 2);
      panic, n, propsLength := ReadUint16Array(d, b, be, props);
      if panic { return; }
      b := b + n;
    }

    method ParseLists(d: seq<byte>, at: nat, be: nat) returns (panic: bool, b: nat)
      requires Valid() && ArraysReadable(d, at, be)
      modifies this`opsLength, this`eventsLength, this`propsLength, this`captureFormatsLength,
               this`playbackFormatsLength
      modifies ops, events, props, captureFormats, playbackFormats
      ensures panic == Panics(d, at, be)
      ensures !panic ==> b == NthArray(d, at, 5) && ListsParsed(d, at)
    {
      hide ReadU16, ReadU32, ArrayPanics, HoldsCodes, ArraysReadable, ArrayReadable, PanicsAt, NthArray, CountAt;
      panic, b := ParseCodes(d, at, be);
      if panic { return; }
      var n;
      NextArray(d, at, be, 3);
      panic, n, captureFormatsLength := ReadUint16Array(d, b, be, captureFormats);
      if panic { return; }
      b := b + n;
      NextArray(d, at, be, 4);
      panic, n, playbackFormatsLength := ReadUint16Array(d, b, be, playbackFormats);
      if panic { return; }
      b := b + n;
    }

    method ParseNames(d: seq<byte>, at: nat) returns (b: nat)
      requires Valid() && NamesReadable(d, at)
      modifies manufacturer, model, deviceVersion, serialNumber
      ensures NamesParsed(d, at)
    {
      hide ReadLength, ReadField, StringReadable, HoldsString;
      b := at;
      var n := ReadString(d, b, manufacturer);
      LeavesString(d, b, old(manufacturer[..]));
      b := b + n;
      n := ReadString(d, b, model);
      LeavesString(d, b, old(model[..]));
      b := b + n;
      n := ReadString(d, b, deviceVersion);
      LeavesString(d, b, old(deviceVersion[..]));
      b := b + n;
      n := ReadString(d, b, serialNumber);
      LeavesString(d, b, old(serialNumber[..]));
      b := b + n;
    }

    /** ptp_parse_device_info; be is the end of memory that the caller of boundcheck names. */
    method Parse(d: seq<byte>, be: nat) returns (panic: bool, rc: int)
      requires Valid() && DeviceReadable(d, be)
      modifies this, extensions, ops, events, props, captureFormats, playbackFormats, manufacturer, model,
               deviceVersion, serialNumber
      ensures panic == Panics(d, ListsAt(d), be) && rc == 0
      ensures !panic ==> HeadParsed(d) && ListsParsed(d, ListsAt(d)) && NamesParsed(d, NthArray(d, ListsAt(d), 5))
    {
      hide HoldsCodes, HoldsString, ReadU16, ReadU32;
      rc := 0;
      var b := ParseHead(d);
      panic, b := ParseLists(d, b, be);
      if panic { return; }
      b := ParseNames(d, b);
    }

    ghost predicate LengthsFit()
      reads this
    {
      && 0 <= opsLength <= ops.Length && 0 <= eventsLength <= events.Length && 0 <= propsLength <= props.Length
      && 0 <= captureFormatsLength <= captureFormats.Length && 0 <= playbackFormatsLength <= playbackFormats.Length
    }

    ghost function Value(): Device
      requires LengthsFit()
      reads this, extensions, ops, events, props, captureFormats, playbackFormats, manufacturer, model,
            deviceVersion, serialNumber
    {
      Device(standardVersion, vendorExtId, version, Text(extensions[..]), functionalMode,
             ops[..opsLength], events[..eventsLength], props[..propsLength],
             captureFormats[..captureFormatsLength], playbackFormats[..playbackFormatsLength],
             Text(manufacturer[..]), Text(model[..]), Text(deviceVersion[..]), Text(serialNumber[..]))
    }

    /** What Parse leaves behind after a device's own encoding of v: v, with its strings sanitised. */
    lemma Recovers(d: seq<byte>, v: Device)
      requires Valid() && Fits(v) && At(d, 0, EncodeDevice(v))
      requires HeadParsed(d) && ListsParsed(d, ListsAt(d)) && NamesParsed(d, NthArray(d, ListsAt(d), 5))
      ensures LengthsFit() && Value() == SanitisedDevice(v)
    {
      hide Text, Sanitised, NthArray, HoldsCodes, HoldsString, EncodeHead, EncodeNames, EncodeLists, EncodeString,
        EncodeArray, NoNul, At, ReadU16, ReadU32;
      DeviceParts(d, v);
      HeadBack(d, v);
      StringBack(extensions[..], d, 8, v.extensions);
      var at := ListsAt(d);
      var l := CodeLists(v);
      ListsFit(v);
      ListsBack(d, at, l, 0);
      ListsBack(d, at, l, 1);
      ListsBack(d, at, l, 2);
      ListsBack(d, at, l, 3);
      ListsBack(d, at, l, 4);
      CodesBack(ops, opsLength, d, NthArray(d, at, 0), l[0]);
      CodesBack(events, eventsLength, d, NthArray(d, at, 1), l[1]);
      CodesBack(props, propsLength, d, NthArray(d, at, 2), l[2]);
      CodesBack(captureFormats, captureFormatsLength, d, NthArray(d, at, 3), l[3]);
      CodesBack(playbackFormats, playbackFormatsLength, d, NthArray(d, at, 4), l[4]);
      at := NthArray(d, at, 5);
      NamesBack(d, at, v);
      StringBack(manufacturer[..], d, at, v.manufacturer);
      StringBack(model[..], d, ModelAt(d, at), v.model);
      StringBack(deviceVersion[..], d, DeviceVersionAt(d, at), v.deviceVersion);
      StringBack(serialNumber[..], d, SerialNumberAt(d, at), v.serialNumber);
    }
  }

  lemma StringBack(f: seq<byte>, d: seq<byte>, at: nat, s: seq<byte>)
    requires HoldsString(f, d, at) && At(d, at, EncodeString(s)) && NoNul(s) && |s| <= |f| - 2 <= 254
    ensures Text(f) == Sanitised(s)
  {
    hide EncodeString, Text, Sanitised, ReadField, NoNul, At, StringReadable;
    var before: seq<byte> :| |before| == |f| && f == ReadField(d, at, before);
    ReadsBack(d, at, s, before);
  }

  lemma CodesBack(buf: array<u16>, length: int, d: seq<byte>, at: nat, cs: seq<u16>)
    requires HoldsCodes(buf, length, d, at) && |cs| <= 512 && At(d, at, EncodeArray(cs))
    ensures 0 <= length <= buf.Length && buf[..length] == cs
  {
    hide EncodeArray, At, ReadU16, ReadU32;
    ArrayReadsBack(d, at, |d|, cs, 512);
  }

  lemma DeviceParts(d: seq<byte>, v: Device)
    requires Fits(v) && At(d, 0, EncodeDevice(v))
    ensures At(d, 0, EncodeHead(v)) && At(d, |EncodeHead(v)|, EncodeLists(CodeLists(v)))
    ensures At(d, |EncodeHead(v)| + |EncodeLists(CodeLists(v))|, EncodeNames(v))
  {
    hide EncodeHead, EncodeLists, EncodeNames;
    AtConcat(d, 0, EncodeHead(v) + EncodeLists(CodeLists(v)), EncodeNames(v));
    AtConcat(d, 0, EncodeHead(v), EncodeLists(CodeLists(v)));
  }

  /** The sizes of the fields: codes in the arrays, bytes in the strings. */
  lemma FieldSizes(v: Device)
    ensures NAME == 128 && VERSION == 64 && CAPS == [256, 256, 512, 32, 32]
    ensures Fits(v) ==>
              && |v.ops| <= 256 && |v.events| <= 256 && |v.props| <= 512 && |v.captureFormats| <= 32
              && |v.playbackFormats| <= 32 && |v.extensions| <= 126 && |v.deviceVersion| <= 62
  {
    hide NoNul;
    assert CodeLists(v) == [v.ops, v.events, v.props, v.captureFormats, v.playbackFormats];
    if Fits(v) {
      assert |CodeLists(v)[0]| <= CAPS[0] && |CodeLists(v)[1]| <= CAPS[1] && |CodeLists(v)[2]| <= CAPS[2];
      assert |CodeLists(v)[3]| <= CAPS[3] && |CodeLists(v)[4]| <= CAPS[4];
    }
  }

  /** The dataset, field by field. */
  lemma DeviceLaidOut(v: Device)
    requires Fits(v)
    ensures |v.ops| <= 256 && |v.events| <= 256 && |v.props| <= 512 && |v.captureFormats| <= 32
    ensures |v.playbackFormats| <= 32
    ensures EncodeDevice(v)
            == (U16(v.standardVersion) + U32(v.vendorExtId) + U16(v.version) + EncodeString(v.extensions)
                + U16(v.functionalMode))
               + (EncodeArray(v.ops) + EncodeArray(v.events) + EncodeArray(v.props) + EncodeArray(v.captureFormats)
                  + EncodeArray(v.playbackFormats))
               + (EncodeString(v.manufacturer) + EncodeString(v.model) + EncodeString(v.deviceVersion)
                  + EncodeString(v.serialNumber))
  {
    hide U16, U32, EncodeString, EncodeArray, NoNul;
    FieldSizes(v);
    var l := CodeLists(v);
    assert l[..4][..3] == l[..3] && l[..3][..2] == l[..2] && l[..2][..1] == l[..1] && l[..1][..0] == l[..0];
    assert EncodeLists(l[..1]) == EncodeArray(v.ops);
    assert EncodeLists(l[..2]) == EncodeLists(l[..1]) + EncodeArray(v.events);
    assert EncodeLists(l[..3]) == EncodeLists(l[..2]) + EncodeArray(v.props);
    assert EncodeLists(l[..4]) == EncodeLists(l[..3]) + EncodeArray(v.captureFormats);
  }

  lemma HeadBack(d: seq<byte>, v: Device)
    requires At(d, 0, EncodeHead(v)) && |v.extensions| <= NAME - 2
    ensures HeadReadable(d) && ListsAt(d) == |EncodeHead(v)| && At(d, 8, EncodeString(v.extensions))
    ensures ReadU16(d, 0) == v.standardVersion && ReadU32(d, 2) == v.vendorExtId && ReadU16(d, 6) == v.version
    ensures ReadU16(d, ListsAt(d) - 2) == v.functionalMode
  {
    hide U16, U32, ReadU16, ReadU32, EncodeString, StringReadable, ReadLength;
    var e1 := U16(v.standardVersion);
    var e2 := e1 + U32(v.vendorExtId);
    var e3 := e2 + U16(v.version);
    var e4 := e3 + EncodeString(v.extensions);
    AtConcat(d, 0, e4, U16(v.functionalMode));
    AtConcat(d, 0, e3, EncodeString(v.extensions));
    AtConcat(d, 0, e2, U16(v.version));
    AtConcat(d, 0, e1, U32(v.vendorExtId));
    ReadBackU16(d, 0, v.standardVersion);
    ReadBackU32(d, 2, v.vendorExtId);
    ReadBackU16(d, 6, v.version);
    ReadBackU16(d, |e4|, v.functionalMode);
    CursorsAgree(d, 8, v.extensions, NAME);
  }

  /** Array k of consecutive encoded arrays is where the reader looks for it. */
  lemma {:induction false} ListsBack(d: seq<byte>, at: nat, l: seq<seq<u16>>, k: nat)
    requires (forall i :: 0 <= i < |l| ==> |l[i]| < 0x2000_0000) && At(d, at, EncodeLists(l)) && k < |l|
    ensures At(d, NthArray(d, at, k), EncodeArray(l[k]))
    ensures NthArray(d, at, 0) == at && NthArray(d, at, |l|) == at + |EncodeLists(l)|
  {
    hide EncodeArray, At;
    var n := |l| - 1;
    AtConcat(d, at, EncodeLists(l[..n]), EncodeArray(l[n]));
    if n == 0 {
      assert NthArray(d, at, 0) == at;
    } else {
      ListsBack(d, at, l[..n], if k < n then k else 0);
    }
    var p := at + |EncodeLists(l[..n])|;
    assert NthArray(d, at, n) == p;
    ArrayReadsBack(d, p, |d|, l[n], |l[n]|);
  }

  lemma NamesBack(d: seq<byte>, at: nat, v: Device)
    requires Fits(v) && At(d, at, EncodeNames(v))
    ensures NamesReadable(d, at) && At(d, at, EncodeString(v.manufacturer))
            && At(d, ModelAt(d, at), EncodeString(v.model))
    ensures At(d, DeviceVersionAt(d, at), EncodeString(v.deviceVersion))
            && At(d, SerialNumberAt(d, at), EncodeString(v.serialNumber))
  {
    hide EncodeString, StringReadable, ReadLength, At, NoNul;
    var e1 := EncodeString(v.manufacturer);
    var e2 := e1 + EncodeString(v.model);
    var e3 := e2 + EncodeString(v.deviceVersion);
    AtConcat(d, at, e3, EncodeString(v.serialNumber));
    AtConcat(d, at, e2, EncodeString(v.deviceVersion));
    AtConcat(d, at, e1, EncodeString(v.model));
    CursorsAgree(d, at, v.manufacturer, NAME);
    CursorsAgree(d, ModelAt(d, at), v.model, NAME);
    CursorsAgree(d, DeviceVersionAt(d, at), v.deviceVersion, VERSION);
    CursorsAgree(d, SerialNumberAt(d, at), v.serialNumber, NAME);
  }

  lemma ListsFit(v: Device)
    requires Fits(v)
    ensures forall k :: 0 <= k < |CodeLists(v)| ==> |CodeLists(v)[k]| <= CAPS[k] <= 512
  {
    hide NoNul;
  }

  lemma ListReadable(d: seq<byte>, at: nat, be: nat, l: seq<seq<u16>>, k: nat)
    requires |l| == 5 && k < 5 && |l[k]| <= CAPS[k] && (forall i :: 0 <= i < |l| ==> |l[i]| < 0x2000_0000)
    requires At(d, at, EncodeLists(l)) && |d| <= be
    ensures !PanicsAt(d, at, be, k) && ArrayReadable(d, NthArray(d, at, k), CAPS[k])
  {
    hide EncodeLists, EncodeArray, At, NthArray, ArrayPanics, ArrayReadable, ReadU32;
    ListsBack(d, at, l, k);
    ArrayReadsBack(d, NthArray(d, at, k), be, l[k], CAPS[k]);
  }

  /** A device's own encoding of a DeviceInfo that fits is readable and raises no panic. */
  lemma EncodedIsReadable(d: seq<byte>, be: nat, v: Device)
    requires Fits(v) && At(d, 0, EncodeDevice(v)) && |d| <= be
    ensures DeviceReadable(d, be) && !Panics(d, ListsAt(d), be)
  {
    hide EncodeHead, EncodeLists, EncodeNames, EncodeString, At, NthArray, NoNul, NamesReadable, PanicsAt,
      ArrayReadable, StringReadable, ReadLength, ListsAt, ReadU16, ReadU32;
    DeviceParts(d, v);
    HeadBack(d, v);
    ListsFit(v);
    var at, l := ListsAt(d), CodeLists(v);
    forall k | 0 <= k < 5 ensures !PanicsAt(d, at, be, k) && ArrayReadable(d, NthArray(d, at, k), CAPS[k]) {
      ListReadable(d, at, be, l, k);
    }
    ListsBack(d, at, l, 0);
    NamesBack(d, NthArray(d, at, 5), v);
  }
}
