/** The Canon EOS event stream (src/data.c): records of a size, a type and a body, counted in one pass and
    decoded in another. */
module EosEvents {
  import opened Bytes
  import opened Packets
  import opened AvailList
  import PropDesc = PropDescData

  const OBJECT_ADDED_EX: u32 := 0xC181
  const REQUEST_OBJECT_TRANSFER: u32 := 0xC186
  const PROP_VALUE_CHANGED: u32 := 0xC189
  const AVAIL_LIST_CHANGED: u32 := 0xC18A
  const INFO_CHECK_COMPLETE: u32 := 0xC1A4
  const FOCUS_INFO_EX: u32 := 0xD1D3

  const APERTURE: u32 := 0xD101
  const SHUTTER_SPEED: u32 := 0xD102
  const ISO_SPEED: u32 := 0xD103
  const FOCUS_MODE: u32 := 0xD108
  const WHITE_BALANCE: u32 := 0xD109
  const BATTERY_POWER: u32 := 0xD111
  const IMAGE_FORMAT: u32 := 0xD120
  const AE_MODE_DIAL: u32 := 0xD138
  const VF_OUTPUT: u32 := 0xD1B0
  const IMG_FORMAT_RAW_JPEG := 4

  // ---- records ----

  /** The records from offset of can be walked: each has its size and type in the payload and gets the reader
      on, without wrap-around, until a record of type 0 or the end of the payload.  A record may be shorter
      than these eight bytes, and the last one may reach beyond the payload. */
  predicate Records(p: seq<byte>, of: nat)
    decreases |p| - of
  {
    of >= |p| || (of + 8 <= |p|
      && (Kind(p, of) == 0 || (0 < Size(p, of) < U32_MOD - of && Records(p, of + Size(p, of)))))
  }

  function Size(p: seq<byte>, of: nat): u32
    requires of + 8 <= |p|
  {
    ReadU32(p, of)
  }

  function Kind(p: seq<byte>, of: nat): u32
    requires of + 8 <= |p|
  {
    ReadU32(p, of + 4)
  }

  /** The number of records before the end. */
  function RecordCount(p: seq<byte>, of: nat): nat
    requires Records(p, of)
    decreases |p| - of
  {
    if of >= |p| || Kind(p, of) == 0 then 0 else 1 + RecordCount(p, of + Size(p, of))
  }

  /** Where record k begins: the sum of the sizes before it. */
  function Nth(p: seq<byte>, k: nat): (of: nat)
    requires Records(p, 0) && k <= RecordCount(p, 0)
    ensures Records(p, of) && RecordCount(p, of) == RecordCount(p, 0) - k
  {
    if k == 0 then 0 else
      var of := Nth(p, k - 1);
      of + Size(p, of)
  }

  /** ptp_eos_events_length */
  method EventsLength(p: seq<byte>) returns (length: nat)
    requires Records(p, 0)
    ensures length == RecordCount(p, 0)
  {
    hide ReadU32;
    var of := 0;
    length := 0;
    while true
      invariant Records(p, of) && length + RecordCount(p, of) == RecordCount(p, 0)
      decreases |p| - of
    {
      if of >= |p| { break; }
      var size, kind := ReadU32(p, of), ReadU32(p, of + 4);
      if kind == 0 { break; }
      of := of + size;
      length := length + 1;
    }
  }

  // ---- what a record says ----

  /** The tables of src/enums.c, without a name for a code they do not list, and of src/conv.c, with None for
      a value they do not list. */
  datatype Tables = Tables(enumName: u32 -> Option<string>, aperture: int -> Option<int>, shutter: int -> Option<int>,
                           iso: int -> Option<int>, whiteBalance: int -> Option<int>,
                           imageFormat: seq<u32> -> Option<int>)

  /** What ptp_get_enum_all returns for a code without a name. */
  const ENUM_NULL := "(null)"

  /** struct PtpGenericEvent */
  datatype Event = Event(code: u16, name: Option<string>, value: int, text: Option<string>)

  const NO_EVENT := Event(0, None, 0, None)

  /** The bytes that the decoder reads for a record are in the payload; a list of values has its header and
      lies in the payload. */
  predicate BodyReadable(p: seq<byte>, of: nat)
    requires of + 8 <= |p|
  {
    var kind := Kind(p, of);
    && (kind == PROP_VALUE_CHANGED ==> of + 16 <= |p| && (ReadU32(p, of + 8) == IMAGE_FORMAT ==> of + 32 <= |p|))
    && (kind == REQUEST_OBJECT_TRANSFER ==> of + 16 <= |p|)
    && (kind == OBJECT_ADDED_EX ==> of + 12 <= |p|)
    && (kind == AVAIL_LIST_CHANGED ==> Size(p, of) >= 20 && of + Size(p, of) <= |p|)
  }

  /** Every record before the end can be decoded. */
  predicate Decodable(p: seq<byte>)
    requires Records(p, 0)
  {
    forall k :: 0 <= k < RecordCount(p, 0) ==> Nth(p, k) + 8 <= |p| && BodyReadable(p, Nth(p, k))
  }

  /** The property words of a PropValueChanged record. */
  function Words(p: seq<byte>, of: nat): (words: seq<u32>)
    ensures words != []
    requires of + 16 <= |p| && (ReadU32(p, of + 8) == IMAGE_FORMAT ==> of + 32 <= |p|)
  {
    if ReadU32(p, of + 8) == IMAGE_FORMAT then ReadParams(p, of + 12, 5) else [ReadU32(p, of + 12)]
  }

  /** A property whose value a table converts is named after the property, unless the value is not listed:
      then the value stays as it is, and the name is that of the code. */
  function Converted(t: Tables, code: u32, value: int, conversion: Option<int>, name: string): Event {
    match conversion
    case Some(v) => Event(code % 0x1_0000, Some(name), v, None)
    case None => Event(code % 0x1_0000, t.enumName(code), value, None)
  }

  /** What a property change with these words is reported as. */
  function PropertyEvent(t: Tables, code: u32, words: seq<u32>): Event
    requires words != []
  {
    var value := ToInt(words[0]);
    var plain := Event(code % 0x1_0000, t.enumName(code), value, None);
    if code == APERTURE then Converted(t, code, value, t.aperture(value), "aperture")
    else if code == SHUTTER_SPEED then Converted(t, code, value, t.shutter(value), "shutter speed")
    else if code == ISO_SPEED then Converted(t, code, value, t.iso(value), "iso")
    else if code == WHITE_BALANCE then Converted(t, code, value, t.whiteBalance(value), "white balance")
    else if code == IMAGE_FORMAT then
      Converted(t, code, value, if value == 1 then t.imageFormat(words) else Some(IMG_FORMAT_RAW_JPEG), "image format")
    else if code == BATTERY_POWER then plain.(name := Some("battery"), value := if value == 2 then 4 else value + 1)
    else if code == VF_OUTPUT then plain.(name := Some("mirror"), text := Some(if value == 0 then "finder" else "open"))
    else if code == AE_MODE_DIAL then plain.(name := Some("mode dial"))
    else if code == FOCUS_MODE then plain.(name := Some("focus mode"), text := Some(if value == 3 then "MF" else "AF"))
    else if code == FOCUS_INFO_EX then plain.(name := Some("focused"))
    else plain
  }

  /** e reports a change to a value that a table converts, or does not list. */
  predicate ReportsConverted(e: Event, t: Tables, code: u32, value: int, conversion: Option<int>, name: string) {
    && e.code == code % 0x1_0000 && e.text == None
    && (conversion.Some? ==> e.name == Some(name) && e.value == conversion.value)
    && (conversion.None? ==> e.name == t.enumName(code) && e.value == value)
  }

  /** What is reported of each property, by its code; the value is the first word, as a signed number. */
  lemma PropertyLaws(t: Tables, code: u32, words: seq<u32>)
    requires words != []
    ensures var e := PropertyEvent(t, code, words);
            var v: int := if words[0] < 0x8000_0000 then words[0] as int else words[0] as int - 0x1_0000_0000;
            && e.code == code % 0x1_0000
            && (code == 0xD101 ==> ReportsConverted(e, t, code, v, t.aperture(v), "aperture"))
            && (code == 0xD102 ==> ReportsConverted(e, t, code, v, t.shutter(v), "shutter speed"))
            && (code == 0xD103 ==> ReportsConverted(e, t, code, v, t.iso(v), "iso"))
            && (code == 0xD109 ==> ReportsConverted(e, t, code, v, t.whiteBalance(v), "white balance"))
            && (code == 0xD120 && v == 1 ==> ReportsConverted(e, t, code, v, t.imageFormat(words), "image format"))
            && (code == 0xD120 && v != 1 ==> e.name == Some("image format") && e.value == 4 && e.text == None)
            && (code == 0xD111 ==>
                 e.name == Some("battery") && e.value == (if v + 1 == 3 then 4 else v + 1) && e.text == None)
            && (code == 0xD1B0 && v == 0 ==> e.name == Some("mirror") && e.value == v && e.text == Some("finder"))
            && (code == 0xD1B0 && v != 0 ==> e.name == Some("mirror") && e.value == v && e.text == Some("open"))
            && (code == 0xD138 ==> e.name == Some("mode dial") && e.value == v && e.text == None)
            && (code == 0xD108 && v == 3 ==> e.name == Some("focus mode") && e.value == v && e.text == Some("MF"))
            && (code == 0xD108 && v != 3 ==> e.name == Some("focus mode") && e.value == v && e.text == Some("AF"))
            && (code == 0xD1D3 ==> e.name == Some("focused") && e.value == v && e.text == None)
            && (code !in {0xD101, 0xD102, 0xD103, 0xD108, 0xD109, 0xD111, 0xD120, 0xD138, 0xD1B0, 0xD1D3} ==>
                 e.name == t.enumName(code) && e.value == v && e.text == None)
  {
  }

  /** The name of a notice, which unlike a property's is never missing. */
  function NoticeName(t: Tables, kind: u32): string {
    match t.enumName(kind) case Some(name) => name case None => ENUM_NULL
  }

  function EventAt(t: Tables, p: seq<byte>, of: nat): Event
    requires of + 8 <= |p| && BodyReadable(p, of)
  {
    var kind := Kind(p, of);
    if kind == PROP_VALUE_CHANGED then
      PropertyEvent(t, ReadU32(p, of + 8), Words(p, of))
    else if kind == INFO_CHECK_COMPLETE || kind == FOCUS_INFO_EX then NO_EVENT.(name := Some(NoticeName(t, kind)))
    else if kind == REQUEST_OBJECT_TRANSFER then
      Event(ReadU32(p, of + 8) % 0x1_0000, Some("request object transfer"), ToInt(ReadU32(p, of + 12)), None)
    else if kind == OBJECT_ADDED_EX then NO_EVENT.(name := Some("new object"), value := ToInt(ReadU32(p, of + 8)))
    else NO_EVENT
  }

  /** What is reported of a record, by its type and the words at their offsets. */
  lemma RecordLaws(t: Tables, p: seq<byte>, of: nat)
    requires of + 8 <= |p| && BodyReadable(p, of)
    ensures var kind, e := ReadU32(p, of + 4), EventAt(t, p, of);
            && (kind == 0xC189 ==>
                 && of + 16 <= |p| && (ReadU32(p, of + 8) == 0xD120 ==> of + 32 <= |p|)
                 && e == PropertyEvent(t, ReadU32(p, of + 8),
                           if ReadU32(p, of + 8) == 0xD120 then
                             [ReadU32(p, of + 12), ReadU32(p, of + 16), ReadU32(p, of + 20), ReadU32(p, of + 24),
                              ReadU32(p, of + 28)]
                           else [ReadU32(p, of + 12)]))
            && (kind == 0xC1A4 || kind == 0xD1D3 ==>
                 && e.name == Some(match t.enumName(kind) case Some(name) => name case None => "(null)")
                 && e.code == 0 && e.value == 0 && e.text == None)
            && (kind == 0xC186 ==>
                 && of + 16 <= |p| && var w := ReadU32(p, of + 12);
                 && e.name == Some("request object transfer") && e.code == ReadU32(p, of + 8) % 0x1_0000
                 && e.value == (if w < 0x8000_0000 then w as int else w - 0x1_0000_0000) && e.text == None)
            && (kind == 0xC181 ==>
                 && of + 12 <= |p| && var w := ReadU32(p, of + 8);
                 && e.name == Some("new object") && e.code == 0
                 && e.value == (if w < 0x8000_0000 then w as int else w - 0x1_0000_0000) && e.text == None)
            && (kind !in {0xC189, 0xC1A4, 0xD1D3, 0xC186, 0xC181} ==> e == Event(0, None, 0, None))
  {
    hide ReadU32, PropertyEvent;
    if ReadU32(p, of + 4) == 0xC189 {
      assert ReadU32(p, of + 8) == 0xD120 ==>
          Words(p, of) == [ReadU32(p, of + 12), ReadU32(p, of + 16), ReadU32(p, of + 20), ReadU32(p, of + 24),
            ReadU32(p, of + 28)];
    }
  }

  /** The list of values that a record announces. */
  function Announced(p: seq<byte>, of: nat): (a: Option<Announcement>)
    requires of + 8 <= |p| && BodyReadable(p, of)
    ensures a.Some? ==> |a.value.data| == a.value.membSize * a.value.cnt <= Size(p, of) - 20
  {
    if Kind(p, of) != AVAIL_LIST_CHANGED then None
    else ListAt(p, of + 20, Size(p, of) - 20, ToInt(ReadU32(p, of + 8)), ReadU32(p, of + 16))
  }

  /** The list of count values in the size bytes at offset of. */
  function ListAt(p: seq<byte>, of: nat, size: u32, code: int, count: u32): (a: Option<Announcement>)
    requires of + size <= |p|
    ensures a.Some? ==> |a.value.data| == a.value.membSize * a.value.cnt <= size
  {
    if size == 0 || count == 0 then None
    else Some(Announcement(code, size / count, count, Copied(p, of, size, count)))
  }

  /** Which list that is: the code and the count are the first and the third word, the size of a value what each
      gets of the bytes behind them. */
  lemma ListLaws(p: seq<byte>, of: nat)
    requires of + 8 <= |p| && BodyReadable(p, of)
    ensures ReadU32(p, of + 4) != 0xC18A ==> Announced(p, of) == None
    ensures ReadU32(p, of + 4) == 0xC18A ==>
              && of + 20 <= |p|
              && var code, count, room := ReadU32(p, of + 8), ReadU32(p, of + 16), ReadU32(p, of) - 20;
              if count == 0 || room == 0 then Announced(p, of) == None
              else
                && Announced(p, of).Some? && var a := Announced(p, of).value;
                && a.code == (if code < 0x8000_0000 then code as int else code - 0x1_0000_0000)
                && a.cnt == count && a.membSize == room / count && of + 20 + |a.data| <= |p|
                && a.data == p[of + 20..of + 20 + |a.data|] && |a.data| == a.membSize * count
  {
    hide ReadU32;
  }

  /** As many bytes as count values of equal size take up of the size bytes at offset of. */
  function Copied(p: seq<byte>, of: nat, size: nat, count: nat): (data: seq<byte>)
    requires count > 0 && of + size <= |p|
    ensures |data| == size / count * count <= size
  {
    CopiedInside(size, count);
    p[of..of + size / count * count]
  }

  /** The values copied stay inside the record. */
  lemma CopiedInside(size: nat, count: nat)
    requires count > 0
    ensures 0 <= size / count * count <= size
  {
  }

  // ---- the stream as a whole ----

  /** A payload the reader can be pointed at. */
  predicate Stream(p: seq<byte>) {
    Records(p, 0) && Decodable(p)
  }

  function Record(p: seq<byte>, k: nat): Option<Announcement>
    requires Stream(p) && k < RecordCount(p, 0)
  {
    assert Nth(p, k) + 8 <= |p| && BodyReadable(p, Nth(p, k));
    assert RecordCount(p, Nth(p, k)) > 0;
    Announced(p, Nth(p, k))
  }

  /** The lists announced by the first k records can be stored without leaving their buffers. */
  predicate Storable(m: map<int, Entry>, p: seq<byte>, k: nat)
    requires Stream(p) && k <= RecordCount(p, 0)
    decreases k, 0
  {
    k > 0 ==>
      && Storable(m, p, k - 1)
      && (Record(p, k - 1).Some? ==>
         WellFormed(Record(p, k - 1).value) && Safe(ListAfter(m, p, k - 1), Record(p, k - 1).value))
  }

  /** The list of property values after the first k records. */
  function ListAfter(m: map<int, Entry>, p: seq<byte>, k: nat): map<int, Entry>
    requires Stream(p) && k <= RecordCount(p, 0) && Storable(m, p, k)
    decreases k, 1
  {
    if k == 0 then m else
      var before := ListAfter(m, p, k - 1);
      match Record(p, k - 1)
      case None => before
      case Some(a) => Announce(before, a)
  }

  /** The announcements among the first k records, in order. */
  function History(p: seq<byte>, k: nat): seq<Announcement>
    requires Stream(p) && k <= RecordCount(p, 0)
  {
    if k == 0 then [] else History(p, k - 1) + (if Record(p, k - 1).Some? then [Record(p, k - 1).value] else [])
  }

  /** Reading events into an empty list leaves the list that their announcements describe, so what
      RefinesMap says of histories holds of event streams. */
  lemma {:induction false} ListIsItsHistory(p: seq<byte>, k: nat)
    requires Stream(p) && k <= RecordCount(p, 0) && Steady(History(p, k))
    ensures Storable(map[], p, k) && ListAfter(map[], p, k) == AnnounceAll(History(p, k))
  {
    hide Record, WellFormed, Announce, Safe, Records, Decodable;
    if k > 0 {
      var h := History(p, k);
      if Record(p, k - 1).Some? {
        assert h[..|h| - 1] == History(p, k - 1) && h[|h| - 1] == Record(p, k - 1).value;
        SteadyPrefix(h);
        ListIsItsHistory(p, k - 1);
        StepOfAll(h);
      } else {
        assert h == History(p, k - 1);
        ListIsItsHistory(p, k - 1);
      }
    }
  }

  lemma SteadyPrefix(h: seq<Announcement>)
    requires Steady(h) && h != []
    ensures Steady(h[..|h| - 1]) && WellFormed(h[|h| - 1])
  {
    hide WellFormed;
  }

  lemma StepOfAll(h: seq<Announcement>)
    requires Steady(h) && h != []
    ensures Steady(h[..|h| - 1]) && Safe(AnnounceAll(h[..|h| - 1]), h[|h| - 1])
    ensures AnnounceAll(h) == Announce(AnnounceAll(h[..|h| - 1]), h[|h| - 1])
  {
    SteadyPrefix(h);
    SteadyIsSafe(h, AnnounceAll(h[..|h| - 1]));
  }

  // ---- struct PtpEventReader ----

  class EventReader {
    var dataOf: nat
    var nEntries: nat
    var index: nat

    ghost predicate Valid(p: seq<byte>)
      reads this
    {
      Stream(p) && nEntries == RecordCount(p, 0) && index <= nEntries && dataOf == Nth(p, index)
    }

    /** ptp_eos_events_open */
    constructor (p: seq<byte>)
      requires Stream(p)
      ensures Valid(p) && index == 0
    {
      var n := EventsLength(p);
      dataOf, nEntries, index := 0, n, 0;
    }

    /** The list is as the records read so far leave it, and can take in the rest. */
    ghost predicate Tracking(p: seq<byte>, avail: PropAvail, list: map<int, Entry>)
      requires Valid(p)
      reads this, avail
    {
      Storable(list, p, nEntries) && Storable(list, p, index) && avail.contents == ListAfter(list, p, index)
    }

    /** ptp_eos_events_next: the next event, or -1 once as many were read as were counted. dataLength is
        the size of the whole buffer, which the payload lies in. */
    method Next(t: Tables, p: seq<byte>, dataLength: nat, avail: PropAvail, ghost list: map<int, Entry>)
      returns (rc: int, event: Event)
      requires Valid(p) && |p| < dataLength && avail.Valid() && Tracking(p, avail, list)
      modifies this, avail, avail.repr
      ensures Valid(p) && avail.Valid() && fresh(avail.repr - old(avail.repr)) && nEntries == old(nEntries)
      ensures if old(index) == nEntries then rc == -1 && index == nEntries
              else rc == 0 && index == old(index) + 1 && event == EventAt(t, p, old(dataOf))
      ensures Tracking(p, avail, list)
    {
      hide ReadU32, Announced, EventAt, Announce;
      event := NO_EVENT;
      if index >= nEntries { return -1, event; }
      assert dataOf < dataLength;
      NextRecord(list, p, index, nEntries);
      var size, kind := ReadU32(p, dataOf), ReadU32(p, dataOf + 4);
      if kind == 0 { return -1, event; }
      event := Decode(t, p, dataOf, avail);
      dataOf := dataOf + size;
      index := index + 1;
      rc := 0;
    }
  }

  /** ptp_eos_prop_next, on the property at offset of. */
  method PropNext(t: Tables, p: seq<byte>, of: nat) returns (event: Event)
    requires of >= 8 && of + 8 <= |p| && (ReadU32(p, of) == IMAGE_FORMAT ==> of + 24 <= |p|)
    ensures event == PropertyEvent(t, ReadU32(p, of), Words(p, of - 8))
  {
    hide ReadU32, ToInt;
    var code, word := ReadU32(p, of), ReadU32(p, of + 4);
    var value := ToInt(word);
    var name, text := t.enumName(code), None;
    if code == APERTURE {
      var v := t.aperture(value);
      if v.Some? { value, name := v.value, Some("aperture"); }
    } else if code == SHUTTER_SPEED {
      var v := t.shutter(value);
      if v.Some? { value, name := v.value, Some("shutter speed"); }
    } else if code == ISO_SPEED {
      var v := t.iso(value);
      if v.Some? { value, name := v.value, Some("iso"); }
    } else if code == BATTERY_POWER {
      value := value + 1;
      if value == 3 { value := 4; }
      name := Some("battery");
    } else if code == IMAGE_FORMAT {
      var v := Some(IMG_FORMAT_RAW_JPEG);
      if value == 1 {
        var data := [word, ReadU32(p, of + 8), ReadU32(p, of + 12), ReadU32(p, of + 16), ReadU32(p, of + 20)];
        assert data == Words(p, of - 8);
        v := t.imageFormat(data);
      }
      if v.Some? { value, name := v.value, Some("image format"); }
    } else if code == VF_OUTPUT {
      name, text := Some("mirror"), Some(if value == 0 then "finder" else "open");
    } else if code == AE_MODE_DIAL {
      name := Some("mode dial");
    } else if code == FOCUS_MODE {
      name, text := Some("focus mode"), Some(if value == 3 then "MF" else "AF");
    } else if code == WHITE_BALANCE {
      var v := t.whiteBalance(value);
      if v.Some? { value, name := v.value, Some("white balance"); }
    } else if code == FOCUS_INFO_EX {
      name := Some("focused");
    }
    event := Event(code % 0x1_0000, name, value, text);
  }

  /** The switch of ptp_eos_events_next over the type of the record at offset start. */
  method Decode(t: Tables, p: seq<byte>, start: nat, avail: PropAvail) returns (event: Event)
    requires start + 8 <= |p| && BodyReadable(p, start) && avail.Valid()
    requires Announced(p, start).Some? ==>
             WellFormed(Announced(p, start).value) && Safe(avail.contents, Announced(p, start).value)
    modifies avail, avail.repr
    ensures avail.Valid() && fresh(avail.repr - old(avail.repr)) && event == EventAt(t, p, start)
    ensures avail.contents == match Announced(p, start)
                              case None => old(avail.contents)
                              case Some(a) => Announce(old(avail.contents), a)
  {
    hide ReadU32, ToInt, Safe, WellFormed, Announce, PropertyEvent;
    var size, kind := ReadU32(p, start), ReadU32(p, start + 4);
    var of := start + 8;
    event := NO_EVENT;
    if kind == PROP_VALUE_CHANGED {
      event := PropNext(t, p, of);
    } else if kind == INFO_CHECK_COMPLETE || kind == FOCUS_INFO_EX {
      event := event.(name := Some(NoticeName(t, kind)));
    } else if kind == REQUEST_OBJECT_TRANSFER {
      var a, b := ReadU32(p, of), ReadU32(p, of + 4);
      event := Event(a % 0x1_0000, Some("request object transfer"), ToInt(b), None);
    } else if kind == OBJECT_ADDED_EX {
      var handle := ReadU32(p, of);
      event := event.(name := Some("new object"), value := ToInt(handle));
    } else if kind == AVAIL_LIST_CHANGED {
      var code, count := ReadU32(p, of), ReadU32(p, of + 8);
      of := of + 12;
      var payloadSize := size - 20;
      if payloadSize != 0 && count != 0 {
        var membSize := payloadSize / count;
        CopiedInside(payloadSize, count);
        avail.Set(Announcement(ToInt(code), membSize, count, p[of..of + membSize * count]));
      }
    }
  }

  lemma StorablePrefix(m: map<int, Entry>, p: seq<byte>, k: nat, n: nat)
    requires Stream(p) && k <= n <= RecordCount(p, 0) && Storable(m, p, n)
    ensures Storable(m, p, k)
    decreases n - k
  {
    hide Record, Records;
    if k < n {
      StorablePrefix(m, p, k + 1, n);
    }
  }

  /** What the reader relies on at record k. */
  lemma NextRecord(m: map<int, Entry>, p: seq<byte>, k: nat, n: nat)
    requires Stream(p) && k < n == RecordCount(p, 0) && Storable(m, p, n)
    ensures Storable(m, p, k) && Storable(m, p, k + 1)
    ensures var of := Nth(p, k);
            && of + 8 <= |p| && Kind(p, of) != 0 && BodyReadable(p, of) && Nth(p, k + 1) == of + Size(p, of)
            && (Announced(p, of).Some? ==>
               WellFormed(Announced(p, of).value) && Safe(ListAfter(m, p, k), Announced(p, of).value))
            && ListAfter(m, p, k + 1) == match Announced(p, of)
                                         case None => ListAfter(m, p, k)
                                         case Some(a) => Announce(ListAfter(m, p, k), a)
  {
    hide Announced, Announce, WellFormed, Safe, BodyReadable, ReadU32;
    StorablePrefix(m, p, k + 1, n);
    assert Nth(p, k) + 8 <= |p| && BodyReadable(p, Nth(p, k));
    assert RecordCount(p, Nth(p, k)) > 0;
  }

  // ---- whole runs of the reader ----

  /** The events of the stream, in order. */
  ghost predicate AreEvents(t: Tables, p: seq<byte>, events: seq<Event>, n: nat)
    requires Stream(p) && n <= RecordCount(p, 0)
  {
    |events| == n && forall k :: 0 <= k < n ==>
      Nth(p, k) + 8 <= |p| && BodyReadable(p, Nth(p, k)) && events[k] == EventAt(t, p, Nth(p, k))
  }

  /** ptp_eos_events: every record once, in order, and the list of values after the last. */
  method Events(t: Tables, p: seq<byte>, dataLength: nat, avail: PropAvail) returns (entries: array<Event>, n: nat)
    requires Stream(p) && |p| < dataLength && avail.Valid() && Storable(avail.contents, p, RecordCount(p, 0))
    modifies avail, avail.repr
    ensures avail.Valid() && n == entries.Length == RecordCount(p, 0) && AreEvents(t, p, entries[..], n)
    ensures avail.contents == ListAfter(old(avail.contents), p, n)
  {
    hide EventAt, Stream, Records, Storable, ListAfter, Nth, BodyReadable, RecordCount, Announced, Announce, ReadU32;
    ghost var list := avail.contents;
    var reader := new EventReader(p);
    entries := new Event[reader.nEntries](_ => NO_EVENT);
    StorablePrefix(list, p, 0, reader.nEntries);
    NothingRead(list, p);
    n := 0;
    while true
      invariant reader.Valid(p) && reader.index == n <= reader.nEntries == entries.Length && avail.Valid()
      invariant fresh(reader) && fresh(entries) && fresh(avail.repr - old(avail.repr))
      invariant reader.Tracking(p, avail, list) && AreEvents(t, p, entries[..n], n)
      decreases reader.nEntries - n
    {
      if n < reader.nEntries { NextRecord(list, p, n, reader.nEntries); }
      var rc, event := reader.Next(t, p, dataLength, avail, list);
      if rc != 0 { break; }
      entries[n] := event;
      n := n + 1;
    }
    assert entries[..n] == entries[..];
  }

  lemma NothingRead(m: map<int, Entry>, p: seq<byte>)
    requires Stream(p)
    ensures Storable(m, p, 0) && ListAfter(m, p, 0) == m && Nth(p, 0) == 0
  {
  }

  // ---- the JSON form ----

  /** What the JSON writer prints, beyond the text of one event. */
  datatype Token = OpenList | CloseList | Separator | Item(event: Event)

  function Joined(es: seq<Event>): seq<Token> {
    if |es| == 0 then [] else (if |es| == 1 then [] else Joined(es[..|es| - 1]) + [Separator]) + [Item(es[|es| - 1])]
  }

  /** Events and separators alternate: one event more than separators, none of which leads or trails. */
  lemma {:induction false} JoinedAlternates(es: seq<Event>)
    requires es != []
    ensures |Joined(es)| == 2 * |es| - 1
    ensures forall k :: 0 <= k < |Joined(es)| ==> Joined(es)[k] == if k % 2 == 0 then Item(es[k / 2]) else Separator
  {
    if |es| > 1 {
      var n := |es| - 1;
      JoinedAlternates(es[..n]);
      forall k | 0 <= k < |Joined(es)| ensures Joined(es)[k] == if k % 2 == 0 then Item(es[k / 2]) else Separator {
        if k < 2 * n - 1 {
          assert Joined(es)[k] == Joined(es[..n])[k];
        }
      }
    }
  }

  lemma NothingJoined()
    ensures Joined([]) == []
  {
  }

  lemma JoinedMore(es: seq<Event>, e: Event)
    ensures Joined(es + [e]) == Joined(es) + (if es == [] then [] else [Separator]) + [Item(e)]
  {
    assert (es + [e])[..|es|] == es;
  }

  /** ptp_eos_events_json */
  method EventsJson(t: Tables, p: seq<byte>, dataLength: nat, avail: PropAvail)
    returns (out: seq<Token>, ghost events: seq<Event>)
    requires Stream(p) && |p| < dataLength && avail.Valid() && Storable(avail.contents, p, RecordCount(p, 0))
    modifies avail, avail.repr
    ensures AreEvents(t, p, events, RecordCount(p, 0))
    ensures out == [OpenList] + Joined(events) + [CloseList]
    ensures avail.Valid() && avail.contents == ListAfter(old(avail.contents), p, RecordCount(p, 0))
  {
    hide EventAt, Stream, Records, Storable, ListAfter, Nth, BodyReadable, RecordCount, Joined;
    ghost var list := avail.contents;
    var reader := new EventReader(p);
    StorablePrefix(list, p, 0, reader.nEntries);
    NothingRead(list, p);
    NothingJoined();
    out, events := [OpenList], [];
    var i := 0;
    while true
      invariant reader.Valid(p) && reader.index == i <= reader.nEntries && avail.Valid()
      invariant fresh(reader) && fresh(avail.repr - old(avail.repr))
      invariant reader.Tracking(p, avail, list) && AreEvents(t, p, events, i)
      invariant out == [OpenList] + Joined(events) + (if 0 < i < reader.nEntries then [Separator] else [])
      decreases reader.nEntries - i
    {
      if i < reader.nEntries { NextRecord(list, p, i, reader.nEntries); }
      var rc, event := reader.Next(t, p, dataLength, avail, list);
      if rc != 0 { break; }
      var end := [Separator];
      if i >= reader.nEntries - 1 { end := []; }
      JoinedMore(events, event);
      events := events + [event];
      out := out + [Item(event)];
      out := out + end;
      i := i + 1;
    }
    out := out + [CloseList];
  }

  // ---- what a camera's own encoding of a stream is read as ----

  /** A record as a camera means it. */
  datatype Message =
    | Property(code: u32, words: seq<u32>)
    | Notice(kind: u32)
    | Transfer(code: u32, value: u32)
    | Added(handle: u32)
    | Values(code: u32, dataType: u32, membSize: u32, cnt: u32, values: seq<byte>)
    | Unknown(kind: u32, body: seq<byte>)

  predicate Legal(m: Message) {
    match m
    case Property(code, words) => |words| == if code == IMAGE_FORMAT then 5 else 1
    case Notice(kind) => kind == INFO_CHECK_COMPLETE || kind == FOCUS_INFO_EX
    case Transfer(_, _) => true
    case Added(_) => true
    case Values(_, _, membSize, cnt, values) => |values| == membSize * cnt < INT_MAX_PLUS_1 && |values| > 0
    case Unknown(kind, body) =>
      && kind !in {0, OBJECT_ADDED_EX, REQUEST_OBJECT_TRANSFER, PROP_VALUE_CHANGED, AVAIL_LIST_CHANGED,
         INFO_CHECK_COMPLETE, FOCUS_INFO_EX}
      && |body| < INT_MAX_PLUS_1
  }

  function KindOf(m: Message): u32 {
    match m
    case Property(_, _) => PROP_VALUE_CHANGED
    case Notice(kind) => kind
    case Transfer(_, _) => REQUEST_OBJECT_TRANSFER
    case Added(_) => OBJECT_ADDED_EX
    case Values(_, _, _, _, _) => AVAIL_LIST_CHANGED
    case Unknown(kind, _) => kind
  }

  function Body(m: Message): (b: seq<byte>) {
    match m
    case Property(code, words) => U32(code) + Params(words)
    case Notice(_) => []
    case Transfer(code, value) => U32(code) + U32(value)
    case Added(handle) => U32(handle)
    case Values(code, dataType, _, cnt, values) => U32(code) + (U32(dataType) + (U32(cnt) + values))
    case Unknown(_, body) => body
  }

  function EncodeMessage(m: Message): (e: seq<byte>)
    requires Legal(m)
    ensures |e| == 8 + |Body(m)| < U32_MOD
  {
    U32(8 + |Body(m)|) + (U32(KindOf(m)) + Body(m))
  }

  function EncodeStream(ms: seq<Message>): (e: seq<byte>)
    requires forall i :: 0 <= i < |ms| ==> Legal(ms[i])
  {
    if ms == [] then [] else EncodeStream(ms[..|ms| - 1]) + EncodeMessage(ms[|ms| - 1])
  }

  /** The event that a message stands for. */
  function Meaning(t: Tables, m: Message): Event
    requires Legal(m)
  {
    match m
    case Property(code, words) => PropertyEvent(t, code, words)
    case Notice(kind) => Event(0, Some(NoticeName(t, kind)), 0, None)
    case Transfer(code, value) => Event(code % 0x1_0000, Some("request object transfer"), ToInt(value), None)
    case Added(handle) => Event(0, Some("new object"), ToInt(handle), None)
    case Values(_, _, _, _, _) => NO_EVENT
    case Unknown(_, _) => NO_EVENT
  }

  function Listing(m: Message): Option<Announcement> {
    if m.Values? then Some(Announcement(ToInt(m.code), m.membSize, m.cnt, m.values)) else None
  }

  /** A record is read as the message it encodes. */
  ghost predicate ReadsAs(p: seq<byte>, of: nat, m: Message)
    requires Legal(m)
  {
    && of + |EncodeMessage(m)| <= |p| && Size(p, of) == |EncodeMessage(m)| && Kind(p, of) == KindOf(m) != 0
    && BodyReadable(p, of)
    && Announced(p, of) == Listing(m) && forall t :: EventAt(t, p, of) == Meaning(t, m)
  }

  lemma HeaderBack(p: seq<byte>, of: nat, m: Message)
    requires Legal(m) && At(p, of, EncodeMessage(m))
    ensures of + |EncodeMessage(m)| <= |p| && Size(p, of) == 8 + |Body(m)| && Kind(p, of) == KindOf(m)
            && At(p, of + 8, Body(m))
  {
    AtConcat(p, of, U32(8 + |Body(m)|), U32(KindOf(m)) + Body(m));
    AtConcat(p, of + 4, U32(KindOf(m)), Body(m));
    ReadBackU32(p, of, 8 + |Body(m)|);
    ReadBackU32(p, of + 4, KindOf(m));
  }

  /** The words of the body, as far as it has any. */
  lemma BodyBack(p: seq<byte>, of: nat, m: Message)
    requires Legal(m) && At(p, of, Body(m))
    ensures of + |Body(m)| <= |p|
    ensures m.Property? ==>
            |Body(m)| == 4 + 4 * |m.words| && ReadU32(p, of) == m.code && ReadParams(p, of + 4, |m.words|) == m.words
    ensures m.Transfer? ==> |Body(m)| == 8 && ReadU32(p, of) == m.code && ReadU32(p, of + 4) == m.value
    ensures m.Added? ==> |Body(m)| == 4 && ReadU32(p, of) == m.handle
    ensures m.Values? ==> |Body(m)| == 12 + |m.values| && ReadU32(p, of) == m.code && ReadU32(p, of + 8) == m.cnt
                          && p[of + 12..of + 12 + |m.values|] == m.values
  {
    hide ReadU32, U32, Params, ReadParams, At, Legal;
    AtSlice(p, of, Body(m));
    match m
    case Property(code, words) =>
      AtConcat(p, of, U32(code), Params(words));
      ReadBackU32(p, of, code);
      AtSlice(p, of + 4, Params(words));
      ReadBackParams(p, of + 4, words);
    case Notice(_) =>
    case Transfer(code, value) =>
      AtConcat(p, of, U32(code), U32(value));
      ReadBackU32(p, of, code);
      ReadBackU32(p, of + 4, value);
    case Added(handle) =>
      ReadBackU32(p, of, handle);
    case Values(code, dataType, _, cnt, values) =>
      AtConcat(p, of, U32(code), U32(dataType) + (U32(cnt) + values));
      AtConcat(p, of + 4, U32(dataType), U32(cnt) + values);
      AtConcat(p, of + 8, U32(cnt), values);
      ReadBackU32(p, of, code);
      AtSlice(p, of + 12, values);
      ReadBackU32(p, of + 8, cnt);
    case Unknown(_, _) =>
  }

  lemma ExactQuotient(m: nat, n: nat)
    requires n > 0
    ensures m * n / n == m
  {
    var q := m * n / n;
    assert q * n <= m * n < q * n + n;
    if q < m {
      Times(q + 1, m, n);
    } else {
      Times(m, q, n);
      if q > m {
        Times(m + 1, q, n);
      }
    }
  }

  lemma ListingBack(p: seq<byte>, of: nat, m: Message)
    requires Legal(m) && m.Values? && At(p, of, EncodeMessage(m))
    ensures of + 8 <= |p| && of + Size(p, of) <= |p| && BodyReadable(p, of) && Announced(p, of) == Listing(m)
  {
    hide U32, ReadU32, At, EncodeMessage, ToInt;
    HeaderBack(p, of, m);
    BodyBack(p, of + 8, m);
    ExactQuotient(m.membSize, m.cnt);
  }

  lemma PropertyBack(p: seq<byte>, of: nat, m: Message)
    requires Legal(m) && m.Property? && At(p, of, EncodeMessage(m))
    ensures of + 16 <= |p| && ReadU32(p, of + 8) == m.code && (m.code == IMAGE_FORMAT ==> of + 32 <= |p|)
    ensures Words(p, of) == m.words && ReadU32(p, of + 12) == m.words[0]
  {
    hide U32, ReadU32, At, EncodeMessage;
    HeaderBack(p, of, m);
    BodyBack(p, of + 8, m);
    assert ReadParams(p, of + 12, |m.words|)[0] == ReadU32(p, of + 12);
  }

  /** Every message is read as itself, wherever its encoding lies. */
  lemma MessageBack(p: seq<byte>, of: nat, m: Message)
    requires Legal(m) && At(p, of, EncodeMessage(m))
    ensures of + |EncodeMessage(m)| <= |p| && ReadsAs(p, of, m)
  {
    hide U32, ReadU32, At, EncodeMessage, ToInt, Words;
    HeaderBack(p, of, m);
    BodyBack(p, of + 8, m);
    if m.Values? {
      ListingBack(p, of, m);
    } else if m.Property? {
      PropertyBack(p, of, m);
    }
  }

  predicate AllLegal(ms: seq<Message>) {
    forall i :: 0 <= i < |ms| ==> Legal(ms[i])
  }

  /** Where message k begins. */
  function Begin(ms: seq<Message>, k: nat): nat
    requires AllLegal(ms) && k <= |ms|
  {
    |EncodeStream(ms[..k])|
  }

  lemma StreamEnd(ms: seq<Message>)
    requires AllLegal(ms) && ms != []
    ensures EncodeStream(ms) == EncodeStream(ms[..|ms| - 1]) + EncodeMessage(ms[|ms| - 1])
  {
    hide EncodeMessage, Legal;
  }

  lemma {:induction false} MessageAt(p: seq<byte>, ms: seq<Message>, k: nat)
    requires AllLegal(ms) && At(p, 0, EncodeStream(ms)) && k < |ms|
    ensures At(p, Begin(ms, k), EncodeMessage(ms[k])) && Begin(ms, k + 1) == Begin(ms, k) + |EncodeMessage(ms[k])|
  {
    hide EncodeMessage, EncodeStream, At, Legal;
    var n := |ms| - 1;
    StreamEnd(ms);
    AtConcat(p, 0, EncodeStream(ms[..n]), EncodeMessage(ms[n]));
    if k < n {
      assert ms[..n][..k] == ms[..k] && ms[..n][..k + 1] == ms[..k + 1];
      MessageAt(p, ms[..n], k);
    } else {
      assert ms[..n + 1] == ms;
    }
  }

  /** The payload, whose length is a 32-bit number, is the messages, and then nothing or a record of type 0. */
  predicate Encodes(p: seq<byte>, ms: seq<Message>)
    requires AllLegal(ms)
  {
    && At(p, 0, EncodeStream(ms)) && |p| < U32_MOD
    && (var n := |EncodeStream(ms)|; |p| == n || (n + 8 <= |p| && Kind(p, n) == 0))
  }

  lemma MessageShape(p: seq<byte>, of: nat, m: Message)
    requires Legal(m) && At(p, of, EncodeMessage(m))
    ensures of + 8 <= of + |EncodeMessage(m)| <= |p| && Size(p, of) == |EncodeMessage(m)| && Kind(p, of) != 0
  {
    hide EncodeMessage, At, Legal, BodyReadable, Announced, EventAt;
    MessageBack(p, of, m);
  }

  lemma Follows(p: seq<byte>, ms: seq<Message>, k: nat)
    requires AllLegal(ms) && Encodes(p, ms) && k < |ms|
    ensures Begin(ms, 0) == 0 && Begin(ms, k) + 8 <= |p|
    ensures Kind(p, Begin(ms, k)) != 0 && Begin(ms, k) + Size(p, Begin(ms, k)) == Begin(ms, k + 1) <= |p|
            && Size(p, Begin(ms, k)) >= 8
  {
    hide EncodeMessage, EncodeStream, At, Legal;
    assert ms[..0] == [];
    EmptyStream();
    MessageAt(p, ms, k);
    MessageShape(p, Begin(ms, k), ms[k]);
  }

  lemma {:induction false} RecordsFrom(p: seq<byte>, ms: seq<Message>, k: nat)
    requires AllLegal(ms) && Encodes(p, ms) && k <= |ms|
    ensures Records(p, Begin(ms, k)) && RecordCount(p, Begin(ms, k)) == |ms| - k
    decreases |ms| - k
  {
    hide EncodeStream, At, Legal, Size;
    if k == |ms| {
      assert ms[..k] == ms;
    } else {
      hide Begin, Encodes;
      Follows(p, ms, k);
      RecordsFrom(p, ms, k + 1);
    }
  }

  lemma NthStep(p: seq<byte>, k: nat)
    requires Records(p, 0) && k <= RecordCount(p, 0)
    ensures if k == 0 then Nth(p, k) == 0
            else
              && RecordCount(p, Nth(p, k - 1)) > 0 && Nth(p, k - 1) + 8 <= |p|
              && Nth(p, k) == Nth(p, k - 1) + Size(p, Nth(p, k - 1))
  {
    hide ReadU32;
  }

  lemma {:induction false} NthIsBegin(p: seq<byte>, ms: seq<Message>, k: nat)
    requires AllLegal(ms) && Encodes(p, ms) && k <= |ms| && Records(p, 0) && RecordCount(p, 0) == |ms|
    ensures Nth(p, k) == Begin(ms, k)
  {
    hide Begin, Encodes, Legal, Records, RecordCount, Nth, Size, Kind;
    NthStep(p, k);
    if k == 0 {
      NothingBegun(ms);
    } else {
      NthIsBegin(p, ms, k - 1);
      Follows(p, ms, k - 1);
    }
  }

  lemma NothingBegun(ms: seq<Message>)
    requires AllLegal(ms)
    ensures Begin(ms, 0) == 0
  {
    assert ms[..0] == [];
  }

  /** A camera's encoding of any messages, terminated or not, is a stream of exactly these messages: the
      counting pass finds their number, and event k is what message k means. */
  lemma StreamBack(p: seq<byte>, ms: seq<Message>)
    requires AllLegal(ms) && Encodes(p, ms)
    ensures Stream(p) && RecordCount(p, 0) == |ms|
    ensures forall k :: 0 <= k < |ms| ==> ReadsAs(p, Nth(p, k), ms[k])
  {
    hide EncodeMessage, EncodeStream, At, Legal, Records, RecordCount, Nth, Announced, EventAt, BodyReadable, ReadU32;
    NothingBegun(ms);
    RecordsFrom(p, ms, 0);
    forall k | 0 <= k < |ms| ensures Nth(p, k) + 8 <= |p| && ReadsAs(p, Nth(p, k), ms[k]) {
      NthIsBegin(p, ms, k);
      MessageAt(p, ms, k);
      MessageBack(p, Begin(ms, k), ms[k]);
      MessageShape(p, Begin(ms, k), ms[k]);
    }
  }

  lemma EmptyStream()
    ensures EncodeStream([]) == []
  {
  }

  /** So the events read from a camera's encoding are what its messages mean, one for one and in order. */
  lemma EventsAreMeanings(t: Tables, p: seq<byte>, ms: seq<Message>, events: seq<Event>)
    requires AllLegal(ms) && Encodes(p, ms) && Stream(p) && AreEvents(t, p, events, RecordCount(p, 0))
    ensures |events| == |ms| && forall k :: 0 <= k < |ms| ==> events[k] == Meaning(t, ms[k])
  {
    hide EncodeMessage, EncodeStream, Legal, Records, RecordCount, Nth, Announced, EventAt, BodyReadable, Meaning;
    StreamBack(p, ms);
    forall k | 0 <= k < |ms| ensures events[k] == Meaning(t, ms[k]) {
      assert ReadsAs(p, Nth(p, k), ms[k]);
    }
  }

  // ---- announced values ----

  lemma {:induction false} ItemAt(w: nat, items: seq<nat>, i: nat)
    requires w in {1, 2, 4} && (forall j :: 0 <= j < |items| ==> items[j] < PropDesc.Modulus(w)) && i < |items|
    ensures At(PropDesc.EncodeItems(w, items), w * i, PropDesc.LittleEndian(w, items[i]))
  {
    hide PropDesc.LittleEndian;
    var n := |items| - 1;
    var e, e1, last := PropDesc.EncodeItems(w, items), PropDesc.EncodeItems(w, items[..n]),
      PropDesc.LittleEndian(w, items[n]);
    assert e == e1 + last;
    if i < n {
      ItemAt(w, items[..n], i);
      AtPrefix(e1, e, w * i, PropDesc.LittleEndian(w, items[i]));
    }
  }

  /** What the list accepts of announced numbers is exactly these numbers. */
  lemma EncodedValuesAreListed(w: nat, items: seq<nat>, value: u32)
    requires w in {1, 2, 4} && (forall j :: 0 <= j < |items| ==> items[j] < PropDesc.Modulus(w)) && |items| < U32_MOD
    ensures Listed(w, PropDesc.EncodeItems(w, items), |items|, value) <==> value in items
  {
    var e := PropDesc.EncodeItems(w, items);
    forall i: nat | i < |items| ensures Slot(w, e, |items|, i) == items[i] {
      hide PropDesc.LittleEndian, PropDesc.EncodeItems, ReadU16, ReadU32, At;
      ItemAt(w, items, i);
      EnoughRoom(w, i, |items|);
      PropDesc.NumberBack(e, w * i, w, items[i]);
    }
  }
}
