/** The ObjectInfo dataset (section 5.3.1 of MTP 1.1), packed and parsed by src/data.c. */
module ObjectInfoData {
  import opened Bytes
  import opened PtpStrings

  datatype Fixed = Fixed(
    storageId: u32, objFormat: u16, protection: u16, compressedSize: u32, thumbFormat: u16, thumbSize: u32,
    thumbWidth: u32, thumbHeight: u32, imgWidth: u32, imgHeight: u32, imgBitDepth: u32, parentObj: u32,
    assocType: u16, assocDesc: u32, sequenceNum: u32)

  datatype Info = Info(fixed: Fixed, filename: seq<byte>, created: seq<byte>, modified: seq<byte>, keywords: seq<byte>)

  const FILENAME := 64
  const DATE := 32
  const KEYWORDS := 64

  // ---- the dataset on the wire ----

  function EncodeFixed(f: Fixed): (e: seq<byte>)
    ensures |e| == 52
  {
    U32(f.storageId) + U16(f.objFormat) + U16(f.protection) + U32(f.compressedSize) + U16(f.thumbFormat)
      + U32(f.thumbSize)
    + U32(f.thumbWidth) + U32(f.thumbHeight) + U32(f.imgWidth) + U32(f.imgHeight) + U32(f.imgBitDepth)
      + U32(f.parentObj)
    + U16(f.assocType) + U32(f.assocDesc) + U32(f.sequenceNum)
  }

  function EncodeInfo(i: Info): (e: seq<byte>)
    ensures |e| == 52 + |EncodeString(i.filename)| + |EncodeString(i.created)| + |EncodeString(i.modified)|
            + |EncodeString(i.keywords)|
  {
    EncodeFixed(i.fixed) + EncodeString(i.filename) + EncodeString(i.created) + EncodeString(i.modified)
      + EncodeString(i.keywords)
  }

  function DecodeFixed(d: seq<byte>): Fixed
    requires |d| >= 52
  {
    Fixed(ReadU32(d, 0), ReadU16(d, 4), ReadU16(d, 6), ReadU32(d, 8), ReadU16(d, 12), ReadU32(d, 14),
          ReadU32(d, 18), ReadU32(d, 22), ReadU32(d, 26), ReadU32(d, 30), ReadU32(d, 34), ReadU32(d, 38),
          ReadU16(d, 42), ReadU32(d, 44), ReadU32(d, 48))
  }

  lemma FixedReadsBack(d: seq<byte>, f: Fixed)
    requires At(d, 0, EncodeFixed(f))
    ensures |d| >= 52 && DecodeFixed(d) == f
    ensures ReadU32(d, 0) == f.storageId && ReadU16(d, 4) == f.objFormat && ReadU16(d, 6) == f.protection
    ensures ReadU32(d, 8) == f.compressedSize && ReadU16(d, 12) == f.thumbFormat && ReadU32(d, 14) == f.thumbSize
    ensures ReadU32(d, 18) == f.thumbWidth && ReadU32(d, 22) == f.thumbHeight && ReadU32(d, 26) == f.imgWidth
    ensures ReadU32(d, 30) == f.imgHeight && ReadU32(d, 34) == f.imgBitDepth && ReadU32(d, 38) == f.parentObj
    ensures ReadU16(d, 42) == f.assocType && ReadU32(d, 44) == f.assocDesc && ReadU32(d, 48) == f.sequenceNum
  {
    hide ReadU16, ReadU32, U16, U32, At;
    var e1 := U32(f.storageId);
    var e2 := e1 + U16(f.objFormat);
    var e3 := e2 + U16(f.protection);
    var e4 := e3 + U32(f.compressedSize);
    var e5 := e4 + U16(f.thumbFormat);
    var e6 := e5 + U32(f.thumbSize);
    var e7 := e6 + U32(f.thumbWidth);
    var e8 := e7 + U32(f.thumbHeight);
    var e9 := e8 + U32(f.imgWidth);
    var e10 := e9 + U32(f.imgHeight);
    var e11 := e10 + U32(f.imgBitDepth);
    var e12 := e11 + U32(f.parentObj);
    var e13 := e12 + U16(f.assocType);
    var e14 := e13 + U32(f.assocDesc);
    LastU32(d, e14, f.sequenceNum);
    LastU32(d, e13, f.assocDesc);
    LastU16(d, e12, f.assocType);
    LastU32(d, e11, f.parentObj);
    LastU32(d, e10, f.imgBitDepth);
    LastU32(d, e9, f.imgHeight);
    LastU32(d, e8, f.imgWidth);
    LastU32(d, e7, f.thumbHeight);
    LastU32(d, e6, f.thumbWidth);
    LastU32(d, e5, f.thumbSize);
    LastU16(d, e4, f.thumbFormat);
    LastU32(d, e3, f.compressedSize);
    LastU16(d, e2, f.protection);
    LastU16(d, e1, f.objFormat);
    LastU32(d, [], f.storageId);
    assert [] + e1 == e1;
  }

  lemma LastU16(d: seq<byte>, e: seq<byte>, x: u16)
    requires At(d, 0, e + U16(x))
    ensures At(d, 0, e) && |e| + 2 <= |d| && ReadU16(d, |e|) == x
  {
    AtConcat(d, 0, e, U16(x));
    ReadBackU16(d, |e|, x);
  }

  lemma LastU32(d: seq<byte>, e: seq<byte>, x: u32)
    requires At(d, 0, e + U32(x))
    ensures At(d, 0, e) && |e| + 4 <= |d| && ReadU32(d, |e|) == x
  {
    AtConcat(d, 0, e, U32(x));
    ReadBackU32(d, |e|, x);
  }

  // ---- where the reader finds the strings ----

  predicate InfoReadable(d: seq<byte>) {
    && |d| >= 52 && StringReadable(d, 52, FILENAME)
    && StringReadable(d, CreatedAt(d), DATE)
    && StringReadable(d, ModifiedAt(d), DATE)
    && StringReadable(d, KeywordsAt(d), KEYWORDS)
  }

  function CreatedAt(d: seq<byte>): nat
    requires |d| >= 52 && StringReadable(d, 52, FILENAME)
  {
    52 + ReadLength(d, 52, FILENAME)
  }

  function ModifiedAt(d: seq<byte>): nat
    requires |d| >= 52 && StringReadable(d, 52, FILENAME) && StringReadable(d, CreatedAt(d), DATE)
  {
    CreatedAt(d) + ReadLength(d, CreatedAt(d), DATE)
  }

  function KeywordsAt(d: seq<byte>): nat
    requires |d| >= 52 && StringReadable(d, 52, FILENAME) && StringReadable(d, CreatedAt(d), DATE)
    requires StringReadable(d, ModifiedAt(d), DATE)
  {
    ModifiedAt(d) + ReadLength(d, ModifiedAt(d), DATE)
  }

  function InfoEnd(d: seq<byte>): nat
    requires InfoReadable(d)
  {
    KeywordsAt(d) + ReadLength(d, KeywordsAt(d), KEYWORDS)
  }

  // ---- struct PtpObjectInfo ----

  class ObjectInfo {
    var storageId: u32
    var objFormat: u16
    var protection: u16
    var compressedSize: u32
    var thumbFormat: u16
    var thumbSize: u32
    var thumbWidth: u32
    var thumbHeight: u32
    var imgWidth: u32
    var imgHeight: u32
    var imgBitDepth: u32
    var parentObj: u32
    var assocType: u16
    var assocDesc: u32
    var sequenceNum: u32
    const filename: array<byte>
    const created: array<byte>
    const modified: array<byte>
    const keywords: array<byte>

    predicate Valid() {
      && filename.Length == FILENAME && created.Length == DATE && modified.Length == DATE && keywords.Length == KEYWORDS
      && filename != created && filename != modified && filename != keywords
      && created != modified && created != keywords && modified != keywords
    }

    ghost function FixedPart(): Fixed
      reads this
    {
      Fixed(storageId, objFormat, protection, compressedSize, thumbFormat, thumbSize, thumbWidth, thumbHeight,
            imgWidth, imgHeight, imgBitDepth, parentObj, assocType, assocDesc, sequenceNum)
    }

    ghost predicate Strings()
      reads filename, created, modified, keywords
    {
      Terminated(filename[..]) && Terminated(created[..]) && Terminated(modified[..]) && Terminated(keywords[..])
    }

    ghost function Value(): Info
      reads this, filename, created, modified, keywords
    {
      Info(FixedPart(), Text(filename[..]), Text(created[..]), Text(modified[..]), Text(keywords[..]))
    }

    constructor ()
      ensures Valid() && fresh(filename) && fresh(created) && fresh(modified) && fresh(keywords)
    {
      filename := new byte[FILENAME];
      created := new byte[DATE];
      modified := new byte[DATE];
      keywords := new byte[KEYWORDS];
    }

    /** The first seven fields. */
    method ParseHead(d: seq<byte>) returns (of: nat)
      requires |d| >= 52
      modifies this
      ensures of == 22 && storageId == ReadU32(d, 0) && objFormat == ReadU16(d, 4) && protection == ReadU16(d, 6)
      ensures compressedSize == ReadU32(d, 8) && thumbFormat == ReadU16(d, 12) && thumbSize == ReadU32(d, 14)
      ensures thumbWidth == ReadU32(d, 18)
    {
      hide ReadU16, ReadU32;
      of := 0;
      storageId := ReadU32(d, of);
      of := of + 4;
      objFormat := ReadU16(d, of);
      of := of + 2;
      protection := ReadU16(d, of);
      of := of + 2;
      compressedSize := ReadU32(d, of);
      of := of + 4;
      thumbFormat := ReadU16(d, of);
      of := of + 2;
      thumbSize := ReadU32(d, of);
      of := of + 4;
      thumbWidth := ReadU32(d, of);
      of := of + 4;
    }

    method ParseFixed(d: seq<byte>) returns (of: nat)
      requires |d| >= 52
      modifies this
      ensures of == 52 && FixedPart() == DecodeFixed(d)
    {
      hide ReadU16, ReadU32;
      of := ParseHead(d);
      thumbHeight := ReadU32(d, of);
      of := of + 4;
      imgWidth := ReadU32(d, of);
      of := of + 4;
      imgHeight := ReadU32(d, of);
      of := of + 4;
      imgBitDepth := ReadU32(d, of);
      of := of + 4;
      parentObj := ReadU32(d, of);
      of := of + 4;
      assocType := ReadU16(d, of);
      of := of + 2;
      assocDesc := ReadU32(d, of);
      of := of + 4;
      sequenceNum := ReadU32(d, of);
      of := of + 4;
    }

    /** ptp_parse_object_info; end is the cursor it stops at. */
    method Parse(d: seq<byte>) returns (rc: int, ghost end: nat)
      requires Valid() && InfoReadable(d)
      modifies this, filename, created, modified, keywords
      ensures rc == 0 && end == InfoEnd(d) && FixedPart() == DecodeFixed(d)
      ensures filename[..] == ReadField(d, 52, old(filename[..]))
      ensures created[..] == ReadField(d, CreatedAt(d), old(created[..]))
      ensures modified[..] == ReadField(d, ModifiedAt(d), old(modified[..]))
      ensures keywords[..] == ReadField(d, KeywordsAt(d), old(keywords[..]))
    {
      hide ReadField, DecodeFixed, ReadLength, StringReadable;
      var of := ParseFixed(d);
      var n := ReadString(d, of, filename);
      of := of + n;
      n := ReadString(d, of, created);
      of := of + n;
      n := ReadString(d, of, modified);
      of := of + n;
      n := ReadString(d, of, keywords);
      end := of + n;
      rc := 0;
    }

    method PackHead(buf: array<byte>) returns (of: nat)
      requires buf.Length >= 52
      modifies buf
      ensures of == 22 && buf[of..] == old(buf[of..])
      ensures buf[..of] == U32(storageId) + U16(objFormat) + U16(protection) + U32(compressedSize) + U16(thumbFormat)
              + U32(thumbSize)
                           + U32(thumbWidth)
    {
      hide U16, U32;
      ghost var tail := buf[22..];
      StoreU32(buf, 0, storageId);
      assert buf[22..] == tail;
      assert buf[..4] == U32(storageId);
      StoreU16(buf, 4, objFormat);
      assert buf[22..] == tail;
      StoreU16(buf, 6, protection);
      assert buf[22..] == tail;
      StoreU32(buf, 8, compressedSize);
      assert buf[22..] == tail;
      StoreU16(buf, 12, thumbFormat);
      assert buf[22..] == tail;
      StoreU32(buf, 14, thumbSize);
      assert buf[22..] == tail;
      StoreU32(buf, 18, thumbWidth);
      assert buf[22..] == tail;
      of := 22;
    }

    method PackFixed(buf: array<byte>) returns (of: nat)
      requires buf.Length >= 52
      modifies buf
      ensures of == 52 && buf[..of] == EncodeFixed(FixedPart()) && buf[of..] == old(buf[of..])
    {
      hide U16, U32;
      ghost var tail := buf[52..];
      of := PackHead(buf);
      assert buf[52..] == tail;
      StoreU32(buf, 22, thumbHeight);
      assert buf[52..] == tail;
      StoreU32(buf, 26, imgWidth);
      assert buf[52..] == tail;
      StoreU32(buf, 30, imgHeight);
      assert buf[52..] == tail;
      StoreU32(buf, 34, imgBitDepth);
      assert buf[52..] == tail;
      StoreU32(buf, 38, parentObj);
      assert buf[52..] == tail;
      StoreU16(buf, 42, assocType);
      assert buf[52..] == tail;
      StoreU32(buf, 44, assocDesc);
      assert buf[52..] == tail;
      StoreU32(buf, 48, sequenceNum);
      assert buf[52..] == tail;
      of := 52;
    }

    lemma PackedSize()
      requires Valid() && Strings()
      ensures |EncodeInfo(Value())| <= 440
    {
      hide Text, EncodeString;
      TextFacts(filename[..]);
      TextFacts(created[..]);
      TextFacts(modified[..]);
      TextFacts(keywords[..]);
      EncodeLength(Text(filename[..]));
      EncodeLength(Text(created[..]));
      EncodeLength(Text(modified[..]));
      EncodeLength(Text(keywords[..]));
    }

    /** ptp_pack_object_info */
    method Pack(buf: array<byte>, max: nat) returns (of: nat)
      requires Valid() && Strings() && max <= buf.Length
      requires buf != filename && buf != created && buf != modified && buf != keywords
      modifies buf
      ensures max < 1024 ==> of == 0 && buf[..] == old(buf[..])
      ensures max >= 1024 ==> of == |EncodeInfo(Value())| <= 440 && buf[..] == EncodeInfo(Value()) + old(buf[of..])
    {
      hide Text, Terminated, EncodeString, EncodeFixed;
      PackedSize();
      if 1024 > max { return 0; }
      ghost var before := buf[..];
      of := PackFixed(buf);
      assert buf[..] == EncodeFixed(FixedPart()) + before[of..];
      ghost var packed := EncodeFixed(FixedPart());
      of, packed := AppendString(buf, of, filename, packed, before);
      of, packed := AppendString(buf, of, created, packed, before);
      of, packed := AppendString(buf, of, modified, packed, before);
      of, packed := AppendString(buf, of, keywords, packed, before);
    }
  }

  /** One string more at the cursor; the bytes after it are still those of before. */
  method AppendString(buf: array<byte>, at: nat, str: array<byte>, ghost packed: seq<byte>, ghost before: seq<byte>)
    returns (of: nat, ghost more: seq<byte>)
    requires buf != str && Terminated(str[..]) && at + |EncodeString(Text(str[..]))| <= |before| == buf.Length
    requires |packed| == at && buf[..] == packed + before[at..]
    modifies buf
    ensures of == at + |EncodeString(Text(str[..]))| && more == packed + EncodeString(Text(str[..]))
    ensures buf[..] == more + before[of..]
  {
    hide Text, Terminated, EncodeString;
    more := packed + EncodeString(Text(str[..]));
    Extends(packed, EncodeString(Text(str[..])), before, at);
    var n := WriteString(buf, at, str);
    of := at + n;
  }

  lemma Extends(p: seq<byte>, e: seq<byte>, before: seq<byte>, at: nat)
    requires |p| == at && at + |e| <= |before|
    ensures (p + before[at..])[..at] + e + (p + before[at..])[at + |e|..] == (p + e) + before[at + |e|..]
  {
  }

  // ---- round trips ----

  /** What terminated fields can hold. */
  predicate InFields(i: Info) {
    && NoNul(i.filename) && NoNul(i.created) && NoNul(i.modified) && NoNul(i.keywords)
    && |i.filename| < FILENAME && |i.created| < DATE && |i.modified| < DATE && |i.keywords| < KEYWORDS
  }

  /** Every string leaves its field a byte to spare besides the terminator. */
  predicate Spare(i: Info) {
    |i.filename| <= FILENAME - 2 && |i.created| <= DATE - 2 && |i.modified| <= DATE - 2 && |i.keywords| <= KEYWORDS - 2
  }

  /** The sizes of the fields, and of the strings that leave a byte to spare. */
  lemma FieldSizes(i: Info)
    ensures FILENAME == 64 && DATE == 32 && KEYWORDS == 64
    ensures Spare(i) <==> |i.filename| <= 62 && |i.created| <= 30 && |i.modified| <= 30 && |i.keywords| <= 62
  {
  }

  function SanitisedInfo(i: Info): Info {
    Info(i.fixed, Sanitised(i.filename), Sanitised(i.created), Sanitised(i.modified), Sanitised(i.keywords))
  }

  lemma EncodedParts(d: seq<byte>, i: Info)
    requires At(d, 0, EncodeInfo(i))
    ensures |d| >= 52 && DecodeFixed(d) == i.fixed
    ensures At(d, 52, EncodeString(i.filename))
    ensures var a := 52 + |EncodeString(i.filename)|;
            var b := a + |EncodeString(i.created)|;
            At(d, a, EncodeString(i.created)) && At(d, b, EncodeString(i.modified))
            && At(d, b + |EncodeString(i.modified)|, EncodeString(i.keywords))
  {
    hide EncodeFixed, EncodeString, DecodeFixed, At;
    var e1 := EncodeFixed(i.fixed) + EncodeString(i.filename);
    var e2 := e1 + EncodeString(i.created);
    AtConcat(d, 0, e2 + EncodeString(i.modified), EncodeString(i.keywords));
    AtConcat(d, 0, e2, EncodeString(i.modified));
    AtConcat(d, 0, e1, EncodeString(i.created));
    AtConcat(d, 0, EncodeFixed(i.fixed), EncodeString(i.filename));
    FixedReadsBack(d, i.fixed);
    AtSlice(d, 0, EncodeFixed(i.fixed));
  }

  /** What Parse makes of the bytes d, given what the string fields held before. */
  function Parsed(d: seq<byte>, filename: seq<byte>, created: seq<byte>, modified: seq<byte>, keywords: seq<byte>): Info
    requires InfoReadable(d) && |filename| == FILENAME && |created| == DATE && |modified| == DATE
             && |keywords| == KEYWORDS
  {
    Info(DecodeFixed(d), Text(ReadField(d, 52, filename)), Text(ReadField(d, CreatedAt(d), created)),
         Text(ReadField(d, ModifiedAt(d), modified)), Text(ReadField(d, KeywordsAt(d), keywords)))
  }

  /** Parsing what was packed: the same numbers, the same strings sanitised, the same length. */
  lemma ParsesBack(d: seq<byte>, i: Info, filename: seq<byte>, created: seq<byte>, modified: seq<byte>,
                   keywords: seq<byte>)
    requires At(d, 0, EncodeInfo(i)) && InFields(i) && Spare(i)
    requires |filename| == FILENAME && |created| == DATE && |modified| == DATE && |keywords| == KEYWORDS
    ensures InfoReadable(d) && InfoEnd(d) == |EncodeInfo(i)|
    ensures Parsed(d, filename, created, modified, keywords) == SanitisedInfo(i)
    ensures var v := Parsed(d, filename, created, modified, keywords);
            && v.fixed == i.fixed && CharByChar(i.filename, v.filename) && CharByChar(i.created, v.created)
            && CharByChar(i.modified, v.modified) && CharByChar(i.keywords, v.keywords)
  {
    hide EncodeString, DecodeFixed, At, ReadField, Text, Sanitised, StringReadable, ReadLength, NoNul, Terminated,
      EncodeFixed;
    EncodedParts(d, i);
    ReadsBack(d, 52, i.filename, filename);
    ReadsBack(d, CreatedAt(d), i.created, created);
    ReadsBack(d, ModifiedAt(d), i.modified, modified);
    ReadsBack(d, KeywordsAt(d), i.keywords, keywords);
  }

  /** A dataset of plain characters comes back unchanged; a second round trip never changes anything. */
  lemma SanitisedOnce(i: Info)
    requires InFields(i)
    ensures InFields(SanitisedInfo(i)) && (Spare(i) ==> Spare(SanitisedInfo(i)))
    ensures SanitisedInfo(SanitisedInfo(i)) == SanitisedInfo(i)
    ensures Plain(i.filename) && Plain(i.created) && Plain(i.modified) && Plain(i.keywords) ==> SanitisedInfo(i) == i
  {
    var t := SanitisedInfo(i);
    SanitisedIsPlain(i.filename);
    SanitisedIsPlain(i.created);
    SanitisedIsPlain(i.modified);
    SanitisedIsPlain(i.keywords);
    hide Sanitised, Plain, NoNul;
    PlainIsSanitised(t.filename);
    PlainIsSanitised(t.created);
    PlainIsSanitised(t.modified);
    PlainIsSanitised(t.keywords);
    if Plain(i.filename) && Plain(i.created) && Plain(i.modified) && Plain(i.keywords) {
      PlainIsSanitised(i.filename);
      PlainIsSanitised(i.created);
      PlainIsSanitised(i.modified);
      PlainIsSanitised(i.keywords);
    }
  }

  /** A full field leaves the two bytes of the terminator unread, and they look like two empty strings. */
  lemma FullFieldSlips(d: seq<byte>, at: nat, s: seq<byte>, max: nat)
    requires At(d, at, EncodeString(s)) && max >= 2 && |s| == max - 1 <= 254
    ensures StringReadable(d, at, max) && ReadLength(d, at, max) == |EncodeString(s)| - 2
    ensures var e := at + |EncodeString(s)|; 2 <= e <= |d| && d[e - 2] == d[e - 1] == 0
  {
    EncodedAt(d, at, s);
    EncodeLength(s);
  }

  lemma ZeroIsEmpty(d: seq<byte>, at: nat, max: nat)
    requires at < |d| && d[at] == 0 && max >= 2
    ensures StringReadable(d, at, max) && ReadLength(d, at, max) == 1
  {
  }

  lemma InStep(d: seq<byte>, at: nat, s: seq<byte>, max: nat)
    requires At(d, at, EncodeString(s)) && max >= 2 && |s| <= max - 2 <= 254
    ensures StringReadable(d, at, max) && ReadLength(d, at, max) == |EncodeString(s)| >= 1
  {
    EncodedAt(d, at, s);
    EncodeLength(s);
  }

  /** The parser stops where the packer did exactly when no string fills its field up to the terminator. */
  lemma ParserStopsWithPacker(d: seq<byte>, i: Info)
    requires At(d, 0, EncodeInfo(i)) && InFields(i)
    ensures InfoReadable(d)
    ensures InfoEnd(d) == |EncodeInfo(i)| <==> Spare(i)
  {
    hide EncodeString, DecodeFixed, At, StringReadable, ReadLength, NoNul, EncodeFixed;
    EncodedParts(d, i);
    var a := 52 + |EncodeString(i.filename)|;
    var b := a + |EncodeString(i.created)|;
    EncodeLength(i.modified);
    EncodeLength(i.keywords);
    if |i.filename| == FILENAME - 1 {
      FullFieldSlips(d, 52, i.filename, FILENAME);
      ZeroIsEmpty(d, a - 2, DATE);
      ZeroIsEmpty(d, a - 1, DATE);
      InStep(d, a, i.created, KEYWORDS);
    } else {
      InStep(d, 52, i.filename, FILENAME);
      if |i.created| == DATE - 1 {
        FullFieldSlips(d, a, i.created, DATE);
        ZeroIsEmpty(d, b - 2, DATE);
        ZeroIsEmpty(d, b - 1, KEYWORDS);
      } else {
        InStep(d, a, i.created, DATE);
        if |i.modified| == DATE - 1 {
          FullFieldSlips(d, b, i.modified, DATE);
          ZeroIsEmpty(d, b + |EncodeString(i.modified)| - 2, KEYWORDS);
        } else {
          InStep(d, b, i.modified, DATE);
          if |i.keywords| == KEYWORDS - 1 {
            FullFieldSlips(d, KeywordsAt(d), i.keywords, KEYWORDS);
          } else {
            InStep(d, KeywordsAt(d), i.keywords, KEYWORDS);
          }
        }
      }
    }
  }

  /** A filename of 63 characters, the longest the field can hold: the parser stops short. */
  lemma LongNameStopsShort(f: Fixed)
    ensures var i := Info(f, seq(63, _ => 65), [], [], []);
            var d := EncodeInfo(i);
            InFields(i) && InfoReadable(d) && InfoEnd(d) < |d|
  {
    var i := Info(f, seq(63, _ => 65), [], [], []);
    var d := EncodeInfo(i);
    assert At(d, 0, EncodeInfo(i));
    ParserStopsWithPacker(d, i);
  }
}
