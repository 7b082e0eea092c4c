/** The DevicePropDesc dataset of MTP 1.1 as src/data.c parses it: a default value, a
    current value and a range or an enumeration, all of the data type that the dataset itself names. */
module PropDescData {
  import opened Bytes
  import opened Packets

  const INT8: u16 := 0x1
  const UINT8: u16 := 0x2
  const INT16: u16 := 0x3
  const UINT16: u16 := 0x4
  const INT32: u16 := 0x5
  const UINT32: u16 := 0x6
  const INT64: u16 := 0x7
  const UINT64: u16 := 0x8
  const UINT8ARRAY: u16 := 0x4002
  const UINT16ARRAY: u16 := 0x4004
  const UINT32ARRAY: u16 := 0x4006
  const UINT64ARRAY: u16 := 0x4008
  const STRING: u16 := 0xFFFF

  const RANGE_FORM: byte := 1
  const ENUMERATION_FORM: byte := 2

  // ---- values and their encodings ----

  /** The width of a number type, 0 for the rest. */
  function Width(t: u16): nat {
    if t == INT8 || t == UINT8 then 1
    else if t == INT16 || t == UINT16 then 2
    else if t == INT32 || t == UINT32 then 4
    else if t == INT64 || t == UINT64 then 8
    else 0
  }

  /** The width of an array's items, 0 for the rest. */
  function ItemWidth(t: u16): nat {
    if t == UINT8ARRAY then 1 else if t == UINT16ARRAY then 2 else if t == UINT32ARRAY then 4
      else if t == UINT64ARRAY then 8 else 0
  }

  predicate Supported(t: u16) {
    Width(t) > 0 || ItemWidth(t) > 0 || t == STRING
  }

  predicate Signed(t: u16) {
    t in {INT8, INT16, INT32, INT64}
  }

  function Modulus(w: nat): (m: int)
    ensures m > 0
  {
    if w == 1 then 0x100 else if w == 2 then 0x1_0000 else if w == 4 then U32_MOD else 0x1_0000_0000_0000_0000
  }

  datatype PropValue = Number(n: int) | Items(items: seq<nat>) | Chars(chars: seq<u16>)

  /** v is a value of type t. */
  predicate OfType(t: u16, v: PropValue) {
    match v
    case Number(n) =>
      Width(t) > 0 && (if Signed(t) then -Modulus(Width(t)) <= 2 * n < Modulus(Width(t))
        else 0 <= n < Modulus(Width(t)))
    case Items(items) =>
      && ItemWidth(t) > 0 && 4 + ItemWidth(t) * |items| < INT_MAX_PLUS_1
      && forall i :: 0 <= i < |items| ==> items[i] < Modulus(ItemWidth(t))
    case Chars(chars) => t == STRING && |chars| <= 255
  }

  /** The data types by their numbers. */
  lemma TypeLaws(t: u16)
    ensures Width(t) == if t in {1, 2} then 1 else if t in {3, 4} then 2 else if t in {5, 6} then 4
                        else if t in {7, 8} then 8 else 0
    ensures ItemWidth(t) == if t == 0x4002 then 1 else if t == 0x4004 then 2 else if t == 0x4006 then 4
                            else if t == 0x4008 then 8 else 0
    ensures Signed(t) <==> t in {1, 3, 5, 7}
    ensures Supported(t) <==> 1 <= t <= 8 || t in {0x4002, 0x4004, 0x4006, 0x4008, 0xFFFF}
    ensures RANGE_FORM == 1 && ENUMERATION_FORM == 2
  {
  }

  /** x in w bytes, least significant first. */
  function LittleEndian(w: nat, x: nat): (e: seq<byte>)
    requires w in {1, 2, 4, 8} && x < Modulus(w)
    ensures |e| == w
  {
    if w == 1 then [x] else if w == 2 then U16(x) else if w == 4 then U32(x) else U64(x)
  }

  function EncodeItems(w: nat, items: seq<nat>): (e: seq<byte>)
    requires w in {1, 2, 4, 8} && forall i :: 0 <= i < |items| ==> items[i] < Modulus(w)
    ensures |e| == w * |items|
  {
    if items == [] then [] else EncodeItems(w, items[..|items| - 1]) + LittleEndian(w, items[|items| - 1])
  }

  function EncodeValue(t: u16, v: PropValue): (e: seq<byte>)
    requires OfType(t, v)
  {
    match v
    case Number(n) => LittleEndian(Width(t), if n < 0 then n + Modulus(Width(t)) else n)
    case Items(items) => U32(|items|) + EncodeItems(ItemWidth(t), items)
    case Chars(chars) => [|chars|] + EncodeItems(2, chars)
  }

  function EncodeValues(t: u16, vs: seq<PropValue>): (e: seq<byte>)
    requires forall i :: 0 <= i < |vs| ==> OfType(t, vs[i])
  {
    if vs == [] then [] else EncodeValues(t, vs[..|vs| - 1]) + EncodeValue(t, vs[|vs| - 1])
  }

  // ---- sizes and numbers read from memory ----

  predicate SizeReadable(d: seq<byte>, at: nat, t: u16) {
    if ItemWidth(t) > 0 then at + 4 <= |d| else t == STRING ==> at < |d|
  }

  /** ptp_get_prop_size */
  function PropSize(d: seq<byte>, at: nat, t: u16): int
    requires SizeReadable(d, at, t)
  {
    if Width(t) > 0 then Width(t)
    else if ItemWidth(t) > 0 then ToInt(4 + ToInt(ReadU32(d, at)) * ItemWidth(t))
    else if t == STRING then 1 + 2 * d[at] as int
    else -1
  }

  /** All the bytes of the value are there. */
  predicate ValueReadable(d: seq<byte>, at: nat, t: u16) {
    SizeReadable(d, at, t) && PropSize(d, at, t) >= 0 && at + PropSize(d, at, t) <= |d|
  }

  /** ptp_parse_data_u32: the size and, for the types of at most four bytes, the int stored. */
  function ParseU32(d: seq<byte>, at: nat, t: u16): (int, Option<int>)
    requires ValueReadable(d, at, t)
  {
    if t == INT8 || t == UINT8 then (1, Some(d[at]))
    else if t == INT16 then (2, Some(if ReadU16(d, at) < 0x8000 then ReadU16(d, at) else ReadU16(d, at) - 0x1_0000))
    else if t == UINT16 then (2, Some(ReadU16(d, at)))
    else if t == INT32 || t == UINT32 then (4, Some(ToInt(ReadU32(d, at))))
    else (PropSize(d, at, t), None)
  }

  /** What parse_data_data_or_u32 stores: 32 bits, or a copy of the value's bytes. */
  datatype Stored = Word(w: u32) | Copied(bytes: seq<byte>)

  /** parse_data_data_or_u32; other types are a panic. */
  function ParseData(d: seq<byte>, at: nat, t: u16): (int, Stored)
    requires Supported(t) && ValueReadable(d, at, t)
  {
    if Width(t) in {1, 2, 4} then
      var (size, word) := ParseU32(d, at, t);
      (size, Word(word.value % U32_MOD))
    else if Width(t) == 8 then (8, Copied(d[at..at + 8]))
    else if ItemWidth(t) > 0 then
      var size := ToInt(4 + ToInt(ReadU32(d, at)) * ItemWidth(t));
      (size, Copied(d[at..at + size]))
    else
      var size := 1 + d[at] as int * 2;
      (size, Copied(d[at..at + size]))
  }

  /** The two functions that measure a value agree on every value, well encoded or not. */
  lemma SizesAgree(d: seq<byte>, at: nat, t: u16)
    requires Supported(t) && ValueReadable(d, at, t)
    ensures ParseData(d, at, t).0 == PropSize(d, at, t)
    ensures Width(t) <= 4 ==> ParseU32(d, at, t).0 == PropSize(d, at, t)
  {
  }

  // ---- reading back encoded values ----

  lemma NumberBack(d: seq<byte>, at: nat, w: nat, x: nat)
    requires w in {1, 2, 4} && x < Modulus(w) && At(d, at, LittleEndian(w, x))
    ensures at + w <= |d| && x == if w == 1 then d[at] as int else if w == 2 then ReadU16(d, at) else ReadU32(d, at)
  {
    if w == 1 {
      assert d[at..at + 1] == [x];
    } else if w == 2 {
      ReadBackU16(d, at, x);
    } else {
      ReadBackU32(d, at, x);
    }
  }

  lemma ToIntKeeps(x: int)
    requires -INT_MAX_PLUS_1 <= x < INT_MAX_PLUS_1
    ensures ToInt(x) == x && ToInt(x % U32_MOD) == x
  {
  }

  lemma ArraySize(d: seq<byte>, at: nat, t: u16, items: seq<nat>)
    requires OfType(t, Items(items)) && At(d, at, EncodeValue(t, Items(items)))
    ensures at + 4 + ItemWidth(t) * |items| <= |d|
            && ToInt(4 + ToInt(ReadU32(d, at)) * ItemWidth(t)) == 4 + ItemWidth(t) * |items|
  {
    hide ToInt, EncodeItems, ReadU32, U32;
    var w, n := ItemWidth(t), |items|;
    AtConcat(d, at, U32(n), EncodeItems(w, items));
    CountBack(d, at, n);
    assert n <= w * n;
    ToIntKeeps(n);
    ToIntKeeps(4 + n * w);
  }

  lemma CountBack(d: seq<byte>, at: nat, n: u32)
    requires At(d, at, U32(n))
    ensures at + 4 <= |d| && ReadU32(d, at) == n
  {
    ReadBackU32(d, at, n);
  }

  /** An encoded value is measured, and copied, at exactly its length. */
  lemma ValueSize(d: seq<byte>, at: nat, t: u16, v: PropValue)
    requires OfType(t, v) && At(d, at, EncodeValue(t, v))
    ensures Supported(t) && ValueReadable(d, at, t) && PropSize(d, at, t) == |EncodeValue(t, v)| > 0
    ensures Width(t) !in {1, 2, 4} ==> ParseData(d, at, t).1 == Copied(EncodeValue(t, v))
  {
    hide ToInt, EncodeItems, ReadU32, U32, LittleEndian;
    match v
    case Number(n) =>
    case Items(items) =>
      ArraySize(d, at, t, items);
    case Chars(chars) =>
      assert d[at] == d[at..at + |EncodeValue(t, v)|][0] == |chars|;
  }

  /** The 32 bits stored for a number, read as the type demands. */
  function AsType(t: u16, w: u32): int {
    if Signed(t) then ToInt(w) else w
  }

  /** Numbers of up to four bytes come back, except the negative 8-bit ones. */
  lemma WordBack(d: seq<byte>, at: nat, t: u16, n: int)
    requires OfType(t, Number(n)) && Width(t) <= 4 && At(d, at, EncodeValue(t, Number(n)))
    ensures ValueReadable(d, at, t) && ParseData(d, at, t).1.Word?
    ensures AsType(t, ParseData(d, at, t).1.w) == n <==> !(t == INT8 && n < 0)
  {
    hide ReadU16, ReadU32, EncodeValue, At, ToInt;
    ValueSize(d, at, t, Number(n));
    NumberAt(d, at, t, n);
    if Signed(t) {
      ToIntKeeps(n);
      if t == INT8 {
        ToIntKeeps(n + 0x100);
      }
    }
  }

  lemma NumberAt(d: seq<byte>, at: nat, t: u16, n: int)
    requires OfType(t, Number(n)) && Width(t) <= 4 && At(d, at, EncodeValue(t, Number(n)))
    ensures at + Width(t) <= |d|
    ensures (if n < 0 then n + Modulus(Width(t)) else n)
            == if Width(t) == 1 then d[at] as int else if Width(t) == 2 then ReadU16(d, at) else ReadU32(d, at)
  {
    NumberBack(d, at, Width(t), if n < 0 then n + Modulus(Width(t)) else n);
  }

  /** The ints of a range form: also the 32-bit values beyond INT_MAX are lost. */
  lemma RangeWordBack(d: seq<byte>, at: nat, t: u16, n: int)
    requires OfType(t, Number(n)) && Width(t) <= 4 && At(d, at, EncodeValue(t, Number(n)))
    ensures ValueReadable(d, at, t) && ParseU32(d, at, t).1.Some?
    ensures ParseU32(d, at, t).1.value == n <==> !(t == INT8 && n < 0) && n < INT_MAX_PLUS_1
  {
    hide ReadU16, ReadU32, EncodeValue, At;
    ValueSize(d, at, t, Number(n));
    NumberAt(d, at, t, n);
  }

  // ---- the dataset ----

  datatype Form = Range(min: PropValue, max: PropValue, step: PropValue) | Enumeration(values: seq<PropValue>)

  datatype Desc = Desc(code: u16, dataType: u16, readOnly: byte, default_: PropValue, current: PropValue, form: Form)

  predicate WellTyped(v: Desc) {
    && OfType(v.dataType, v.default_) && OfType(v.dataType, v.current)
    && match v.form
       case Range(min, max, step) => OfType(v.dataType, min) && OfType(v.dataType, max) && OfType(v.dataType, step)
       case Enumeration(values) => |values| < 0x1_0000 && forall i :: 0 <= i < |values| ==>
         OfType(v.dataType, values[i])
  }

  function EncodeForm(v: Desc): seq<byte>
    requires WellTyped(v)
  {
    match v.form
    case Range(min, max, step) => [RANGE_FORM] + EncodeValues(v.dataType, [min, max, step])
    case Enumeration(values) => [ENUMERATION_FORM] + (U16(|values|) + EncodeValues(v.dataType, values))
  }

  function EncodeDesc(v: Desc): seq<byte>
    requires WellTyped(v)
  {
    U16(v.code) + U16(v.dataType) + [v.readOnly] + EncodeValue(v.dataType, v.default_)
      + EncodeValue(v.dataType, v.current) + EncodeForm(v)
  }

  // ---- consecutive values ----

  function SizeAt(d: seq<byte>, at: nat, t: u16): nat {
    if ValueReadable(d, at, t) then PropSize(d, at, t) else 0
  }

  /** Where the k-th of the values from offset at begins. */
  function NthValue(d: seq<byte>, at: nat, t: u16, k: nat): nat {
    if k == 0 then at else
      var p := NthValue(d, at, t, k - 1);
      p + SizeAt(d, p, t)
  }

  predicate ValuesReadable(d: seq<byte>, at: nat, t: u16, n: nat) {
    forall k :: 0 <= k < n ==> ValueReadable(d, NthValue(d, at, t, k), t)
  }

  /** Value k has a negative size: an array whose count is beyond INT_MAX. */
  predicate FailsAt(d: seq<byte>, at: nat, t: u16, k: nat) {
    SizeReadable(d, NthValue(d, at, t, k), t) && PropSize(d, NthValue(d, at, t, k), t) < 0
  }

  /** The values are there, up to the first one that fails if one does. */
  predicate EnumReadable(d: seq<byte>, at: nat, t: u16, n: nat) {
    forall k :: 0 <= k < n && ValuesReadable(d, at, t, k) ==>
      FailsAt(d, at, t, k) || ValueReadable(d, NthValue(d, at, t, k), t)
  }

  lemma {:induction false} NthValueGrows(d: seq<byte>, at: nat, t: u16, k: nat)
    requires ValuesReadable(d, at, t, k) && at <= |d|
    ensures at <= NthValue(d, at, t, k) <= |d|
  {
    if k > 0 {
      assert ValueReadable(d, NthValue(d, at, t, k - 1), t);
      NthValueGrows(d, at, t, k - 1);
    }
  }

  /** Value k of encoded consecutive values is where the walk looks for it, and the walk ends with them. */
  lemma {:induction false} ValuesBack(d: seq<byte>, at: nat, t: u16, vs: seq<PropValue>)
    requires (forall i :: 0 <= i < |vs| ==> OfType(t, vs[i])) && At(d, at, EncodeValues(t, vs))
    ensures ValuesReadable(d, at, t, |vs|) && NthValue(d, at, t, |vs|) == at + |EncodeValues(t, vs)|
    ensures forall k :: 0 <= k < |vs| ==> At(d, NthValue(d, at, t, k), EncodeValue(t, vs[k]))
  {
    hide EncodeValue, At, ValueReadable, OfType, PropSize;
    if vs != [] {
      var n := |vs| - 1;
      AtConcat(d, at, EncodeValues(t, vs[..n]), EncodeValue(t, vs[n]));
      ValuesBack(d, at, t, vs[..n]);
      ValueSize(d, at + |EncodeValues(t, vs[..n])|, t, vs[n]);
    }
  }

  // ---- struct PtpPropDesc ----

  datatype EnumForm = EnumForm(length: u16, data: seq<byte>)

  /** How the parser leaves: a return code, or a panic. */
  datatype Exit = Returned(rc: int) | Panicked

  predicate DescReadable(d: seq<byte>) {
    && |d| >= 5
    && (Supported(ReadU16(d, 2)) ==>
          var t := ReadU16(d, 2);
          && ValueReadable(d, 5, t) && ValueReadable(d, CurrentAt(d), t) && FormAt(d) < |d|
          && (d[FormAt(d)] == RANGE_FORM ==> ValuesReadable(d, FormAt(d) + 1, t, 3))
          && (d[FormAt(d)] == ENUMERATION_FORM ==>
                FormAt(d) + 3 <= |d| && EnumReadable(d, FormAt(d) + 3, t, ReadU16(d, FormAt(d) + 1))))
  }

  function CurrentAt(d: seq<byte>): nat
    requires |d| >= 5
  {
    5 + SizeAt(d, 5, ReadU16(d, 2))
  }

  function FormAt(d: seq<byte>): nat
    requires |d| >= 5
  {
    CurrentAt(d) + SizeAt(d, CurrentAt(d), ReadU16(d, 2))
  }

  class PropDesc {
    var code: u16
    var dataType: u16
    var readOnly: byte
    var defaultValue32: u32
    var currentValue32: u32
    var currentValue: Option<seq<byte>>
    var defaultValue: Option<seq<byte>>
    var formType: byte
    var rangeMin: int
    var rangeMax: int
    var rangeStep: int
    var enumForm: Option<EnumForm>

    constructor ()
    {
    }

    /** A word goes to the 32-bit field, anything else to the pointer. */
    ghost predicate Keeps(s: Stored, word: u32, blob: Option<seq<byte>>) {
      match s
      case Word(w) => word == w
      case Copied(bytes) => blob == Some(bytes)
    }

    ghost predicate ValuesParsed(d: seq<byte>)
      requires DescReadable(d)
      reads this
    {
      var t := ReadU16(d, 2);
      && code == ReadU16(d, 0) && dataType == t && readOnly == d[4] && Supported(t)
      && Keeps(ParseData(d, 5, t).1, defaultValue32, defaultValue)
      && Keeps(ParseData(d, CurrentAt(d), t).1, currentValue32, currentValue)
      && formType == d[FormAt(d)]
    }

    ghost predicate RangeParsed(d: seq<byte>, at: nat)
      reads this
    {
      var t := dataType;
      && ValuesReadable(d, at, t, 3)
      && (var w := ParseU32(d, NthValue(d, at, t, 0), t).1; w.Some? ==> rangeMin == w.value)
      && (var w := ParseU32(d, NthValue(d, at, t, 1), t).1; w.Some? ==> rangeMax == w.value)
      && (var w := ParseU32(d, NthValue(d, at, t, 2), t).1; w.Some? ==> rangeStep == w.value)
    }

    /** The code, the type and the two values; false for a data type that makes the source panic. */
    method ParseValues(d: seq<byte>) returns (ok: bool, at: nat)
      requires DescReadable(d)
      modifies this
      ensures ok == Supported(ReadU16(d, 2))
      ensures ok ==> at == FormAt(d) + 1 && ValuesParsed(d)
    {
      hide ReadU16, ReadU32, ParseData, PropSize, ToInt;
      at := 0;
      code := ReadU16(d, at);
      at := at + 2;
      dataType := ReadU16(d, at);
      at := at + 2;
      readOnly := d[at];
      at := at + 1;
      if !Supported(dataType) { return false, at; }
      SizesAgree(d, at, dataType);
      var (size, stored) := ParseData(d, at, dataType);
      match stored {
        case Word(w) => defaultValue32 := w;
        case Copied(bytes) => defaultValue := Some(bytes);
      }
      at := at + size;
      SizesAgree(d, at, dataType);
      var (size2, stored2) := ParseData(d, at, dataType);
      match stored2 {
        case Word(w) => currentValue32 := w;
        case Copied(bytes) => currentValue := Some(bytes);
      }
      at := at + size2;
      formType := d[at];
      at := at + 1;
      ok := true;
    }

    method ParseRange(d: seq<byte>, at: nat)
      requires Supported(dataType) && ValuesReadable(d, at, dataType, 3)
      modifies this`rangeMin, this`rangeMax, this`rangeStep
      ensures RangeParsed(d, at)
    {
      hide ParseU32, PropSize, ReadU16;
      var t, p := dataType, at;
      WordSize(d, at, t, 0);
      var (size, word) := ParseU32(d, p, t);
      if word.Some? { rangeMin := word.value; }
      p := p + size;
      WordSize(d, at, t, 1);
      var (size1, word1) := ParseU32(d, p, t);
      if word1.Some? { rangeMax := word1.value; }
      p := p + size1;
      WordSize(d, at, t, 2);
      var (size2, word2) := ParseU32(d, p, t);
      if word2.Some? { rangeStep := word2.value; }
    }

    method ParseEnumeration(d: seq<byte>, at: nat) returns (rc: int)
      requires at + 2 <= |d| && EnumReadable(d, at + 2, dataType, ReadU16(d, at))
      modifies this`enumForm
      ensures if ValuesReadable(d, at + 2, dataType, ReadU16(d, at)) then
                NthValueGrows(d, at + 2, dataType, ReadU16(d, at));
                rc == 0 && enumForm == Some(EnumForm(ReadU16(d, at),
                  d[at + 2..NthValue(d, at + 2, dataType, ReadU16(d, at))]))
              else rc == -1 && enumForm == old(enumForm)
    {
      hide ReadU16, PropSize;
      var t, numValues, from := dataType, ReadU16(d, at), at + 2;
      var length := 0;
      var i := 0;
      while i < numValues
        invariant enumForm == old(enumForm)
        invariant 0 <= i <= numValues && ValuesReadable(d, from, t, i) && from + length == NthValue(d, from, t, i)
      {
        NthValueGrows(d, from, t, i);
        var size := PropSize(d, from + length, t);
        if size < 0 {
          assert !ValueReadable(d, NthValue(d, from, t, i), t);
          return -1;
        }
        length := length + size;
        i := i + 1;
      }
      NthValueGrows(d, from, t, numValues);
      enumForm := Some(EnumForm(numValues, d[from..from + length]));
      rc := 0;
    }

    /** ptp_parse_prop_desc */
    method Parse(d: seq<byte>) returns (exit: Exit)
      requires DescReadable(d)
      modifies this
      ensures exit.Panicked? <==> !Supported(ReadU16(d, 2)) || d[FormAt(d)] !in {RANGE_FORM, ENUMERATION_FORM}
      ensures exit.Returned? ==> ValuesParsed(d)
      ensures exit.Returned? && formType == RANGE_FORM ==> exit.rc == 0 && RangeParsed(d, FormAt(d) + 1)
      ensures exit.Returned? && formType == ENUMERATION_FORM ==>
                var at, n := FormAt(d) + 3, ReadU16(d, FormAt(d) + 1);
                if ValuesReadable(d, at, dataType, n) then
                  NthValueGrows(d, at, dataType, n);
                  exit.rc == 0 && enumForm == Some(EnumForm(n, d[at..NthValue(d, at, dataType, n)]))
                else exit.rc == -1
    {
      hide ReadU16, ReadU32, EnumReadable, ValuesReadable, NthValue, ParseU32, ParseData, PropSize;
      var ok, at := ParseValues(d);
      if !ok { return Panicked; }
      if formType == RANGE_FORM {
        ParseRange(d, at);
        return Returned(0);
      } else if formType == ENUMERATION_FORM {
        var rc := ParseEnumeration(d, at);
        return Returned(rc);
      } else {
        return Panicked;
      }
    }

    /** The walk that ptp_prop_desc_json makes over the copied enumeration; for arrays and strings it panics
        before it begins. */
    method WalkEnumeration() returns (panic: bool, of: nat, stored: seq<Stored>)
      requires enumForm.Some? && Supported(dataType)
      requires Width(dataType) > 0 ==> ValuesReadable(enumForm.value.data, 0, dataType, enumForm.value.length)
      ensures panic <==> Width(dataType) == 0
      ensures !panic ==>
                && of == NthValue(enumForm.value.data, 0, dataType, enumForm.value.length)
                && |stored| == enumForm.value.length
                && forall i :: 0 <= i < |stored| ==>
                     Reads(enumForm.value.data, NthValue(enumForm.value.data, 0, dataType, i), dataType, stored[i])
    {
      hide ParseData, PropSize, Reads, NthValue;
      var data, t := enumForm.value.data, dataType;
      panic, of, stored := Width(t) == 0, 0, [];
      if panic { return; }
      StartOfValues(data, 0, t);
      for i := 0 to enumForm.value.length
        invariant of == NthValue(data, 0, t, i) && |stored| == i
        invariant forall k :: 0 <= k < i ==> Reads(data, NthValue(data, 0, t, k), t, stored[k])
      {
        OneValue(data, 0, t, i, enumForm.value.length);
        var (size, value) := ParseData(data, of, t);
        stored := stored + [value];
        of := of + size;
      }
    }

    /** The two values, and the range, of an encoded dataset come back: words up to sign for INT8, bytes for
        the wider types. */
    lemma Recovers(d: seq<byte>, v: Desc)
      requires WellTyped(v) && At(d, 0, EncodeDesc(v)) && DescReadable(d) && ValuesParsed(d)
      ensures code == v.code && dataType == v.dataType && readOnly == v.readOnly
      ensures Recovered(dataType, v.default_, defaultValue32, defaultValue) <==> !LostSign(dataType, v.default_)
      ensures Recovered(dataType, v.current, currentValue32, currentValue) <==> !LostSign(dataType, v.current)
    {
      hide ReadU16, EncodeValue, ParseData, PropSize, OfType, At, Recovered, LostSign, EncodeDesc, ValueReadable;
      DescParts(d, v);
      EncodedDescParses(d, v);
      KeptIsRecovered(d, 5, dataType, v.default_, defaultValue32, defaultValue);
      KeptIsRecovered(d, CurrentAt(d), dataType, v.current, currentValue32, currentValue);
    }

    /** The range of an encoded dataset of numbers of up to four bytes comes back exactly when each bound is
        an int that its type does not spoil. */
    lemma RecoversRange(d: seq<byte>, v: Desc, min: int, max: int, step: int)
      requires WellTyped(v) && v.form == Range(Number(min), Number(max), Number(step)) && Width(v.dataType) <= 4
      requires At(d, 0, EncodeDesc(v)) && DescReadable(d) && ValuesParsed(d)
      requires RangeParsed(d, FormAt(d) + 1)
      ensures rangeMin == min <==> !LostSign(dataType, Number(min)) && min < INT_MAX_PLUS_1
      ensures rangeMax == max <==> !LostSign(dataType, Number(max)) && max < INT_MAX_PLUS_1
      ensures rangeStep == step <==> !LostSign(dataType, Number(step)) && step < INT_MAX_PLUS_1
    {
      hide ReadU16, EncodeValue, EncodeValues, ParseU32, ParseData, PropSize, At, EncodeDesc, ValueReadable, NthValue;
      EncodedDescParses(d, v);
      var t, at, vs := v.dataType, FormAt(d) + 1, [Number(min), Number(max), Number(step)];
      ValuesBack(d, at, t, vs);
      assert vs[0] == Number(min) && vs[1] == Number(max) && vs[2] == Number(step);
      RangeWordBack(d, NthValue(d, at, t, 0), t, min);
      RangeWordBack(d, NthValue(d, at, t, 1), t, max);
      RangeWordBack(d, NthValue(d, at, t, 2), t, step);
    }
  }

  /** The source widens 8-bit values without their sign. */
  predicate LostSign(t: u16, v: PropValue) {
    t == INT8 && v.Number? && v.n < 0
  }

  /** The stored word means v, or the stored bytes are v's. */
  predicate Recovered(t: u16, v: PropValue, word: u32, blob: Option<seq<byte>>)
    requires OfType(t, v)
  {
    if v.Number? && Width(t) <= 4 then AsType(t, word) == v.n else blob == Some(EncodeValue(t, v))
  }

  lemma KeptIsRecovered(d: seq<byte>, at: nat, t: u16, v: PropValue, word: u32, blob: Option<seq<byte>>)
    requires OfType(t, v) && At(d, at, EncodeValue(t, v)) && Supported(t) && ValueReadable(d, at, t)
    requires match ParseData(d, at, t).1 case Word(w) => word == w case Copied(bytes) => blob == Some(bytes)
    ensures Recovered(t, v, word, blob) <==> !LostSign(t, v)
  {
    hide EncodeValue, At, ValueReadable, PropSize, AsType, ParseData;
    ValueSize(d, at, t, v);
    if v.Number? && Width(t) <= 4 {
      WordBack(d, at, t, v.n);
    }
  }

  /** The value at offset at is stored as s. */
  predicate Reads(d: seq<byte>, at: nat, t: u16, s: Stored) {
    Supported(t) && ValueReadable(d, at, t) && s == ParseData(d, at, t).1
  }

  lemma StartOfValues(d: seq<byte>, at: nat, t: u16)
    ensures NthValue(d, at, t, 0) == at
  {
  }

  lemma OneValue(d: seq<byte>, at: nat, t: u16, k: nat, n: nat)
    requires Supported(t) && ValuesReadable(d, at, t, n) && k < n
    ensures var p := NthValue(d, at, t, k);
            && ValueReadable(d, p, t) && NthValue(d, at, t, k + 1) == p + ParseData(d, p, t).0
            && Reads(d, p, t, ParseData(d, p, t).1)
  {
    hide ParseData, PropSize;
    assert ValueReadable(d, NthValue(d, at, t, k), t);
    SizesAgree(d, NthValue(d, at, t, k), t);
  }

  lemma WordSize(d: seq<byte>, at: nat, t: u16, k: nat)
    requires Supported(t) && ValuesReadable(d, at, t, k + 1)
    ensures NthValue(d, at, t, 0) == at
    ensures var p := NthValue(d, at, t, k);
            ValueReadable(d, p, t) && NthValue(d, at, t, k + 1) == p + ParseU32(d, p, t).0
  {
    SizesAgree(d, NthValue(d, at, t, k), t);
    hide ParseU32, PropSize;
    assert ValueReadable(d, NthValue(d, at, t, k), t);
  }

  /** The enumeration is given up exactly when one of its values has a negative size. */
  lemma {:induction false} FailureIsNegativeSize(d: seq<byte>, at: nat, t: u16, n: nat)
    requires EnumReadable(d, at, t, n)
    ensures ValuesReadable(d, at, t, n) <==> forall k :: 0 <= k < n ==> !FailsAt(d, at, t, k)
  {
    hide PropSize, NthValue;
    if n > 0 {
      FailureIsNegativeSize(d, at, t, n - 1);
      if ValuesReadable(d, at, t, n - 1) {
        assert FailsAt(d, at, t, n - 1) <==> !ValueReadable(d, NthValue(d, at, t, n - 1), t);
      }
    }
  }

  // ---- what a device's own encoding parses to ----

  lemma DescParts(d: seq<byte>, v: Desc)
    requires WellTyped(v) && At(d, 0, EncodeDesc(v))
    ensures |d| >= 5 && ReadU16(d, 0) == v.code && ReadU16(d, 2) == v.dataType && d[4] == v.readOnly
    ensures var e := 5 + |EncodeValue(v.dataType, v.default_)|;
            && At(d, 5, EncodeValue(v.dataType, v.default_)) && At(d, e, EncodeValue(v.dataType, v.current))
            && At(d, e + |EncodeValue(v.dataType, v.current)|, EncodeForm(v))
  {
    hide U16, ReadU16, EncodeValue, EncodeForm, OfType;
    var t := v.dataType;
    var e1 := U16(v.code);
    var e2 := e1 + U16(t);
    var e3 := e2 + [v.readOnly];
    var e4 := e3 + EncodeValue(t, v.default_);
    AtConcat(d, 0, e4 + EncodeValue(t, v.current), EncodeForm(v));
    AtConcat(d, 0, e4, EncodeValue(t, v.current));
    AtConcat(d, 0, e3, EncodeValue(t, v.default_));
    AtConcat(d, 0, e2, [v.readOnly]);
    AtConcat(d, 0, e1, U16(t));
    ReadBackU16(d, 0, v.code);
    ReadBackU16(d, 2, t);
    assert d[4] == d[4..5][0];
  }

  lemma FormParts(d: seq<byte>, at: nat, v: Desc)
    requires WellTyped(v) && At(d, at, EncodeForm(v))
    ensures at < |d| && d[at] == if v.form.Range? then RANGE_FORM else ENUMERATION_FORM
    ensures v.form.Range? ==> At(d, at + 1, EncodeValues(v.dataType, [v.form.min, v.form.max, v.form.step]))
    ensures v.form.Enumeration? ==>
            at + 3 <= |d| && ReadU16(d, at + 1) == |v.form.values|
              && At(d, at + 3, EncodeValues(v.dataType, v.form.values))
  {
    hide U16, ReadU16, EncodeValues, OfType;
    var t := v.dataType;
    match v.form
    case Range(min, max, step) =>
      AtConcat(d, at, [RANGE_FORM], EncodeValues(t, [min, max, step]));
      assert d[at] == d[at..at + 1][0];
    case Enumeration(values) =>
      AtConcat(d, at, [ENUMERATION_FORM], U16(|values|) + EncodeValues(t, values));
      AtConcat(d, at + 1, U16(|values|), EncodeValues(t, values));
      ReadBackU16(d, at + 1, |values|);
      assert d[at] == d[at..at + 1][0];
  }

  lemma AllReadable(d: seq<byte>, at: nat, t: u16, n: nat)
    requires ValuesReadable(d, at, t, n)
    ensures EnumReadable(d, at, t, n)
  {
  }

  /** Every encoded dataset is readable and raises no panic; its enumeration is exactly the encoded values. */
  lemma EncodedDescParses(d: seq<byte>, v: Desc)
    requires WellTyped(v) && At(d, 0, EncodeDesc(v))
    ensures DescReadable(d) && Supported(v.dataType) && ReadU16(d, 2) == v.dataType
    ensures At(d, 5, EncodeValue(v.dataType, v.default_)) && At(d, CurrentAt(d), EncodeValue(v.dataType, v.current))
    ensures d[FormAt(d)] == if v.form.Range? then RANGE_FORM else ENUMERATION_FORM
    ensures v.form.Range? ==> At(d, FormAt(d) + 1, EncodeValues(v.dataType, [v.form.min, v.form.max, v.form.step]))
    ensures v.form.Enumeration? ==>
              var at, n := FormAt(d) + 3, |v.form.values|;
              && ReadU16(d, FormAt(d) + 1) == n && ValuesReadable(d, at, v.dataType, n)
              && at <= NthValue(d, at, v.dataType, n) <= |d|
              && d[at..NthValue(d, at, v.dataType, n)] == EncodeValues(v.dataType, v.form.values)
  {
    hide ReadU16, EncodeValue, EncodeValues, EncodeForm, OfType, ParseData, NthValue, ValueReadable, PropSize, At,
      EnumReadable, ValuesReadable;
    DescParts(d, v);
    ValueSize(d, 5, v.dataType, v.default_);
    ValueSize(d, 5 + |EncodeValue(v.dataType, v.default_)|, v.dataType, v.current);
    FormParts(d, FormAt(d), v);
    match v.form
    case Range(min, max, step) =>
      ValuesBack(d, FormAt(d) + 1, v.dataType, [min, max, step]);
    case Enumeration(values) =>
      ValuesBack(d, FormAt(d) + 3, v.dataType, values);
      AllReadable(d, FormAt(d) + 3, v.dataType, |values|);
      AtSlice(d, FormAt(d) + 3, EncodeValues(v.dataType, values));
  }

  /** The walk reads value v at offset at. */
  predicate Visits(d: seq<byte>, at: nat, t: u16, v: PropValue)
    requires OfType(t, v)
  {
    && Supported(t) && ValueReadable(d, at, t)
    && match ParseData(d, at, t).1
       case Word(w) => v.Number? && (AsType(t, w) == v.n <==> !LostSign(t, v))
       case Copied(bytes) => bytes == EncodeValue(t, v)
  }

  /** Walking the copy of an encoded enumeration visits every value once and ends exactly at its end. */
  lemma WalkVisitsTheValues(t: u16, vs: seq<PropValue>)
    requires forall i :: 0 <= i < |vs| ==> OfType(t, vs[i])
    ensures var data := EncodeValues(t, vs);
            && ValuesReadable(data, 0, t, |vs|) && NthValue(data, 0, t, |vs|) == |data|
            && forall i :: 0 <= i < |vs| ==> Visits(data, NthValue(data, 0, t, i), t, vs[i])
  {
    hide EncodeValues, EncodeValue, NthValue, ValuesReadable, Visits;
    var data := EncodeValues(t, vs);
    assert At(data, 0, data);
    ValuesBack(data, 0, t, vs);
    forall i | 0 <= i < |vs| ensures Visits(data, NthValue(data, 0, t, i), t, vs[i]) {
      EncodedIsVisited(data, NthValue(data, 0, t, i), t, vs[i]);
    }
  }

  lemma EncodedIsVisited(d: seq<byte>, at: nat, t: u16, v: PropValue)
    requires OfType(t, v) && At(d, at, EncodeValue(t, v))
    ensures Visits(d, at, t, v)
  {
    hide EncodeValue, ValueReadable, PropSize, AsType, ParseData, At;
    ValueSize(d, at, t, v);
    StoredKind(d, at, t);
    if v.Number? && Width(t) <= 4 {
      WordBack(d, at, t, v.n);
    }
  }

  lemma StoredKind(d: seq<byte>, at: nat, t: u16)
    requires Supported(t) && ValueReadable(d, at, t)
    ensures ParseData(d, at, t).1.Word? <==> Width(t) in {1, 2, 4}
  {
  }

  /** -1 in eight bits is read as 255. */
  lemma SignIsLost()
    ensures var d := EncodeValue(INT8, Number(-1));
            OfType(INT8, Number(-1)) && ValueReadable(d, 0, INT8) && ParseData(d, 0, INT8).1 == Word(255)
              && AsType(INT8, 255) == 255
  {
  }

  /** A range bound of 2^31 in an unsigned type is read as -2^31. */
  lemma BoundIsLost()
    ensures var d := EncodeValue(UINT32, Number(0x8000_0000));
            && OfType(UINT32, Number(0x8000_0000)) && ValueReadable(d, 0, UINT32)
            && ParseU32(d, 0, UINT32).1 == Some(-0x8000_0000)
  {
  }
}
