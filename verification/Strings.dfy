/** PTP strings (section 3.2.3 of MTP 1.1) as src/data.c reads and writes them: a count of 16-bit
    characters, terminator included, and the characters; an empty string is a single zero byte. */
module PtpStrings {
  import opened Bytes

  // ---- C strings in fixed-size fields ----

  /** strlen, for a field that may lack its terminator. */
  function StrLen(f: seq<byte>): (n: nat)
    ensures n <= |f| && (forall i :: 0 <= i < n ==> f[i] != 0) && (n < |f| ==> f[n] == 0)
  {
    if f == [] || f[0] == 0 then 0 else 1 + StrLen(f[1..])
  }

  predicate Terminated(f: seq<byte>) {
    StrLen(f) < |f|
  }

  function Text(f: seq<byte>): seq<byte> {
    f[..StrLen(f)]
  }

  predicate NoNul(s: seq<byte>) {
    forall i :: 0 <= i < |s| ==> s[i] != 0
  }

  lemma TextIs(f: seq<byte>, s: seq<byte>)
    requires NoNul(s) && |s| < |f| && f[..|s|] == s && f[|s|] == 0
    ensures Terminated(f) && Text(f) == s
  {
    assert forall i :: 0 <= i < |s| ==> f[i] == s[i];
  }

  // ---- the wire form ----

  /** The 16-bit characters of s. */
  function Wide(s: seq<byte>): (w: seq<byte>)
    ensures |w| == 2 * |s|
  {
    seq(2 * |s|, p requires 0 <= p < 2 * |s| => if p % 2 == 0 then s[p / 2] else 0)
  }

  /** The string s on the wire; the count is one byte wide. */
  function EncodeString(s: seq<byte>): (e: seq<byte>)
    ensures |e| == if s == [] then 1 else 3 + 2 * |s|
  {
    if s == [] then [0] else [(|s| + 1) % 0x100] + (Wide(s) + [0, 0])
  }

  /** What the reader makes of one character: a question mark beyond 128, a space for a control character. */
  function Sanitise(c: u16): (b: byte)
    ensures (c > 128 ==> b == 63) && (1 <= c <= 31 ==> b == 32) && (c == 0 || 32 <= c <= 128 ==> b == c)
  {
    if c > 128 then '?' as int else if c != 0 && c < 32 then ' ' as int else c
  }

  /** t is s with '?' for the characters beyond 128 and a space for those from 1 to 31. */
  predicate CharByChar(s: seq<byte>, t: seq<byte>) {
    |t| == |s| && forall j :: 0 <= j < |s| ==> t[j] == if s[j] > 128 then 63 else if 1 <= s[j] <= 31 then 32 else s[j]
  }

  predicate Plain(s: seq<byte>) {
    forall i :: 0 <= i < |s| ==> 32 <= s[i] <= 128
  }

  function Sanitised(s: seq<byte>): (t: seq<byte>)
    ensures CharByChar(s, t)
  {
    seq(|s|, i requires 0 <= i < |s| => Sanitise(s[i]))
  }

  lemma SanitisedIsPlain(s: seq<byte>)
    requires NoNul(s)
    ensures Plain(Sanitised(s))
  {
  }

  lemma PlainIsSanitised(s: seq<byte>)
    requires Plain(s)
    ensures NoNul(s) && Sanitised(s) == s
  {
  }

  // ---- reading ----

  /** The characters consumed for a count of n and a field of max bytes. */
  function Taken(n: byte, max: nat): (k: nat)
    requires max >= 2
    ensures k < max && k <= n && (n > 0 ==> k > 0)
  {
    if n < max then n else max - 1
  }

  predicate StringReadable(d: seq<byte>, at: nat, max: nat)
  {
    max >= 2 && at < |d| && at + 1 + 2 * Taken(d[at], max) <= |d|
  }

  function ReadLength(d: seq<byte>, at: nat, max: nat): (of: nat)
    requires StringReadable(d, at, max)
    ensures at + of <= |d|
  {
    1 + 2 * Taken(d[at], max)
  }

  /** The field after the first i characters are stored. */
  function Stored(d: seq<byte>, at: nat, field: seq<byte>, i: nat): (f: seq<byte>)
    requires StringReadable(d, at, |field|) && i <= Taken(d[at], |field|)
    ensures |f| == |field| && f[i..] == field[i..]
    ensures forall j :: 0 <= j < i ==> f[j] == Sanitise(ReadU16(d, at + 1 + 2 * j))
  {
    seq(|field|, j requires 0 <= j < |field| => if j < i then Sanitise(ReadU16(d, at + 1 + 2 * j)) else field[j])
  }

  /** The field after the whole string is read: terminated only if the last character taken was. */
  function ReadField(d: seq<byte>, at: nat, field: seq<byte>): (f: seq<byte>)
    requires StringReadable(d, at, |field|)
    ensures |f| == |field|
  {
    var k := Taken(d[at], |field|);
    var f := Stored(d, at, field, k);
    if k == 0 || f[k - 1] == 0 then f[k := 0] else f
  }

  /** Character by character: '?' beyond 128, a space for 1 to 31, and the character itself otherwise; as many as
      counted but one less than the field holds.  What follows a terminator, or a last character that is none,
      stays as it was. */
  lemma FieldIs(d: seq<byte>, at: nat, field: seq<byte>)
    requires StringReadable(d, at, |field|)
    ensures var k, f := Min(d[at], |field| - 1), ReadField(d, at, field);
            && ReadLength(d, at, |field|) == 1 + 2 * k
            && (forall j :: 0 <= j < k ==>
                 var c := ReadU16(d, at + 1 + 2 * j);
                 f[j] == if c > 128 then 63 else if 1 <= c <= 31 then 32 else c)
            && f[k] == (if k == 0 || f[k - 1] == 0 then 0 else field[k])
            && f[k + 1..] == field[k + 1..]
  {
    hide ReadU16;
    var k, f := Taken(d[at], |field|), ReadField(d, at, field);
    forall i | k < i < |field| ensures f[i] == field[i] {
    }
  }

  /** ptp_read_string */
  method ReadString(d: seq<byte>, at: nat, str: array<byte>) returns (of: nat)
    requires StringReadable(d, at, str.Length)
    modifies str
    ensures str[..] == ReadField(d, at, old(str[..]))
    ensures of == ReadLength(d, at, str.Length)
  {
    ghost var field := str[..];
    var length := d[at];
    of := 1;
    if length == 0 {
      str[0] := 0;
      assert str[..] == field[0 := 0] == Stored(d, at, field, 0)[0 := 0];
      return;
    }
    var i := 0;
    var wchr: u16 := 0;
    while i < length
      invariant 0 <= i <= Taken(length, str.Length) && of == 1 + 2 * i
      invariant str[..] == Stored(d, at, field, i)
      invariant i > 0 ==> wchr == str[i - 1]
      invariant i < length ==> i < Taken(length, str.Length)
    {
      wchr := ReadU16(d, at + of);
      of := of + 2;
      if wchr > 128 {
        wchr := '?' as int;
      } else if wchr != 0 && wchr < 32 {
        wchr := ' ' as int;
      }
      str[i] := wchr;
      i := i + 1;
      assert str[..] == Stored(d, at, field, i);
      if i >= str.Length - 1 { break; }
    }
    if wchr == 0 {
      str[i] := 0;
    }
    assert str[..] == ReadField(d, at, field);
  }

  // ---- writing ----

  /** The buffer after the count and the first i characters of s are stored. */
  function Partial(before: seq<byte>, at: nat, s: seq<byte>, i: nat): (d: seq<byte>)
    requires i <= |s| && at + 1 + 2 * i <= |before|
    ensures |d| == |before|
  {
    before[..at] + [(|s| + 1) % 0x100] + Wide(s)[..2 * i] + before[at + 1 + 2 * i..]
  }

  lemma PartialStart(before: seq<byte>, at: nat, s: seq<byte>)
    requires at < |before|
    ensures Partial(before, at, s, 0) == before[at := (|s| + 1) % 0x100]
  {
  }

  lemma PartialStep(before: seq<byte>, at: nat, s: seq<byte>, i: nat)
    requires i < |s| && at + 3 + 2 * i <= |before|
    ensures Partial(before, at, s, i)[at + 1 + 2 * i := s[i]][at + 2 + 2 * i := 0] == Partial(before, at, s, i + 1)
  {
    assert Wide(s)[..2 * i + 2] == Wide(s)[..2 * i] + [s[i], 0];
    hide Wide;
    var left, k := before[..at] + [(|s| + 1) % 0x100] + Wide(s)[..2 * i], at + 1 + 2 * i;
    assert (left + before[k..])[k := s[i]][k + 1 := 0] == left + [s[i], 0] + before[k + 2..];
    assert left + [s[i], 0] == before[..at] + [(|s| + 1) % 0x100] + (Wide(s)[..2 * i] + [s[i], 0]);
  }

  lemma PartialEnd(before: seq<byte>, at: nat, s: seq<byte>)
    requires s != [] && at + 3 + 2 * |s| <= |before|
    ensures var k := at + 1 + 2 * |s|;
            Partial(before, at, s, |s|)[k := 0][k + 1 := 0] == before[..at] + EncodeString(s) + before[k + 2..]
  {
    hide Wide;
    assert Wide(s)[..2 * |s|] == Wide(s);
    var left, k := before[..at] + [(|s| + 1) % 0x100] + Wide(s), at + 1 + 2 * |s|;
    assert (left + before[k..])[k := 0][k + 1 := 0] == left + [0, 0] + before[k + 2..];
    assert left + [0, 0] == before[..at] + ([(|s| + 1) % 0x100] + (Wide(s) + [0, 0]));
  }

  /** ptp_write_string */
  method WriteString(dat: array<byte>, at: nat, str: array<byte>) returns (of: nat)
    requires dat != str && Terminated(str[..]) && at + |EncodeString(Text(str[..]))| <= dat.Length
    modifies dat
    ensures of == |EncodeString(Text(str[..]))|
    ensures dat[..] == old(dat[..at]) + EncodeString(Text(str[..])) + old(dat[at + of..])
  {
    hide EncodeString, Text, Partial, Wide;
    ghost var s, before := Text(str[..]), dat[..];
    TextFacts(str[..]);
    EncodeLength(s);
    var length := StrLen(str[..]);
    if length == 0 {
      dat[at] := 0;
      assert EncodeString(s) == [0] by { EmptyString(); }
      assert dat[..] == before[..at] + [0] + before[at + 1..];
      return 1;
    }
    dat[at] := (length + 1) % 0x100;
    of := 1;
    PartialStart(before, at, s);
    var i := 0;
    while i < length
      invariant 0 <= i <= length && of == 1 + 2 * i && dat[..] == Partial(before, at, s, i)
    {
      PartialStep(before, at, s, i);
      dat[at + of] := str[i];
      dat[at + of + 1] := 0;
      of := of + 2;
      i := i + 1;
    }
    PartialEnd(before, at, s);
    dat[at + of], dat[at + of + 1] := 0, 0;
    of := of + 2;
  }

  lemma EmptyString()
    ensures EncodeString([]) == [0]
  {
  }

  lemma TextFacts(f: seq<byte>)
    ensures |Text(f)| == StrLen(f) && forall i :: 0 <= i < StrLen(f) ==> f[i] == Text(f)[i]
  {
  }

  lemma EncodeLength(s: seq<byte>)
    ensures |EncodeString(s)| == if s == [] then 1 else 3 + 2 * |s|
  {
  }

  // ---- round trips ----

  /** The count and the characters of an encoded string, where the reader looks for them. */
  lemma EncodedAt(d: seq<byte>, at: nat, s: seq<byte>)
    requires At(d, at, EncodeString(s))
    ensures d[at] == if s == [] then 0 else (|s| + 1) % 0x100
    ensures forall j :: 0 <= j < |s| ==> ReadU16(d, at + 1 + 2 * j) == s[j]
    ensures s != [] ==> ReadU16(d, at + 1 + 2 * |s|) == 0
  {
    var e := d[at..at + |EncodeString(s)|];
    assert forall i :: 0 <= i < |e| ==> e[i] == d[at + i];
    forall j | 0 <= j < |s| ensures ReadU16(d, at + 1 + 2 * j) == s[j] {
      assert e[1 + 2 * j] == Wide(s)[2 * j] == s[j] && e[2 + 2 * j] == Wide(s)[2 * j + 1] == 0;
    }
    if s != [] {
      assert e[1 + 2 * |s|] == 0 && e[2 + 2 * |s|] == 0;
    }
  }

  /** A string that fits its field comes back as its sanitised self, and the reader stops where the
      writer did. */
  lemma ReadsBack(d: seq<byte>, at: nat, s: seq<byte>, field: seq<byte>)
    requires NoNul(s) && At(d, at, EncodeString(s)) && |field| >= 2
    requires |s| <= |field| - 2 && |s| <= 254
    ensures StringReadable(d, at, |field|) && ReadLength(d, at, |field|) == |EncodeString(s)|
    ensures Terminated(ReadField(d, at, field)) && Text(ReadField(d, at, field)) == Sanitised(s)
    ensures var t := Text(ReadField(d, at, field));
            |t| == |s| && forall j :: 0 <= j < |s| ==>
              t[j] == if s[j] > 128 then 63 else if 1 <= s[j] <= 31 then 32 else s[j]
  {
    hide EncodeString, Text, ReadField, ReadLength, Sanitised, NoNul;
    FieldHolds(d, at, s, field);
    SanitisedIsPlain(s);
    PlainIsSanitised(Sanitised(s));
    TextIs(ReadField(d, at, field), Sanitised(s));
  }

  lemma FieldHolds(d: seq<byte>, at: nat, s: seq<byte>, field: seq<byte>)
    requires NoNul(s) && At(d, at, EncodeString(s)) && |field| >= 2 && |s| <= |field| - 2 && |s| <= 254
    ensures StringReadable(d, at, |field|) && ReadLength(d, at, |field|) == |EncodeString(s)|
    ensures ReadField(d, at, field)[..|s|] == Sanitised(s) && ReadField(d, at, field)[|s|] == 0
  {
    hide EncodeString, Text, ReadU16;
    EncodedAt(d, at, s);
    EncodeLength(s);
    var f := ReadField(d, at, field);
    forall j | 0 <= j < |s| ensures f[j] == Sanitised(s)[j] {
    }
    SanitisedIsPlain(s);
  }

  /** Exactly the strings that leave room for a terminator, and whose count fits a byte, keep reader and
      writer in step. */
  lemma CursorsAgree(d: seq<byte>, at: nat, s: seq<byte>, max: nat)
    requires At(d, at, EncodeString(s)) && max >= 2
    ensures StringReadable(d, at, max)
    ensures ReadLength(d, at, max) == |EncodeString(s)| <==> s == [] || |s| <= Min(max - 2, 254)
  {
    hide EncodeString, ReadU16;
    EncodedAt(d, at, s);
    EncodeLength(s);
  }

  /** A longer string loses its tail and its terminator: the last byte of the field is left as it was. */
  lemma TooLongIsUnterminated(d: seq<byte>, at: nat, s: seq<byte>, field: seq<byte>)
    requires NoNul(s) && At(d, at, EncodeString(s)) && |field| >= 2 && |field| - 1 <= |s| <= 254
    ensures StringReadable(d, at, |field|)
    ensures ReadField(d, at, field) == Sanitised(s)[..|field| - 1] + [field[|field| - 1]]
  {
    hide EncodeString, ReadU16;
    EncodedAt(d, at, s);
    EncodeLength(s);
    SanitisedIsPlain(s);
    var k, f := |field| - 1, ReadField(d, at, field);
    assert Taken(d[at], |field|) == k;
    forall j | 0 <= j < k ensures f[j] == Sanitised(s)[j] {
    }
  }

  /** Three characters in a field of four: the reader leaves the two bytes of the terminator behind, and the
      field keeps its last byte. */
  lemma ThreeInFour(s: seq<byte>, field: seq<byte>)
    requires |s| == 3 && NoNul(s) && |field| == 4
    ensures var d := EncodeString(s);
            && |d| == 9 && StringReadable(d, 0, 4) && ReadLength(d, 0, 4) == 7
            && ReadField(d, 0, field) == Sanitised(s) + [field[3]]
  {
    hide EncodeString, ReadField, ReadU16, NoNul, Sanitised;
    var d := EncodeString(s);
    EncodeLength(s);
    assert At(d, 0, d);
    EncodedAt(d, 0, s);
    TooLongIsUnterminated(d, 0, s, field);
    assert Sanitised(s)[..3] == Sanitised(s);
  }

  /** If that byte was not zero, the field is left without a terminator. */
  lemma ReaderSlips()
    ensures var d := EncodeString([65, 66, 67]);
            && |d| == 9 && StringReadable(d, 0, 4) && ReadLength(d, 0, 4) == 7
            && ReadField(d, 0, [1, 1, 1, 1]) == [65, 66, 67, 1] && !Terminated([65, 66, 67, 1])
  {
    hide EncodeString, StringReadable, ReadLength, ReadField, Sanitised;
    ThreeInFour([65, 66, 67], [1, 1, 1, 1]);
    PlainIsSanitised([65, 66, 67]);
    NoNulLength([65, 66, 67, 1]);
  }

  lemma NoNulLength(f: seq<byte>)
    requires NoNul(f)
    ensures StrLen(f) == |f|
  {
  }
}
