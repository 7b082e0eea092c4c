/** The little-endian byte codecs of src/libpict.h, and the vocabulary the other modules use to speak
    about bytes laid out in a buffer. */
module Bytes {

  type byte = b: int | 0 <= b < 0x100
  type u16 = x: int | 0 <= x < 0x1_0000
  type u32 = x: int | 0 <= x < 0x1_0000_0000
  type u64 = x: int | 0 <= x < 0x1_0000_0000_0000_0000

  const U32_MOD := 0x1_0000_0000
  const INT_MAX_PLUS_1 := 0x8000_0000

  function Min(a: int, b: int): int {
    if a < b then a else b
  }

  /** (int)x, which keeps 32 bits. */
  function ToInt(x: int): (y: int)
    ensures -INT_MAX_PLUS_1 <= y < INT_MAX_PLUS_1 && (y - x) % U32_MOD == 0
  {
    (x + INT_MAX_PLUS_1) % U32_MOD - INT_MAX_PLUS_1
  }

  lemma Times(a: nat, b: nat, n: nat)
    requires a <= b
    ensures a * n <= b * n && (a + 1) * n == a * n + n
  {
  }

  function U16(x: u16): (s: seq<byte>)
    ensures |s| == 2
  {
    [x % 0x100, x / 0x100]
  }

  function U32(x: u32): (s: seq<byte>)
    ensures |s| == 4
  {
    [x % 0x100, x / 0x100 % 0x100, x / 0x1_0000 % 0x100, x / 0x100_0000]
  }

  function U64(x: u64): (s: seq<byte>)
    ensures |s| == 8
  {
    U32(x % U32_MOD) + U32(x / U32_MOD)
  }

  function ReadU16(s: seq<byte>, of: nat): u16
    requires of + 2 <= |s|
  {
    var lo: int, hi: int := s[of], s[of + 1];
    lo + 0x100 * hi
  }

  function ReadU32(s: seq<byte>, of: nat): u32
    requires of + 4 <= |s|
  {
    var b0: int, b1: int, b2: int, b3: int := s[of], s[of + 1], s[of + 2], s[of + 3];
    b0 + 0x100 * b1 + 0x1_0000 * b2 + 0x100_0000 * b3
  }

  function ReadU64(s: seq<byte>, of: nat): u64
    requires of + 8 <= |s|
  {
    ReadU32(s, of) + U32_MOD * ReadU32(s, of + 4)
  }

  /** The bytes e lie in s at offset of. */
  predicate At(s: seq<byte>, of: nat, e: seq<byte>) {
    of + |e| <= |s| && s[of..of + |e|] == e
  }

  lemma AtConcat(s: seq<byte>, of: nat, a: seq<byte>, b: seq<byte>)
    ensures At(s, of, a + b) <==> At(s, of, a) && At(s, of + |a|, b)
  {
    if At(s, of, a + b) {
      assert s[of..of + |a|] == s[of..of + |a + b|][..|a|];
      assert s[of + |a|..of + |a| + |b|] == s[of..of + |a + b|][|a|..];
    }
  }

  lemma AtSlice(s: seq<byte>, of: nat, e: seq<byte>)
    requires At(s, of, e)
    ensures of + |e| <= |s| && s[of..of + |e|] == e
  {
  }

  lemma PrefixGrows(a: seq<byte>, d: seq<byte>, k: nat)
    requires k <= |d|
    ensures a + d[..k] <= a + d
  {
  }

  lemma SliceOfPrefix(s: seq<byte>, d: seq<byte>, i: nat, j: nat)
    requires i <= j <= |d| <= |s| && s[..|d|] == d
    ensures s[i..j] == d[i..j]
  {
    assert s[..|d|][i..j] == s[i..j];
  }

  lemma SliceJoin(a: seq<byte>, d: seq<byte>, i: nat, j: nat)
    requires i <= j <= |d|
    ensures a + d[..i] + d[i..j] == a + d[..j]
  {
    assert d[..i] + d[i..j] == d[..j];
  }

  /** At is unaffected by what surrounds the bytes it speaks about. */
  lemma AtPrefix(s: seq<byte>, t: seq<byte>, of: nat, e: seq<byte>)
    requires of + |e| <= |s| <= |t| && s == t[..|s|]
    ensures At(s, of, e) <==> At(t, of, e)
  {
    assert s[of..of + |e|] == t[of..of + |e|];
  }

  /** The four bytes of x weigh x. */
  lemma SplitU32(x: u32)
    ensures ReadU32(U32(x), 0) == x
  {
    var y: int := x / 0x100;
    var z: int := y / 0x100;
    assert z == x / 0x1_0000 && z / 0x100 == x / 0x100_0000;
  }

  /** Four bytes are the encoding of their weight. */
  lemma JoinU32(s: seq<byte>)
    requires |s| == 4
    ensures U32(ReadU32(s, 0)) == s
  {
    var x: int := ReadU32(s, 0);
    var y: int := s[1] as int + 0x100 * s[2] as int + 0x1_0000 * s[3] as int;
    var z: int := s[2] as int + 0x100 * s[3] as int;
    assert x == s[0] + 0x100 * y && x / 0x100 == y && x % 0x100 == s[0];
    assert y == s[1] + 0x100 * z && y / 0x100 == z && y % 0x100 == s[1];
    assert x / 0x1_0000 == z && x / 0x100_0000 == z / 0x100 == s[3];
  }

  /** The low byte comes first. */
  lemma LowByteFirst()
    ensures U16(0x0201) == [1, 2] && U32(0x0403_0201) == [1, 2, 3, 4]
    ensures U64(0x0807_0605_0403_0201) == [1, 2, 3, 4, 5, 6, 7, 8]
  {
    assert U32(0x0807_0605) == [5, 6, 7, 8];
  }

  lemma ReadBackU16(s: seq<byte>, of: nat, x: u16)
    requires of + 2 <= |s|
    ensures At(s, of, U16(x)) <==> ReadU16(s, of) == x
  {
    assert s[of..of + 2] == [s[of], s[of + 1]];
  }

  lemma ReadBackU32(s: seq<byte>, of: nat, x: u32)
    requires of + 4 <= |s|
    ensures At(s, of, U32(x)) <==> ReadU32(s, of) == x
  {
    var w := s[of..of + 4];
    assert ReadU32(w, 0) == ReadU32(s, of);
    JoinU32(w);
    SplitU32(x);
    hide ReadU32, U32;
  }

  lemma ReadBackU64(s: seq<byte>, of: nat, x: u64)
    requires of + 8 <= |s|
    ensures At(s, of, U64(x)) <==> ReadU64(s, of) == x
  {
    AtConcat(s, of, U32(x % U32_MOD), U32(x / U32_MOD));
    ReadBackU32(s, of, x % U32_MOD);
    ReadBackU32(s, of + 4, x / U32_MOD);
  }

  /** ptp_write_u16 */
  method StoreU16(buf: array<byte>, of: nat, x: u16)
    requires of + 2 <= buf.Length
    modifies buf
    ensures buf[..of + 2] == old(buf[..of]) + U16(x)
    ensures buf[of + 2..] == old(buf[of + 2..])
  {
    buf[of] := x % 0x100;
    buf[of + 1] := x / 0x100 % 0x100;
  }

  /** ptp_write_u32 */
  method StoreU32(buf: array<byte>, of: nat, x: u32)
    requires of + 4 <= buf.Length
    modifies buf
    ensures buf[..of + 4] == old(buf[..of]) + U32(x)
    ensures buf[of + 4..] == old(buf[of + 4..])
  {
    buf[of] := x % 0x100;
    buf[of + 1] := x / 0x100 % 0x100;
    buf[of + 2] := x / 0x1_0000 % 0x100;
    buf[of + 3] := x / 0x100_0000 % 0x100;
  }

  /** memcpy into buf at offset of. */
  method Copy(buf: array<byte>, of: nat, from: seq<byte>)
    requires of + |from| <= buf.Length
    modifies buf
    ensures buf[..] == old(buf[..of]) + from + old(buf[of + |from|..])
  {
    forall i | 0 <= i < |from| {
      buf[of + i] := from[i];
    }
  }
}
