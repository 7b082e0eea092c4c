/** The operations of src/operations.c that loop: a download, piece by piece into a file, and the copy of
    an array out of the I/O buffer.  Their locking is in Engine. */
module Operations {
  import opened Bytes
  import opened Packets

  // ---- ptp_download_object ----

  /** The file that the pieces are written to. */
  class File {
    var contents: seq<byte>
    var open: bool

    constructor ()
      ensures contents == [] && open
    {
      contents, open := [], true;
    }
  }

  /** A device's answer to GetPartialObject; both parameters are 32 bits wide on the wire. */
  function Partial(obj: seq<byte>, offset: u32, max: u32): (part: seq<byte>)
    ensures |part| <= max
  {
    obj[Min(offset, |obj|)..Min(offset + max, |obj|)]
  }

  /** The number of requests a download makes if none fails. */
  function Requests(size: nat, max: nat): (n: nat)
    ensures n > 0
  {
    if 0 < max < U32_MOD then size / max + 1 else 1
  }

  /** The bytes of the object that the first n requests fetch. */
  function Fetched(size: nat, max: nat, n: nat): nat {
    if n == 0 then 0 else if 0 < max < U32_MOD then Min(n * max, size) else Min(max % U32_MOD, size)
  }

  /** The first of the n requests that fails, or n. */
  function FirstFailure(rcs: nat -> int, n: nat): (k: nat)
    ensures k <= n && (k < n ==> rcs(k) != 0) && forall j :: 0 <= j < k ==> rcs(j) == 0
  {
    if n == 0 then 0 else
      var k := FirstFailure(rcs, n - 1);
      if k < n - 1 || rcs(n - 1) != 0 then k else n
  }

  /** Request k is the last exactly when its piece is short or empty. */
  lemma LastRequest(size: nat, max: nat, k: nat)
    requires 0 < max && k * max <= size
    ensures size < k * max + max <==> k == size / max
    ensures max < 0x1_0000_0000 ==> (size < k * max + max <==> k + 1 == Requests(size, max))
    ensures max >= 0x1_0000_0000 ==> Requests(size, max) == 1
  {
    assert (k + 1) * max == k * max + max;
    Quotient(size, max);
    if k < size / max {
      Times(k + 1, size / max, max);
    } else if k > size / max {
      Times(size / max + 1, k, max);
    }
  }

  lemma Quotient(size: nat, max: nat)
    requires 0 < max
    ensures size / max * max <= size < (size / max + 1) * max == size / max * max + max
  {
  }

  /** ptp_download_object. The transfers of GetPartialObject are left to the device: request k returns
      rcs(k), and if that is 0 the piece the device answers with. */
  method DownloadObject(obj: seq<byte>, f: File, max: nat, rcs: nat -> int) returns (rc: int, requests: nat)
    requires |obj| < U32_MOD && f.open
    modifies f
    ensures var total := Requests(|obj|, max);
            var failed := FirstFailure(rcs, total);
            && rc == (if failed < total then rcs(failed) else 0)
            && requests == Min(failed + 1, total)
            && f.contents == old(f.contents) + obj[..Fetched(|obj|, max, failed)]
            && (f.open <==> failed < total || Fetched(|obj|, max, total - 1) < Fetched(|obj|, max, total))
  {
    hide FirstFailure;
    ghost var total := Requests(|obj|, max);
    var read: u32 := 0;
    requests := 0;
    while true
      invariant f.open && requests < total && read == Fetched(|obj|, max, requests) == requests * max <= |obj|
      invariant f.contents == old(f.contents) + obj[..read]
      invariant forall j :: 0 <= j < requests ==> rcs(j) == 0
      decreases total - requests
    {
      ghost var k := requests;
      var x := rcs(requests);
      requests := requests + 1;
      if x != 0 {
        Failed(rcs, k, total);
        return x, requests;
      }
      if 0 < max < U32_MOD { LastRequest(|obj|, max, k); }
      var part := Partial(obj, read, max % U32_MOD);
      PieceFollows(obj, read, max, k);
      if |part| == 0 {
        f.open := false;
        AllDone(rcs, total);
        return 0, requests;
      }
      f.contents := f.contents + part;
      read := read + |part|;
      if |part| != max {
        AllDone(rcs, total);
        return 0, requests;
      }
    }
  }

  lemma Failed(rcs: nat -> int, k: nat, total: nat)
    requires k < total && rcs(k) != 0 && forall j :: 0 <= j < k ==> rcs(j) == 0
    ensures FirstFailure(rcs, total) == k
  {
  }

  lemma AllDone(rcs: nat -> int, total: nat)
    requires forall j :: 0 <= j < total ==> rcs(j) == 0
    ensures FirstFailure(rcs, total) == total
  {
  }

  /** The piece answering request k extends the bytes fetched by the k before it. */
  lemma PieceFollows(obj: seq<byte>, read: u32, max: nat, k: nat)
    requires read == Fetched(|obj|, max, k) == k * max <= |obj| && k < Requests(|obj|, max)
    ensures var part := Partial(obj, read, max % U32_MOD);
            && Fetched(|obj|, max, k + 1) == read + |part|
            && obj[..read] + part == obj[..read + |part|]
  {
  }

  /** The file receives the whole object exactly when the piece size is not 0 and fits 32 bits, or what is
      left of it in 32 bits covers the object at once. */
  lemma CompleteWhen(obj: seq<byte>, max: nat)
    requires |obj| < U32_MOD
    ensures Fetched(|obj|, max, Requests(|obj|, max)) == |obj| <==> 0 < max < U32_MOD || |obj| <= max % U32_MOD
  {
    if 0 < max < U32_MOD {
      Quotient(|obj|, max);
    }
  }

  // ---- dup_uint_array ----

  /** The array of 32-bit numbers at the start of the payload, copied out. */
  method DupUintArray(p: seq<byte>) returns (dup: array<u32>)
    requires 4 <= |p| < U32_MOD && 4 + 4 * ReadU32(p, 0) <= |p|
    ensures fresh(dup) && dup.Length == ReadU32(p, 0) && dup[..] == ReadParams(p, 4, ReadU32(p, 0))
  {
    hide ReadU32;
    var length, of := ReadU32(p, 0), 4;
    dup := new u32[length];
    var i := 0;
    while i < length
      invariant 0 <= i <= length && of == 4 + 4 * i
      invariant forall j :: 0 <= j < i ==> dup[j] == ReadU32(p, 4 + 4 * j)
    {
      dup[i] := ReadU32(p, of);
      of := of + 4;
      i := i + 1;
    }
    assert dup[..] == ReadParams(p, 4, length);
  }

  lemma CountFirst(p: seq<byte>, n: u32, e: seq<byte>)
    requires At(p, 0, U32(n) + e)
    ensures ReadU32(p, 0) == n && 4 + |e| <= |p| && At(p, 4, e)
  {
    AtConcat(p, 0, U32(n), e);
    ReadBackU32(p, 0, n);
  }

  /** A device's own encoding of an array is copied out as that array. */
  lemma DupReadsBack(p: seq<byte>, xs: seq<u32>)
    requires |p| < U32_MOD && |xs| < U32_MOD && At(p, 0, U32(|xs|) + Params(xs))
    ensures 4 + 4 * ReadU32(p, 0) <= |p| && ReadParams(p, 4, ReadU32(p, 0)) == xs
  {
    hide ReadU32, U32, ReadParams, Params, At;
    CountFirst(p, |xs|, Params(xs));
    ReadBackParams(p, 4, xs);
  }

  /** With a piece size of 0 nothing of a non-empty object is fetched; with 2^32 + 1, which is 1 on the wire,
      no more than the first byte. */
  lemma NothingFetched(obj: seq<byte>)
    requires 1 < |obj| < U32_MOD
    ensures Fetched(|obj|, 0, Requests(|obj|, 0)) == 0
    ensures Fetched(|obj|, U32_MOD + 1, Requests(|obj|, U32_MOD + 1)) == 1
  {
  }
}
