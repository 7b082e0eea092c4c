/** Reassembly of PTP/IP packets: the specification of ptpip_read_packet and
    ptpip_receive_bulk_packets (src/transport.c).  The loops are in Runtime.PtpRuntime. */
module IpReceive {
  import opened Bytes
  import opened Packets
  import opened PacketAccess
  import opened UsbReceive

  /** Outcomes that are not return codes: the body loop never ends, because the backend returns 0 for ever; the
      source is about to read or have read something beyond the buffer, or can no longer tell its size. */
  const HANGS := -1001
  const OVERRUNS := -1002

  /** What is left of s after its first n bytes. */
  function Rest(s: seq<byte>, n: nat): (r: seq<byte>)
    requires n <= |s|
    ensures |r| == |s| - n
  {
    s[n..]
  }

  // ---- one packet ----

  /** The loop that waits for a length prefix: the last return value, and the time after it. */
  function PrefixRun(avail: nat, sched: Schedule, wait: nat, last: int, clock: nat): (r: (int, nat))
    requires last <= 0
    ensures r.0 <= 4 && r.0 <= avail && r.1 >= clock
    decreases wait
  {
    if wait == 0 then (last, clock)
    else
      var rc := Granted(Ask(sched, clock), 4, avail);
      if rc > 0 then (rc, clock + 1) else PrefixRun(avail, sched, wait - 1, rc, clock + 1)
  }

  /** The prefix loop has reached this state on the way to result r. */
  ghost predicate PrefixReaching(r: (int, nat), avail: nat, sched: Schedule, wait: nat, last: int, clock: nat) {
    last <= 0 && r == PrefixRun(avail, sched, wait, last, clock)
  }

  lemma PrefixReached(r: (int, nat), avail: nat, sched: Schedule, wait: nat, last: int, clock: nat, rc: int)
    requires PrefixReaching(r, avail, sched, wait, last, clock) && rc == Granted(Ask(sched, clock), 4, avail)
    ensures wait == 0 ==> r == (last, clock)
    ensures wait > 0 && rc > 0 ==> r == (rc, clock + 1)
    ensures wait > 0 && rc <= 0 ==> PrefixReaching(r, avail, sched, wait - 1, rc, clock + 1)
  {
  }

  datatype Body = Body(ok: bool, got: nat, clock: nat) | Endless

  /** The k-th call is the one that ends the body loop: it fails, or it completes the need bytes. */
  ghost predicate BodyEnds(need: nat, avail: nat, sched: Schedule, c: nat, k: nat) {
    && k > 0 && (forall t: nat :: c <= t < c + k - 1 ==> Ask(sched, t) >= 0)
    && Moved(Min(need, avail), sched, need, c, k - 1) < need
    && (Ask(sched, c + k - 1) < 0 || Moved(Min(need, avail), sched, need, c, k) == need)
  }

  /** The loop that reads the rest of a packet, `need` bytes of it still missing; nothing bounds it. */
  ghost function BodyRun(need: nat, avail: nat, sched: Schedule, c: nat): (b: Body)
    ensures b.Body? ==> b.got <= need && b.got <= avail && (b.ok ==> b.got == need)
  {
    if exists k :: BodyEnds(need, avail, sched, c, k) then
      var k :| BodyEnds(need, avail, sched, c, k);
      Body(Ask(sched, c + k - 1) >= 0, Moved(Min(need, avail), sched, need, c, k), c + k)
    else Endless
  }

  lemma BodyEndsOnce(need: nat, avail: nat, sched: Schedule, c: nat, j: nat, k: nat)
    requires BodyEnds(need, avail, sched, c, j) && BodyEnds(need, avail, sched, c, k)
    ensures j == k
  {
    hide Ask;
    if j < k {
      MovedGrows(Min(need, avail), sched, need, c, j, k - 1);
    } else if k < j {
      MovedGrows(Min(need, avail), sched, need, c, k, j - 1);
    }
  }

  lemma BodyIs(need: nat, avail: nat, sched: Schedule, c: nat, k: nat)
    requires BodyEnds(need, avail, sched, c, k)
    ensures BodyRun(need, avail, sched, c)
            == Body(Ask(sched, c + k - 1) >= 0, Moved(Min(need, avail), sched, need, c, k), c + k)
  {
    hide Moved, Ask, Min;
    var j :| BodyEnds(need, avail, sched, c, j)
      && BodyRun(need, avail, sched, c)
         == Body(Ask(sched, c + j - 1) >= 0, Moved(Min(need, avail), sched, need, c, j), c + j);
    BodyEndsOnce(need, avail, sched, c, j, k);
  }

  /** The body loop has made k calls, none of which failed, and has got fewer bytes than it needs. */
  ghost predicate BodyGoing(need: nat, avail: nat, sched: Schedule, c: nat, k: nat, got: nat) {
    && got == Moved(Min(need, avail), sched, need, c, k) < need
    && forall t: nat :: c <= t < c + k ==> Ask(sched, t) >= 0
  }

  lemma BodyStart(need: nat, avail: nat, sched: Schedule, c: nat)
    requires need > 0
    ensures BodyGoing(need, avail, sched, c, 0, 0)
  {
  }

  /** One more call ends the loop, or keeps it going on the way to its end. */
  lemma BodyNext(need: nat, avail: nat, sched: Schedule, c: nat, k: nat, got: nat, rc: int, end: nat)
    requires BodyGoing(need, avail, sched, c, k, got) && BodyEnds(need, avail, sched, c, end) && got <= avail
    requires rc == Granted(Ask(sched, c + k), need - got, avail - got)
    ensures k < end
    ensures rc < 0 ==> BodyRun(need, avail, sched, c) == Body(false, got, c + k + 1)
    ensures rc >= 0 && got + rc == need ==> BodyRun(need, avail, sched, c) == Body(true, need, c + k + 1)
    ensures rc >= 0 && got + rc != need ==> BodyGoing(need, avail, sched, c, k + 1, got + rc)
  {
    hide BodyRun;
    var n := Min(need, avail);
    assert Moved(n, sched, need, c, k + 1) == if rc > 0 then got + rc else got;
    if end <= k {
      MovedGrows(n, sched, need, c, end, k);
    }
    if rc < 0 || got + rc == need {
      BodyIs(need, avail, sched, c, k + 1);
    }
  }

  // ---- room in the buffer ----

  /** How many bytes the first read of a body asks for, in 32-bit arithmetic. */
  function Request(length: u32): u32 {
    (length - 4) % U32_MOD
  }

  /** The size of a buffer of cap bytes after the resize test for a packet at offset of. */
  function Room(of: nat, cap: nat, length: u32): nat {
    var size := (of + 4 + length) % U32_MOD;
    if size > cap then size + 100 else cap
  }

  /** The first read of a body lies inside the buffer exactly when the length field covers itself and the sum
      with the offset does not wrap around. */
  lemma RequestFits(of: nat, cap: nat, length: u32)
    requires of + 4 <= cap < U32_MOD - 4
    ensures of + 4 + Request(length) <= Room(of, cap, length) <==> length >= 4 && of + 4 + length < U32_MOD
  {
    if length >= 4 {
      assert Request(length) == length - 4;
    } else {
      assert Request(length) == length - 4 + U32_MOD;
    }
    if of + 4 + length >= U32_MOD {
      assert (of + 4 + length) % U32_MOD == of + 4 + length - U32_MOD;
    }
  }

  /** A length field of 0 makes the receiver ask for 4 GiB. */
  lemma ZeroLengthOverruns(cap: nat)
    requires 4 <= cap < U32_MOD - 4
    ensures Request(0) == U32_MOD - 4 && 4 + Request(0) > Room(0, cap, 0)
  {
    RequestFits(0, cap, 0);
  }

  /** The body can be read, and data_length still tells the size of the buffer. */
  predicate Fits(of: nat, cap: nat, length: u32) {
    4 <= length < U32_MOD - of - 4 && (of + 4 + length <= cap || of + length + 108 < U32_MOD)
  }

  /** The size of the buffer after a packet of that length was accepted. */
  function Grown(cap: nat, of: nat, length: nat): nat {
    if length == 4 || of + 4 + length <= cap then cap else of + length + 104
  }

  /** What the receiver's own arithmetic makes of this. */
  lemma FitsIsRoom(of: nat, cap: nat, length: u32)
    requires of + 4 <= cap < U32_MOD - 4
    ensures var size := (of + 4 + length) % U32_MOD;
            Fits(of, cap, length) <==> (size <= cap || size + 104 < U32_MOD)
                                       && of + 4 + Request(length) <= Room(of, cap, length)
    ensures Fits(of, cap, length) && length != 4 ==>
              of + length <= Room(of, cap, length) == Grown(cap, of, length) < U32_MOD - 4
              && Request(length) == length - 4
  {
    RequestFits(of, cap, length);
  }

  // ---- one packet ----

  /** rc is the packet length, an error, or one of the outcomes above; used bytes of the stream are gone. */
  datatype IpOutcome = IpOutcome(rc: int, used: nat, clock: nat)

  /** ptpip_read_packet, with s still to come and the packet to be stored at offset of of a buffer of cap bytes. */
  ghost function IpPacket(s: seq<byte>, of: nat, cap: nat, sched: Schedule, wait: nat, clock: nat): (out: IpOutcome)
    ensures out.used <= |s| && (out.rc < 0 ==> out.rc in {PTP_COMMAND_IGNORED, PTP_IO_ERR, HANGS, OVERRUNS})
    ensures out.rc >= 0 ==> |s| >= 4 && 4 <= out.rc == out.used == ReadU32(s, 0)
  {
    var (rc, c) := PrefixRun(|s|, sched, wait, 0, clock);
    if rc < 0 then IpOutcome(PTP_COMMAND_IGNORED, 0, c)
    else if rc < 4 then IpOutcome(PTP_IO_ERR, rc, c)
    else
      var length := ReadU32(s, 0);
      if length == 4 then IpOutcome(4, 4, c)
      else if !Fits(of, cap, length) then IpOutcome(OVERRUNS, 4, c)
      else
        match BodyRun(length - 4, |s| - 4, sched, c)
        case Endless => IpOutcome(HANGS, 4, c)
        case Body(ok, got, done) => IpOutcome(if ok then length else PTP_IO_ERR, 4 + got, done)
  }

  // ---- when a packet arrives ----

  /** The prefix comes in one read before `wait` reads have been tried, no body read fails, and the k-th of
      them completes the packet; the call then ends at time done. */
  ghost predicate ArrivesIn(s: seq<byte>, sched: Schedule, wait: nat, clock: nat, done: nat, j: nat, k: nat)
    requires |s| >= 4 && ReadU32(s, 0) >= 4
  {
    var need := ReadU32(s, 0) - 4;
    && j < wait && done == clock + j + 1 + k
    && need <= |s| - 4
    && (forall t: nat :: clock <= t < clock + j ==> Ask(sched, t) <= 0)
    && Ask(sched, clock + j) >= 4
    && (forall t: nat :: clock + j + 1 <= t < clock + j + 1 + k ==> Ask(sched, t) >= 0)
    && (need == 0 ==> k == 0)
    && (need > 0 ==>
         && k > 0 && Moved(need, sched, need, clock + j + 1, k) == need
         && Moved(need, sched, need, clock + j + 1, k - 1) < need)
  }

  ghost predicate Arrives(s: seq<byte>, sched: Schedule, wait: nat, clock: nat, done: nat) {
    |s| >= 4 && ReadU32(s, 0) >= 4 && exists j: nat, k: nat :: ArrivesIn(s, sched, wait, clock, done, j, k)
  }

  /** A packet that is all prefix needs no more room. */
  predicate HasRoom(s: seq<byte>, of: nat, cap: nat) {
    |s| >= 4 && (ReadU32(s, 0) == 4 || Fits(of, cap, ReadU32(s, 0)))
  }

  lemma {:induction false} PrefixArrives(avail: nat, sched: Schedule, wait: nat, last: int, clock: nat) returns (j: nat)
    requires last <= 0 && PrefixRun(avail, sched, wait, last, clock).0 == 4
    ensures j < wait && avail >= 4 && (forall t: nat :: clock <= t < clock + j ==> Ask(sched, t) <= 0)
            && Ask(sched, clock + j) >= 4
    ensures PrefixRun(avail, sched, wait, last, clock).1 == clock + j + 1
    decreases wait
  {
    var rc := Granted(Ask(sched, clock), 4, avail);
    if rc > 0 {
      j := 0;
    } else {
      var j' := PrefixArrives(avail, sched, wait - 1, rc, clock + 1);
      j := j' + 1;
    }
  }

  /** The wait ends with the j-th read, the first that brings something. */
  lemma {:induction false} PrefixOf(avail: nat, sched: Schedule, wait: nat, last: int, clock: nat, j: nat)
    requires last <= 0 && j < wait && Granted(Ask(sched, clock + j), 4, avail) > 0
    requires forall t: nat :: clock <= t < clock + j ==> Granted(Ask(sched, t), 4, avail) <= 0
    ensures PrefixRun(avail, sched, wait, last, clock) == (Granted(Ask(sched, clock + j), 4, avail), clock + j + 1)
    decreases j
  {
    if j > 0 {
      PrefixOf(avail, sched, wait - 1, Granted(Ask(sched, clock), 4, avail), clock + 1, j - 1);
    }
  }

  /** The wait ends with the last permitted read, and what that returned. */
  lemma {:induction false} PrefixSilent(avail: nat, sched: Schedule, wait: nat, last: int, clock: nat)
    requires last <= 0 && forall t: nat :: clock <= t < clock + wait ==> Granted(Ask(sched, t), 4, avail) <= 0
    ensures PrefixRun(avail, sched, wait, last, clock)
            == (if wait == 0 then last else Granted(Ask(sched, clock + wait - 1), 4, avail), clock + wait)
    decreases wait
  {
    if wait > 0 {
      PrefixSilent(avail, sched, wait - 1, Granted(Ask(sched, clock), 4, avail), clock + 1);
    }
  }

  /** The first read that brings something, if one does. */
  lemma {:induction false} FirstBytes(avail: nat, sched: Schedule, wait: nat, clock: nat) returns (j: nat)
    ensures j <= wait && forall t: nat :: clock <= t < clock + j ==> Granted(Ask(sched, t), 4, avail) <= 0
    ensures j < wait ==> Granted(Ask(sched, clock + j), 4, avail) > 0
    decreases wait
  {
    j := 0;
    if wait > 0 && Granted(Ask(sched, clock), 4, avail) <= 0 {
      var i := FirstBytes(avail, sched, wait - 1, clock + 1);
      j := i + 1;
    }
  }

  /** What the failures are: -10 if no read brings a byte of the length and the last one fails; -5 if none does
      and the last one is just empty, or if the first that does brings fewer than four bytes, or if a read of
      the body fails. */
  lemma PacketErrors(s: seq<byte>, of: nat, cap: nat, sched: Schedule, wait: nat, clock: nat)
    ensures var out := IpPacket(s, of, cap, sched, wait, clock);
            var silent := forall t: nat :: clock <= t < clock + wait ==> Granted(Ask(sched, t), 4, |s|) <= 0;
            && (out.rc == -10 <==> wait > 0 && silent && Ask(sched, clock + wait - 1) < 0)
            && (silent && out.rc != -10 ==> out.rc == -5 && out.used == 0)
            && (!silent ==> exists j: nat :: j < wait && FirstRead(|s|, sched, clock, j)
                                          && Decided(out, s, of, cap, sched, clock, j))
  {
    hide ReadU32, Fits, BodyRun, PrefixRun;
    var j := FirstBytes(|s|, sched, wait, clock);
    if j == wait {
      PrefixSilent(|s|, sched, wait, 0, clock);
    } else {
      PrefixOf(|s|, sched, wait, 0, clock, j);
      assert FirstRead(|s|, sched, clock, j);
    }
  }

  /** What follows when that is the j-th read. */
  ghost predicate Decided(out: IpOutcome, s: seq<byte>, of: nat, cap: nat, sched: Schedule, clock: nat, j: nat) {
    var n := Granted(Ask(sched, clock + j), 4, |s|);
    && (0 <= n < 4 ==> out == IpOutcome(-5, n, clock + j + 1))
    && (n >= 4 ==>
         && |s| >= 4
         && var length := ReadU32(s, 0);
         && (length == 4 ==> out == IpOutcome(4, 4, clock + j + 1))
         && (length != 4 && !Fits(of, cap, length) ==> out == IpOutcome(OVERRUNS, 4, clock + j + 1))
         && (length > 4 && Fits(of, cap, length) ==>
              match BodyRun(length - 4, |s| - 4, sched, clock + j + 1)
              case Endless => out.rc == HANGS
              case Body(ok, got, done) => out == IpOutcome(if ok then length else -5, 4 + got, done)))
  }

  /** The j-th read is the first that brings something of a length prefix. */
  ghost predicate FirstRead(avail: nat, sched: Schedule, clock: nat, j: nat) {
    && Granted(Ask(sched, clock + j), 4, avail) > 0
    && forall t: nat :: clock <= t < clock + j ==> Granted(Ask(sched, t), 4, avail) <= 0
  }

  /** Chunking independence for one packet, whatever its length field says: it is accepted exactly when there
      is room for it, its prefix arrives in one read within the retry budget and its body arrives without a
      failing read, in pieces of any size. */
  lemma IpPacketIff(s: seq<byte>, of: nat, cap: nat, sched: Schedule, wait: nat, clock: nat)
    ensures var out := IpPacket(s, of, cap, sched, wait, clock);
            && (out.rc >= 0 <==> HasRoom(s, of, cap) && exists done :: Arrives(s, sched, wait, clock, done))
            && (forall done :: HasRoom(s, of, cap) && Arrives(s, sched, wait, clock, done) ==>
                 out == IpOutcome(ReadU32(s, 0), ReadU32(s, 0), done))
            && (out.rc >= 0 ==> Arrives(s, sched, wait, clock, out.clock))
  {
    hide ReadU32, PrefixRun, BodyRun, BodyEnds, Moved, Fits;
    var out := IpPacket(s, of, cap, sched, wait, clock);
    if out.rc >= 0 {
      var j := PrefixArrives(|s|, sched, wait, 0, clock);
      var k := AcceptedBody(s, of, cap, sched, wait, clock, j);
      assert ArrivesIn(s, sched, wait, clock, out.clock, j, k);
      assert Arrives(s, sched, wait, clock, out.clock);
    }
    forall done | HasRoom(s, of, cap) && Arrives(s, sched, wait, clock, done)
      ensures out == IpOutcome(ReadU32(s, 0), ReadU32(s, 0), done)
    {
      var j: nat, k: nat :| ArrivesIn(s, sched, wait, clock, done, j, k);
      PrefixOf(|s|, sched, wait, 0, clock, j);
      if ReadU32(s, 0) > 4 {
        ArrivedBody(s, sched, wait, clock, done, j, k);
      }
    }
  }

  lemma AcceptedBody(s: seq<byte>, of: nat, cap: nat, sched: Schedule, wait: nat, clock: nat, j: nat) returns (k: nat)
    requires IpPacket(s, of, cap, sched, wait, clock).rc >= 0
    requires j < wait && (forall t: nat :: clock <= t < clock + j ==> Ask(sched, t) <= 0)
    requires Ask(sched, clock + j) >= 4 && PrefixRun(|s|, sched, wait, 0, clock) == (4, clock + j + 1)
    ensures ArrivesIn(s, sched, wait, clock, IpPacket(s, of, cap, sched, wait, clock).clock, j, k)
  {
    hide ReadU32, PrefixRun, BodyRun, Moved, Granted, Fits, Ask;
    k := 0;
    if ReadU32(s, 0) > 4 {
      var need: nat, c := ReadU32(s, 0) - 4, clock + j + 1;
      BodyExists(need, |s| - 4, sched, c);
      k :| BodyEnds(need, |s| - 4, sched, c, k);
      BodyIs(need, |s| - 4, sched, c, k);
    }
  }

  lemma BodyExists(need: nat, avail: nat, sched: Schedule, c: nat)
    requires BodyRun(need, avail, sched, c).Body?
    ensures exists k :: BodyEnds(need, avail, sched, c, k)
  {
    hide BodyEnds;
  }

  lemma ArrivedBody(s: seq<byte>, sched: Schedule, wait: nat, clock: nat, done: nat, j: nat, k: nat)
    requires |s| >= 4 && ReadU32(s, 0) > 4 && ArrivesIn(s, sched, wait, clock, done, j, k)
    ensures BodyRun(ReadU32(s, 0) - 4, |s| - 4, sched, clock + j + 1) == Body(true, ReadU32(s, 0) - 4, done)
  {
    hide ReadU32, Moved, Ask, BodyRun;
    BodyIs(ReadU32(s, 0) - 4, |s| - 4, sched, clock + j + 1, k);
  }

  // ---- the whole answer ----

  /** Four bytes of the buffer from before a packet was stored there. */
  type Word = w: seq<byte> | |w| == 4 witness [0, 0, 0, 0]

  /** What lay where the type fields of the three packets go. */
  datatype Stale = Stale(first: Word, second: Word, third: Word)

  /** The type field that the receiver finds: of a packet too short to have one, some of it is stale. */
  function KindSeen(s: seq<byte>, length: nat, stale: Word): u32
    requires 4 <= length <= |s|
  {
    if length >= 8 then ReadU32(s, 4) else ReadU32(s[4..length] + stale[length - 4..], 0)
  }

  /** From position n on, d still holds what b did. */
  predicate Untouched(b: seq<byte>, d: seq<byte>, n: nat) {
    |b| <= |d| && (n <= |b| ==> d[n..|b|] == b[n..])
  }

  lemma UntouchedOn(b0: seq<byte>, b1: seq<byte>, d: seq<byte>, m: nat, n: nat)
    requires Untouched(b0, b1, m) && Untouched(b1, d, n) && m <= n
    ensures Untouched(b0, d, n)
  {
    if n <= |b0| {
      forall i | n <= i < |b0| ensures d[i] == b0[i] {
        assert b1[m..|b0|][i - m] == b0[m..][i - m] && d[n..|b1|][i - n] == b1[n..][i - n];
      }
    }
  }

  lemma UntouchedWhole(b: seq<byte>, d: seq<byte>, n: nat)
    requires |b| <= |d| && d[..|b|] == b
    ensures Untouched(b, d, n)
  {
    if n <= |b| {
      assert d[n..|b|] == d[..|b|][n..];
    }
  }

  function WordAt(b: seq<byte>, of: nat): Word {
    if of + 8 <= |b| then b[of + 4..of + 8] else [0, 0, 0, 0]
  }

  /** What the buffer b held at the type field of a packet stored at offset of. */
  predicate Leftover(b: seq<byte>, of: nat, stale: Word) {
    of + 8 <= |b| ==> stale == WordAt(b, of)
  }

  lemma LeftoverThen(b0: seq<byte>, b1: seq<byte>, of: nat, n: nat)
    requires Untouched(b0, b1, n) && n <= of + 4
    ensures Leftover(b0, of, WordAt(b1, of))
  {
    if of + 8 <= |b0| {
      forall i | of + 4 <= i < of + 8 ensures b1[i] == b0[i] {
        assert b1[n..|b0|][i - n] == b0[n..][i - n];
      }
      assert b1[of + 4..of + 8] == b0[of + 4..of + 8];
    }
  }

  /** The type field in the buffer d, which was b before the body of the packet u was stored at offset of. */
  lemma KindInBuffer(b: seq<byte>, d: seq<byte>, s: seq<byte>, of: nat, u: seq<byte>, length: nat)
    requires 4 <= length <= |u| && of + length <= |s| && of <= |s| && u == s[of..] && of + length <= |d|
    requires d[..of + length] == s[..of + length] && Untouched(b, d, of + length) && of + 8 <= |b|
    ensures ReadU32(d, of + 4) == KindSeen(u, length, WordAt(b, of))
  {
    if length < 8 {
      var w := u[4..length] + WordAt(b, of)[length - 4..];
      assert d[of + 4..of + length] == d[..of + length][of + 4..] == u[4..length];
      assert d[of + length..of + 8] == d[of + length..|b|][..8 - length] == WordAt(b, of)[length - 4..];
      assert d[of + 4..of + 8] == d[of + 4..of + length] + d[of + length..of + 8] == w;
      ReadShift(d, w, of + 4, 0);
    } else {
      var e := u[..length];
      assert s[of..of + length] == e && d[of..of + length] == d[..of + length][of..] == s[..of + length][of..] == e;
      ReadShift(d, e, of, 4);
      ReadShift(u, e, 0, 4);
    }
  }

  datatype BulkOutcome = BulkOutcome(rc: int, used: nat, filled: nat, clock: nat)

  /** After the packets before the response, with s3 still to come and the filled length so far. */
  ghost function IpResponsePhase(s3: seq<byte>, pk2: nat, cap: nat, filled: nat, sched: Schedule, wait: nat,
                                 clock: nat, third: Word): (out: BulkOutcome)
    ensures out.used <= pk2 + |s3|
  {
    var p3 := IpPacket(s3, pk2, cap, sched, wait, clock);
    if p3.rc < 0 then BulkOutcome(p3.rc, pk2 + p3.used, filled, p3.clock)
    else
      var rc := if Grown(cap, pk2, p3.rc) < pk2 + 8 then OVERRUNS
                else if KindSeen(s3, p3.rc, third) != IP_COMMAND_RESPONSE then PTP_IO_ERR
                else PTP_OK;
      BulkOutcome(rc, pk2 + p3.used, filled + p3.rc, p3.clock)
  }

  /** After a START packet of pk1 bytes, with s2 still to come: an END packet, then a response.  The type of a
      packet that is all prefix is looked at even if the buffer ends before it. */
  ghost function IpDataPhase(s2: seq<byte>, pk1: nat, cap: nat, sched: Schedule, wait: nat, clock: nat,
                             stale: Stale): (out: BulkOutcome)
    ensures out.used <= pk1 + |s2|
  {
    var p2 := IpPacket(s2, pk1, cap, sched, wait, clock);
    if p2.rc < 0 then BulkOutcome(p2.rc, pk1 + p2.used, 0, p2.clock)
    else if Grown(cap, pk1, p2.rc) < pk1 + 8 then BulkOutcome(OVERRUNS, pk1 + p2.used, p2.rc, p2.clock)
    else if KindSeen(s2, p2.rc, stale.second) != IP_DATA_END then
      BulkOutcome(PTP_IO_ERR, pk1 + p2.used, p2.rc, p2.clock)
    else
      IpResponsePhase(Rest(s2, p2.rc), pk1 + p2.rc, Grown(cap, pk1, p2.rc), p2.rc, sched, wait, p2.clock, stale.third)
  }

  /** ptpip_receive_bulk_packets, up to the report of the return code at its end: cap is the size of the buffer,
      wait0 what r->wait_for_response holds on entry, wait its default.  The filled length leaves out the
      first packet, as the source does. */
  ghost function IpBulk(s: seq<byte>, cap: nat, sched: Schedule, wait0: nat, wait: nat, clock: nat,
                        stale: Stale): (out: BulkOutcome)
    ensures out.used <= |s|
  {
    var p1 := IpPacket(s, 0, cap, sched, wait0, clock);
    if p1.rc < 0 then BulkOutcome(p1.rc, p1.used, 0, p1.clock)
    else if Grown(cap, 0, p1.rc) < 8 then BulkOutcome(OVERRUNS, p1.used, 0, p1.clock)
    else
      var kind := KindSeen(s, p1.rc, stale.first);
      if kind == IP_DATA_START then
        IpDataPhase(Rest(s, p1.rc), p1.rc, Grown(cap, 0, p1.rc), sched, wait, p1.clock, stale)
      else BulkOutcome(if kind == IP_COMMAND_RESPONSE then PTP_OK else PTP_IO_ERR, p1.used, 0, p1.clock)
  }

  /** Whatever the buffer held, no body loop goes on for ever. */
  ghost predicate BulkEnds(s: seq<byte>, cap: nat, sched: Schedule, wait0: nat, wait: nat, clock: nat) {
    forall stale: Stale :: IpBulk(s, cap, sched, wait0, wait, clock, stale).rc != HANGS
  }

  ghost predicate DataEnds(s2: seq<byte>, pk1: nat, cap: nat, sched: Schedule, wait: nat, clock: nat) {
    forall stale: Stale :: IpDataPhase(s2, pk1, cap, sched, wait, clock, stale).rc != HANGS
  }

  ghost predicate FailsLater(sched: Schedule, c: nat) {
    exists f: nat :: f >= c && Ask(sched, f) < 0
  }

  lemma {:induction false} BodyMeetsFailure(need: nat, avail: nat, sched: Schedule, c: nat, k: nat, got: nat, f: nat)
    returns (end: nat)
    requires BodyGoing(need, avail, sched, c, k, got) && c + k <= f && Ask(sched, f) < 0
    ensures BodyEnds(need, avail, sched, c, end)
    decreases f - c - k
  {
    hide Ask;
    var n := Min(need, avail);
    end := k + 1;
    if Ask(sched, c + k) >= 0 && Moved(n, sched, need, c, k + 1) != need {
      end := BodyMeetsFailure(need, avail, sched, c, k + 1, Moved(n, sched, need, c, k + 1), f);
    }
  }

  lemma PacketEnds(s: seq<byte>, of: nat, cap: nat, sched: Schedule, wait: nat, clock: nat)
    requires forall c: nat :: FailsLater(sched, c)
    ensures IpPacket(s, of, cap, sched, wait, clock).rc != HANGS
  {
    hide ReadU32, PrefixRun, BodyEnds, BodyGoing;
    var c := PrefixRun(|s|, sched, wait, 0, clock).1;
    if |s| >= 4 && ReadU32(s, 0) > 4 {
      var need: nat := ReadU32(s, 0) - 4;
      assert FailsLater(sched, c);
      var f: nat :| f >= c && Ask(sched, f) < 0;
      BodyStart(need, |s| - 4, sched, c);
      var end := BodyMeetsFailure(need, |s| - 4, sched, c, 0, 0, f);
    }
  }

  /** A connection that fails sooner or later, each time it is used again, ends every body loop. */
  lemma FailuresEnd(s: seq<byte>, cap: nat, sched: Schedule, wait0: nat, wait: nat, clock: nat)
    requires forall c: nat :: FailsLater(sched, c)
    ensures BulkEnds(s, cap, sched, wait0, wait, clock)
  {
    hide IpPacket, KindSeen, Grown, Rest, FailsLater;
    forall stale: Stale ensures IpBulk(s, cap, sched, wait0, wait, clock, stale).rc != HANGS {
      PacketEnds(s, 0, cap, sched, wait0, clock);
      var p1 := IpPacket(s, 0, cap, sched, wait0, clock);
      if p1.rc >= 0 {
        var s2, cap1 := Rest(s, p1.rc), Grown(cap, 0, p1.rc);
        PacketEnds(s2, p1.rc, cap1, sched, wait, p1.clock);
        var p2 := IpPacket(s2, p1.rc, cap1, sched, wait, p1.clock);
        if p2.rc >= 0 {
          PacketEnds(Rest(s2, p2.rc), p1.rc + p2.rc, Grown(cap1, p1.rc, p2.rc), sched, wait, p2.clock);
        }
      }
    }
  }

  lemma BulkPacketEnds(s: seq<byte>, cap: nat, sched: Schedule, wait0: nat, wait: nat, clock: nat)
    requires BulkEnds(s, cap, sched, wait0, wait, clock)
    ensures IpPacket(s, 0, cap, sched, wait0, clock).rc != HANGS
  {
    hide IpPacket, IpDataPhase, KindSeen, Grown;
    var w := [0, 0, 0, 0];
    assert IpBulk(s, cap, sched, wait0, wait, clock, Stale(w, w, w)).rc != HANGS;
  }

  lemma BulkDataEnds(s: seq<byte>, cap: nat, sched: Schedule, wait0: nat, wait: nat, clock: nat, first: Word)
    requires BulkEnds(s, cap, sched, wait0, wait, clock)
    ensures var p1 := IpPacket(s, 0, cap, sched, wait0, clock);
            p1.rc >= 0 && Grown(cap, 0, p1.rc) >= 8 && KindSeen(s, p1.rc, first) == IP_DATA_START ==>
              DataEnds(Rest(s, p1.rc), p1.rc, Grown(cap, 0, p1.rc), sched, wait, p1.clock)
  {
    hide IpPacket, IpDataPhase, KindSeen, Grown, Rest;
    var p1 := IpPacket(s, 0, cap, sched, wait0, clock);
    if p1.rc >= 0 && Grown(cap, 0, p1.rc) >= 8 && KindSeen(s, p1.rc, first) == IP_DATA_START {
      var s2, cap1 := Rest(s, p1.rc), Grown(cap, 0, p1.rc);
      forall stale: Stale ensures IpDataPhase(s2, p1.rc, cap1, sched, wait, p1.clock, stale).rc != HANGS {
        var stale1 := stale.(first := first);
        SameData(s2, p1.rc, cap1, sched, wait, p1.clock, stale, stale1);
        assert IpBulk(s, cap, sched, wait0, wait, clock, stale1).rc != HANGS;
      }
    }
  }

  lemma SameData(s2: seq<byte>, pk1: nat, cap: nat, sched: Schedule, wait: nat, clock: nat, a: Stale, b: Stale)
    requires a.second == b.second && a.third == b.third
    ensures IpDataPhase(s2, pk1, cap, sched, wait, clock, a) == IpDataPhase(s2, pk1, cap, sched, wait, clock, b)
  {
    hide IpPacket, KindSeen, Grown, Rest;
  }

  lemma DataPacketEnds(s2: seq<byte>, pk1: nat, cap: nat, sched: Schedule, wait: nat, clock: nat)
    requires DataEnds(s2, pk1, cap, sched, wait, clock)
    ensures IpPacket(s2, pk1, cap, sched, wait, clock).rc != HANGS
  {
    hide IpPacket, KindSeen, Grown, Rest;
    var w := [0, 0, 0, 0];
    assert IpDataPhase(s2, pk1, cap, sched, wait, clock, Stale(w, w, w)).rc != HANGS;
  }

  lemma DataResponseEnds(s2: seq<byte>, pk1: nat, cap: nat, sched: Schedule, wait: nat, clock: nat, second: Word)
    requires DataEnds(s2, pk1, cap, sched, wait, clock)
    ensures var p2 := IpPacket(s2, pk1, cap, sched, wait, clock);
            p2.rc >= 0 && Grown(cap, pk1, p2.rc) >= pk1 + 8 && KindSeen(s2, p2.rc, second) == IP_DATA_END ==>
              IpPacket(Rest(s2, p2.rc), pk1 + p2.rc, Grown(cap, pk1, p2.rc), sched, wait, p2.clock).rc != HANGS
  {
    hide IpPacket, KindSeen, Grown, Rest;
    assert IpDataPhase(s2, pk1, cap, sched, wait, clock, Stale(second, second, second)).rc != HANGS;
  }

  /** What the buffer b held at the type field of the response behind the END packet at pk1. */
  predicate ThirdLeft(b: seq<byte>, pk1: nat, s2: seq<byte>, third: Word) {
    |s2| >= 4 ==> Leftover(b, pk1 + ReadU32(s2, 0), third)
  }

  /** What the buffer b held at the type fields of the packets to come. */
  predicate FromBuffer(b: seq<byte>, s: seq<byte>, stale: Stale) {
    && Leftover(b, 0, stale.first)
    && (|s| >= 4 ==> Leftover(b, ReadU32(s, 0), stale.second))
    && (|s| >= 4 && ReadU32(s, 0) <= |s| ==>
         ThirdLeft(b, ReadU32(s, 0), Rest(s, ReadU32(s, 0)), stale.third))
  }

  ghost function Remnants(b: seq<byte>, s: seq<byte>): (stale: Stale)
    ensures FromBuffer(b, s, stale)
  {
    if |s| < 4 then Stale(WordAt(b, 0), WordAt(b, 0), WordAt(b, 0))
    else
      var l1 := ReadU32(s, 0);
      var third := if l1 + 4 <= |s| then WordAt(b, l1 + ReadU32(Rest(s, l1), 0)) else WordAt(b, 0);
      Stale(WordAt(b, 0), WordAt(b, l1), third)
  }

  /** A response alone, or START, END and RESPONSE laid end to end. */
  predicate IpLaidOut(p: seq<byte>) {
    && |p| >= 8
    && var l1 := ReadU32(p, 0);
    && ((ReadU32(p, 4) == IP_COMMAND_RESPONSE && l1 == |p|)
        || (ReadU32(p, 4) == IP_DATA_START && l1 >= 8 && l1 + 8 <= |p| && ReadU32(p, l1 + 4) == IP_DATA_END
            && var l2 := ReadU32(p, l1);
            l2 >= 8 && l1 + l2 + 8 <= |p| && ReadU32(p, l1 + l2 + 4) == IP_COMMAND_RESPONSE
            && l1 + l2 + ReadU32(p, l1 + l2) == |p|))
  }

  lemma ReadShift(s: seq<byte>, t: seq<byte>, d: nat, of: nat)
    requires d <= |s| && of + 4 <= |t| && t <= s[d..]
    ensures ReadU32(s, d + of) == ReadU32(t, of)
  {
  }

  lemma LaidOutPrefix(s: seq<byte>, n: nat, l1: nat, l2: nat)
    requires 8 <= l1 && 8 <= l2 && l1 + l2 + 8 <= n <= |s|
    requires ReadU32(s, 0) == l1 && ReadU32(s, 4) == IP_DATA_START
    requires ReadU32(s, l1) == l2 && ReadU32(s, l1 + 4) == IP_DATA_END
    requires l1 + l2 + ReadU32(s, l1 + l2) == n && ReadU32(s, l1 + l2 + 4) == IP_COMMAND_RESPONSE
    ensures IpLaidOut(s[..n]) && ReadU32(s[..n], 0) == l1
  {
    hide ReadU32;
    forall of | of in {0, 4, l1, l1 + 4, l1 + l2, l1 + l2 + 4} ensures ReadU32(s[..n], of) == ReadU32(s, of) {
      ReadShift(s, s[..n][of..], of, 0);
      ReadShift(s[..n], s[..n][of..], of, 0);
    }
  }

  /** The layout makes the accessors find the response, and the payload pointer inside END. */
  lemma LaidOutAccess(p: seq<byte>)
    requires IpLaidOut(p)
    ensures IpResponseAt(p).Some?
    ensures ReadU32(p, 4) == IP_DATA_START ==> IpPayloadAt(p) == Some(ReadU32(p, 0) + 12)
  {
    hide ReadU32;
  }

  /** The receiver does not ask how long the response is: its code and ID lie in the answer, and the number of
      parameters is not close to 2^30, exactly when the length field covers what they are taken from. */
  lemma ResponseCovers(p: seq<byte>)
    requires IpLaidOut(p)
    ensures IpResponseAt(p).Some? && var length := ReadU32(p, IpResponseAt(p).value);
            && (ReturnCode(PTP_IP, p).Some? <==> length >= 10)
            && (TransactionId(PTP_IP, p).Some? <==> length >= 14)
            && ParamLength(PTP_IP, p) == Some(if length >= 14 then (length - 14) / 4 else (U32_MOD - 14 + length) / 4)
            && (14 + 4 * ParamLength(PTP_IP, p).value <= length <==> length >= 14)
  {
    hide ReadU32, ReadU16;
    LaidOutAccess(p);
  }

  /** A response of eight bytes is accepted, and has no code. */
  lemma NoCodeAccepted()
    ensures var p := U32(8) + U32(IP_COMMAND_RESPONSE);
            IpLaidOut(p) && IpResponseAt(p) == Some(0) && ReturnCode(PTP_IP, p) == None
  {
    hide ReadU32, U32;
    var p := U32(8) + U32(IP_COMMAND_RESPONSE);
    assert p[0..8] == p;
    AtConcat(p, 0, U32(8), U32(IP_COMMAND_RESPONSE));
    ReadBackU32(p, 0, 8);
    ReadBackU32(p, 4, IP_COMMAND_RESPONSE);
  }

  /** What follows such an answer in the buffer does not move the response. */
  lemma LaidOutPrefixed(p: seq<byte>, q: seq<byte>)
    requires IpLaidOut(p) && p <= q
    ensures IpResponseAt(q) == IpResponseAt(p) != None
    ensures ReadU32(p, 4) == IP_DATA_START ==> IpPayloadAt(q) == IpPayloadAt(p) != None
  {
    hide ReadU32;
    LaidOutAccess(p);
    var l1: int := ReadU32(p, 0);
    SameNumbers(p, q, 0);
    SameNumbers(p, q, 4);
    if ReadU32(p, 4) == IP_DATA_START {
      SameNumbers(p, q, l1);
      SameNumbers(p, q, l1 + 4);
      SameNumbers(p, q, l1 + ReadU32(p, l1) + 4);
    }
  }

  lemma SameNumbers(p: seq<byte>, q: seq<byte>, of: nat)
    requires p <= q && of + 4 <= |p|
    ensures ReadU32(q, of) == ReadU32(p, of)
  {
  }

  /** The payload pointer comes from the packets, the payload length from a field of START that nothing
      compares with them: the payload is END's body exactly when the two agree.  An END of fewer than twelve
      bytes has no body; the pointer then leads into the response, and the payload is what lies there. */
  lemma PayloadIsEndBody(p: seq<byte>)
    requires IpLaidOut(p) && ReadU32(p, 4) == IP_DATA_START
    ensures var l1, l2, n := ReadU32(p, 0), ReadU32(p, ReadU32(p, 0)), ReadU64(p, 12) % U32_MOD;
            && (l2 >= 12 ==> (PacketAccess.Payload(PTP_IP, p) == Some(p[l1 + 12..l1 + l2]) <==> n == l2 - 12))
            && PacketAccess.Payload(PTP_IP, p)
               == (if l1 + 12 + n <= |p| then Some(p[l1 + 12..l1 + 12 + n]) else None)
            && (l2 < 12 ==> l1 + l2 < l1 + 12 <= l1 + l2 + 4 < |p| && IpResponseAt(p) == Some(l1 + l2))
  {
    hide ReadU32, ReadU64;
    LaidOutAccess(p);
    var l1: int, l2: int, n: int := ReadU32(p, 0), ReadU32(p, ReadU32(p, 0)), ReadU64(p, 12) % U32_MOD;
    if l1 + 12 + n <= |p| {
      assert |p[l1 + 12..l1 + 12 + n]| == n;
    }
  }

  /** START announces a hundred bytes, END brings none: the answer is accepted, and a caller that takes the
      announced payload reads beyond it. */
  lemma OverstatedLength(id: u32)
    ensures var p := IpStart(id, 100) + (IpEnd(id, []) + IpResponse(Response(RC_OK, id, [], None)));
            && |p| == 46 && IpLaidOut(p) && IpPayloadAt(p) == Some(32)
            && PayloadLength(PTP_IP, p) == Some(100) && PacketAccess.Payload(PTP_IP, p) == None
  {
    hide ReadU16, ReadU32, ReadU64, IpStart, IpEnd, IpResponse;
    var r := Response(RC_OK, id, [], None);
    var p := IpStart(id, 100) + (IpEnd(id, []) + IpResponse(r));
    assert p[0..46] == p;
    AtConcat(p, 0, IpStart(id, 100), IpEnd(id, []) + IpResponse(r));
    AtConcat(p, 20, IpEnd(id, []), IpResponse(r));
    IpStartFields(p, 0, id, 100);
    IpEndFields(p, 20, id, []);
    IpResponseFields(p, 32, r);
  }

  /** Every packet in p is long enough for its type field. */
  predicate Headed(p: seq<byte>) {
    && |p| >= 4
    && var l1 := ReadU32(p, 0);
    && l1 >= 8
    && (l1 < |p| ==> l1 + 4 <= |p| && ReadU32(p, l1) >= 8 && l1 + ReadU32(p, l1) + 8 <= |p|)
  }

  /** Soundness, for any length fields and any stale bytes: success leaves exactly this layout if and only if no
      packet was shorter than its header.  Then ptpip_get_response_packet finds the response at the offset
      the receiver put it and cannot panic, and the payload pointer leads behind END's header. */
  lemma IpSound(s: seq<byte>, cap: nat, sched: Schedule, wait0: nat, wait: nat, clock: nat, stale: Stale)
    requires IpBulk(s, cap, sched, wait0, wait, clock, stale).rc == PTP_OK
    ensures var p := s[..IpBulk(s, cap, sched, wait0, wait, clock, stale).used];
            && (IpLaidOut(p) <==> Headed(p))
            && (Headed(p) ==> IpResponseAt(p).Some?)
            && (Headed(p) && ReadU32(p, 4) == IP_DATA_START ==> IpPayloadAt(p) == Some(ReadU32(p, 0) + 12))
  {
    hide ReadU32, IpPacket, IpLaidOut, IpResponseAt, IpPayloadAt, KindSeen, Grown, Headed;
    var n := IpBulk(s, cap, sched, wait0, wait, clock, stale).used;
    var l1: int := ReadU32(s, 0);
    LaidOutIsHeaded(s[..n]);
    if n == l1 {
      AloneShape(s, n, stale.first);
    } else {
      var s2 := s[l1..];
      var l2: int := ReadU32(s2, 0);
      var s3 := s2[l2..];
      assert s3 == s[l1 + l2..];
      assert s2 == Rest(s, l1) && s3 == Rest(s2, l2);
      DataShape(s, n, l1, l2, stale);
    }
    if Headed(s[..n]) {
      LaidOutAccess(s[..n]);
    }
  }

  lemma HeadedIsLong(p: seq<byte>)
    ensures Headed(p) ==> |p| >= 4 && (ReadU32(p, 0) == |p| || ReadU32(p, 0) < |p| ==> |p| >= 8)
  {
    hide ReadU32;
  }

  lemma LaidOutIsHeaded(p: seq<byte>)
    ensures IpLaidOut(p) ==> Headed(p)
  {
    hide ReadU32;
  }

  lemma AloneShape(s: seq<byte>, n: nat, stale: Word)
    requires 4 <= n <= |s| && ReadU32(s, 0) == n && KindSeen(s, n, stale) == IP_COMMAND_RESPONSE
    ensures Headed(s[..n]) ==> IpLaidOut(s[..n])
  {
    ReadShift(s, s[..n], 0, 0);
    if n >= 8 {
      LaidOutAlone(s, n);
    }
  }

  lemma DataShape(s: seq<byte>, n: nat, l1: nat, l2: nat, stale: Stale)
    requires 4 <= l1 && 4 <= l2 && l1 + l2 + 4 <= n <= |s|
    requires ReadU32(s, 0) == l1 && ReadU32(s[l1..], 0) == l2 && l1 + l2 + ReadU32(s[l1 + l2..], 0) == n
    requires KindSeen(s, l1, stale.first) == IP_DATA_START && KindSeen(s[l1..], l2, stale.second) == IP_DATA_END
    requires KindSeen(s[l1 + l2..], n - l1 - l2, stale.third) == IP_COMMAND_RESPONSE
    ensures Headed(s[..n]) ==> IpLaidOut(s[..n])
  {
    hide ReadU32, IpLaidOut;
    ReadShift(s, s[..n], 0, 0);
    ReadShift(s, s[l1..], l1, 0);
    ReadShift(s[..n], s[..n][l1..], l1, 0);
    ReadShift(s, s[..n][l1..], l1, 0);
    if Headed(s[..n]) {
      ReadShift(s, s[l1..], l1, 4);
      ReadShift(s, s[l1 + l2..], l1 + l2, 0);
      ReadShift(s, s[l1 + l2..], l1 + l2, 4);
      LaidOutPrefix(s, n, l1, l2);
    }
  }

  lemma LaidOutAlone(s: seq<byte>, n: nat)
    requires 8 <= n <= |s| && ReadU32(s, 0) == n && ReadU32(s, 4) == IP_COMMAND_RESPONSE
    ensures IpLaidOut(s[..n])
  {
    ReadShift(s, s[..n], 0, 0);
    ReadShift(s, s[..n], 0, 4);
  }

  // ---- a packet without a header ----

  /** Reads bring all that they ask for. */
  function Eager(k: nat): int {
    INT_MAX_PLUS_1
  }

  lemma EagerArrives(s: seq<byte>, of: nat, cap: nat, wait: nat, clock: nat)
    requires |s| >= 4 && 4 <= ReadU32(s, 0) <= |s| < INT_MAX_PLUS_1 && HasRoom(s, of, cap) && wait > 0
    ensures var length := ReadU32(s, 0);
            IpPacket(s, of, cap, Eager, wait, clock)
            == IpOutcome(length, length, if length == 4 then clock + 1 else clock + 2)
  {
    hide ReadU32, IpPacket;
    var length: int := ReadU32(s, 0);
    var k := if length == 4 then 0 else 1;
    assert Ask(Eager, clock) == INT_MAX_PLUS_1 && Ask(Eager, clock + 1) == INT_MAX_PLUS_1;
    assert Moved(length - 4, Eager, length - 4, clock + 1, 0) == 0;
    assert Moved(length - 4, Eager, length - 4, clock + 1, 1) == length - 4;
    assert ArrivesIn(s, Eager, wait, clock, clock + 1 + k, 0, k);
    assert Arrives(s, Eager, wait, clock, clock + 1 + k);
    IpPacketIff(s, of, cap, Eager, wait, clock);
  }

  /** START, then an END that is nothing but its length, then a response. */
  function ShortEnd(id: u32, n: u64): (p: seq<byte>)
    ensures |p| == 38
  {
    IpStart(id, n) + (U32(4) + IpResponse(Response(RC_OK, id, [], None)))
  }

  lemma ShortEndFields(id: u32, n: u64)
    ensures var p := ShortEnd(id, n);
            && ReadU32(p, 0) == 20 && ReadU32(p, 4) == IP_DATA_START && ReadU32(p, 20) == 4
            && ReadU32(p, 24) == 14 && ReadU32(p, 28) == IP_COMMAND_RESPONSE
  {
    hide ReadU16, ReadU32, ReadU64, IpStart, IpResponse, U32;
    var r := Response(RC_OK, id, [], None);
    var p := ShortEnd(id, n);
    assert p[0..38] == p;
    AtConcat(p, 0, IpStart(id, n), U32(4) + IpResponse(r));
    AtConcat(p, 20, U32(4), IpResponse(r));
    IpStartFields(p, 0, id, n);
    ReadBackU32(p, 20, 4);
    IpResponseFields(p, 24, r);
  }

  /** Where an earlier answer left the type of END, this one is accepted; the response then lies on that type,
      and in no buffer that begins with these bytes is there a response to be found: the panic is reached. */
  lemma ShortEndPanics(id: u32, n: u64, cap: nat, stale: Stale)
    requires cap >= 32 && stale.second == U32(IP_DATA_END)
    ensures var p := ShortEnd(id, n);
            && IpBulk(p, cap, Eager, 1, 1, 0, stale) == BulkOutcome(PTP_OK, 38, 18, 5)
            && !Headed(p) && !IpLaidOut(p)
            && forall q :: p <= q ==> IpResponseAt(q) == None
  {
    hide ReadU32, IpPacket, ShortEnd, U32;
    var p := ShortEnd(id, n);
    ShortEndFields(id, n);
    var s2, s3 := Rest(p, 20), Rest(Rest(p, 20), 4);
    assert s3 == p[24..];
    ReadShift(p, s2, 20, 0);
    ReadShift(p, s3, 24, 0);
    ReadShift(p, s3, 24, 4);
    var cap1 := Grown(cap, 0, 20);
    EagerArrives(p, 0, cap, 1, 0);
    EagerArrives(s2, 20, cap1, 1, 2);
    EagerArrives(s3, 24, cap1, 1, 3);
    assert s2[4..4] + stale.second[0..] == stale.second;
    SplitU32(IP_DATA_END);
    forall q | p <= q ensures IpResponseAt(q) == None {
      SameNumbers(p, q, 0);
      SameNumbers(p, q, 4);
      SameNumbers(p, q, 24);
    }
  }

  /** Each of the packets of r's PTP/IP encoding arrives, one after the other. */
  ghost predicate IpDelivers(r: Response, sched: Schedule, wait0: nat, wait: nat, clock: nat) {
    var s := IpStream(r);
    if r.data.None? then exists c1 :: Arrives(s, sched, wait0, clock, c1)
    else
      var pk2 := 32 + |r.data.value|;
      var s2, s3 := s[20..], s[pk2..];
      exists c1 :: Arrives(s, sched, wait0, clock, c1)
                && exists c2 :: Arrives(s2, sched, wait, c1, c2)
                             && exists c3 :: Arrives(s3, sched, wait, c2, c3)
  }

  lemma IpStreamPackets(r: Response)
    ensures var s := IpStream(r);
            && 14 <= |s| < INT_MAX_PLUS_1
            && (r.data.None? ==> ReadU32(s, 0) == |s| && ReadU32(s, 4) == IP_COMMAND_RESPONSE)
            && (r.data.Some? ==>
                 var s2 := s[20..];
                 var l2 := 12 + |r.data.value|;
                 && |s| == 20 + |s2| && |s2| == l2 + 14 + 4 * |r.params|
                 && ReadU32(s, 0) == 20 && ReadU32(s, 4) == IP_DATA_START
                 && ReadU32(s2, 0) == l2 && ReadU32(s2, 4) == IP_DATA_END
                 && var s3 := s2[l2..];
                 s3 == s[20 + l2..] && ReadU32(s3, 0) == |s3| && ReadU32(s3, 4) == IP_COMMAND_RESPONSE)
  {
    hide ReadU32, IpResponse, IpStart, IpEnd, U16, U32, U64;
    var s := IpStream(r);
    IpStreamShape(r);
    if r.data.None? {
      IpResponseFields(s, 0, r);
    } else {
      var l2 := 12 + |r.data.value|;
      IpStartFields(s, 0, r.id, |r.data.value|);
      IpEndFields(s, 20, r.id, r.data.value);
      IpResponseFields(s, 20 + l2, r);
      var s2 := s[20..];
      var s3 := s2[l2..];
      ReadShift(s, s2, 20, 0);
      ReadShift(s, s2, 20, 4);
      ReadShift(s, s3, 20 + l2, 0);
      ReadShift(s, s3, 20 + l2, 4);
    }
  }

  /** An encoded response is received, whole, exactly when its packets arrive, whatever the buffer held. */
  lemma IpChunking(r: Response, cap: nat, sched: Schedule, wait0: nat, wait: nat, clock: nat, stale: Stale)
    requires cap >= 8
    ensures var out := IpBulk(IpStream(r), cap, sched, wait0, wait, clock, stale);
            && (out.rc == PTP_OK <==> IpDelivers(r, sched, wait0, wait, clock))
            && (out.rc == PTP_OK ==> out.used == |IpStream(r)|)
  {
    hide ReadU32, IpPacket, Arrives, IpStream;
    var s := IpStream(r);
    IpStreamPackets(r);
    IpPacketIff(s, 0, cap, sched, wait0, clock);
    assert HasRoom(s, 0, cap);
    if r.data.Some? {
      var pk2 := 32 + |r.data.value|;
      var cap1 := Grown(cap, 0, 20);
      assert HasRoom(s[20..], 20, cap1) && HasRoom(s[pk2..], pk2, Grown(cap1, 20, pk2 - 20));
      assert s[20..] == Rest(s, 20) && s[pk2..] == Rest(s[20..], pk2 - 20);
      var p1 := IpPacket(s, 0, cap, sched, wait0, clock);
      if p1.rc >= 0 {
        IpPacketIff(s[20..], 20, cap1, sched, wait, p1.clock);
        var p2 := IpPacket(s[20..], 20, cap1, sched, wait, p1.clock);
        if p2.rc >= 0 {
          IpPacketIff(s[pk2..], pk2, Grown(cap1, 20, pk2 - 20), sched, wait, p2.clock);
        }
      }
    }
  }

  // ---- both transports ----

  /** Transport independence: once received, the USB and the PTP/IP encoding of the same response are
      indistinguishable through the accessors, whatever the read schedules and the buffers were. */
  lemma TransportIndependence(r: Response, op: u16, conn: Conn, usb: Schedule, ip: Schedule, max: nat,
                              retries: nat, c: nat, wait0: nat, cap: nat, stale: Stale)
    requires conn != PTP_IP && retries >= 1 && cap >= 8
    requires Drains(|UsbStream(r, op)|, usb, max, retries, c)
    requires IpDelivers(r, ip, wait0, retries, c)
    ensures |UsbStream(r, op)| < INT_MAX_PLUS_1
    ensures var u := UsbReceived(UsbStream(r, op), usb, max, retries, c);
            var i := IpBulk(IpStream(r), cap, ip, wait0, retries, c, stale);
            && u.rc == i.rc == PTP_OK
            && u.read <= |UsbStream(r, op)|
            && Carries(conn, UsbStream(r, op)[..u.read], r)
            && Carries(PTP_IP, IpStream(r)[..i.used], r)
  {
    hide UsbReceived, IpBulk, Carries, Drains, IpDelivers, UsbStream, IpStream;
    StreamIsWellFormed(r, op);
    UsbChunking(UsbStream(r, op), usb, max, retries, c);
    UsbStreamCarries(conn, r, op);
    IpStreamPackets(r);
    IpChunking(r, cap, ip, wait0, retries, c, stale);
    IpStreamCarries(r);
    assert IpStream(r)[..|IpStream(r)|] == IpStream(r);
    assert UsbStream(r, op)[..|UsbStream(r, op)|] == UsbStream(r, op);
  }
}
