/** Reassembly of USB containers from arbitrary reads: the specification of ptpusb_read_all_packets
    (src/transport.c) and what it guarantees for every device and every way of splitting the bytes.
    The loop itself is Runtime.PtpRuntime.UsbReadAllPackets. */
module UsbReceive {
  import opened Bytes
  import opened Packets
  import opened PacketAccess

  const PTP_OK := 0
  const PTP_IO_ERR := -5
  const PTP_CHECK_CODE := -8
  const PTP_COMMAND_IGNORED := -10

  /** What a response code means to the caller of ptp_send. */
  function CodeResult(code: u16): (rc: int)
    ensures (rc == 0 <==> code == 0x2001) && (rc == -5 <==> code == 0xFFFF)
    ensures rc == -8 <==> code != 0x2001 && code != 0xFFFF
  {
    if code == 0xffff then PTP_IO_ERR else if code != RC_OK then PTP_CHECK_CODE else PTP_OK
  }

  /** sched(k) fixes the k-th call to the backend: negative for an error, otherwise how many bytes it is
      willing to move.  Every sequence of read and write results is given by some schedule. */
  type Schedule = nat -> int

  function Ask(sched: Schedule, k: nat): int {
    sched(k)
  }

  function Granted(v: int, max: nat, avail: nat): (rc: int)
    ensures rc <= max && rc <= avail
  {
    if v < 0 then v else Min(v, Min(max, avail))
  }

  datatype Verdict = More | Done | Broken

  /** What the receive loop concludes from the bytes read so far, in 32-bit unsigned arithmetic. */
  function Judge(p: seq<byte>): Verdict
    requires |p| < INT_MAX_PLUS_1
  {
    if |p| < 12 then More
    else
      var length := ReadU32(p, 0);
      if |p| < length then More
      else if ReadU16(p, 4) == TYPE_RESPONSE then Done
      else if ReadU16(p, 4) == TYPE_DATA then
        if (length + 12) % U32_MOD > |p| then More
        else if ReadU16(p, length + 4) != TYPE_RESPONSE then Broken
        else
          var total := (ReadU32(p, length) + length) % U32_MOD;
          if |p| == total then Done else if |p| > total then Broken else More
      else More
  }

  function JudgeFirst(s: seq<byte>, n: nat): Verdict
    requires n <= |s| && n < INT_MAX_PLUS_1
  {
    Judge(s[..n])
  }

  datatype UsbOutcome = UsbOutcome(rc: int, read: nat, wait: nat, clock: nat)

  /** The loop from a state with `read` bytes of s received, `wait` retries left and `attempts` used. */
  function UsbRun(s: seq<byte>, sched: Schedule, max: nat, read: nat, wait: nat, attempts: nat, clock: nat): UsbOutcome
    requires read <= |s| < INT_MAX_PLUS_1 && wait + attempts >= 1
    decreases wait, |s| - read
  {
    var rc := Granted(Ask(sched, clock), max, |s| - read);
    if rc <= 0 && wait > 0 then UsbRun(s, sched, max, read, wait - 1, attempts + 1, clock + 1)
    else if rc < 0 then UsbOutcome(PTP_IO_ERR, read, wait, clock + 1)
    else if wait == 0 && attempts > 0 then UsbOutcome(PTP_COMMAND_IGNORED, read + rc, wait, clock + 1)
    else
      match Judge(s[..read + rc])
      case More => UsbRun(s, sched, max, read + rc, wait, attempts, clock + 1)
      case Done => UsbOutcome(PTP_OK, read + rc, wait, clock + 1)
      case Broken => UsbOutcome(PTP_IO_ERR, read + rc, wait, clock + 1)
  }

  function UsbReceived(s: seq<byte>, sched: Schedule, max: nat, retries: nat, c: nat): UsbOutcome
    requires |s| < INT_MAX_PLUS_1 && retries >= 1
  {
    UsbRun(s, sched, max, 0, retries, 0, c)
  }

  /** The loop has reached this state on the way to outcome out. */
  ghost predicate Reaching(out: UsbOutcome, s: seq<byte>, sched: Schedule, max: nat, read: nat, wait: nat,
                           attempts: nat, clock: nat) {
    read <= |s| < INT_MAX_PLUS_1 && wait + attempts >= 1 && out == UsbRun(s, sched, max, read, wait, attempts, clock)
  }

  lemma ReachingStart(s: seq<byte>, sched: Schedule, max: nat, retries: nat, c: nat)
    requires |s| < INT_MAX_PLUS_1 && retries >= 1
    ensures Reaching(UsbReceived(s, sched, max, retries, c), s, sched, max, 0, retries, 0, c)
  {
  }

  /** One call to the backend, which returned rc, brings the loop to its next state or to its outcome. */
  lemma Reached(out: UsbOutcome, s: seq<byte>, sched: Schedule, max: nat, read: nat, wait: nat, attempts: nat,
                clock: nat, rc: int)
    requires Reaching(out, s, sched, max, read, wait, attempts, clock)
    requires rc == Granted(Ask(sched, clock), max, |s| - read)
    ensures rc <= 0 && wait > 0 ==> Reaching(out, s, sched, max, read, wait - 1, attempts + 1, clock + 1)
    ensures rc < 0 && wait == 0 ==> out == UsbOutcome(PTP_IO_ERR, read, wait, clock + 1)
    ensures rc >= 0 && wait == 0 ==> out == UsbOutcome(PTP_COMMAND_IGNORED, read + rc, wait, clock + 1)
    ensures rc > 0 && wait > 0 ==>
              match JudgeFirst(s, read + rc)
              case More => Reaching(out, s, sched, max, read + rc, wait, attempts, clock + 1)
              case Done => out == UsbOutcome(PTP_OK, read + rc, wait, clock + 1)
              case Broken => out == UsbOutcome(PTP_IO_ERR, read + rc, wait, clock + 1)
  {
  }

  // ---- counting reads without running the loop ----

  /** How many of n bytes the first k calls after time c move. */
  function Moved(n: nat, sched: Schedule, max: nat, c: nat, k: nat): (m: nat)
    ensures m <= n
  {
    if k == 0 then 0
    else
      var m := Moved(n, sched, max, c, k - 1);
      var g := Granted(Ask(sched, c + k - 1), max, n - m);
      if g > 0 then m + g else m
  }

  /** How many of these calls come back empty or with an error. */
  function Misses(n: nat, sched: Schedule, max: nat, c: nat, k: nat): nat {
    if k == 0 then 0
    else
      Misses(n, sched, max, c, k - 1)
      + if Granted(Ask(sched, c + k - 1), max, n - Moved(n, sched, max, c, k - 1)) > 0 then 0 else 1
  }

  lemma MissesGrow(n: nat, sched: Schedule, max: nat, c: nat, i: nat, j: nat)
    requires i <= j
    ensures Misses(n, sched, max, c, i) <= Misses(n, sched, max, c, j)
    decreases j
  {
    if i < j {
      MissesGrow(n, sched, max, c, i, j - 1);
    }
  }

  lemma MovedGrows(n: nat, sched: Schedule, max: nat, c: nat, i: nat, j: nat)
    requires i <= j
    ensures Moved(n, sched, max, c, i) <= Moved(n, sched, max, c, j)
    decreases j
  {
    if i < j {
      MovedGrows(n, sched, max, c, i, j - 1);
    }
  }

  // ---- the verdict ----

  /** A verdict of Done means a complete buffer: no wrap-around of the 32-bit sums can fake one. */
  lemma DoneIsComplete(p: seq<byte>)
    requires |p| < INT_MAX_PLUS_1 && Judge(p) == Done
    ensures UsbComplete(p)
  {
    hide ReadU32, ReadU16;
  }

  /** The verdicts, in terms of the containers received: Done is a complete answer; Broken is a data container
      with something behind it that is no response, or a response that ends before the bytes do, or one whose
      end wraps around; anything else needs more bytes. */
  lemma VerdictIs(p: seq<byte>)
    requires |p| < INT_MAX_PLUS_1
    ensures Judge(p) == Done <==> UsbComplete(p)
    ensures Judge(p) == Done <==>
              && |p| >= 12
              && var length := ReadU32(p, 0);
              && length <= |p|
              && (ReadU16(p, 4) == 3
                  || (ReadU16(p, 4) == 2 && length + 12 <= |p| && ReadU16(p, length + 4) == 3
                      && length + ReadU32(p, length) == |p|))
    ensures Judge(p) == Broken <==>
              && |p| >= 12 && ReadU16(p, 4) == 2
              && var length := ReadU32(p, 0);
              && length + 12 <= |p|
              && (ReadU16(p, length + 4) != 3 || length + ReadU32(p, length) < |p|
                  || length + ReadU32(p, length) >= 0x1_0000_0000)
  {
    hide ReadU32, ReadU16;
  }

  /** A response header whose length field is too small for a header is accepted all the same. */
  lemma ShortLengthAccepted(length: u32, id: u32)
    requires length < 12
    ensures var p := UsbHeader(length, TYPE_RESPONSE, RC_OK, id);
            && Judge(p) == Done && ReturnCode(PTP_USB, p) == Some(RC_OK)
            && PayloadLength(PTP_USB, p) == Some(U32_MOD - 12 + length) && PacketAccess.Payload(PTP_USB, p) == None
  {
    hide ReadU16, ReadU32, UsbHeader;
    var p := UsbHeader(length, TYPE_RESPONSE, RC_OK, id);
    assert p[0..12] == p;
    UsbHeaderFields(p, 0, length, TYPE_RESPONSE, RC_OK, id);
    PayloadIff(PTP_USB, p);
  }

  /** One response, alone or after a data container, and nothing else. */
  predicate WellFormed(s: seq<byte>) {
    |s| < INT_MAX_PLUS_1 && UsbComplete(s) && (ReadU16(s, 4) == TYPE_RESPONSE ==> ReadU32(s, 0) == |s|)
  }

  lemma JudgePrefix(s: seq<byte>, n: nat)
    requires WellFormed(s) && n <= |s|
    ensures Judge(s[..n]) == if n < |s| then More else Done
  {
    var p := s[..n];
    if n >= 12 {
      assert ReadU32(p, 0) == ReadU32(s, 0) && ReadU16(p, 4) == ReadU16(s, 4);
      var length := ReadU32(s, 0);
      if ReadU16(s, 4) == TYPE_DATA && length + 12 <= n {
        assert ReadU32(p, length) == ReadU32(s, length) && ReadU16(p, length + 4) == ReadU16(s, length + 4);
      }
    }
  }

  lemma StreamIsWellFormed(r: Response, op: u16)
    ensures WellFormed(UsbStream(r, op))
  {
    hide ReadU32, ReadU16, UsbContainer;
    UsbStreamCarries(PTP_USB, r, op);
    UsbStreamShape(r, op);
    if r.data.Some? {
      UsbContainerFields(UsbStream(r, op), 0, TYPE_DATA, op, r.id, r.data.value);
    } else {
      UsbContainerFields(UsbStream(r, op), 0, TYPE_RESPONSE, r.code, r.id, Params(r.params));
    }
  }

  // ---- whole runs ----

  /** The run as it stands after k calls that neither succeeded nor gave up. */
  function UsbAfter(s: seq<byte>, sched: Schedule, max: nat, retries: nat, c: nat, k: nat): UsbOutcome
    requires |s| < INT_MAX_PLUS_1 && retries >= 1 && Misses(|s|, sched, max, c, k) <= retries
  {
    var misses := Misses(|s|, sched, max, c, k);
    UsbRun(s, sched, max, Moved(|s|, sched, max, c, k), retries - misses, misses, c + k)
  }

  /** What the backend returns to the call made after k earlier ones. */
  function Answer(n: nat, sched: Schedule, max: nat, c: nat, k: nat): (rc: int)
    ensures rc <= n - Moved(n, sched, max, c, k)
  {
    Granted(Ask(sched, c + k), max, n - Moved(n, sched, max, c, k))
  }

  /** What the return code of a run says about the calls it made, of which k are known to come first: with the
      retries used up it is -5 if the last call failed, and otherwise -10; else the bytes decide, 0 if they
      are a complete answer and -5 if they never will be. */
  ghost predicate Explained(s: seq<byte>, sched: Schedule, max: nat, retries: nat, c: nat, k: nat, out: UsbOutcome)
    requires |s| < INT_MAX_PLUS_1
  {
    var last := out.clock - c - 1;
    && last >= k
    && out.read == Moved(|s|, sched, max, c, last + 1)
    && Misses(|s|, sched, max, c, last) <= retries
    && (forall j :: k <= j <= last ==> Judge(s[..Moved(|s|, sched, max, c, j)]) == More)
    && var exhausted, rc := Misses(|s|, sched, max, c, last) == retries, Answer(|s|, sched, max, c, last);
    && (exhausted ==> out.rc == if rc < 0 then -5 else -10)
    && (!exhausted ==>
         && rc > 0 && Misses(|s|, sched, max, c, last + 1) < retries
         && match Judge(s[..out.read])
            case Done => out.rc == 0
            case Broken => out.rc == -5
            case More => false)
  }

  lemma CountStep(n: nat, sched: Schedule, max: nat, c: nat, k: nat)
    ensures var rc := Answer(n, sched, max, c, k);
            && Moved(n, sched, max, c, k + 1) == Moved(n, sched, max, c, k) + (if rc > 0 then rc else 0)
            && Misses(n, sched, max, c, k + 1) == Misses(n, sched, max, c, k) + (if rc > 0 then 0 else 1)
  {
  }

  /** Whether the loop goes round again after call k. */
  predicate Continues(s: seq<byte>, sched: Schedule, max: nat, retries: nat, c: nat, k: nat)
    requires |s| < INT_MAX_PLUS_1
  {
    var rc := Answer(|s|, sched, max, c, k);
    && Misses(|s|, sched, max, c, k) < retries
    && (rc > 0 ==> Judge(s[..Moved(|s|, sched, max, c, k) + rc]) == More)
  }

  lemma UsbUnroll(s: seq<byte>, sched: Schedule, max: nat, retries: nat, c: nat, k: nat)
    requires |s| < INT_MAX_PLUS_1 && retries >= 1
    requires Misses(|s|, sched, max, c, k) <= retries
    ensures var misses, rc := Misses(|s|, sched, max, c, k), Answer(|s|, sched, max, c, k);
            var read := Moved(|s|, sched, max, c, k) + if rc > 0 then rc else 0;
            var out := UsbAfter(s, sched, max, retries, c, k);
            if Continues(s, sched, max, retries, c, k) then
              Misses(|s|, sched, max, c, k + 1) <= retries && out == UsbAfter(s, sched, max, retries, c, k + 1)
            else
              && out.clock == c + k + 1 && out.read == read
              && out.rc == if misses < retries then (if Judge(s[..read]) == Done then PTP_OK else PTP_IO_ERR)
                           else if rc < 0 then PTP_IO_ERR else PTP_COMMAND_IGNORED
  {
    hide Judge, Moved, Misses, Granted;
    CountStep(|s|, sched, max, c, k);
  }

  lemma {:induction false} UsbTrace(s: seq<byte>, sched: Schedule, max: nat, retries: nat, c: nat, k: nat)
    requires |s| < INT_MAX_PLUS_1 && retries >= 1
    requires Misses(|s|, sched, max, c, k) <= retries
    requires Judge(s[..Moved(|s|, sched, max, c, k)]) == More
    ensures Explained(s, sched, max, retries, c, k, UsbAfter(s, sched, max, retries, c, k))
    decreases retries - Misses(|s|, sched, max, c, k), |s| - Moved(|s|, sched, max, c, k)
  {
    hide Judge, Moved, Misses, UsbAfter, Answer;
    UsbUnroll(s, sched, max, retries, c, k);
    CountStep(|s|, sched, max, c, k);
    if Continues(s, sched, max, retries, c, k) {
      UsbTrace(s, sched, max, retries, c, k + 1);
    }
  }

  lemma UsbReceivedExplained(s: seq<byte>, sched: Schedule, max: nat, retries: nat, c: nat)
    requires |s| < INT_MAX_PLUS_1 && retries >= 1
    ensures Explained(s, sched, max, retries, c, 0, UsbReceived(s, sched, max, retries, c))
  {
    hide UsbRun, Explained;
    UsbTrace(s, sched, max, retries, c, 0);
  }

  /** Soundness and the retry budget, for any device bytes and any schedule. */
  lemma UsbSound(s: seq<byte>, sched: Schedule, max: nat, retries: nat, c: nat)
    requires |s| < INT_MAX_PLUS_1 && retries >= 1
    ensures var out := UsbReceived(s, sched, max, retries, c);
            && out.clock > c && out.read <= |s|
            && out.rc in {PTP_OK, PTP_IO_ERR, PTP_COMMAND_IGNORED}
            && (out.rc == PTP_OK ==> UsbComplete(s[..out.read]))
            && Misses(|s|, sched, max, c, out.clock - c) <= retries + 1
            && (out.rc == PTP_COMMAND_IGNORED ==> Misses(|s|, sched, max, c, out.clock - c - 1) == retries)
  {
    hide UsbReceived, UsbComplete, Judge, Answer, Moved, Misses;
    UsbReceivedExplained(s, sched, max, retries, c);
    var out := UsbReceived(s, sched, max, retries, c);
    CountStep(|s|, sched, max, c, out.clock - c - 1);
    if out.rc == PTP_OK {
      DoneIsComplete(s[..out.read]);
    }
  }

  /** Some number of calls moves all n bytes with fewer than `retries` misses among them. */
  ghost predicate Drains(n: nat, sched: Schedule, max: nat, retries: nat, c: nat) {
    exists k: nat :: Moved(n, sched, max, c, k) == n && Misses(n, sched, max, c, k) < retries
  }

  /** Chunking independence: a well-formed answer is received, whole, exactly when the backend hands it
      over with fewer than `retries` empty or failed reads, however it is cut up. */
  lemma UsbChunking(s: seq<byte>, sched: Schedule, max: nat, retries: nat, c: nat)
    requires WellFormed(s) && retries >= 1
    ensures var out := UsbReceived(s, sched, max, retries, c);
            && (out.rc == PTP_OK <==> Drains(|s|, sched, max, retries, c))
            && (out.rc == PTP_OK ==> out.read == |s|)
  {
    hide UsbReceived, Judge, ReadU32, ReadU16;
    var n := |s|;
    var out := UsbReceived(s, sched, max, retries, c);
    UsbReceivedExplained(s, sched, max, retries, c);
    var last := out.clock - c - 1;
    JudgePrefix(s, out.read);
    if out.rc == PTP_OK {
      assert Moved(n, sched, max, c, last + 1) == n;
    } else if Drains(n, sched, max, retries, c) {
      var k: nat :| Moved(n, sched, max, c, k) == n && Misses(n, sched, max, c, k) < retries;
      if k <= last {
        JudgePrefix(s, Moved(n, sched, max, c, k));
      } else {
        MissesGrow(n, sched, max, c, last, k);
      }
      assert false;
    }
  }

  /** A read within the retry budget that carries the count from below to beyond the end of a well-formed answer
      with a data phase: the loop gives up. */
  lemma TooMuchIsAnError(a: seq<byte>, s: seq<byte>, sched: Schedule, max: nat, retries: nat, c: nat, k: nat)
    requires WellFormed(a) && ReadU16(a, 4) == 2 && a <= s && |s| < INT_MAX_PLUS_1 && retries >= 1
    requires Moved(|s|, sched, max, c, k) < |a| < Moved(|s|, sched, max, c, k + 1)
    requires Misses(|s|, sched, max, c, k) < retries
    ensures UsbReceived(s, sched, max, retries, c).rc == -5
  {
    hide UsbReceived, Judge, ReadU16, ReadU32, UsbComplete, WellFormed, Moved, Misses, Answer;
    UsbReceivedExplained(s, sched, max, retries, c);
    var out := UsbReceived(s, sched, max, retries, c);
    var last := out.clock - c - 1;
    CountStep(|s|, sched, max, c, k);
    CountStep(|s|, sched, max, c, last);
    BeyondIsBroken(a, s, Moved(|s|, sched, max, c, k + 1));
    if last < k {
      EndsTooEarly(a, s, sched, max, retries, c, k);
    }
  }

  lemma BeyondIsBroken(a: seq<byte>, s: seq<byte>, n: nat)
    requires WellFormed(a) && ReadU16(a, 4) == 2 && a <= s && |a| < n <= |s| < INT_MAX_PLUS_1
    ensures Judge(s[..n]) == Broken
  {
    var p := s[..n];
    var length: int := ReadU32(a, 0);
    assert ReadU32(p, 0) == length && ReadU16(p, 4) == ReadU16(a, 4);
    assert ReadU32(p, length) == ReadU32(a, length) && ReadU16(p, length + 4) == ReadU16(a, length + 4);
  }

  /** The loop does not end before the answer is there. */
  lemma EndsTooEarly(a: seq<byte>, s: seq<byte>, sched: Schedule, max: nat, retries: nat, c: nat, k: nat)
    requires WellFormed(a) && a <= s && |s| < INT_MAX_PLUS_1 && retries >= 1
    requires Moved(|s|, sched, max, c, k) < |a| && Misses(|s|, sched, max, c, k) < retries
    ensures UsbReceived(s, sched, max, retries, c).clock - c - 1 >= k
  {
    hide UsbReceived, Judge, ReadU16, ReadU32, UsbComplete, WellFormed, Moved, Misses, Answer;
    UsbReceivedExplained(s, sched, max, retries, c);
    var out := UsbReceived(s, sched, max, retries, c);
    var last := out.clock - c - 1;
    if last < k {
      MovedGrows(|s|, sched, max, c, last + 1, k);
      MissesGrow(|s|, sched, max, c, last, k);
      assert s[..out.read] == a[..out.read];
      JudgePrefix(a, out.read);
    }
  }

  /** The retry budget is checked before the header is judged: a complete answer that comes right after the
      last permitted miss is in the buffer, and yet the command counts as ignored and is sent again. */
  lemma IgnoredThoughComplete(s: seq<byte>, max: nat)
    requires WellFormed(s) && |s| <= max
    ensures var sched: Schedule := k => if k == 0 then 0 else |s|;
            UsbReceived(s, sched, max, 1, 0) == UsbOutcome(PTP_COMMAND_IGNORED, |s|, 0, 2) && UsbComplete(s)
  {
    var sched: Schedule := k => if k == 0 then 0 else |s|;
    assert Granted(Ask(sched, 0), max, |s|) == 0 && Granted(Ask(sched, 1), max, |s|) == |s|;
    hide Judge;
    assert UsbRun(s, sched, max, 0, 0, 1, 1) == UsbOutcome(PTP_COMMAND_IGNORED, |s|, 0, 2);
  }
}
