/** The engine and the runtime class describe the same ptp_send and ptp_send_data: a thread of the engine that
    runs alone, with its transfers fixed by a schedule, ends exactly as Runtime.PtpRuntime.Send does. */
module EngineSolo {
  import opened Bytes
  import opened Packets
  import opened PacketAccess
  import opened UsbReceive
  import opened UsbSend
  import opened Engine
  import EngineSilence

  /** One thread of the engine against the backend: the time, and how much of the device's stream is taken. */
  datatype Machine = Machine(sh: Shared, th: Thread, clock: nat, taken: nat)

  /** The length of the packet being written. */
  function PacketLength(m: Machine): nat {
    if m.th.pc.WriteData? then |DataBytes(m.th.cmd, m.sh.transaction, PayloadOf(m.th.op))|
      else 12 + 4 * |m.th.cmd.params|
  }

  predicate Writing(th: Thread) {
    th.pc.Write? || th.pc.WriteData?
  }

  /** The next step; the schedule decides what a write moves and what a read brings. */
  function Next(m: Machine, t: nat, s: seq<byte>, sched: Schedule, max: nat): Machine {
    if Writing(m.th) && m.th.sent <= PacketLength(m) then
      var offer := Min(max, PacketLength(m) - m.th.sent);
      var rc := Granted(Ask(sched, m.clock), offer, offer);
      var r := StepThread(m.sh, m.th, t, if rc < 0 then IoError else Wrote(rc));
      Machine(r.0, r.1, m.clock + 1, m.taken)
    else if m.th.pc.Read? && m.taken <= |s| then
      var rc := Granted(Ask(sched, m.clock), max, |s| - m.taken);
      var r := StepThread(m.sh, m.th, t, if rc < 0 then IoError else Got(s[m.taken..m.taken + rc]));
      Machine(r.0, r.1, m.clock + 1, if rc > 0 then m.taken + rc else m.taken)
    else
      var r := StepThread(m.sh, m.th, t, Go);
      Machine(r.0, r.1, m.clock, m.taken)
  }

  function After(m: Machine, t: nat, s: seq<byte>, sched: Schedule, max: nat, k: nat): Machine
    decreases k
  {
    if k == 0 then m else After(Next(m, t, s, sched, max), t, s, sched, max, k - 1)
  }

  lemma {:induction false} AfterJoin(m: Machine, t: nat, s: seq<byte>, sched: Schedule, max: nat, j: nat, k: nat)
    ensures After(m, t, s, sched, max, j + k) == After(After(m, t, s, sched, max, j), t, s, sched, max, k)
    decreases j
  {
    hide Next;
    if j > 0 {
      AfterJoin(Next(m, t, s, sched, max), t, s, sched, max, j - 1, k);
    }
  }

  /** What transfers leave alone. */
  predicate SameCall(m: Machine, n: Machine) {
    && n.sh == m.sh.(buf := n.sh.buf, wire := n.sh.wire, attempts := n.sh.attempts)
    && |n.sh.attempts| == |m.sh.attempts|
    && n.th == m.th.(pc := n.th.pc, sent := n.th.sent, read := n.th.read, wait := n.th.wait, tries := n.th.tries,
       rc := n.th.rc)
  }

  // ---- writing a packet ----

  /** Where the thread goes when its packet is out. */
  function Onward(m: Machine): Thread {
    if m.th.pc.Write? && PayloadOf(m.th.op).Some? then m.th.(pc := BuildData) else Receiving(m.sh, m.th)
  }

  lemma WriteStep(m: Machine, t: nat, s: seq<byte>, sched: Schedule, max: nat)
    requires Writing(m.th) && m.th.sent <= PacketLength(m)
    ensures var n, length := Next(m, t, s, sched, max), PacketLength(m);
            var offer := Min(max, length - m.th.sent);
            var rc := Granted(Ask(sched, m.clock), offer, offer);
            && SameCall(m, n) && n.clock == m.clock + 1 && n.taken == m.taken
            && n.th == (if rc < 0 then m.th.(pc := Tried, rc := PTP_IO_ERR)
                        else if m.th.sent + rc == length then Onward(m)
                        else m.th.(sent := m.th.sent + rc))
            && n.sh.buf == m.sh.buf
  {
    hide CommandBytes, DataBytes, StepOperation, StepSend, StepReport, StepRead, Tagged, Ask;
  }

  /** The write loop from its state after k calls: the packet is out with the call that completes it, or the
      attempt has failed and no number of calls would do. */
  lemma {:induction false} WritesAll(m: Machine, t: nat, s: seq<byte>, sched: Schedule, max: nat, c: nat, k: nat,
                                     end: nat)
    returns (j: nat)
    requires Writing(m.th) && m.clock == c + k && WriteEnds(PacketLength(m), sched, max, c, end)
    requires m.th.sent < PacketLength(m) && Sending(PacketLength(m), sched, max, c, k, m.th.sent)
    ensures var n := After(m, t, s, sched, max, j);
            && SameCall(m, n) && n.taken == m.taken && n.clock > c && n.sh.buf == m.sh.buf
            && if exists i :: SentBy(PacketLength(m), sched, max, c, i) then
                 SentBy(PacketLength(m), sched, max, c, n.clock - c) && n.th == Onward(m).(sent := n.th.sent)
               else n.th.pc.Tried? && n.th.rc == PTP_IO_ERR
    decreases if k <= end then end - k + 1 else 0
  {
    hide Next, Sending, SendsIn, SentBy, WriteEnds, PacketLength, Ask, Granted;
    var n, length := Next(m, t, s, sched, max), PacketLength(m);
    var offer := Min(max, length - m.th.sent);
    var rc := Granted(Ask(sched, m.clock), offer, offer);
    WriteStep(m, t, s, sched, max);
    SendingNext(length, sched, max, c, k, m.th.sent, offer, rc);
    SendingEnds(length, sched, max, c, k, m.th.sent);
    EndIsAhead(length, sched, max, c, k, m.th.sent, end);
    if rc < 0 {
      OnlySentIfSends(length, sched, max, c);
      j := 1;
      assert After(m, t, s, sched, max, 1) == After(n, t, s, sched, max, 0);
    } else if m.th.sent + rc == length {
      j := 1;
      assert After(m, t, s, sched, max, 1) == After(n, t, s, sched, max, 0);
    } else {
      LengthStays(m, n);
      var i := WritesAll(n, t, s, sched, max, c, k + 1, end);
      j := i + 1;
    }
  }

  lemma OnlySentIfSends(n: nat, sched: Schedule, max: nat, c: nat)
    requires forall j: nat :: !SendsIn(n, sched, max, c, j)
    ensures !exists i :: SentBy(n, sched, max, c, i)
  {
  }

  lemma LengthStays(m: Machine, n: Machine)
    requires SameCall(m, n) && n.th.pc == m.th.pc
    ensures PacketLength(n) == PacketLength(m)
  {
  }

  // ---- reading an answer ----

  /** The read bytes of u, which is what the device had to send at position from, are at the start of the
      buffer, and the rest is with the device. */
  predicate Reading(m: Machine, s: seq<byte>, from: nat, u: seq<byte>) {
    && m.th.pc.Read? && from <= |s| && u == s[from..] && |u| < INT_MAX_PLUS_1
    && m.taken == from + m.th.read && m.th.read <= |u| && m.th.read <= |m.sh.buf|
    && m.sh.buf[..m.th.read] == u[..m.th.read]
    && m.th.att < |m.sh.attempts| && m.th.wait + m.th.tries >= 1
  }

  lemma Overlaid(buf: seq<byte>, u: seq<byte>, read: nat, rc: nat)
    requires read + rc <= |u| && read <= |buf| && buf[..read] == u[..read]
    ensures var b := Overlay(buf, read, u[read..read + rc]);
            read + rc <= |b| && b[..read + rc] == u[..read + rc]
  {
    assert u[..read] + u[read..read + rc] == u[..read + rc];
  }

  /** One round of the receive loop, as UsbReceive.Reached describes it. */
  lemma ReadStep(m: Machine, t: nat, s: seq<byte>, sched: Schedule, max: nat, from: nat, u: seq<byte>)
    requires Reading(m, s, from, u)
    ensures var n := Next(m, t, s, sched, max);
            var rc := Granted(Ask(sched, m.clock), max, |u| - m.th.read);
            var read := m.th.read + if rc > 0 then rc else 0;
            && SameCall(m, n) && n.clock == m.clock + 1 && n.taken == from + read
            && read <= |n.sh.buf| && n.sh.buf[..read] == u[..read]
            && n.th == (if rc <= 0 && m.th.wait > 0 then m.th.(wait := m.th.wait - 1, tries := m.th.tries + 1)
                        else if rc < 0 then m.th.(pc := Tried, rc := PTP_IO_ERR)
                        else if m.th.wait == 0 then m.th.(read := read, pc := Tried, rc := PTP_COMMAND_IGNORED)
                        else match JudgeFirst(u, read)
                          case More => m.th.(read := read)
                          case Done => m.th.(read := read, pc := Tried, rc := PTP_OK)
                          case Broken => m.th.(read := read, pc := Tried, rc := PTP_IO_ERR))
  {
    hide StepRead, Judge, Ask, Next;
    NextReads(m, t, s, sched, max);
    var rc := Granted(Ask(sched, m.clock), max, |u| - m.th.read);
    if rc > 0 {
      assert s[m.taken..m.taken + rc] == u[m.th.read..m.th.read + rc];
      ReadSome(m, u, rc);
    } else {
      assert rc == 0 ==> s[m.taken..m.taken + rc] == [];
      ReadNone(m, rc < 0);
    }
  }

  lemma NextReads(m: Machine, t: nat, s: seq<byte>, sched: Schedule, max: nat)
    requires m.th.pc.Read? && m.taken <= |s|
    ensures var rc := Granted(Ask(sched, m.clock), max, |s| - m.taken);
            var r := StepRead(m.sh, m.th, if rc < 0 then IoError else Got(s[m.taken..m.taken + rc]));
            Next(m, t, s, sched, max) == Machine(r.0, r.1, m.clock + 1, if rc > 0 then m.taken + rc else m.taken)
  {
    hide StepRead, StepOperation, StepSend, StepReport, StepWrite, Ask;
  }

  lemma ReadNone(m: Machine, error: bool)
    requires m.th.pc.Read? && m.th.att < |m.sh.attempts| && m.th.wait + m.th.tries >= 1
    ensures var r := StepRead(m.sh, m.th, if error then IoError else Got([]));
            && SameCall(m, Machine(r.0, r.1, m.clock, m.taken)) && r.0.buf == m.sh.buf
            && r.1 == (if m.th.wait > 0 then m.th.(wait := m.th.wait - 1, tries := m.th.tries + 1)
                       else m.th.(pc := Tried, rc := if error then PTP_IO_ERR else PTP_COMMAND_IGNORED))
  {
    hide Judge, Overlay;
  }

  lemma ReadSome(m: Machine, u: seq<byte>, rc: nat)
    requires m.th.pc.Read? && m.th.att < |m.sh.attempts| && m.th.wait + m.th.tries >= 1 && |u| < INT_MAX_PLUS_1
    requires 0 < rc && m.th.read + rc <= |u| && m.th.read <= |m.sh.buf| && m.sh.buf[..m.th.read] == u[..m.th.read]
    ensures var read := m.th.read + rc;
            var r := StepRead(m.sh, m.th, Got(u[m.th.read..read]));
            && SameCall(m, Machine(r.0, r.1, m.clock, m.taken)) && read <= |r.0.buf| && r.0.buf[..read] == u[..read]
            && r.1 == (if m.th.wait == 0 then m.th.(read := read, pc := Tried, rc := PTP_COMMAND_IGNORED)
                       else match JudgeFirst(u, read)
                         case More => m.th.(read := read)
                         case Done => m.th.(read := read, pc := Tried, rc := PTP_OK)
                         case Broken => m.th.(read := read, pc := Tried, rc := PTP_IO_ERR))
  {
    hide StepRead, Judge, JudgeFirst, SameCall;
    if m.th.wait == 0 {
      ReadLast(m, u, rc);
    } else {
      ReadJudged(m, u, rc);
    }
  }

  /** The retries are used up: what arrives is not looked at. */
  lemma ReadLast(m: Machine, u: seq<byte>, rc: nat)
    requires m.th.pc.Read? && m.th.att < |m.sh.attempts| && m.th.wait == 0 < m.th.tries && |u| < INT_MAX_PLUS_1
    requires 0 < rc && m.th.read + rc <= |u| && m.th.read <= |m.sh.buf| && m.sh.buf[..m.th.read] == u[..m.th.read]
    ensures var read := m.th.read + rc;
            var r := StepRead(m.sh, m.th, Got(u[m.th.read..read]));
            && SameCall(m, Machine(r.0, r.1, m.clock, m.taken)) && read <= |r.0.buf| && r.0.buf[..read] == u[..read]
            && r.1 == m.th.(read := read, pc := Tried, rc := PTP_COMMAND_IGNORED)
  {
    hide Judge, Overlay;
    Overlaid(m.sh.buf, u, m.th.read, rc);
  }

  lemma ReadJudged(m: Machine, u: seq<byte>, rc: nat)
    requires m.th.pc.Read? && m.th.att < |m.sh.attempts| && m.th.wait > 0 && |u| < INT_MAX_PLUS_1
    requires 0 < rc && m.th.read + rc <= |u| && m.th.read <= |m.sh.buf| && m.sh.buf[..m.th.read] == u[..m.th.read]
    ensures var read := m.th.read + rc;
            var r := StepRead(m.sh, m.th, Got(u[m.th.read..read]));
            && SameCall(m, Machine(r.0, r.1, m.clock, m.taken)) && read <= |r.0.buf| && r.0.buf[..read] == u[..read]
            && r.1 == (match JudgeFirst(u, read)
                       case More => m.th.(read := read)
                       case Done => m.th.(read := read, pc := Tried, rc := PTP_OK)
                       case Broken => m.th.(read := read, pc := Tried, rc := PTP_IO_ERR))
  {
    hide Judge, Overlay;
    Overlaid(m.sh.buf, u, m.th.read, rc);
  }

  /** The receive loop of the engine ends as the run of UsbReceive does. */
  lemma {:induction false} ReadsAnswer(m: Machine, t: nat, s: seq<byte>, sched: Schedule, max: nat, from: nat,
                                       u: seq<byte>, out: UsbOutcome)
    returns (j: nat)
    requires Reading(m, s, from, u) && Reaching(out, u, sched, max, m.th.read, m.th.wait, m.th.tries, m.clock)
    ensures var n := After(m, t, s, sched, max, j);
            && SameCall(m, n) && n.th.pc.Tried? && n.th.rc == out.rc && n.clock == out.clock
            && n.taken == from + out.read
    decreases m.th.wait, |u| - m.th.read
  {
    hide Next, Judge, Reaching, Ask, Granted;
    var n := Next(m, t, s, sched, max);
    var rc := Granted(Ask(sched, m.clock), max, |u| - m.th.read);
    GrantedBound(sched, m.clock, max, |u| - m.th.read);
    ReadStep(m, t, s, sched, max, from, u);
    Reached(out, u, sched, max, m.th.read, m.th.wait, m.th.tries, m.clock, rc);
    if n.th.pc.Read? {
      var i := ReadsAnswer(n, t, s, sched, max, from, u, out);
      j := i + 1;
    } else {
      j := 1;
      assert After(m, t, s, sched, max, 1) == After(n, t, s, sched, max, 0);
    }
  }

  lemma GrantedBound(sched: Schedule, c: nat, max: nat, avail: nat)
    ensures Granted(Ask(sched, c), max, avail) <= avail
  {
  }

  // ---- one attempt ----

  /** The lengths of the packets of an attempt. */
  function Lengths(th: Thread): seq<nat> {
    [12 + 4 * |th.cmd.params|] + if PayloadOf(th.op).Some? then [12 + |PayloadOf(th.op).value|] else []
  }

  /** What an attempt leaves alone. */
  predicate SameOperation(m: Machine, n: Machine) {
    && n.sh == m.sh.(buf := n.sh.buf, wire := n.sh.wire, attempts := n.sh.attempts)
    && n.th == m.th.(pc := n.th.pc, att := n.th.att, sent := n.th.sent, read := n.th.read, wait := n.th.wait,
                     tries := n.th.tries, rc := n.th.rc)
  }

  lemma BuildStep(m: Machine, t: nat, s: seq<byte>, sched: Schedule, max: nat)
    requires m.th.pc.Build?
    ensures var n := Next(m, t, s, sched, max);
            && SameOperation(m, n) && n.clock == m.clock && n.taken == m.taken && n.th.pc.Write? && n.th.sent == 0
            && n.th.att < |n.sh.attempts| && PacketLength(n) == Lengths(m.th)[0] > 0
  {
    hide StepThread, CommandBytes, DataBytes, Overlay;
    EngineSilence.StepBuilds(m.sh, m.th, t);
  }

  lemma BuildDataStep(m: Machine, t: nat, s: seq<byte>, sched: Schedule, max: nat)
    requires m.th.pc.BuildData? && PayloadOf(m.th.op).Some?
    ensures var n := Next(m, t, s, sched, max);
            && SameCall(m, n) && n.clock == m.clock && n.taken == m.taken && n.th.pc.WriteData? && n.th.sent == 0
            && PacketLength(n) == 12 + |PayloadOf(m.th.op).value|
  {
    hide CommandBytes, Overlay, StepOperation, StepReport, StepRead, StepWrite, Ask;
  }

  /** From the end of the last packet on. */
  lemma ReceivesAnswer(m: Machine, t: nat, s: seq<byte>, sched: Schedule, max: nat) returns (j: nat)
    requires m.th.pc.Read? && m.th.read == 0 && m.th.wait == m.sh.retries >= 1 && m.th.tries == 0
             && m.th.att < |m.sh.attempts|
    requires m.taken <= |s| && |s| - m.taken < INT_MAX_PLUS_1
    ensures var n, out := After(m, t, s, sched, max, j), UsbReceived(s[m.taken..], sched, max, m.sh.retries, m.clock);
            && SameCall(m, n) && n.th.pc.Tried? && n.th.rc == out.rc && n.clock == out.clock
            && n.taken == m.taken + out.read
  {
    hide After, Next, UsbReceived, Reaching;
    var u := s[m.taken..];
    ReachingStart(u, sched, max, m.sh.retries, m.clock);
    j := ReadsAnswer(m, t, s, sched, max, m.taken, u, UsbReceived(u, sched, max, m.sh.retries, m.clock));
  }

  /** From the building of the last packet, or the only one, on. */
  lemma SendsLast(m: Machine, t: nat, s: seq<byte>, sched: Schedule, max: nat) returns (j: nat)
    requires Writing(m.th) && m.th.sent == 0 < PacketLength(m) && (m.th.pc.Write? ==> PayloadOf(m.th.op).None?)
    requires WritesEnd(PacketLength(m), sched, max, m.clock)
    requires m.taken <= |s| && |s| - m.taken < INT_MAX_PLUS_1 && m.sh.retries >= 1
    requires m.th.att < |m.sh.attempts|
    ensures var n := After(m, t, s, sched, max, j);
            var o := TryRun([PacketLength(m)], s[m.taken..], sched, max, m.sh.retries, m.clock);
            && SameCall(m, n) && n.th.pc.Tried? && n.th.rc == o.rc && n.clock > m.clock
            && (o.rc != PTP_IO_ERR ==> n.clock == o.clock && n.taken == m.taken + o.used)
  {
    hide After, Next, UsbReceived, TryRun, SentBy, Sending, WritesEnd, WriteEnds, PacketLength;
    var length, u := PacketLength(m), s[m.taken..];
    SendingStart(length, sched, max, m.clock);
    var end := WritesEndNow(length, sched, max, m.clock, m.clock);
    var i := WritesAll(m, t, s, sched, max, m.clock, 0, end);
    var n := After(m, t, s, sched, max, i);
    if exists k :: SentBy(length, sched, max, m.clock, k) {
      assert [length][1..] == [];
      TrySends([length], u, sched, max, m.sh.retries, m.clock, n.clock - m.clock);
      TryReceives(u, sched, max, m.sh.retries, n.clock);
      var k := ReceivesAnswer(n, t, s, sched, max);
      AfterJoin(m, t, s, sched, max, i, k);
      j := i + k;
    } else {
      TryCannotSend([length], u, sched, max, m.sh.retries, m.clock);
      j := i;
    }
  }

  lemma TryReceives(u: seq<byte>, sched: Schedule, max: nat, retries: nat, c: nat)
    requires |u| < INT_MAX_PLUS_1 && retries >= 1
    ensures var out := UsbReceived(u, sched, max, retries, c);
            TryRun([], u, sched, max, retries, c) == TryOutcome(out.rc, out.read, out.clock) && out.clock > c
  {
    hide UsbReceived, Misses;
    UsbSound(u, sched, max, retries, c);
  }

  /** ptp_send_try and ptp_send_data_try end as UsbSend.TryRun says. */
  lemma Attempts(m: Machine, t: nat, s: seq<byte>, sched: Schedule, max: nat) returns (j: nat)
    requires m.th.pc.Build? && AttemptEnds(Lengths(m.th), sched, max, m.clock)
    requires m.taken <= |s| && |s| - m.taken < INT_MAX_PLUS_1 && m.sh.retries >= 1
    ensures var n := After(m, t, s, sched, max, j);
            var o := TryRun(Lengths(m.th), s[m.taken..], sched, max, m.sh.retries, m.clock);
            && SameOperation(m, n) && n.th.pc.Tried? && n.th.rc == o.rc && n.clock > m.clock
            && (o.rc != PTP_IO_ERR ==> n.clock == o.clock && n.taken == m.taken + o.used)
  {
    hide After, Next, UsbReceived, TryRun, SentBy, Sending, WritesEnd, WriteEnds, AttemptEnds, PacketLength;
    BuildStep(m, t, s, sched, max);
    var n1 := Next(m, t, s, sched, max);
    OneStep(m, t, s, sched, max);
    var ns, u := Lengths(m.th), s[m.taken..];
    if PayloadOf(m.th.op).None? {
      assert ns == [PacketLength(n1)];
      AttemptEndsAt(ns, sched, max, m.clock, 0, m.clock);
      var i := SendsLast(n1, t, s, sched, max);
      AfterJoin(m, t, s, sched, max, 1, i);
      j := 1 + i;
    } else {
      SendingStart(ns[0], sched, max, m.clock);
      AttemptEndsAt(ns, sched, max, m.clock, 0, m.clock);
      var end := WritesEndNow(ns[0], sched, max, m.clock, m.clock);
      var i := WritesAll(n1, t, s, sched, max, m.clock, 0, end);
      var n2 := After(n1, t, s, sched, max, i);
      AfterJoin(m, t, s, sched, max, 1, i);
      if exists k :: SentBy(ns[0], sched, max, m.clock, k) {
        TrySends(ns, u, sched, max, m.sh.retries, m.clock, n2.clock - m.clock);
        BuildDataStep(n2, t, s, sched, max);
        var n3 := Next(n2, t, s, sched, max);
        OneStep(n2, t, s, sched, max);
        assert ns[1..] == [PacketLength(n3)];
        AttemptEndsAt(ns, sched, max, m.clock, 1, n3.clock);
        var k := SendsLast(n3, t, s, sched, max);
        AfterJoin(n2, t, s, sched, max, 1, k);
        AfterJoin(m, t, s, sched, max, 1 + i, 1 + k);
        j := 1 + i + 1 + k;
      } else {
        TryCannotSend(ns, u, sched, max, m.sh.retries, m.clock);
        j := 1 + i;
      }
    }
  }

  lemma OneStep(m: Machine, t: nat, s: seq<byte>, sched: Schedule, max: nat)
    ensures After(m, t, s, sched, max, 1) == Next(m, t, s, sched, max)
  {
    hide Next;
    assert After(Next(m, t, s, sched, max), t, s, sched, max, 0) == Next(m, t, s, sched, max);
  }

  // ---- the whole call ----

  predicate Quiet(pc: Pc) {
    !pc.Write? && !pc.WriteData? && !pc.Read? && !pc.Idle? && !pc.OuterLock? && !pc.Returned? && !pc.Parse?
      && !pc.OuterUnlock?
    && !InReport(pc)
  }

  lemma QuietStep(m: Machine, t: nat, s: seq<byte>, sched: Schedule, max: nat)
    requires Quiet(m.th.pc)
    ensures var r := StepSend(m.sh, m.th, t); Next(m, t, s, sched, max) == Machine(r.0, r.1, m.clock, m.taken)
  {
    hide StepSend, StepOperation, StepReport, StepRead, StepWrite;
  }

  /** k steps without a transfer. */
  function Quietly(m: Machine, t: nat, k: nat): Machine
    decreases k
  {
    if k == 0 then m else
      var r := StepSend(m.sh, m.th, t);
      Quietly(Machine(r.0, r.1, m.clock, m.taken), t, k - 1)
  }

  predicate StaysQuiet(m: Machine, t: nat, k: nat)
    decreases k
  {
    k == 0 || (Quiet(m.th.pc)
      && var r := StepSend(m.sh, m.th, t); StaysQuiet(Machine(r.0, r.1, m.clock, m.taken), t, k - 1))
  }

  lemma {:induction false} QuietSteps(m: Machine, t: nat, s: seq<byte>, sched: Schedule, max: nat, k: nat)
    requires StaysQuiet(m, t, k)
    ensures After(m, t, s, sched, max, k) == Quietly(m, t, k)
    decreases k
  {
    hide StepSend, Next;
    if k > 0 {
      QuietStep(m, t, s, sched, max);
      QuietSteps(Next(m, t, s, sched, max), t, s, sched, max, k - 1);
    }
  }

  lemma Enters(m: Machine, t: nat)
    requires m.th.pc.Check? && !m.sh.opKill && CanLock(m.sh, t)
    ensures StaysQuiet(m, t, 3)
    ensures Quietly(m, t, 3)
            == m.(sh := m.sh.(owner := t, depth := m.sh.depth + 1),
              th := m.th.(bumped := false, retry := false, pc := Build))
  {
    hide CommandBytes, DataBytes, Overlay, ReturnCode, StaysQuiet, Quietly;
    var m1 := m.(th := m.th.(pc := InnerLock, bumped := false));
    var m2 := m1.(sh := m.sh.(owner := t, depth := m.sh.depth + 1), th := m1.th.(pc := Recheck));
    var m3 := m2.(th := m2.th.(pc := Build, retry := false));
    QuietBy(m, m1, t, 2);
    QuietBy(m1, m2, t, 1);
    QuietBy(m2, m3, t, 0);
    QuietEnd(m3, t);
  }

  lemma QuietBy(m: Machine, n: Machine, t: nat, k: nat)
    requires Quiet(m.th.pc) && (n.sh, n.th) == StepSend(m.sh, m.th, t) && n.clock == m.clock && n.taken == m.taken
    ensures Quietly(m, t, k + 1) == Quietly(n, t, k)
    ensures StaysQuiet(m, t, k + 1) == StaysQuiet(n, t, k)
  {
    hide StepSend;
  }

  lemma QuietEnd(m: Machine, t: nat)
    ensures Quietly(m, t, 0) == m && StaysQuiet(m, t, 0)
  {
  }

  lemma Counts(m: Machine, n: Machine, t: nat, k: nat)
    requires m.th.pc.Tried? && m.th.rc == PTP_OK
    requires n == m.(sh := m.sh.(transaction := m.sh.transaction + 1), th := m.th.(bumped := true, pc := CheckCode))
    ensures Quietly(m, t, k + 2) == Quietly(n, t, k) && StaysQuiet(m, t, k + 2) == StaysQuiet(n, t, k)
  {
    hide CommandBytes, DataBytes, Overlay, ReturnCode, StaysQuiet, Quietly, CodeResult;
    var m1 := m.(th := m.th.(pc := Bump));
    QuietBy(m, m1, t, k + 1);
    QuietBy(m1, n, t, k);
  }

  lemma Succeeds(m: Machine, t: nat)
    requires m.th.pc.Tried? && m.th.rc == PTP_OK && m.sh.depth > 0 && m.sh.owner == t
    ensures StaysQuiet(m, t, 4)
    ensures var code := ReturnCode(PTP_USB, m.sh.buf);
            Quietly(m, t, 4)
            == m.(sh := m.sh.(transaction := m.sh.transaction + 1, depth := m.sh.depth - 1),
                  th := m.th.(bumped := true, pc := Returned, rc := if code.Some? then CodeResult(code.value)
                    else PTP_IO_ERR))
  {
    hide CommandBytes, DataBytes, Overlay, ReturnCode, StaysQuiet, Quietly, CodeResult;
    var code := ReturnCode(PTP_USB, m.sh.buf);
    var m2 := m.(sh := m.sh.(transaction := m.sh.transaction + 1), th := m.th.(bumped := true, pc := CheckCode));
    var m3 := m2.(th := m2.th.(pc := Unlock, rc := if code.Some? then CodeResult(code.value) else PTP_IO_ERR));
    var m4 := m3.(sh := m3.sh.(depth := m.sh.depth - 1), th := m3.th.(pc := Returned));
    Counts(m, m2, t, 2);
    QuietBy(m2, m3, t, 1);
    QuietBy(m3, m4, t, 0);
    QuietEnd(m4, t);
  }

  /** The end of a call that got no answer. */
  function SwitchedOff(m: Machine): Machine
    requires m.sh.depth > 0
  {
    m.(sh := m.sh.(opKill := true, depth := m.sh.depth - 1), th := m.th.(pc := Returned, rc := PTP_IO_ERR))
  }

  lemma RetryGivesUp(m: Machine, t: nat)
    requires m.th.pc.Tried? && m.th.rc != PTP_OK && m.th.retry && m.sh.depth > 0 && m.sh.owner == t
    ensures StaysQuiet(m, t, 3) && Quietly(m, t, 3) == SwitchedOff(m)
  {
    hide CommandBytes, DataBytes, Overlay, ReturnCode, StaysQuiet, Quietly, CodeResult;
    var m3 := SwitchedOff(m);
    var m1 := m.(th := m.th.(pc := KillLocked));
    var m2 := m1.(sh := m.sh.(opKill := true), th := m1.th.(pc := UnlockKilled));
    QuietBy(m, m1, t, 2);
    QuietBy(m1, m2, t, 1);
    QuietBy(m2, m3, t, 0);
    QuietEnd(m3, t);
  }

  lemma FirstGivesUp(m: Machine, t: nat)
    requires m.th.pc.Tried? && m.th.rc != PTP_OK && !m.th.retry && m.th.rc != PTP_COMMAND_IGNORED && m.sh.depth > 0
             && m.sh.owner == t
    ensures StaysQuiet(m, t, 3) && Quietly(m, t, 3) == SwitchedOff(m)
  {
    hide CommandBytes, DataBytes, Overlay, ReturnCode, StaysQuiet, Quietly, CodeResult;
    var m3 := SwitchedOff(m);
    var m1 := m.(th := m.th.(pc := UnlockFailed));
    var m2 := m1.(sh := m.sh.(depth := m.sh.depth - 1), th := m1.th.(pc := KillUnlocked));
    QuietBy(m, m1, t, 2);
    QuietBy(m1, m2, t, 1);
    QuietBy(m2, m3, t, 0);
    QuietEnd(m3, t);
  }

  lemma Repeats(m: Machine, t: nat)
    requires m.th.pc.Tried? && m.th.rc == PTP_COMMAND_IGNORED && !m.th.retry
    ensures StaysQuiet(m, t, 1) && Quietly(m, t, 1) == m.(th := m.th.(pc := Build, retry := true))
  {
    hide StaysQuiet, Quietly, CommandBytes, DataBytes, Overlay, ReturnCode;
    var m1 := m.(th := m.th.(pc := Build, retry := true));
    QuietBy(m, m1, t, 0);
    QuietEnd(m1, t);
  }

  /** The call is over: it has moved the transaction counter, or switched operations off. */
  predicate Ended(m: Machine, n: Machine, t: nat, moved: bool) {
    && n.th.pc.Returned? && n.th.bumped == moved && n.sh.depth == m.sh.depth && n.sh.owner == t
    && n.sh.ioKill == m.sh.ioKill && n.sh.closers == m.sh.closers && n.th.off == m.th.off && n.th.parsed == m.th.parsed
    && n.th.op == m.th.op && n.th.cmd == m.th.cmd && n.th.base == m.th.base
    && n.sh.transaction == m.sh.transaction + (if moved then 1 else 0)
    && (if moved then
          && !n.sh.opKill
          && (ReturnCode(PTP_USB, n.sh.buf).Some? ==> n.th.rc == CodeResult(ReturnCode(PTP_USB, n.sh.buf).value))
        else n.sh.opKill && n.th.rc == PTP_IO_ERR)
  }

  /** From a finished attempt to the end of the call, unless the attempt is to be repeated. */
  lemma Finishes(m0: Machine, m: Machine, t: nat, s: seq<byte>, sched: Schedule, max: nat) returns (j: nat)
    requires m.th.pc.Tried? && (m.th.rc == PTP_COMMAND_IGNORED ==> m.th.retry) && !m.th.bumped && !m.sh.opKill
    requires m.sh.depth == m0.sh.depth + 1 && m.sh.owner == t && m.sh.ioKill == m0.sh.ioKill
             && m.sh.transaction == m0.sh.transaction
    requires m.th.op == m0.th.op && m.th.cmd == m0.th.cmd && m.th.base == m0.th.base
    requires m.sh.closers == m0.sh.closers && m.th.off == m0.th.off && m.th.parsed == m0.th.parsed
    ensures Ended(m0, After(m, t, s, sched, max, j), t, m.th.rc == PTP_OK)
    ensures After(m, t, s, sched, max, j).clock == m.clock
  {
    hide After, Next, StaysQuiet, Quietly, ReturnCode, CodeResult;
    if m.th.rc == PTP_OK {
      Succeeds(m, t);
      j := 4;
    } else {
      if m.th.retry {
        RetryGivesUp(m, t);
      } else {
        FirstGivesUp(m, t);
      }
      j := 3;
    }
    QuietSteps(m, t, s, sched, max, j);
  }

  /** A thread that finds the mutex free, or its own, and operations switched on, runs ptp_send or
      ptp_send_data to its end, which is the one that the contracts of Runtime.PtpRuntime.Send and SendData
      state: the counter moves exactly when UsbSend.Transacts. */
  lemma SendsAlone(m: Machine, t: nat, s: seq<byte>, sched: Schedule, max: nat) returns (j: nat)
    requires m.th.pc.Check? && !m.sh.opKill && CanLock(m.sh, t) && AttemptEnds(Lengths(m.th), sched, max, m.clock)
    requires m.taken <= |s| && |s| - m.taken < INT_MAX_PLUS_1 && m.sh.retries >= 1
    ensures var n := After(m, t, s, sched, max, j);
            && Ended(m, n, t, Transacts(Lengths(m.th), s[m.taken..], sched, max, m.sh.retries, m.clock))
            && n.clock > m.clock
  {
    hide After, Next, StaysQuiet, Quietly, TryRun, AttemptEnds, Ended, ReturnCode, CodeResult;
    var u := s[m.taken..];
    Enters(m, t);
    QuietSteps(m, t, s, sched, max, 3);
    var m1 := Quietly(m, t, 3);
    var i := Attempts(m1, t, s, sched, max);
    var m2 := After(m1, t, s, sched, max, i);
    AfterJoin(m, t, s, sched, max, 3, i);
    var first := TryRun(Lengths(m.th), u, sched, max, m.sh.retries, m.clock);
    if first.rc != PTP_COMMAND_IGNORED {
      var k := Finishes(m, m2, t, s, sched, max);
      AfterJoin(m, t, s, sched, max, 3 + i, k);
      j := 3 + i + k;
    } else {
      TryUsed(Lengths(m.th), u, sched, max, m.sh.retries, m.clock);
      Repeats(m2, t);
      QuietSteps(m2, t, s, sched, max, 1);
      var m3 := Quietly(m2, t, 1);
      assert s[m3.taken..] == u[first.used..];
      AttemptEndsLater(Lengths(m.th), sched, max, m.clock, m3.clock);
      var i2 := Attempts(m3, t, s, sched, max);
      var m4 := After(m3, t, s, sched, max, i2);
      var k := Finishes(m, m4, t, s, sched, max);
      AfterJoin(m3, t, s, sched, max, i2, k);
      AfterJoin(m2, t, s, sched, max, 1, i2 + k);
      AfterJoin(m, t, s, sched, max, 3 + i, 1 + (i2 + k));
      j := 3 + i + (1 + (i2 + k));
    }
  }

  // ---- whole operations ----

  /** The command an operation sends under its own lock. */
  function OwnCommand(th: Thread): Command
    requires th.op.Query? || th.op.Download?
  {
    match th.op
    case Query(cmd) => cmd
    case Download(handle, max) => Command(0x101B, [handle, th.off, max])
  }

  /** A step of the operation around a send. */
  lemma AroundStep(m: Machine, t: nat, s: seq<byte>, sched: Schedule, max: nat)
    requires m.th.pc.OuterLock? || m.th.pc.Returned? || m.th.pc.Parse? || m.th.pc.OuterUnlock?
    ensures var r := StepOperation(m.sh, m.th, t, Go);
            After(m, t, s, sched, max, 1) == Machine(r.0, r.1, m.clock, m.taken)
  {
    hide StepSend, StepOperation, StepReport, StepRead, StepWrite;
    OneStep(m, t, s, sched, max);
  }

  /** From the end of the send to the end of the operation, or to its next piece. */
  lemma Unlocks(m: Machine, t: nat, s: seq<byte>, sched: Schedule, max: nat) returns (j: nat)
    requires m.th.pc.Returned? && (m.th.op.Query? || m.th.op.Download?) && m.sh.depth > 0 && m.sh.owner == t
    ensures var n, length := After(m, t, s, sched, max, j), PartialLength(m.sh.buf);
            && n.sh == m.sh.(depth := m.sh.depth - 1) && n.clock == m.clock && n.taken == m.taken
            && n.th.op == m.th.op && n.th.cmd == m.th.cmd && n.th.rc == m.th.rc && n.th.base == m.th.base
            && (n.th.pc.OuterLock? || n.th.pc.Idle?)
            && (n.th.pc.OuterLock? <==> m.th.rc == 0 && m.th.op.Download? && length != 0 && length == m.th.op.max)
            && n.th.off == if m.th.rc == 0 && m.th.op.Download? then (m.th.off + length) % U32_MOD else m.th.off
  {
    hide After, PartialLength;
    AroundStep(m, t, s, sched, max);
    var m1 := After(m, t, s, sched, max, 1);
    AroundStep(m1, t, s, sched, max);
    AfterJoin(m, t, s, sched, max, 1, 1);
    j := 2;
    if m1.th.pc.Parse? {
      var m2 := After(m1, t, s, sched, max, 1);
      AroundStep(m2, t, s, sched, max);
      AfterJoin(m, t, s, sched, max, 2, 1);
      j := 3;
    }
  }

  /** A query, or one piece of a download, of a thread that finds the mutex free and operations switched on: it
      sends its own command, the counter moves exactly when UsbSend.Transacts for a packet of that length,
      the lock depth is restored, and a download goes on exactly after a whole piece. */
  lemma LockedAlone(m: Machine, t: nat, s: seq<byte>, sched: Schedule, max: nat) returns (j: nat)
    requires m.th.pc.OuterLock? && !m.sh.opKill && CanLock(m.sh, t)
    requires (m.th.op.Query? && m.th.cmd == OwnCommand(m.th)) || m.th.op.Download?
    requires AttemptEnds([12 + 4 * |OwnCommand(m.th).params|], sched, max, m.clock)
    requires m.taken <= |s| && |s| - m.taken < INT_MAX_PLUS_1 && m.sh.retries >= 1
    ensures var n := After(m, t, s, sched, max, j);
            var moved := Transacts([12 + 4 * |OwnCommand(m.th).params|], s[m.taken..], sched, max, m.sh.retries,
              m.clock);
            && n.th.op == m.th.op && n.th.cmd == OwnCommand(m.th) && n.sh.depth == m.sh.depth && n.clock > m.clock
            && n.sh.transaction == m.sh.transaction + (if moved then 1 else 0)
            && (!moved ==> n.sh.opKill && n.th.rc == -5)
            && (n.th.pc.OuterLock? || n.th.pc.Idle?)
            && (n.th.rc != 0 || n.th.op.Query? ==> n.th.pc.Idle? && n.th.off == m.th.off)
            && (n.th.rc == 0 && n.th.op.Download? ==>
                 var length := PartialLength(n.sh.buf);
                 && n.th.off == (m.th.off + length) % U32_MOD
                 && (n.th.pc.OuterLock? <==> length != 0 && length == n.th.op.max))
  {
    hide After, Next, Transacts, AttemptEnds, PartialLength, ReturnCode, CodeResult;
    AroundStep(m, t, s, sched, max);
    var m1 := After(m, t, s, sched, max, 1);
    LockStep(m, t, m1);
    assert Lengths(m1.th) == [12 + 4 * |OwnCommand(m.th).params|];
    var i := SendsAlone(m1, t, s, sched, max);
    var m2 := After(m1, t, s, sched, max, i);
    AfterJoin(m, t, s, sched, max, 1, i);
    var k := Unlocks(m2, t, s, sched, max);
    AfterJoin(m, t, s, sched, max, 1 + i, k);
    j := 1 + i + k;
  }

  lemma LockStep(m: Machine, t: nat, n: Machine)
    requires m.th.pc.OuterLock? && CanLock(m.sh, t) && (m.th.op.Query? || m.th.op.Download?)
    requires m.th.op.Query? ==> m.th.cmd == OwnCommand(m.th)
    requires (n.sh, n.th) == StepOperation(m.sh, m.th, t, Go)
    ensures n.sh == m.sh.(owner := t, depth := m.sh.depth + 1)
    ensures n.th == m.th.(pc := Check, cmd := OwnCommand(m.th))
  {
    hide PartialLength;
  }

  /** What a caller starts is what then runs, from the beginning. */
  lemma Starts(sh: Shared, th: Thread, t: nat, op: Op)
    requires th.pc.Idle?
    ensures var r := StepThread(sh, th, t, Start(op));
            && r.0 == sh && r.1.op == op && r.1.off == 0 && r.1.parsed == [] && r.1.base == th.base
            && match op
               case Plain(cmd, _) => r.1.pc.Check? && r.1.cmd == cmd
               case Query(cmd) => r.1.pc.OuterLock? && r.1.cmd == cmd
               case Download(_, _) => r.1.pc.OuterLock?
               case Report(_) => r.1.pc.RepEnter?
  {
    hide StepSend, StepReport, StepRead, StepWrite, PartialLength;
  }

  /** A step of ptp_report_error. */
  lemma ReportStep(m: Machine, t: nat, s: seq<byte>, sched: Schedule, max: nat)
    requires InReport(m.th.pc)
    ensures var r := StepReport(m.sh, m.th, t); After(m, t, s, sched, max, 1) == Machine(r.0, r.1, m.clock, m.taken)
  {
    hide StepSend, StepOperation, StepReport, StepRead, StepWrite;
    OneStep(m, t, s, sched, max);
  }

  /** From the decision to the end of the report. */
  lemma ShutsDown(m: Machine, t: nat, s: seq<byte>, sched: Schedule, max: nat)
    requires m.th.pc.RepSetOp? && m.sh.depth > 0 && m.sh.owner == t
    ensures var n := After(m, t, s, sched, max, 3);
            && n.sh == m.sh.(opKill := true, ioKill := true, depth := m.sh.depth - 1) && n.th == m.th.(pc := Idle)
            && n.clock == m.clock && n.taken == m.taken
  {
    hide After;
    ReportStep(m, t, s, sched, max);
    var m1 := After(m, t, s, sched, max, 1);
    ReportStep(m1, t, s, sched, max);
    AfterJoin(m, t, s, sched, max, 1, 1);
    var m2 := After(m, t, s, sched, max, 2);
    ReportStep(m2, t, s, sched, max);
    AfterJoin(m, t, s, sched, max, 2, 1);
  }

  /** From its beginning to the lock. */
  lemma ReportOpens(m: Machine, t: nat, s: seq<byte>, sched: Schedule, max: nat)
    requires m.th.pc.RepEnter? && m.th.op.Report? && !m.sh.ioKill
    ensures After(m, t, s, sched, max, 2)
            == m.(sh := if m.th.op.code != 0 then m.sh.(opKill := true) else m.sh, th := m.th.(pc := RepLock))
  {
    hide After;
    ReportStep(m, t, s, sched, max);
    var m1 := After(m, t, s, sched, max, 1);
    ReportStep(m1, t, s, sched, max);
    AfterJoin(m, t, s, sched, max, 1, 1);
  }

  /** From there to the point after the second look at io_kill_switch. */
  lemma ReportDecides(m: Machine, t: nat, s: seq<byte>, sched: Schedule, max: nat)
    requires m.th.pc.RepLock? && m.th.op.Report? && !m.sh.ioKill && CanLock(m.sh, t)
    ensures var sh := m.sh.(owner := t, depth := m.sh.depth + 1);
            After(m, t, s, sched, max, 2)
            == if m.th.op.code != 0 then m.(sh := sh, th := m.th.(pc := RepSetOp))
               else m.(sh := sh.(closers := sh.closers + 1), th := m.th.(pc := Check, cmd := Command(0x1003, [])))
  {
    hide After;
    ReportStep(m, t, s, sched, max);
    var m1 := After(m, t, s, sched, max, 1);
    ReportStep(m1, t, s, sched, max);
    AfterJoin(m, t, s, sched, max, 1, 1);
  }

  lemma ReportBegins(m: Machine, t: nat, s: seq<byte>, sched: Schedule, max: nat)
    requires m.th.pc.RepEnter? && m.th.op.Report? && !m.sh.ioKill && CanLock(m.sh, t)
    ensures var n := After(m, t, s, sched, max, 4);
            && n.clock == m.clock && n.taken == m.taken
            && (m.th.op.code != 0 ==>
                 && n.th == m.th.(pc := RepSetOp)
                 && n.sh == m.sh.(opKill := true, owner := t, depth := m.sh.depth + 1))
            && (m.th.op.code == 0 ==>
                 && n.th == m.th.(pc := Check, cmd := Command(0x1003, []))
                 && n.sh == m.sh.(owner := t, depth := m.sh.depth + 1, closers := m.sh.closers + 1))
  {
    hide After;
    ReportOpens(m, t, s, sched, max);
    var m1 := After(m, t, s, sched, max, 2);
    ReportDecides(m1, t, s, sched, max);
    AfterJoin(m, t, s, sched, max, 2, 2);
  }

  /** A report of a thread that finds the mutex free ends with both switches set and the lock depth restored;
      the one that reports no error has closed the session before, if the transaction could be made. */
  lemma ReportsAlone(m: Machine, t: nat, s: seq<byte>, sched: Schedule, max: nat) returns (j: nat)
    requires m.th.pc.RepEnter? && m.th.op.Report? && !m.sh.ioKill && !m.sh.opKill && CanLock(m.sh, t)
    requires AttemptEnds([12], sched, max, m.clock)
    requires m.taken <= |s| && |s| - m.taken < INT_MAX_PLUS_1 && m.sh.retries >= 1
    ensures var n := After(m, t, s, sched, max, j);
            var closed := m.th.op.code == 0 && Transacts([12], s[m.taken..], sched, max, m.sh.retries, m.clock);
            && n.th.pc.Idle? && n.sh.ioKill && n.sh.opKill && n.sh.depth == m.sh.depth
            && n.sh.transaction == m.sh.transaction + (if closed then 1 else 0)
            && (m.th.op.code == 0 ==> n.th.cmd == Command(0x1003, []))
            && (m.th.op.code != 0 ==> n.sh.wire == m.sh.wire && n.clock == m.clock)
  {
    hide After, Next, Transacts, AttemptEnds, ReturnCode, CodeResult;
    ReportBegins(m, t, s, sched, max);
    var m1 := After(m, t, s, sched, max, 4);
    if m.th.op.code != 0 {
      ShutsDown(m1, t, s, sched, max);
      AfterJoin(m, t, s, sched, max, 4, 3);
      j := 7;
    } else {
      assert Lengths(m1.th) == [12];
      var i := SendsAlone(m1, t, s, sched, max);
      var m2 := After(m1, t, s, sched, max, i);
      AfterJoin(m, t, s, sched, max, 4, i);
      AroundStep(m2, t, s, sched, max);
      AfterJoin(m, t, s, sched, max, 4 + i, 1);
      var m3 := After(m2, t, s, sched, max, 1);
      ShutsDown(m3, t, s, sched, max);
      AfterJoin(m, t, s, sched, max, 4 + i + 1, 3);
      j := 4 + i + 1 + 3;
    }
  }
}
