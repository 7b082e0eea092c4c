/** What the operations of the engine do with the transactions they make: each sends its own command, parses
    only the answer to a transaction that succeeded, and returns what that answer's code means. */
module EngineOperations {
  import opened Bytes
  import opened Packets
  import opened PacketAccess
  import opened UsbReceive
  import opened Engine
  import opened EngineSafety

  /** cmd is the command of operation op, for a download at offset off. */
  predicate CommandOf(op: Op, off: u32, cmd: Command) {
    match op
    case Plain(own, _) => cmd == own
    case Query(own) => cmd == own
    case Download(handle, max) => cmd == Command(0x101B, [handle, off, max])
    case Report(_) => cmd == Command(0x1003, [])
  }

  /** The data phase that goes with it. */
  predicate DataOf(op: Op, payload: Option<Payload>) {
    payload == match op case Plain(_, own) => own case _ => None
  }

  /** What ptp_send returns for an answer with that code. */
  predicate Means(rc: int, code: u16) {
    && (rc == 0 <==> code == 0x2001)
    && (rc == -5 <==> code == 0xFFFF)
    && (rc == -8 <==> code != 0x2001 && code != 0xFFFF)
  }

  /** The length of the payload of an answer. */
  function AnswerLength(p: seq<byte>): nat {
    if |p| < 4 then 0 else (ReadU32(p, 0) - 12) % 0x1_0000_0000
  }

  function TotalLength(answers: seq<seq<byte>>): nat {
    if answers == [] then 0 else TotalLength(answers[..|answers| - 1]) + AnswerLength(answers[|answers| - 1])
  }

  // ---- the invariant ----

  /** The attempt that ended a send which moved the counter, and the code of its answer. */
  predicate Concluded(sh: Shared, th: Thread, t: nat) {
    && th.att < |sh.attempts|
    && var a := sh.attempts[th.att];
    && a.thread == t && a.cmd == th.cmd && DataOf(th.op, a.payload) && a.outcome == Ok && UsbComplete(a.got)
    && ReturnCode(PTP_USB, a.got).Some? && Means(th.rc, ReturnCode(PTP_USB, a.got).value)
  }

  /** The last piece was a whole one. */
  predicate FullPiece(th: Thread) {
    && th.rc == 0 && th.op.Download? && th.parsed != []
    && var n := AnswerLength(th.parsed[|th.parsed| - 1]);
    n != 0 && n == th.op.max
  }

  predicate Doing(sh: Shared, th: Thread, t: nat) {
    && (InSend(th.pc) || th.pc.Parse? || (th.pc.OuterLock? && th.op.Query?) ==> CommandOf(th.op, th.off, th.cmd))
    && (th.op.Download? ==> th.off == TotalLength(th.parsed) % 0x1_0000_0000)
    && (th.pc.Parse? ==> th.rc == 0 && !th.more)
    && (th.pc.OuterUnlock? ==> (th.more <==> FullPiece(th)))
    && (th.pc.RepUnlock? ==> sh.ioKill)
    && (th.bumped && (th.pc.Unlock? || th.pc.Parse? || th.pc.Returned?) ==> Concluded(sh, th, t))
  }

  /** Attempts that are over stay as they are. */
  predicate ClosedStay(hs: seq<Attempt>, hs1: seq<Attempt>) {
    |hs| <= |hs1| && forall i :: 0 <= i < |hs| && hs[i].outcome != Open ==> hs1[i] == hs[i]
  }

  lemma OthersDo(sh: Shared, sh1: Shared, th: Thread, t: nat)
    requires Doing(sh, th, t) && ClosedStay(sh.attempts, sh1.attempts) && (sh.ioKill ==> sh1.ioKill)
    ensures Doing(sh1, th, t)
  {
    hide InSend, CommandOf, FullPiece, TotalLength, UsbComplete, ReturnCode, Means, DataOf;
  }

  lemma CodeMeans(code: u16)
    ensures Means(CodeResult(code), code)
  {
  }

  // ---- one step ----

  /** The thread's attempt is the newest, and open. */
  predicate UnderWay(sh: Shared, th: Thread) {
    th.att == |sh.attempts| - 1 && sh.attempts[th.att].outcome == Open
  }

  lemma AttemptIsOpen(sh: Shared, th: Thread, t: nat)
    requires ThreadInv(sh, th, t) && (th.pc.Write? || th.pc.WriteData? || th.pc.Read?)
    ensures UnderWay(sh, th)
  {
    hide Completed, AllClosed, CommandBytes, DataBytes, PacketsOf, Local;
  }

  lemma WriteDoes(sh: Shared, th: Thread, t: nat, length: nat, next: Thread, c: Choice)
    requires UnderWay(sh, th) && Doing(sh, th, t) && (th.pc.Write? || th.pc.WriteData?)
    requires next == th.(pc := next.pc, read := next.read, wait := next.wait, tries := next.tries)
             && (next.pc.Read? || next.pc.BuildData?)
    ensures var r := StepWrite(sh, th, length, next, c); Doing(r.0, r.1, t) && ClosedStay(sh.attempts, r.0.attempts)
  {
    hide Tagged, CommandOf, TotalLength, FullPiece, Concluded;
  }

  lemma ReadDoes(sh: Shared, th: Thread, t: nat, c: Choice)
    requires UnderWay(sh, th) && Doing(sh, th, t) && th.pc.Read?
    ensures var r := StepRead(sh, th, c); Doing(r.0, r.1, t) && ClosedStay(sh.attempts, r.0.attempts)
  {
    hide Judge, Overlay, CommandOf, TotalLength, FullPiece, Concluded;
  }

  lemma TransferDoes(sh: Shared, th: Thread, t: nat, c: Choice)
    requires ThreadInv(sh, th, t) && Doing(sh, th, t) && (th.pc.Write? || th.pc.WriteData? || th.pc.Read?)
    ensures var r := StepThread(sh, th, t, c); Doing(r.0, r.1, t) && ClosedStay(sh.attempts, r.0.attempts)
  {
    hide StepSend, StepOperation, StepReport, StepRead, StepWrite, ThreadInv, Doing, ClosedStay, DataBytes, UnderWay;
    AttemptIsOpen(sh, th, t);
    if th.pc.Read? {
      ReadDoes(sh, th, t, c);
    } else if th.pc.WriteData? {
      WriteDoes(sh, th, t, |DataBytes(th.cmd, sh.transaction, PayloadOf(th.op))|, Receiving(sh, th), c);
    } else {
      WriteDoes(sh, th, t, 12 + 4 * |th.cmd.params|,
                if PayloadOf(th.op).Some? then th.(pc := BuildData) else Receiving(sh, th), c);
    }
  }

  lemma SendDoes(sh: Shared, th: Thread, t: nat)
    requires SharedInv(sh) && ThreadInv(sh, th, t) && Doing(sh, th, t) && InSend(th.pc)
    requires !th.pc.Returned? && !th.pc.CheckCode?
    ensures var r := StepSend(sh, th, t); Doing(r.0, r.1, t) && ClosedStay(sh.attempts, r.0.attempts)
  {
    hide HistoryOk, Flatten, Completed, AllClosed, CommandBytes, DataBytes, PacketsOf, UsbComplete, ReturnCode,
      CodeResult, Judge, Overlay, CommandOf, TotalLength, FullPiece, Phase;
  }

  lemma CheckDoes(sh: Shared, th: Thread, t: nat)
    requires SharedInv(sh) && ThreadInv(sh, th, t) && Doing(sh, th, t) && th.pc.CheckCode?
    ensures var r := StepSend(sh, th, t); Doing(r.0, r.1, t) && ClosedStay(sh.attempts, r.0.attempts)
  {
    hide HistoryOk, Flatten, Completed, AllClosed, CommandBytes, DataBytes, PacketsOf, UsbComplete, ReturnCode,
      CodeResult, Judge, Overlay, CommandOf, TotalLength, FullPiece, Means;
    AnswerCode(sh, th);
    CodeMeans(ReturnCode(PTP_USB, sh.buf).value);
  }

  lemma OperationDoes(sh: Shared, th: Thread, t: nat, c: Choice)
    requires SharedInv(sh) && ThreadInv(sh, th, t) && Doing(sh, th, t)
    requires th.pc.Idle? || th.pc.OuterLock? || th.pc.Returned? || th.pc.OuterUnlock?
    ensures var r := StepOperation(sh, th, t, c); Doing(r.0, r.1, t) && ClosedStay(sh.attempts, r.0.attempts)
  {
    hide SharedInv, UsbComplete, ReturnCode, CodeResult, PartialLength, AnswerLength, Phase, Means;
  }

  /** The answer that is parsed is the one received, and its length that of its payload. */
  lemma ParsedAnswer(sh: Shared, th: Thread, t: nat)
    requires SharedInv(sh) && ThreadInv(sh, th, t) && th.pc.Parse?
    ensures sh.attempts != [] && th.read <= |sh.buf| && Last(sh).got == sh.buf[..th.read]
    ensures PartialLength(sh.buf) == AnswerLength(Last(sh).got)
  {
    hide HistoryOk, Flatten, Completed, AllClosed, CommandBytes, DataBytes, PacketsOf, ReturnCode, CodeResult,
      TransactionId, ParamLength, ReadU32, ReadU16;
    AnswerCode(sh, th);
    assert Last(sh).got <= sh.buf;
    CompletePrefix(PTP_USB, Last(sh).got, sh.buf);
  }

  lemma ParseDoes(sh: Shared, th: Thread, t: nat, c: Choice)
    requires SharedInv(sh) && ThreadInv(sh, th, t) && Doing(sh, th, t) && th.pc.Parse?
    ensures var r := StepOperation(sh, th, t, c); Doing(r.0, r.1, t) && ClosedStay(sh.attempts, r.0.attempts)
  {
    hide SharedInv, ThreadInv, UsbComplete, ReturnCode, CodeResult, PartialLength, AnswerLength, TotalLength, Means,
      CommandOf;
    ParsedAnswer(sh, th, t);
    if th.op.Download? {
      var p := Last(sh).got;
      assert sh.buf[..Min(th.read, |sh.buf|)] == p;
      assert (th.parsed + [p])[|th.parsed + [p]| - 1] == p;
      TotalAppend(th.parsed, p);
      SumWraps(TotalLength(th.parsed), AnswerLength(p));
    }
  }

  lemma SumWraps(a: nat, n: nat)
    ensures (a % 0x1_0000_0000 + n) % 0x1_0000_0000 == (a + n) % 0x1_0000_0000
  {
  }

  lemma TotalAppend(answers: seq<seq<byte>>, p: seq<byte>)
    ensures TotalLength(answers + [p]) == TotalLength(answers) + AnswerLength(p)
  {
    hide AnswerLength;
    assert (answers + [p])[..|answers|] == answers;
  }

  lemma ReportDoes(sh: Shared, th: Thread, t: nat)
    requires Doing(sh, th, t) && InReport(th.pc) && th.op.Report? && !th.pc.RepCheck?
    ensures var r := StepReport(sh, th, t); Doing(r.0, r.1, t) && ClosedStay(sh.attempts, r.0.attempts)
  {
    hide Concluded, TotalLength, FullPiece, CommandOf;
  }

  lemma CloseDoes(sh: Shared, th: Thread, t: nat)
    requires Doing(sh, th, t) && th.op.Report? && th.pc.RepCheck?
    ensures var r := StepReport(sh, th, t); Doing(r.0, r.1, t) && ClosedStay(sh.attempts, r.0.attempts)
  {
    hide Concluded, TotalLength, FullPiece;
  }

  lemma ReportsAreReports(sh: Shared, th: Thread, t: nat)
    requires ThreadInv(sh, th, t)
    ensures InReport(th.pc) ==> th.op.Report?
  {
    hide Phase;
  }

  lemma StepDoes(sh: Shared, th: Thread, t: nat, c: Choice)
    requires SharedInv(sh) && ThreadInv(sh, th, t) && Doing(sh, th, t)
    ensures var r := StepThread(sh, th, t, c); Doing(r.0, r.1, t) && ClosedStay(sh.attempts, r.0.attempts)
  {
    hide SharedInv, ThreadInv, Doing, ClosedStay, StepSend, StepOperation, StepReport, StepRead, StepWrite;
    if th.pc.Write? || th.pc.WriteData? || th.pc.Read? {
      TransferDoes(sh, th, t, c);
    } else if InReport(th.pc) {
      ReportsAreReports(sh, th, t);
      if th.pc.RepCheck? {
        CloseDoes(sh, th, t);
      } else {
        ReportDoes(sh, th, t);
      }
    } else if th.pc.Parse? {
      ParseDoes(sh, th, t, c);
    } else if th.pc.CheckCode? {
      CheckDoes(sh, th, t);
    } else if th.pc.Idle? || th.pc.OuterLock? || th.pc.Returned? || th.pc.OuterUnlock? {
      OperationDoes(sh, th, t, c);
    } else {
      SendDoes(sh, th, t);
    }
  }

  // ---- every run ----

  ghost predicate AllDo(s: State) {
    Inv(s) && forall t :: 0 <= t < |s.threads| ==> Doing(s.sh, s.threads[t], t)
  }

  lemma StepAllDo(s: State, t: nat, c: Choice)
    requires AllDo(s)
    ensures AllDo(Step(s, t, c))
  {
    hide SharedInv, ThreadInv, StepThread, Doing, ClosedStay;
    StepInv(s, t, c);
    if t < |s.threads| {
      assert ThreadInv(s.sh, s.threads[t], t);
      StepDoes(s.sh, s.threads[t], t, c);
      StepKeeps(s.sh, s.threads[t], t, c);
      var r := StepThread(s.sh, s.threads[t], t, c);
      forall u | 0 <= u < |s.threads| && u != t ensures Doing(r.0, s.threads[u], u) {
        OthersDo(s.sh, r.0, s.threads[u], u);
      }
    }
  }

  lemma {:induction false} RunAllDo(s: State, schedule: seq<(nat, Choice)>)
    requires AllDo(s)
    ensures AllDo(Run(s, schedule))
  {
    hide AllDo, Step;
    if schedule != [] {
      var last := schedule[|schedule| - 1];
      RunAllDo(s, schedule[..|schedule| - 1]);
      StepAllDo(Run(s, schedule[..|schedule| - 1]), last.0, last.1);
    }
  }

  lemma ReachableDoes(s: State)
    requires Reachable(s)
    ensures AllDo(s)
  {
    hide Inv, Run, SharedInv, ThreadInv;
    var n: nat, retries: nat, buf: seq<byte>, schedule: seq<(nat, Choice)> :| s == Run(Init(n, retries, buf), schedule);
    InitInv(n, retries, buf);
    RunAllDo(Init(n, retries, buf), schedule);
  }

  // ---- what this means ----

  /** The attempt that a thread is making, has just made, or is about to parse the answer of, is its own and
      carries the command of the operation it is running, with the data phase of that operation. */
  lemma SendsItsOwnCommand(s: State, t: nat)
    requires Reachable(s) && t < |s.threads|
    requires var pc := s.threads[t].pc;
             pc.Write? || pc.BuildData? || pc.WriteData? || pc.Read? || pc.Tried? || pc.Bump? || pc.CheckCode?
             || pc.Unlock? || pc.Parse?
    ensures s.sh.attempts != [] && var th, a := s.threads[t], Last(s.sh);
            && th.att == |s.sh.attempts| - 1 && a.thread == t
            && match th.op
               case Plain(cmd, payload) => a.cmd == cmd && a.payload == payload
               case Query(cmd) => a.cmd == cmd && a.payload == None
               case Download(handle, max) => a.cmd == Command(0x101B, [handle, th.off, max]) && a.payload == None
               case Report(_) => a.cmd == Command(0x1003, []) && a.payload == None
  {
    hide Reachable, SharedInv, AllClosed, Completed, CommandBytes, DataBytes, PacketsOf, UsbComplete, ReturnCode,
      CodeResult, TotalLength, FullPiece, Concluded;
    ReachableDoes(s);
    assert ThreadInv(s.sh, s.threads[t], t) && Doing(s.sh, s.threads[t], t);
  }

  /** The offset a download asks for is the length of all the payloads it has parsed, in 32 bits. */
  lemma DownloadsInSteps(s: State, t: nat)
    requires Reachable(s) && t < |s.threads| && s.threads[t].op.Download?
    ensures s.threads[t].off == TotalLength(s.threads[t].parsed) % 0x1_0000_0000
  {
    hide Reachable, SharedInv, ThreadInv, Concluded, CommandOf, FullPiece, TotalLength;
    ReachableDoes(s);
    assert Doing(s.sh, s.threads[t], t);
  }

  /** These payloads are those of the answers it received: a step that parses adds the newest, complete one.  The
      download goes on exactly if that one's payload is not empty and as long as asked for. */
  lemma ParsesTheNewest(s: State, t: nat, c: Choice)
    requires Reachable(s) && t < |s.threads| && s.threads[t].pc.Parse? && s.threads[t].op.Download?
    ensures var th, th1 := s.threads[t], Step(s, t, c).threads[t];
            && s.sh.attempts != [] && var got := Last(s.sh).got;
            && UsbComplete(got) && th1.parsed == th.parsed + [got] && th1.pc.OuterUnlock?
            && (th1.more <==> AnswerLength(got) != 0 && AnswerLength(got) == th.op.max)
  {
    hide Reachable, HistoryOk, Flatten, Completed, AllClosed, ReturnCode, CodeResult, TotalLength, UsbComplete,
      AnswerLength, PartialLength, CommandOf, StepSend, StepReport, StepRead, StepWrite;
    ReachableDoes(s);
    assert ThreadInv(s.sh, s.threads[t], t);
    ParsedAnswer(s.sh, s.threads[t], t);
    AnswerCode(s.sh, s.threads[t]);
  }

  /** A query or a download whose send has returned goes on to parse exactly if it returned 0. */
  lemma ParsesOnSuccess(s: State, t: nat, c: Choice)
    requires Reachable(s) && t < |s.threads|
    requires s.threads[t].pc.Returned? && (s.threads[t].op.Query? || s.threads[t].op.Download?)
    ensures var th1 := Step(s, t, c).threads[t];
            (th1.pc.Parse? <==> s.threads[t].rc == 0) && (!th1.pc.Parse? ==> th1.pc.OuterUnlock? && !th1.more)
  {
    hide Reachable, StepSend, StepReport, StepRead, StepWrite;
  }

  /** What a send returns is what the code of its answer means, also after other threads have gone on; without
      an answer it is -5. */
  lemma ReturnsTheCode(s: State, t: nat)
    requires Reachable(s) && t < |s.threads| && s.threads[t].pc.Returned?
    ensures var th := s.threads[t];
            if !th.bumped then th.rc == -5
            else
              && th.att < |s.sh.attempts| && var a := s.sh.attempts[th.att];
              && a.thread == t && a.cmd == th.cmd && a.outcome == Ok && ReturnCode(PTP_USB, a.got).Some?
              && var code := ReturnCode(PTP_USB, a.got).value;
              && (th.rc == 0 <==> code == 0x2001) && (th.rc == -5 <==> code == 0xFFFF)
              && (th.rc == -8 <==> code != 0x2001 && code != 0xFFFF)
  {
    hide Reachable, SharedInv, AllClosed, Completed, UsbComplete, ReturnCode, CodeResult, TotalLength, FullPiece,
      CommandOf, Phase;
    ReachableDoes(s);
    assert ThreadInv(s.sh, s.threads[t], t) && Doing(s.sh, s.threads[t], t);
  }

  /** A report that has run to its end leaves both kill switches set; on its way it closes the session exactly
      if it reports no error and nobody else was first. */
  lemma ReportEnds(s: State, t: nat, c: Choice)
    requires Reachable(s) && t < |s.threads| && s.threads[t].op.Report? && !s.threads[t].pc.Idle?
    ensures var s1 := Step(s, t, c);
            && (s1.threads[t].pc.Idle? ==> s1.sh.ioKill && s1.sh.opKill)
            && (s.threads[t].pc.RepCheck? ==>
                 (s1.threads[t].pc.Check? <==> s.threads[t].op.code == 0 && !s.sh.ioKill)
                 && (s1.threads[t].pc.Check? ==> s1.threads[t].cmd == Command(0x1003, [])))
  {
    hide Reachable, HistoryOk, Flatten, Completed, AllClosed, Phase, UsbComplete, ReturnCode, CodeResult, TotalLength,
      FullPiece, CommandOf, Concluded, StepThread, Local;
    ReachableDoes(s);
    assert ThreadInv(s.sh, s.threads[t], t) && Doing(s.sh, s.threads[t], t);
    LeavesReport(s.sh, s.threads[t], t, c);
  }

  lemma LeavesReport(sh: Shared, th: Thread, t: nat, c: Choice)
    requires Local(sh, th) && th.op.Report? && !th.pc.Idle?
    requires (th.pc.RepUnlock? ==> sh.ioKill) && (sh.ioKill ==> sh.opKill)
    ensures var r := StepThread(sh, th, t, c);
            && (r.1.pc.Idle? ==> r.0.ioKill && r.0.opKill)
            && (th.pc.RepCheck? ==>
                 (r.1.pc.Check? <==> th.op.code == 0 && !sh.ioKill)
                 && (r.1.pc.Check? ==> r.1.cmd == Command(0x1003, [])))
  {
    hide StepSend, StepOperation, StepRead, StepWrite, DataBytes;
    if !InReport(th.pc) {
      StaysInSend(sh, th, t, c);
    }
  }

  lemma StaysInSend(sh: Shared, th: Thread, t: nat, c: Choice)
    requires Local(sh, th) && th.op.Report? && !th.pc.Idle? && !InReport(th.pc)
    ensures !StepThread(sh, th, t, c).1.pc.Idle?
  {
    hide StepReport, DataBytes, StepSend, StepRead, StepWrite;
    SendNotIdle(sh, th, t);
    ReadNotIdle(sh, th, c);
    WriteNotIdle(sh, th, c);
  }

  lemma SendNotIdle(sh: Shared, th: Thread, t: nat)
    requires !th.pc.Idle?
    ensures !StepSend(sh, th, t).1.pc.Idle?
  {
  }

  lemma ReadNotIdle(sh: Shared, th: Thread, c: Choice)
    requires !th.pc.Idle?
    ensures !StepRead(sh, th, c).1.pc.Idle?
  {
    hide Judge, Overlay;
  }

  lemma WriteNotIdle(sh: Shared, th: Thread, c: Choice)
    requires !th.pc.Idle?
    ensures forall length: nat, next: Thread :: !next.pc.Idle? ==> !StepWrite(sh, th, length, next, c).1.pc.Idle?
  {
  }

  /** Attempts that are over are never changed. */
  lemma HistoryStays(s: State, t: nat, c: Choice)
    requires Reachable(s)
    ensures ClosedStay(s.sh.attempts, Step(s, t, c).sh.attempts)
  {
    hide Reachable, SharedInv, ThreadInv, StepThread, Doing;
    ReachableDoes(s);
    if t < |s.threads| {
      assert ThreadInv(s.sh, s.threads[t], t);
      StepDoes(s.sh, s.threads[t], t, c);
    }
  }
}
