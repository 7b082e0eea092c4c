/** What every interleaving of the engine's steps keeps. */
module EngineSafety {
  import opened Bytes
  import opened Packets
  import opened PacketAccess
  import opened UsbReceive
  import opened Engine

  // ---- who holds the mutex ----

  predicate InSend(pc: Pc) {
    pc.Check? || pc.InnerLock? || pc.KillUnlocked? || pc.Returned? || Inner(pc) == 1
  }

  /** Locks taken by ptp_send or ptp_send_data itself. */
  function Inner(pc: Pc): nat {
    if pc.Recheck? || pc.Build? || pc.Write? || pc.BuildData? || pc.WriteData? || pc.Read? || pc.Tried?
      || pc.KillLocked?
       || pc.UnlockKilled? || pc.UnlockFailed? || pc.Bump? || pc.CheckCode? || pc.Unlock?
    then 1 else 0
  }

  /** Locks taken by the operation around it. */
  function Outer(th: Thread): nat {
    match th.op
    case Plain(_, _) => 0
    case Query(_) => if InSend(th.pc) || th.pc.Parse? || th.pc.OuterUnlock? then 1 else 0
    case Download(_, _) => if InSend(th.pc) || th.pc.Parse? || th.pc.OuterUnlock? then 1 else 0
    case Report(_) =>
      if InSend(th.pc) || th.pc.RepCheck? || th.pc.RepSetOp? || th.pc.RepSetIo? || th.pc.RepUnlock? then 1 else 0
  }

  /** How often a thread at this point should hold the recursive mutex. */
  function Held(th: Thread): nat {
    th.base + Outer(th) + Inner(th.pc)
  }

  // ---- the history ----

  function Last(sh: Shared): Attempt
    requires sh.attempts != []
  {
    sh.attempts[|sh.attempts| - 1]
  }

  /** The wire, if attempts never interleave. */
  function Flatten(hs: seq<Attempt>): seq<(nat, byte)> {
    if hs == [] then [] else Flatten(hs[..|hs| - 1]) + Tagged(|hs| - 1, hs[|hs| - 1].sent)
  }

  /** The transaction IDs of the attempts that were answered, in order. */
  function Completed(hs: seq<Attempt>): seq<nat> {
    if hs == [] then []
    else Completed(hs[..|hs| - 1]) + if hs[|hs| - 1].outcome == Ok then [hs[|hs| - 1].id] else []
  }

  predicate AllClosed(hs: seq<Attempt>) {
    forall i :: 0 <= i < |hs| ==> hs[i].outcome != Open
  }

  /** Nothing but the expected bytes was sent, all of them if the device had its turn; an answer is complete. */
  predicate WellAttempt(a: Attempt) {
    && a.sent <= Expected(a)
    && (a.outcome == Ok || a.outcome == Ignored ==> a.sent == Expected(a))
    && (a.outcome == Ok ==> UsbComplete(a.got))
  }

  predicate RetryOf(p: Attempt, a: Attempt) {
    p.thread == a.thread && p.cmd == a.cmd && p.payload == a.payload && p.id == a.id && !p.retry && p.outcome == Ignored
  }

  /** It failed as a retry, or with the mutex held around it: nobody may write after it. */
  predicate Final(a: Attempt) {
    a.outcome == Failed && (a.nested || a.retry)
  }

  /** Only the newest attempt may be under way, or final; each carries as its ID the number of transactions
      completed before it; a retry directly follows the ignored attempt it repeats. */
  predicate HistoryOk(hs: seq<Attempt>) {
    hs == [] ||
    var init, a := hs[..|hs| - 1], hs[|hs| - 1];
    && HistoryOk(init) && AllClosed(init) && WellAttempt(a) && a.id == |Completed(init)|
    && (a.retry ==> init != [] && RetryOf(init[|init| - 1], a))
    && (init != [] ==> !Final(init[|init| - 1]))
  }

  lemma {:induction false} HistoryAppend(hs: seq<Attempt>, a: Attempt)
    requires HistoryOk(hs) && AllClosed(hs)
    requires a.outcome == Open && a.sent == [] && a.id == |Completed(hs)|
    requires a.retry ==> hs != [] && RetryOf(hs[|hs| - 1], a)
    requires hs != [] ==> !Final(hs[|hs| - 1])
    ensures HistoryOk(hs + [a]) && Completed(hs + [a]) == Completed(hs) && Flatten(hs + [a]) == Flatten(hs)
  {
    hide PacketsOf, UsbComplete, AllClosed, RetryOf, Tagged;
    var longer := hs + [a];
    assert longer[..|longer| - 1] == hs && longer[|longer| - 1] == a;
    assert WellAttempt(a);
    assert Flatten(longer) == Flatten(hs) + Tagged(|hs|, []);
  }

  /** The newest attempt goes on: more bytes sent or received, or an outcome. */
  lemma {:induction false} HistoryChange(hs: seq<Attempt>, b: Attempt, chunk: seq<byte>)
    requires hs != [] && HistoryOk(hs) && WellAttempt(b)
    requires var a := hs[|hs| - 1];
             b.thread == a.thread && b.cmd == a.cmd && b.payload == a.payload && b.id == a.id && b.retry == a.retry
               && b.nested == a.nested
             && b.sent == a.sent + chunk && a.outcome == Open
    ensures var hs1 := hs[|hs| - 1 := b];
            && HistoryOk(hs1) && Flatten(hs1) == Flatten(hs) + Tagged(|hs| - 1, chunk)
            && Completed(hs1) == Completed(hs) + (if b.outcome == Ok then [b.id] else [])
            && (AllClosed(hs1) <==> b.outcome != Open)
  {
    hide PacketsOf, WellAttempt, AllClosed, Tagged;
    var n := |hs| - 1;
    var hs1 := hs[n := b];
    assert hs1[..n] == hs[..n];
    TaggedJoin(n, hs[n].sent, chunk);
    assert Flatten(hs1) == Flatten(hs[..n]) + Tagged(n, b.sent);
    assert Flatten(hs) == Flatten(hs[..n]) + Tagged(n, hs[n].sent);
    ClosedLast(hs1);
  }

  lemma TaggedJoin(i: nat, a: seq<byte>, b: seq<byte>)
    ensures Tagged(i, a + b) == Tagged(i, a) + Tagged(i, b)
  {
  }

  lemma ClosedLast(hs: seq<Attempt>)
    requires hs != [] && AllClosed(hs[..|hs| - 1])
    ensures AllClosed(hs) <==> hs[|hs| - 1].outcome != Open
  {
    forall i | 0 <= i < |hs| - 1 ensures hs[i].outcome != Open {
      assert hs[i] == hs[..|hs| - 1][i];
    }
  }

  // ---- the invariant ----

  /** No attempt is under way and the counter has caught up. */
  predicate Settled(sh: Shared) {
    AllClosed(sh.attempts) && |Completed(sh.attempts)| == sh.transaction
  }

  /** The newest attempt is final. */
  predicate Sealed(sh: Shared) {
    sh.attempts != [] && Final(Last(sh))
  }

  /** The newest attempt was made by this thread for the operation it is running. */
  predicate Mine(sh: Shared, th: Thread, t: nat) {
    && sh.attempts != [] && th.att == |sh.attempts| - 1
    && Last(sh).thread == t && Last(sh).cmd == th.cmd && Last(sh).payload == PayloadOf(th.op)
  }

  predicate Working(sh: Shared, th: Thread, t: nat) {
    && Mine(sh, th, t) && Last(sh).outcome == Open
    && Last(sh).id == sh.transaction == |Completed(sh.attempts)| && Last(sh).retry == th.retry
       && (Last(sh).nested <==> sh.depth > 1)
  }

  /** The buffer holds what the newest attempt received. */
  predicate Answer(sh: Shared, th: Thread) {
    && sh.attempts != [] && Last(sh).outcome == Ok && th.read <= |sh.buf| && Last(sh).got == sh.buf[..th.read]
  }

  predicate Coded(sh: Shared, th: Thread) {
    sh.attempts != [] && ReturnCode(PTP_USB, Last(sh).got).Some?
      && th.rc == CodeResult(ReturnCode(PTP_USB, Last(sh).got).value)
  }

  /** What the thread that holds the mutex may rely on, point by point. */
  predicate Phase(sh: Shared, th: Thread, t: nat) {
    match th.pc
    case Build =>
      && Settled(sh) && !Sealed(sh)
      && (th.retry ==>
           && Mine(sh, th, t) && Last(sh).id == sh.transaction && !Last(sh).retry && Last(sh).outcome == Ignored)
    case Write =>
      var c := CommandBytes(th.cmd, sh.transaction);
      && Working(sh, th, t) && Last(sh).got == [] && th.sent <= |c| <= |sh.buf|
      && sh.buf[..|c|] == c && Last(sh).sent == c[..th.sent]
    case BuildData =>
      && Working(sh, th, t) && Last(sh).got == [] && PayloadOf(th.op).Some?
      && Last(sh).sent == CommandBytes(th.cmd, sh.transaction)
    case WriteData =>
      var d := DataBytes(th.cmd, sh.transaction, PayloadOf(th.op));
      && Working(sh, th, t) && Last(sh).got == [] && PayloadOf(th.op).Some? && th.sent <= |d| <= |sh.buf|
      && sh.buf[..|d|] == d && Last(sh).sent == CommandBytes(th.cmd, sh.transaction) + d[..th.sent]
    case Read =>
      && Working(sh, th, t) && Last(sh).sent == Expected(Last(sh))
      && th.read <= |sh.buf| && Last(sh).got == sh.buf[..th.read]
    case Tried =>
      && Mine(sh, th, t) && AllClosed(sh.attempts) && Last(sh).id == sh.transaction && Last(sh).retry == th.retry
      && |Completed(sh.attempts)| == sh.transaction + (if th.rc == PTP_OK then 1 else 0)
      && (Last(sh).nested <==> sh.depth > 1)
      && (th.rc == PTP_OK ==> Answer(sh, th))
      && (th.rc == PTP_COMMAND_IGNORED ==> Last(sh).outcome == Ignored)
      && (th.rc == PTP_IO_ERR ==> Last(sh).outcome == Failed)
    case UnlockFailed => Settled(sh) && (Sealed(sh) ==> sh.depth > 1)
    case Bump =>
      && Mine(sh, th, t) && AllClosed(sh.attempts) && |Completed(sh.attempts)| == sh.transaction + 1 && Answer(sh, th)
    case CheckCode => Settled(sh) && Mine(sh, th, t) && Answer(sh, th)
    case Unlock => Settled(sh) && Mine(sh, th, t) && Answer(sh, th) && Coded(sh, th)
    case Parse => Settled(sh) && Mine(sh, th, t) && Answer(sh, th) && Coded(sh, th)
    case Returned => Settled(sh) && (th.bumped ==> Mine(sh, th, t) && Answer(sh, th) && Coded(sh, th))
    case _ => Settled(sh)
  }

  /** ptp_report_error for an error, after which no CloseSession is sent. */
  predicate ForError(op: Op) {
    op.Report? && op.code != 0
  }

  /** Facts a thread has about itself and about flags that are never cleared. */
  predicate Local(sh: Shared, th: Thread) {
    && (th.pc.OuterLock? || th.pc.Parse? || th.pc.OuterUnlock? ==> th.op.Query? || th.op.Download?)
    && (InReport(th.pc) ==> th.op.Report?)
    && (th.pc.CheckCode? || th.pc.Unlock? || th.pc.Parse? ==> th.bumped)
    && (InSend(th.pc) && !th.pc.Check? && !th.pc.Returned? && !th.pc.CheckCode? && !th.pc.Unlock? ==> !th.bumped)
    && (th.pc.UnlockKilled? || th.pc.RepSetIo? || (th.pc.RepLock? && ForError(th.op)) ==> sh.opKill)
    && (th.pc.Returned? && !th.bumped ==> sh.opKill && th.rc == PTP_IO_ERR)
    && (th.pc.Tried? ==> th.rc in {PTP_OK, PTP_IO_ERR, PTP_COMMAND_IGNORED})
  }

  /** Between deciding to close the session and setting io_kill_switch. */
  predicate Closing(th: Thread) {
    th.op.Report? && th.op.code == 0 && (InSend(th.pc) || th.pc.RepSetOp? || th.pc.RepSetIo?)
  }

  /** An attempt has begun, or is about to. */
  predicate Live(pc: Pc) {
    Inner(pc) == 1 && !pc.Recheck? && !pc.UnlockKilled?
  }

  /** Between a failure and setting operation_kill_switch. */
  predicate Failing(pc: Pc) {
    pc.Tried? || pc.KillLocked? || pc.UnlockFailed? || pc.KillUnlocked?
  }

  predicate ThreadInv(sh: Shared, th: Thread, t: nat) {
    && Local(sh, th)
    && if Held(th) > 0 then
         && sh.owner == t && sh.depth == Held(th) && Phase(sh, th, t)
         && (Live(th.pc) ==> !sh.ioKill) && (sh.closers == 1 ==> sh.ioKill || Closing(th))
         && (Sealed(sh) ==> sh.opKill || Failing(th.pc))
       else
         !(sh.depth > 0 && sh.owner == t)
  }

  predicate SharedInv(sh: Shared) {
    && sh.wire == Flatten(sh.attempts) && HistoryOk(sh.attempts)
    && (sh.ioKill ==> sh.opKill) && sh.closers <= 1
    && (sh.depth == 0 ==> Settled(sh) && (sh.closers == 1 ==> sh.ioKill) && (Sealed(sh) ==> sh.opKill))
  }

  predicate Inv(s: State) {
    && SharedInv(s.sh)
    && (forall t :: 0 <= t < |s.threads| ==> ThreadInv(s.sh, s.threads[t], t))
    && (s.sh.depth > 0 ==> s.sh.owner < |s.threads|)
  }

  // ---- a step of one thread, seen by that thread ----

  /** What a step of thread t may do to the others: unless t held the mutex or could take it, nothing but
      set the operation kill switch. */
  predicate Frame(sh: Shared, sh1: Shared, t: nat) {
    && (sh.opKill ==> sh1.opKill) && (sh.ioKill ==> sh1.ioKill)
    && (sh1 == sh.(opKill := sh1.opKill)
        || ((sh.depth == 0 || sh.owner == t) && (sh1.depth == 0 || sh1.owner == t)))
  }

  predicate Good(sh: Shared, r: (Shared, Thread), t: nat) {
    SharedInv(r.0) && ThreadInv(r.0, r.1, t) && Frame(sh, r.0, t)
  }

  // Steps that leave the buffer, the wire and the counter alone.

  /** What is known of the newest attempt depends on few of a thread's variables and of the shared fields. */
  lemma Carry(sh: Shared, th: Thread, sh1: Shared, th1: Thread, t: nat)
    requires sh1.attempts == sh.attempts && sh1.transaction == sh.transaction && sh1.buf == sh.buf
    requires th1.att == th.att && th1.op == th.op && th1.cmd == th.cmd && th1.read == th.read
    ensures Sealed(sh1) == Sealed(sh)
    ensures Settled(sh1) == Settled(sh) && Mine(sh1, th1, t) == Mine(sh, th, t) && Answer(sh1, th1) == Answer(sh, th)
    ensures th1.rc == th.rc ==> Coded(sh1, th1) == Coded(sh, th)
  {
  }

  lemma StepIdle(sh: Shared, th: Thread, t: nat, c: Choice)
    requires SharedInv(sh) && ThreadInv(sh, th, t) && th.pc.Idle? && !c.Start?
    ensures Good(sh, StepThread(sh, th, t, c), t)
  {
    hide StepSend, StepReport, HistoryOk, Flatten, Completed, AllClosed, ReturnCode, PartialLength, StepRead, StepWrite,
      Overlay, CommandBytes, DataBytes, CodeResult, Settled, Mine, Answer, Coded;
    var r := StepThread(sh, th, t, c);
    Carry(sh, th, r.0, th, t);
  }

  lemma StepStarts(sh: Shared, th: Thread, t: nat, c: Choice)
    requires SharedInv(sh) && ThreadInv(sh, th, t) && th.pc.Idle? && c.Start?
    ensures Good(sh, StepThread(sh, th, t, c), t)
  {
    hide StepSend, StepReport, HistoryOk, Flatten, Completed, AllClosed, ReturnCode, PartialLength, StepRead, StepWrite,
      Overlay, CommandBytes, DataBytes, CodeResult, Settled, Sealed, Mine, Answer, Coded;
    var r := StepThread(sh, th, t, c);
    Carry(sh, th, r.0, th, t);
  }

  lemma StepOuterLock(sh: Shared, th: Thread, t: nat, c: Choice)
    requires SharedInv(sh) && ThreadInv(sh, th, t) && th.pc.OuterLock?
    ensures Good(sh, StepThread(sh, th, t, c), t)
  {
    hide StepSend, StepReport, HistoryOk, Flatten, Completed, AllClosed, ReturnCode, PartialLength, StepRead,
      StepWrite, Overlay, CommandBytes, DataBytes, CodeResult, Settled, Sealed, Mine, Answer, Coded;
    var r := StepThread(sh, th, t, c);
    Carry(sh, th, r.0, th, t);
  }

  lemma StepCheck(sh: Shared, th: Thread, t: nat, c: Choice)
    requires SharedInv(sh) && ThreadInv(sh, th, t) && th.pc.Check?
    ensures Good(sh, StepThread(sh, th, t, c), t)
  {
    hide StepOperation, StepReport, HistoryOk, Flatten, Completed, AllClosed, ReturnCode, PartialLength, StepRead,
      StepWrite, Overlay, CommandBytes, DataBytes, CodeResult, Settled, Sealed, Mine, Answer, Coded;
    var r := StepThread(sh, th, t, c);
    Carry(sh, th, r.0, th, t);
  }

  lemma StepEnter(sh: Shared, th: Thread, t: nat, c: Choice)
    requires SharedInv(sh) && ThreadInv(sh, th, t) && (th.pc.InnerLock? || th.pc.Recheck?)
    ensures Good(sh, StepThread(sh, th, t, c), t)
  {
    hide StepOperation, StepReport, HistoryOk, Flatten, Completed, AllClosed, ReturnCode, PartialLength, StepRead,
      StepWrite, Overlay, CommandBytes, DataBytes, CodeResult, Settled, Sealed, Mine, Answer, Coded;
    var r := StepThread(sh, th, t, c);
    Carry(sh, th, r.0, r.1, t);
  }

  lemma StepTried(sh: Shared, th: Thread, t: nat, c: Choice)
    requires SharedInv(sh) && ThreadInv(sh, th, t) && th.pc.Tried?
    ensures Good(sh, StepThread(sh, th, t, c), t)
  {
    hide StepOperation, StepReport, HistoryOk, Flatten, Completed, AllClosed, CommandBytes, DataBytes, PacketsOf,
      ReturnCode, PartialLength, StepRead, StepWrite, Overlay, Judge, UsbComplete, WellAttempt, RetryOf, CodeResult,
      Mine, Coded;
    var r := StepThread(sh, th, t, c);
    Carry(sh, th, r.0, r.1, t);
  }

  lemma StepKill(sh: Shared, th: Thread, t: nat, c: Choice)
    requires SharedInv(sh) && ThreadInv(sh, th, t) && (th.pc.KillLocked? || th.pc.KillUnlocked?)
    ensures Good(sh, StepThread(sh, th, t, c), t)
  {
    hide StepOperation, StepReport, HistoryOk, Flatten, Completed, AllClosed, ReturnCode, PartialLength, StepRead,
      StepWrite, Overlay, CommandBytes, DataBytes, CodeResult, Settled, Sealed, Mine, Answer, Coded;
    var r := StepThread(sh, th, t, c);
    Carry(sh, th, r.0, r.1, t);
  }

  lemma StepLeave(sh: Shared, th: Thread, t: nat, c: Choice)
    requires SharedInv(sh) && ThreadInv(sh, th, t) && (th.pc.UnlockKilled? || th.pc.Unlock?)
    ensures Good(sh, StepThread(sh, th, t, c), t)
  {
    hide StepOperation, StepReport, HistoryOk, Flatten, Completed, AllClosed, ReturnCode, PartialLength, StepRead,
      StepWrite, Overlay, CommandBytes, DataBytes, CodeResult, Settled, Mine, Answer, Coded;
    var r := StepThread(sh, th, t, c);
    Carry(sh, th, r.0, r.1, t);
  }

  lemma StepLetGo(sh: Shared, th: Thread, t: nat, c: Choice)
    requires SharedInv(sh) && ThreadInv(sh, th, t) && th.pc.UnlockFailed?
    ensures Good(sh, StepThread(sh, th, t, c), t)
  {
    hide StepOperation, StepReport, HistoryOk, Flatten, Completed, AllClosed, ReturnCode, PartialLength, StepRead,
      StepWrite, Overlay, CommandBytes, DataBytes, CodeResult, Settled, Mine, Answer, Coded;
    var r := StepThread(sh, th, t, c);
    Carry(sh, th, r.0, r.1, t);
  }

  lemma StepSent(sh: Shared, th: Thread, t: nat, c: Choice)
    requires SharedInv(sh) && ThreadInv(sh, th, t) && th.pc.Returned? && !th.op.Report?
    ensures Good(sh, StepThread(sh, th, t, c), t)
  {
    hide StepSend, StepReport, HistoryOk, Flatten, Completed, AllClosed, ReturnCode, PartialLength, StepRead,
      StepWrite, Overlay, CommandBytes, DataBytes, CodeResult, Settled, Sealed, Mine, Answer, Coded;
    var r := StepThread(sh, th, t, c);
    Carry(sh, th, r.0, r.1, t);
  }

  lemma StepSessionClosed(sh: Shared, th: Thread, t: nat, c: Choice)
    requires SharedInv(sh) && ThreadInv(sh, th, t) && th.pc.Returned? && th.op.Report?
    ensures Good(sh, StepThread(sh, th, t, c), t)
  {
    hide StepSend, StepReport, HistoryOk, Flatten, Completed, AllClosed, ReturnCode, PartialLength, StepRead,
      StepWrite, Overlay, CommandBytes, DataBytes, CodeResult, Settled, Sealed, Mine, Answer, Coded;
    var r := StepThread(sh, th, t, c);
    Carry(sh, th, r.0, r.1, t);
  }

  lemma StepParsed(sh: Shared, th: Thread, t: nat, c: Choice)
    requires SharedInv(sh) && ThreadInv(sh, th, t) && (th.pc.Parse? || th.pc.OuterUnlock?)
    ensures Good(sh, StepThread(sh, th, t, c), t)
  {
    hide StepSend, StepReport, HistoryOk, Flatten, Completed, AllClosed, ReturnCode, PartialLength, StepRead,
      StepWrite, Overlay, CommandBytes, DataBytes, CodeResult, Settled, Sealed, Mine, Answer, Coded;
    var r := StepThread(sh, th, t, c);
    Carry(sh, th, r.0, r.1, t);
  }

  lemma StepReports(sh: Shared, th: Thread, t: nat, c: Choice)
    requires SharedInv(sh) && ThreadInv(sh, th, t) && (th.pc.RepEnter? || th.pc.RepFlag?)
    ensures Good(sh, StepThread(sh, th, t, c), t)
  {
    hide StepOperation, StepSend, HistoryOk, Flatten, Completed, AllClosed, ReturnCode, PartialLength, StepRead,
      StepWrite, Overlay, CommandBytes, DataBytes, CodeResult, Settled, Sealed, Mine, Answer, Coded;
    var r := StepThread(sh, th, t, c);
    Carry(sh, th, r.0, r.1, t);
  }

  lemma StepRepLock(sh: Shared, th: Thread, t: nat, c: Choice)
    requires SharedInv(sh) && ThreadInv(sh, th, t) && th.pc.RepLock?
    ensures Good(sh, StepThread(sh, th, t, c), t)
  {
    hide StepOperation, StepSend, HistoryOk, Flatten, Completed, AllClosed, ReturnCode, PartialLength, StepRead,
      StepWrite, Overlay, CommandBytes, DataBytes, CodeResult, Settled, Sealed, Mine, Answer, Coded;
    var r := StepThread(sh, th, t, c);
    Carry(sh, th, r.0, th, t);
  }

  lemma StepDecide(sh: Shared, th: Thread, t: nat, c: Choice)
    requires SharedInv(sh) && ThreadInv(sh, th, t) && th.pc.RepCheck? && (sh.ioKill || ForError(th.op))
    ensures Good(sh, StepThread(sh, th, t, c), t)
  {
    hide StepOperation, StepSend, HistoryOk, Flatten, Completed, AllClosed, ReturnCode, PartialLength, StepRead,
      StepWrite, Overlay, CommandBytes, DataBytes, CodeResult, Settled, Sealed, Mine, Answer, Coded;
    var r := StepThread(sh, th, t, c);
    Carry(sh, th, r.0, th, t);
  }

  lemma StepCloses(sh: Shared, th: Thread, t: nat, c: Choice)
    requires SharedInv(sh) && ThreadInv(sh, th, t) && th.pc.RepCheck? && !sh.ioKill && !ForError(th.op)
    ensures Good(sh, StepThread(sh, th, t, c), t)
  {
    hide StepOperation, StepSend, HistoryOk, Flatten, Completed, AllClosed, ReturnCode, PartialLength, StepRead,
      StepWrite, Overlay, CommandBytes, DataBytes, CodeResult, Settled, Sealed, Mine, Answer, Coded;
    var r := StepThread(sh, th, t, c);
    Carry(sh, th, r.0, th, t);
  }

  lemma StepShutsDown(sh: Shared, th: Thread, t: nat, c: Choice)
    requires SharedInv(sh) && ThreadInv(sh, th, t) && (th.pc.RepSetOp? || th.pc.RepSetIo? || th.pc.RepUnlock?)
    ensures Good(sh, StepThread(sh, th, t, c), t)
  {
    hide StepOperation, StepSend, HistoryOk, Flatten, Completed, AllClosed, ReturnCode, PartialLength, StepRead,
      StepWrite, Overlay, CommandBytes, DataBytes, CodeResult, Settled, Sealed, Mine, Answer, Coded;
    var r := StepThread(sh, th, t, c);
    Carry(sh, th, r.0, r.1, t);
  }

  // Steps of an attempt.

  lemma StepBump(sh: Shared, th: Thread, t: nat, c: Choice)
    requires SharedInv(sh) && ThreadInv(sh, th, t) && th.pc.Bump?
    ensures Good(sh, StepThread(sh, th, t, c), t)
  {
    hide StepOperation, StepReport, HistoryOk, Flatten, Completed, AllClosed, CommandBytes, DataBytes, PacketsOf,
      PartialLength, StepRead, StepWrite, Overlay, Judge, UsbComplete, WellAttempt, RetryOf, CodeResult;
  }

  lemma StepCheckCode(sh: Shared, th: Thread, t: nat, c: Choice)
    requires SharedInv(sh) && ThreadInv(sh, th, t) && th.pc.CheckCode?
    ensures Good(sh, StepThread(sh, th, t, c), t)
  {
    hide StepOperation, StepReport, HistoryOk, Flatten, Completed, AllClosed, CommandBytes, DataBytes, PacketsOf,
      PartialLength, StepRead, StepWrite, Overlay, Judge, UsbComplete, WellAttempt, RetryOf, CodeResult;
    AnswerCode(sh, th);
  }

  /** The code taken from the shared buffer is that of the answer received during the thread's attempt. */
  lemma AnswerCode(sh: Shared, th: Thread)
    requires HistoryOk(sh.attempts) && Answer(sh, th)
    ensures UsbComplete(Last(sh).got)
    ensures ReturnCode(PTP_USB, sh.buf) == ReturnCode(PTP_USB, Last(sh).got) != None
  {
    hide Flatten, Completed, AllClosed, PacketsOf, ReturnCode, UsbComplete, RetryOf, TransactionId, ParamLength;
    assert Last(sh).got <= sh.buf;
    CompletePrefix(PTP_USB, Last(sh).got, sh.buf);
  }

  lemma StepBuild(sh: Shared, th: Thread, t: nat, c: Choice)
    requires SharedInv(sh) && ThreadInv(sh, th, t) && th.pc.Build?
    ensures Good(sh, StepThread(sh, th, t, c), t)
  {
    hide StepOperation, StepReport, HistoryOk, Flatten, Completed, AllClosed, CommandBytes, DataBytes, PacketsOf,
      ReturnCode, PartialLength, StepRead, StepWrite, Overlay, Judge, UsbComplete, WellAttempt, CodeResult;
    HistoryAppend(sh.attempts,
      Attempt(t, th.cmd, PayloadOf(th.op), sh.transaction, th.retry, sh.depth > 1, [], [], Open));
  }

  /** Everything a step of an attempt leaves alone. */
  predicate SameRest(sh: Shared, sh1: Shared) {
    sh1 == sh.(buf := sh1.buf, wire := sh1.wire, attempts := sh1.attempts)
  }

  /** The newest attempt, which is this thread's and under way, goes on to b. */
  predicate Advanced(sh: Shared, sh1: Shared, b: Attempt) {
    && SameRest(sh, sh1) && sh1.attempts != [] && |sh1.attempts| == |sh.attempts| && Last(sh1) == b
    && HistoryOk(sh1.attempts) && sh1.wire == Flatten(sh1.attempts)
    && |Completed(sh1.attempts)| == sh.transaction + (if b.outcome == Ok then 1 else 0)
    && (b.outcome != Open ==> AllClosed(sh1.attempts))
  }

  lemma Advance(sh: Shared, th: Thread, t: nat, sh1: Shared, b: Attempt, chunk: seq<byte>)
    requires SharedInv(sh) && Working(sh, th, t) && WellAttempt(b) && SameRest(sh, sh1)
    requires b == Last(sh).(sent := Last(sh).sent + chunk, got := b.got, outcome := b.outcome)
    requires sh1.attempts == sh.attempts[th.att := b] && sh1.wire == sh.wire + Tagged(th.att, chunk)
    ensures Advanced(sh, sh1, b)
  {
    hide HistoryOk, Flatten, Completed, AllClosed, WellAttempt, Tagged, Settled;
    HistoryChange(sh.attempts, b, chunk);
  }

  /** Closing without sending or receiving anything more. */
  lemma Closed(sh: Shared, th: Thread, t: nat, outcome: Outcome)
    requires SharedInv(sh) && Working(sh, th, t) && WellAttempt(Last(sh).(outcome := outcome))
    ensures Advanced(sh, Close(sh, th, outcome), Last(sh).(outcome := outcome))
  {
    hide SharedInv, HistoryOk, Flatten, Completed, AllClosed, WellAttempt, Advanced;
    assert Tagged(th.att, []) == [];
    assert sh.wire + Tagged(th.att, []) == sh.wire && Last(sh).sent + [] == Last(sh).sent;
    Advance(sh, th, t, Close(sh, th, outcome), Last(sh).(outcome := outcome), []);
  }

  /** Writing n more bytes of d, which lies at the start of the buffer, after the bytes `before`. */
  lemma Transmitted(sh: Shared, th: Thread, t: nat, n: nat, before: seq<byte>, d: seq<byte>)
    requires SharedInv(sh) && Working(sh, th, t)
    requires th.sent + n <= |d| <= |sh.buf| && sh.buf[..|d|] == d
    requires Last(sh).sent == before + d[..th.sent] && before + d <= Expected(Last(sh))
    ensures Advanced(sh, Transmit(sh, th, n), Last(sh).(sent := before + d[..th.sent + n]))
    ensures Transmit(sh, th, n).buf == sh.buf
  {
    hide SharedInv, HistoryOk, Flatten, Completed, AllClosed, Advanced, PacketsOf, UsbComplete, Tagged;
    var chunk := sh.buf[th.sent..th.sent + n];
    SliceOfPrefix(sh.buf, d, th.sent, th.sent + n);
    SliceJoin(before, d, th.sent, th.sent + n);
    PrefixGrows(before, d, th.sent + n);
    Advance(sh, th, t, Transmit(sh, th, n), Last(sh).(sent := before + d[..th.sent + n]), chunk);
  }

  /** A failed write ends the attempt. */
  lemma WriteFails(sh: Shared, th: Thread, t: nat)
    requires SharedInv(sh) && ThreadInv(sh, th, t) && (th.pc.Write? || th.pc.WriteData?)
    ensures Good(sh, (Close(sh, th, Failed), th.(pc := Tried, rc := PTP_IO_ERR)), t)
  {
    hide HistoryOk, Flatten, Completed, AllClosed, CommandBytes, DataBytes, PacketsOf, UsbComplete, RetryOf,
      ReturnCode, CodeResult;
    WellPrefix(sh);
    Closed(sh, th, t, Failed);
  }

  lemma WellPrefix(sh: Shared)
    requires HistoryOk(sh.attempts) && sh.attempts != [] && Last(sh).outcome == Open
    ensures WellAttempt(Last(sh)) && WellAttempt(Last(sh).(outcome := Failed))
  {
    hide PacketsOf, UsbComplete, Completed, AllClosed, RetryOf;
  }

  lemma Unchanged(sh: Shared, th: Thread, t: nat)
    requires SharedInv(sh) && ThreadInv(sh, th, t) && Held(th) > 0
    ensures Good(sh, (sh, th), t)
  {
    hide HistoryOk, Flatten, Phase, Local;
  }

  /** After n more bytes of the command packet the thread goes on writing, or to the data phase, or to reading. */
  lemma CommandGoesOn(sh: Shared, th: Thread, t: nat, sh1: Shared, n: nat)
    requires SharedInv(sh) && ThreadInv(sh, th, t) && th.pc.Write?
    requires var cmd := CommandBytes(th.cmd, sh.transaction);
             && th.sent + n <= |cmd| && sh1.buf == sh.buf && Advanced(sh, sh1, Last(sh).(sent := cmd[..th.sent + n]))
             && (th.sent + n == |cmd| ==> Last(sh1).sent == cmd)
             && (th.sent + n == |cmd| && PayloadOf(th.op).None? ==> Last(sh1).sent == Expected(Last(sh1)))
    ensures var next := if PayloadOf(th.op).Some? then th.(pc := BuildData) else Receiving(sh, th);
            Good(sh, (sh1, if th.sent + n == |CommandBytes(th.cmd, sh.transaction)| then next
              else th.(sent := th.sent + n)), t)
  {
    hide HistoryOk, Flatten, Completed, AllClosed, CommandBytes, DataBytes, UsbComplete, RetryOf, ReturnCode,
      CodeResult, WellAttempt, PacketsOf;
  }

  lemma StepWriteCommand(sh: Shared, th: Thread, t: nat, c: Choice)
    requires SharedInv(sh) && ThreadInv(sh, th, t) && th.pc.Write?
    ensures Good(sh, StepThread(sh, th, t, c), t)
  {
    hide StepOperation, StepSend, StepReport, SharedInv, Good, HistoryOk, Flatten, Completed, AllClosed, CommandBytes,
      DataBytes, UsbComplete, RetryOf, ReturnCode, CodeResult, Transmit, Close, WellAttempt, PacketsOf, Advanced;
    if c == IoError {
      WriteFails(sh, th, t);
    } else if c.Wrote? {
      var n := Min(c.n, |CommandBytes(th.cmd, sh.transaction)| - th.sent);
      CommandTransmitted(sh, th, t, n);
      CommandGoesOn(sh, th, t, Transmit(sh, th, n), n);
    } else {
      Unchanged(sh, th, t);
    }
  }

  lemma CommandTransmitted(sh: Shared, th: Thread, t: nat, n: nat)
    requires SharedInv(sh) && ThreadInv(sh, th, t) && th.pc.Write?
    requires th.sent + n <= |CommandBytes(th.cmd, sh.transaction)|
    ensures var cmd := CommandBytes(th.cmd, sh.transaction);
            var sh1 := Transmit(sh, th, n);
            && sh1.buf == sh.buf && Advanced(sh, sh1, Last(sh).(sent := cmd[..th.sent + n]))
            && (th.sent + n == |cmd| ==> Last(sh1).sent == cmd)
            && (th.sent + n == |cmd| && PayloadOf(th.op).None? ==> Last(sh1).sent == Expected(Last(sh1)))
  {
    hide HistoryOk, Flatten, Completed, AllClosed, CommandBytes, DataBytes, UsbComplete, RetryOf, ReturnCode,
      CodeResult, Transmit, Close, WellAttempt, SharedInv, Advanced;
    var cmd := CommandBytes(th.cmd, sh.transaction);
    PrefixGrows(cmd, DataBytes(th.cmd, sh.transaction, PayloadOf(th.op)), 0);
    assert [] + cmd == cmd && cmd + [] == cmd && cmd[..|cmd|] == cmd;
    assert [] + cmd[..th.sent] == cmd[..th.sent] && [] + cmd[..th.sent + n] == cmd[..th.sent + n];
    Transmitted(sh, th, t, n, [], cmd);
    AdvancedLast(sh, Transmit(sh, th, n), Last(sh).(sent := cmd[..th.sent + n]));
  }

  lemma AdvancedLast(sh: Shared, sh1: Shared, b: Attempt)
    requires Advanced(sh, sh1, b)
    ensures sh1.attempts != [] && Last(sh1) == b
  {
  }

  lemma StepBuildData(sh: Shared, th: Thread, t: nat, c: Choice)
    requires SharedInv(sh) && ThreadInv(sh, th, t) && th.pc.BuildData?
    ensures Good(sh, StepThread(sh, th, t, c), t)
  {
    hide StepOperation, StepReport, HistoryOk, Flatten, Completed, AllClosed, CommandBytes, DataBytes, UsbComplete,
      RetryOf, ReturnCode, CodeResult, PacketsOf, WellAttempt;
    var d := DataBytes(th.cmd, sh.transaction, PayloadOf(th.op));
    assert d[..0] == [] && [] + d == d;
    var sent := CommandBytes(th.cmd, sh.transaction);
    assert sent + [] == sent;
  }

  /** After n more bytes of the data packet the thread goes on writing, or to reading. */
  lemma DataGoesOn(sh: Shared, th: Thread, t: nat, sh1: Shared, n: nat)
    requires SharedInv(sh) && ThreadInv(sh, th, t) && th.pc.WriteData?
    requires var d := DataBytes(th.cmd, sh.transaction, PayloadOf(th.op));
             && th.sent + n <= |d| && sh1.buf == sh.buf
             && Advanced(sh, sh1, Last(sh).(sent := CommandBytes(th.cmd, sh.transaction) + d[..th.sent + n]))
    ensures var d := DataBytes(th.cmd, sh.transaction, PayloadOf(th.op));
            Good(sh, (sh1, if th.sent + n == |d| then Receiving(sh, th) else th.(sent := th.sent + n)), t)
  {
    hide HistoryOk, Flatten, Completed, AllClosed, CommandBytes, DataBytes, UsbComplete, RetryOf, ReturnCode,
      CodeResult, WellAttempt;
    var d := DataBytes(th.cmd, sh.transaction, PayloadOf(th.op));
    assert d[..|d|] == d;
  }

  lemma StepWriteData(sh: Shared, th: Thread, t: nat, c: Choice)
    requires SharedInv(sh) && ThreadInv(sh, th, t) && th.pc.WriteData?
    ensures Good(sh, StepThread(sh, th, t, c), t)
  {
    hide SharedInv, Good, StepOperation, StepSend, StepReport, HistoryOk, Flatten, Completed, AllClosed, CommandBytes,
      DataBytes, UsbComplete, RetryOf, ReturnCode, CodeResult, Transmit, Close, WellAttempt, Advanced;
    var cmd := CommandBytes(th.cmd, sh.transaction);
    var d := DataBytes(th.cmd, sh.transaction, PayloadOf(th.op));
    if c == IoError {
      WriteFails(sh, th, t);
    } else if c.Wrote? {
      var n := Min(c.n, |d| - th.sent);
      Transmitted(sh, th, t, n, cmd, d);
      DataGoesOn(sh, th, t, Transmit(sh, th, n), n);
    } else {
      Unchanged(sh, th, t);
    }
  }

  /** More bytes of the answer arrive. */
  lemma Received(sh: Shared, th: Thread, t: nat, data: seq<byte>, outcome: Outcome)
    requires SharedInv(sh) && ThreadInv(sh, th, t) && th.pc.Read?
    requires var buf := Overlay(sh.buf, th.read, data);
             outcome == Ok ==> UsbComplete(buf[..th.read + |data|])
    ensures var buf, read := Overlay(sh.buf, th.read, data), th.read + |data|;
            var b := Last(sh).(got := Last(sh).got + data, outcome := outcome);
            && read <= |buf| && Last(sh).got + data == buf[..read]
            && Advanced(sh, sh.(buf := buf, attempts := sh.attempts[th.att := b]), b)
  {
    hide HistoryOk, Flatten, Completed, AllClosed, CommandBytes, DataBytes, PacketsOf, UsbComplete, RetryOf,
      ReturnCode, CodeResult, Advanced, Overlay;
    var buf := Overlay(sh.buf, th.read, data);
    var b := Last(sh).(got := Last(sh).got + data, outcome := outcome);
    assert Tagged(th.att, []) == [];
    assert sh.wire + Tagged(th.att, []) == sh.wire && Last(sh).sent + [] == Last(sh).sent;
    Advance(sh, th, t, sh.(buf := buf, attempts := sh.attempts[th.att := b]), b, []);
  }

  lemma UpdateTwice(sh: Shared, th: Thread, buf: seq<byte>, b: Attempt, outcome: Outcome)
    requires th.att < |sh.attempts|
    ensures Close(sh.(buf := buf, attempts := sh.attempts[th.att := b]), th, outcome)
            == sh.(buf := buf, attempts := sh.attempts[th.att := b.(outcome := outcome)])
  {
    assert sh.attempts[th.att := b][th.att := b.(outcome := outcome)] == sh.attempts[th.att := b.(outcome := outcome)];
  }

  /** A reader whose attempt has gone on to b keeps the invariant: b is still under way, or the loop is left
      with the return code that b's outcome stands for. */
  lemma ReadGoesOn(sh: Shared, th: Thread, t: nat, sh1: Shared, th1: Thread, b: Attempt)
    requires SharedInv(sh) && ThreadInv(sh, th, t) && th.pc.Read? && Advanced(sh, sh1, b)
    requires b == Last(sh).(got := b.got, outcome := b.outcome) && th1.read <= |sh1.buf| && b.got == sh1.buf[..th1.read]
    requires th1 == th.(pc := th1.pc, read := th1.read, rc := th1.rc)
    requires if b.outcome == Open then th1.pc.Read?
             else
               && th1.pc.Tried? && th1.rc in {PTP_OK, PTP_IO_ERR, PTP_COMMAND_IGNORED}
               && (th1.rc == PTP_OK <==> b.outcome == Ok)
               && (th1.rc == PTP_COMMAND_IGNORED ==> b.outcome == Ignored)
               && (th1.rc == PTP_IO_ERR ==> b.outcome == Failed)
    ensures Good(sh, (sh1, th1), t)
  {
    hide HistoryOk, Flatten, Completed, AllClosed, CommandBytes, DataBytes, PacketsOf, RetryOf, ReturnCode,
      CodeResult, UsbComplete, WellAttempt;
  }

  lemma StepReadEmpty(sh: Shared, th: Thread, t: nat, c: Choice)
    requires SharedInv(sh) && ThreadInv(sh, th, t) && th.pc.Read? && (c == IoError || c == Got([]))
    ensures Good(sh, StepRead(sh, th, c), t)
  {
    hide SharedInv, HistoryOk, Flatten, Completed, AllClosed, CommandBytes, DataBytes, PacketsOf, RetryOf, ReturnCode,
      CodeResult, UsbComplete, Overlay, Judge, WellAttempt, Good, Advanced;
    if th.wait > 0 {
      Waits(sh, th, t);
    } else if c == IoError || th.tries > 0 {
      var outcome := if c == IoError then Failed else Ignored;
      WellOutcome(sh, th, t, outcome);
      Closed(sh, th, t, outcome);
      var r := StepRead(sh, th, c);
      ReadGoesOn(sh, th, t, r.0, r.1, Last(sh).(outcome := outcome));
    } else {
      Unchanged(sh, th, t);
    }
  }

  lemma Waits(sh: Shared, th: Thread, t: nat)
    requires SharedInv(sh) && ThreadInv(sh, th, t) && th.pc.Read? && th.wait > 0
    ensures Good(sh, (sh, th.(wait := th.wait - 1, tries := th.tries + 1)), t)
  {
    hide HistoryOk, Flatten, Completed, AllClosed, CommandBytes, DataBytes, PacketsOf, RetryOf, ReturnCode,
      CodeResult, UsbComplete, WellAttempt;
  }

  lemma WellOutcome(sh: Shared, th: Thread, t: nat, outcome: Outcome)
    requires SharedInv(sh) && ThreadInv(sh, th, t) && th.pc.Read? && (outcome == Failed || outcome == Ignored)
    ensures WellAttempt(Last(sh).(outcome := outcome))
  {
    hide PacketsOf, UsbComplete, Completed, AllClosed, RetryOf, Flatten;
  }

  lemma StepReadData(sh: Shared, th: Thread, t: nat, c: Choice)
    requires SharedInv(sh) && ThreadInv(sh, th, t) && th.pc.Read? && c.Got? && c.data != []
    ensures Good(sh, StepRead(sh, th, c), t)
  {
    hide SharedInv, Good, HistoryOk, Flatten, Completed, AllClosed, CommandBytes, DataBytes, PacketsOf, RetryOf,
      ReturnCode, CodeResult, UsbComplete, Overlay, Judge, WellAttempt, Close, Advanced;
    if th.read + |c.data| < INT_MAX_PLUS_1 {
      var buf, read := Overlay(sh.buf, th.read, c.data), th.read + |c.data|;
      Received(sh, th, t, c.data, Open);
      var b := Last(sh).(got := Last(sh).got + c.data);
      var outcome :=
        if th.wait == 0 && th.tries > 0 then Ignored
        else match Judge(buf[..read]) case More => Open case Done => Ok case Broken => Failed;
      if outcome == Ok {
        DoneIsComplete(buf[..read]);
      }
      Received(sh, th, t, c.data, outcome);
      UpdateTwice(sh, th, buf, b, outcome);
      var r := StepRead(sh, th, c);
      ReadGoesOn(sh, th, t, r.0, r.1, b.(outcome := outcome));
    } else {
      Unchanged(sh, th, t);
    }
  }

  // ---- any step of any thread ----

  lemma StepKeeps(sh: Shared, th: Thread, t: nat, c: Choice)
    requires SharedInv(sh) && ThreadInv(sh, th, t)
    ensures Good(sh, StepThread(sh, th, t, c), t)
  {
    hide SharedInv, ThreadInv, Good, StepWrite;
    match th.pc {
      case Idle =>
        if c.Start? {
          StepStarts(sh, th, t, c);
        } else {
          StepIdle(sh, th, t, c);
        }
      case OuterLock => StepOuterLock(sh, th, t, c);
      case Parse => StepParsed(sh, th, t, c);
      case OuterUnlock => StepParsed(sh, th, t, c);
      case Check => StepCheck(sh, th, t, c);
      case InnerLock => StepEnter(sh, th, t, c);
      case Recheck => StepEnter(sh, th, t, c);
      case Build => StepBuild(sh, th, t, c);
      case Write => StepWriteCommand(sh, th, t, c);
      case BuildData => StepBuildData(sh, th, t, c);
      case WriteData => StepWriteData(sh, th, t, c);
      case Read => StepReading(sh, th, t, c);
      case Tried => StepTried(sh, th, t, c);
      case KillLocked => StepKill(sh, th, t, c);
      case UnlockKilled => StepLeave(sh, th, t, c);
      case UnlockFailed => StepLetGo(sh, th, t, c);
      case KillUnlocked => StepKill(sh, th, t, c);
      case Bump => StepBump(sh, th, t, c);
      case CheckCode => StepCheckCode(sh, th, t, c);
      case Unlock => StepLeave(sh, th, t, c);
      case Returned =>
        if th.op.Report? {
          StepSessionClosed(sh, th, t, c);
        } else {
          StepSent(sh, th, t, c);
        }
      case RepEnter => StepReports(sh, th, t, c);
      case RepFlag => StepReports(sh, th, t, c);
      case RepLock => StepRepLock(sh, th, t, c);
      case RepCheck =>
        if sh.ioKill || ForError(th.op) {
          StepDecide(sh, th, t, c);
        } else {
          StepCloses(sh, th, t, c);
        }
      case RepSetOp => StepShutsDown(sh, th, t, c);
      case RepSetIo => StepShutsDown(sh, th, t, c);
      case RepUnlock => StepShutsDown(sh, th, t, c);
    }
  }

  lemma StepReading(sh: Shared, th: Thread, t: nat, c: Choice)
    requires SharedInv(sh) && ThreadInv(sh, th, t) && th.pc.Read?
    ensures Good(sh, StepThread(sh, th, t, c), t)
  {
    hide HistoryOk, Flatten, Phase, Overlay, Judge, Close, Settled;
    if c == IoError || c == Got([]) {
      StepReadEmpty(sh, th, t, c);
    } else if c.Got? {
      StepReadData(sh, th, t, c);
    }
  }

  /** A step of thread t takes nothing from what another thread relies on. */
  lemma OthersKeep(sh: Shared, sh1: Shared, t: nat, th: Thread, u: nat)
    requires Frame(sh, sh1, t) && ThreadInv(sh, th, u) && u != t
    ensures ThreadInv(sh1, th, u)
  {
    hide CommandBytes, DataBytes, PacketsOf, Completed, ReturnCode, CodeResult, AllClosed, UsbComplete;
  }

  lemma StepInv(s: State, t: nat, c: Choice)
    requires Inv(s)
    ensures Inv(Step(s, t, c))
  {
    hide SharedInv, ThreadInv, StepThread, Frame;
    if t < |s.threads| {
      var r := StepThread(s.sh, s.threads[t], t, c);
      StepKeeps(s.sh, s.threads[t], t, c);
      var threads := s.threads[t := r.1];
      forall u | 0 <= u < |threads| ensures ThreadInv(r.0, threads[u], u) {
        if u != t {
          OthersKeep(s.sh, r.0, t, s.threads[u], u);
        }
      }
      OwnerExists(s, r.0, t);
    }
  }

  lemma OwnerExists(s: State, sh1: Shared, t: nat)
    requires Inv(s) && Frame(s.sh, sh1, t) && t < |s.threads|
    ensures sh1.depth > 0 ==> sh1.owner < |s.threads|
  {
    hide SharedInv, ThreadInv;
  }

  lemma InitInv(n: nat, retries: nat, buf: seq<byte>)
    ensures Inv(Init(n, retries, buf))
  {
  }

  lemma {:induction false} RunInv(s: State, schedule: seq<(nat, Choice)>)
    requires Inv(s)
    ensures Inv(Run(s, schedule))
  {
    hide Inv, Step;
    if schedule != [] {
      var last := schedule[|schedule| - 1];
      RunInv(s, schedule[..|schedule| - 1]);
      StepInv(Run(s, schedule[..|schedule| - 1]), last.0, last.1);
    }
  }

  // ---- what this means ----

  lemma {:induction false} HistoryAt(hs: seq<Attempt>, i: nat)
    requires HistoryOk(hs) && i < |hs|
    ensures WellAttempt(hs[i]) && (i < |hs| - 1 ==> hs[i].outcome != Open && !Final(hs[i]))
    ensures hs[i].id == |Completed(hs[..i])|
    ensures hs[i].retry ==> i > 0 && RetryOf(hs[i - 1], hs[i])
  {
    hide WellAttempt, RetryOf, Final;
    if i < |hs| - 1 {
      var init := hs[..|hs| - 1];
      assert init[i] == hs[i] && init[..i] == hs[..i];
      HistoryAt(init, i);
    } else {
      assert hs[..i] == hs[..|hs| - 1];
    }
  }

  lemma {:induction false} CompletedInOrder(hs: seq<Attempt>)
    requires HistoryOk(hs)
    ensures forall k :: 0 <= k < |Completed(hs)| ==> Completed(hs)[k] == k
  {
    if hs != [] {
      CompletedInOrder(hs[..|hs| - 1]);
    }
  }

  lemma OpenIsOwned(s: State, i: nat)
    requires Inv(s) && i < |s.sh.attempts| && s.sh.attempts[i].outcome == Open
    ensures s.sh.depth > 0 && s.sh.owner == Last(s.sh).thread
  {
    hide HistoryOk, Flatten, Completed, CommandBytes, DataBytes, PacketsOf, ReturnCode, CodeResult;
    if s.sh.depth > 0 {
      assert ThreadInv(s.sh, s.threads[s.sh.owner], s.sh.owner);
      forall u: nat | u < |s.threads| && u != s.sh.owner
        ensures ThreadInv(s.sh, s.threads[u], u) && Held(s.threads[u]) == 0 {
      }
    }
  }

  /** Some interleaving of some number of threads leads to s. */
  ghost predicate Reachable(s: State) {
    exists n: nat, retries: nat, buf: seq<byte>, schedule: seq<(nat, Choice)> ::
      s == Run(Init(n, retries, buf), schedule)
  }

  lemma ReachableInv(s: State)
    requires Reachable(s)
    ensures Inv(s)
  {
    hide Inv, Run, Init;
    var n: nat, retries: nat, buf: seq<byte>, schedule: seq<(nat, Choice)> :| s == Run(Init(n, retries, buf), schedule);
    InitInv(n, retries, buf);
    RunInv(Init(n, retries, buf), schedule);
  }

  /** The wire is the concatenation of the attempts' bytes, so no two attempts are ever interleaved.  Each
      attempt sent a prefix of its command packet and data packet, and all of them if it was answered or
      ignored; an answer is complete.  Only the newest attempt may be under way, and then its thread owns
      the mutex.  A failed attempt may be cut short anywhere; it is the newest if it was a retry or nested. */
  lemma WireIsWholeAttempts(s: State)
    requires Reachable(s)
    ensures s.sh.wire == Flatten(s.sh.attempts)
    ensures forall i :: 0 <= i < |s.sh.attempts| ==>
              var a := s.sh.attempts[i];
              && a.sent <= Expected(a)
              && (a.outcome == Ok || a.outcome == Ignored ==> a.sent == Expected(a))
              && (a.outcome == Ok ==> UsbComplete(a.got))
              && (a.outcome == Open ==> i == |s.sh.attempts| - 1 && s.sh.depth > 0 && s.sh.owner == a.thread)
              && (a.outcome == Failed && (a.nested || a.retry) ==> i == |s.sh.attempts| - 1)
  {
    hide Reachable, HistoryOk, Completed, Flatten, PacketsOf, RetryOf, UsbComplete;
    ReachableInv(s);
    forall i | 0 <= i < |s.sh.attempts|
      ensures WellAttempt(s.sh.attempts[i]) && (Final(s.sh.attempts[i]) ==> i == |s.sh.attempts| - 1)
      ensures s.sh.attempts[i].outcome == Open ==>
                i == |s.sh.attempts| - 1 && s.sh.depth > 0 && s.sh.owner == s.sh.attempts[i].thread
    {
      HistoryAt(s.sh.attempts, i);
      if s.sh.attempts[i].outcome == Open {
        OpenIsOwned(s, i);
      }
    }
  }

  /** The recursive mutex is held exactly as often as each thread's position says: by no two threads at
      once, and by a thread between operations exactly as often as its caller had locked it before. */
  lemma LocksAreBalanced(s: State, t: nat)
    requires Reachable(s) && t < |s.threads|
    ensures (if s.sh.depth > 0 && s.sh.owner == t then s.sh.depth else 0) == Held(s.threads[t])
    ensures s.threads[t].pc.Idle? ==> Held(s.threads[t]) == s.threads[t].base
    ensures (forall u :: 0 <= u < |s.threads| ==> s.threads[u].pc.Idle? && s.threads[u].base == 0) ==> s.sh.depth == 0
  {
    hide Reachable, HistoryOk, Completed, Flatten, PacketsOf, RetryOf, Phase, Local, SharedInv;
    ReachableInv(s);
    assert ThreadInv(s.sh, s.threads[t], t);
    if s.sh.depth > 0 {
      assert ThreadInv(s.sh, s.threads[s.sh.owner], s.sh.owner);
    }
  }

  /** A thread about to parse the shared buffer, or returning from ptp_send with the mutex still held, finds in
      it the bytes received during its own, newest attempt, untouched by other threads; they are a complete
      answer, and its return code was taken from them.  Which command the device meant them to answer is
      another matter: see AnswerIds. */
  lemma ParsesWhatItReceived(s: State, t: nat)
    requires Reachable(s) && t < |s.threads|
    requires var th := s.threads[t]; th.pc.Parse? || (th.pc.Returned? && th.bumped && Held(th) > 0)
    ensures var sh, th := s.sh, s.threads[t];
            && sh.attempts != [] && var a := Last(sh);
            && a.thread == t && a.cmd == th.cmd && a.outcome == Ok
            && th.read <= |sh.buf| && a.got == sh.buf[..th.read] && UsbComplete(a.got)
            && PayloadAt(PTP_USB, sh.buf) == PayloadAt(PTP_USB, a.got)
            && PayloadLength(PTP_USB, sh.buf) == PayloadLength(PTP_USB, a.got)
            && (ReadU32(a.got, 0) >= 12 ==>
                 PacketAccess.Payload(PTP_USB, sh.buf) == PacketAccess.Payload(PTP_USB, a.got) != None)
            && ReturnCode(PTP_USB, a.got).Some? && th.rc == CodeResult(ReturnCode(PTP_USB, a.got).value)
  {
    hide Reachable, HistoryOk, Completed, Flatten, PacketsOf, RetryOf, PayloadAt, PayloadLength, PacketAccess.Payload,
      ReturnCode, CodeResult, ReadU32, TransactionId, ParamLength, AllClosed;
    ReachableInv(s);
    assert ThreadInv(s.sh, s.threads[t], t);
    AnswerCode(s.sh, s.threads[t]);
    assert Last(s.sh).got <= s.sh.buf;
    CompletePrefix(PTP_USB, Last(s.sh).got, s.sh.buf);
    if ReadU32(Last(s.sh).got, 0) >= 12 {
      CompletePayload(PTP_USB, Last(s.sh).got, s.sh.buf);
    }
  }

  /** The k-th transaction to be completed carries ID k.  A retry directly follows the ignored attempt of
      the same thread, puts the same bytes on the wire, and is never itself retried. */
  lemma TransactionNumbering(s: State)
    requires Reachable(s)
    ensures var ids := Completed(s.sh.attempts); forall k :: 0 <= k < |ids| ==> ids[k] == k
    ensures forall i :: 0 <= i < |s.sh.attempts| && s.sh.attempts[i].retry ==>
              && i > 0 && var a, p := s.sh.attempts[i], s.sh.attempts[i - 1];
              && Expected(p) == Expected(a) && p.thread == a.thread && p.outcome == Ignored && !p.retry
  {
    hide Reachable, HistoryOk, Completed, Flatten, PacketsOf, UsbComplete;
    ReachableInv(s);
    CompletedInOrder(s.sh.attempts);
    forall i | 0 <= i < |s.sh.attempts| && s.sh.attempts[i].retry
      ensures i > 0 && RetryOf(s.sh.attempts[i - 1], s.sh.attempts[i])
    {
      HistoryAt(s.sh.attempts, i);
    }
  }

  /** Between transactions the counter is the number completed; a ptp_send or ptp_send_data that returns
      without having moved it has left the operation kill switch set. */
  lemma CounterOrKilled(s: State, t: nat)
    requires Reachable(s) && t < |s.threads|
    ensures s.sh.depth == 0 ==> |Completed(s.sh.attempts)| == s.sh.transaction
    ensures s.threads[t].pc.Returned? && !s.threads[t].bumped ==> s.sh.opKill && s.threads[t].rc == PTP_IO_ERR
  {
    hide Reachable, HistoryOk, Completed, Flatten, PacketsOf, Phase;
    ReachableInv(s);
    assert ThreadInv(s.sh, s.threads[t], t);
  }

  /** The I/O kill switch implies the other one, and at most one ptp_report_error ever gets as far as
      closing the session. */
  lemma ShutdownOnce(s: State)
    requires Reachable(s)
    ensures s.sh.ioKill ==> s.sh.opKill
    ensures s.sh.closers <= 1
  {
    hide Reachable;
    ReachableInv(s);
  }
}
