/** The transaction engine of src/lib.c, src/error.c and src/operations.c as N threads run it: every
    unprotected look at a flag, every lock, every chunk written or read and every flag set is a step of
    its own, and the threads' steps interleave at will.  The I/O buffer and the transaction counter are
    shared and nothing but the code's own locking protects them. */
module Engine {
  import opened Bytes
  import opened Packets
  import opened PacketAccess
  import opened UsbReceive

  // ---- state ----

  datatype Outcome = Open | Ok | Ignored | Failed

  /** History: one execution of ptp_send_try or ptp_send_data_try, with every byte it put on the wire and
      every byte it took off it.  It is nested if its thread held the mutex before ptp_send took it again. */
  datatype Attempt = Attempt(thread: nat, cmd: Command, payload: Option<Payload>, id: nat, retry: bool, nested: bool,
                             sent: seq<byte>, got: seq<byte>, outcome: Outcome)

  datatype Op =
    | Plain(cmd: Command, payload: Option<Payload>) // ptp_send, or ptp_send_data without a resize
    | Query(cmd: Command)                           // lock; ptp_send; parse the payload; unlock
    | Download(handle: u32, max: u32)               // ptp_download_object
    | Report(code: int)                             // ptp_report_error

  datatype Pc =
    | Idle
    | OuterLock | Parse | OuterUnlock
    | Check | InnerLock | Recheck
    | Build | Write | BuildData | WriteData | Read | Tried
    | KillLocked | UnlockKilled | UnlockFailed | KillUnlocked
    | Bump | CheckCode | Unlock | Returned
    | RepEnter | RepFlag | RepLock | RepCheck | RepSetOp | RepSetIo | RepUnlock

  /** A thread's program counter and local variables.  base counts the locks its caller already holds; parsed
      is history: the answers that the download under way has parsed. */
  datatype Thread = Thread(base: nat, pc: Pc, op: Op, cmd: Command, off: u32, more: bool, retry: bool, att: nat,
                           sent: nat, read: nat, wait: nat, tries: nat, rc: int, bumped: bool,
                           parsed: seq<seq<byte>>)

  /** The fields of struct PtpRuntime that the threads share, the wire, and the history. */
  datatype Shared = Shared(owner: nat, depth: nat, opKill: bool, ioKill: bool, transaction: nat, retries: nat,
                           buf: seq<byte>, wire: seq<(nat, byte)>, attempts: seq<Attempt>, closers: nat)

  datatype State = State(sh: Shared, threads: seq<Thread>)

  /** What the environment decides: which operation begins, how many bytes a write moves, what arrives. */
  datatype Choice = Go | Start(op: Op) | UserLock | UserUnlock | Wrote(n: nat) | Got(data: seq<byte>) | IoError

  const OC_CLOSE_SESSION: u16 := 0x1003
  const OC_GET_PARTIAL_OBJECT: u16 := 0x101B
  const OC_NONE := Plain(Command(0, []), None)

  // ---- what an attempt is expected to put on the wire ----

  function PayloadOf(op: Op): Option<Payload> {
    if op.Plain? then op.payload else None
  }

  function CommandBytes(cmd: Command, id: nat): (s: seq<byte>)
    ensures |s| == 12 + 4 * |cmd.params|
  {
    UsbCommand(cmd, id % U32_MOD)
  }

  function DataBytes(cmd: Command, id: nat, payload: Option<Payload>): (s: seq<byte>)
    ensures payload.Some? ==> |s| == 12 + |payload.value|
    ensures payload.None? ==> s == []
  {
    if payload.Some? then UsbData(cmd.code, id % U32_MOD, payload.value) else []
  }

  function PacketsOf(cmd: Command, id: nat, payload: Option<Payload>): seq<byte> {
    CommandBytes(cmd, id) + DataBytes(cmd, id, payload)
  }

  function Expected(a: Attempt): seq<byte> {
    PacketsOf(a.cmd, a.id, a.payload)
  }

  // ---- steps ----

  /** The buffer after e has been stored at offset of; it grows when it has to. */
  function Overlay(buf: seq<byte>, of: nat, e: seq<byte>): (r: seq<byte>)
    ensures of <= |buf| ==> of + |e| <= |r| && r[..of + |e|] == buf[..of] + e
  {
    if |buf| < of then buf
    else buf[..of] + e + if of + |e| <= |buf| then buf[of + |e|..] else []
  }

  predicate CanLock(sh: Shared, t: nat) {
    sh.depth == 0 || sh.owner == t
  }

  function Lock(sh: Shared, t: nat): Shared {
    sh.(owner := t, depth := sh.depth + 1)
  }

  /** pthread_mutex_unlock fails, without effect, for a thread that is not the owner. */
  function Release(sh: Shared, t: nat): Shared {
    if sh.depth > 0 && sh.owner == t then sh.(depth := sh.depth - 1) else sh
  }

  function PartialObject(handle: u32, off: u32, max: u32): Command {
    Command(OC_GET_PARTIAL_OBJECT, [handle, off, max])
  }

  /** Bytes leave the buffer for the wire, and are put down to attempt th.att. */
  function Transmit(sh: Shared, th: Thread, n: nat): Shared {
    if th.att < |sh.attempts| && th.sent + n <= |sh.buf| then
      var chunk := sh.buf[th.sent..th.sent + n];
      var a := sh.attempts[th.att];
      sh.(wire := sh.wire + Tagged(th.att, chunk), attempts := sh.attempts[th.att := a.(sent := a.sent + chunk)])
    else sh
  }

  function Tagged(i: nat, s: seq<byte>): (r: seq<(nat, byte)>)
    ensures |r| == |s|
  {
    seq(|s|, k requires 0 <= k < |s| => (i, s[k]))
  }

  function Close(sh: Shared, th: Thread, outcome: Outcome): Shared {
    if th.att < |sh.attempts| then sh.(attempts := sh.attempts[th.att := sh.attempts[th.att].(outcome := outcome)])
    else sh
  }

  function StepWrite(sh: Shared, th: Thread, length: nat, next: Thread, c: Choice): (Shared, Thread) {
    match c
    case IoError => (Close(sh, th, Failed), th.(pc := Tried, rc := PTP_IO_ERR))
    case Wrote(k) =>
      var n := if th.sent <= length then Min(k, length - th.sent) else 0;
      var sent := th.sent + n;
      (Transmit(sh, th, n), if sent == length then next else th.(sent := sent))
    case _ => (sh, th)
  }

  function Receiving(sh: Shared, th: Thread): Thread {
    th.(pc := Read, read := 0, wait := sh.retries, tries := 0)
  }

  /** One round of ptpusb_read_all_packets, on the shared buffer. */
  function StepRead(sh: Shared, th: Thread, c: Choice): (Shared, Thread) {
    if c == IoError || c == Got([]) then
      if th.wait > 0 then (sh, th.(wait := th.wait - 1, tries := th.tries + 1))
      else if c == IoError then (Close(sh, th, Failed), th.(pc := Tried, rc := PTP_IO_ERR))
      else if th.tries > 0 then (Close(sh, th, Ignored), th.(pc := Tried, rc := PTP_COMMAND_IGNORED))
      else (sh, th)
    else if c.Got? && th.read + |c.data| < INT_MAX_PLUS_1 && th.read <= |sh.buf| && th.att < |sh.attempts| then
      var read := th.read + |c.data|;
      var a := sh.attempts[th.att];
      var sh1 := sh.(buf := Overlay(sh.buf, th.read, c.data),
        attempts := sh.attempts[th.att := a.(got := a.got + c.data)]);
      var th1 := th.(read := read);
      if th.wait == 0 && th.tries > 0 then (Close(sh1, th, Ignored), th1.(pc := Tried, rc := PTP_COMMAND_IGNORED))
      else
        match Judge(sh1.buf[..read])
        case More => (sh1, th1)
        case Done => (Close(sh1, th, Ok), th1.(pc := Tried, rc := PTP_OK))
        case Broken => (Close(sh1, th, Failed), th1.(pc := Tried, rc := PTP_IO_ERR))
    else (sh, th)
  }

  /** The payload length a download sees in the buffer. */
  function PartialLength(buf: seq<byte>): u32 {
    var n := PayloadLength(PTP_USB, buf);
    if n.Some? then n.value else 0
  }

  /** ptp_send and ptp_send_data, apart from their transfers. */
  function StepSend(sh: Shared, th: Thread, t: nat): (Shared, Thread) {
    match th.pc
    case Check =>
      if sh.opKill then (sh, th.(pc := Returned, rc := PTP_IO_ERR, bumped := false))
      else (sh, th.(pc := InnerLock, bumped := false))
    case InnerLock => if CanLock(sh, t) then (Lock(sh, t), th.(pc := Recheck)) else (sh, th)
    case Recheck => if sh.opKill then (sh, th.(pc := UnlockKilled)) else (sh, th.(pc := Build, retry := false))
    case Build =>
      (sh.(buf := Overlay(sh.buf, 0, CommandBytes(th.cmd, sh.transaction)),
           attempts := sh.attempts
             + [Attempt(t, th.cmd, PayloadOf(th.op), sh.transaction, th.retry, sh.depth > 1, [], [], Open)]),
       th.(pc := Write, att := |sh.attempts|, sent := 0))
    case BuildData =>
      (sh.(buf := Overlay(sh.buf, 0, DataBytes(th.cmd, sh.transaction, PayloadOf(th.op)))),
        th.(pc := WriteData, sent := 0))
    case Tried =>
      if th.rc == PTP_OK then (sh, th.(pc := Bump))
      else if th.retry then (sh, th.(pc := KillLocked))
      else if th.rc == PTP_COMMAND_IGNORED then (sh, th.(pc := Build, retry := true))
      else (sh, th.(pc := UnlockFailed))
    case KillLocked => (sh.(opKill := true), th.(pc := UnlockKilled))
    case UnlockKilled => (Release(sh, t), th.(pc := Returned, rc := PTP_IO_ERR))
    case UnlockFailed => (Release(sh, t), th.(pc := KillUnlocked))
    case KillUnlocked => (sh.(opKill := true), th.(pc := Returned, rc := PTP_IO_ERR))
    case Bump => (sh.(transaction := sh.transaction + 1), th.(pc := CheckCode, bumped := true))
    case CheckCode =>
      var code := ReturnCode(PTP_USB, sh.buf);
      (sh, th.(pc := Unlock, rc := if code.Some? then CodeResult(code.value) else PTP_IO_ERR))
    case Unlock => (Release(sh, t), th.(pc := Returned))
    case _ => (sh, th)
  }

  /** The operation around a send, and what a caller does between operations. */
  function StepOperation(sh: Shared, th: Thread, t: nat, c: Choice): (Shared, Thread) {
    match th.pc
    case Idle =>
      (match c
       case Start(op) =>
         (sh, th.(op := op, off := 0, more := false, parsed := [],
                  cmd := if op.Plain? || op.Query? then op.cmd else th.cmd,
                  pc := if op.Plain? then Check else if op.Report? then RepEnter else OuterLock))
       case UserLock => if CanLock(sh, t) then (Lock(sh, t), th.(base := th.base + 1)) else (sh, th)
       case UserUnlock => if th.base > 0 then (Release(sh, t), th.(base := th.base - 1)) else (Release(sh, t), th)
       case _ => (sh, th))
    case OuterLock =>
      if !CanLock(sh, t) then (sh, th)
      else (Lock(sh, t), th.(pc := Check, cmd := if th.op.Download?
        then PartialObject(th.op.handle, th.off, th.op.max) else th.cmd))
    case Returned =>
      if th.op.Plain? then (sh, th.(pc := Idle))
      else if th.op.Report? then (sh, th.(pc := RepSetOp))
      else (sh, th.(pc := if th.rc == PTP_OK then Parse else OuterUnlock, more := false))
    case Parse =>
      if th.op.Download? then
        var n := PartialLength(sh.buf);
        (sh, th.(pc := OuterUnlock, off := (th.off + n) % U32_MOD, more := n != 0 && n == th.op.max,
                 parsed := th.parsed + [sh.buf[..Min(th.read, |sh.buf|)]]))
      else (sh, th.(pc := OuterUnlock))
    case OuterUnlock => (Release(sh, t), th.(pc := if th.more then OuterLock else Idle))
    case _ => (sh, th)
  }

  /** ptp_report_error */
  function StepReport(sh: Shared, th: Thread, t: nat): (Shared, Thread) {
    match th.pc
    case RepEnter => (sh, th.(pc := if sh.ioKill then Idle else RepFlag))
    case RepFlag => (if th.op.Report? && th.op.code != 0 then sh.(opKill := true) else sh, th.(pc := RepLock))
    case RepLock => if CanLock(sh, t) then (Lock(sh, t), th.(pc := RepCheck)) else (sh, th)
    case RepCheck =>
      if sh.ioKill then (sh, th.(pc := RepUnlock))
      else if th.op.Report? && th.op.code == 0 then
        (sh.(closers := sh.closers + 1), th.(pc := Check, cmd := Command(OC_CLOSE_SESSION, [])))
      else (sh, th.(pc := RepSetOp))
    case RepSetOp => (sh.(opKill := true), th.(pc := RepSetIo))
    case RepSetIo => (sh.(ioKill := true), th.(pc := RepUnlock))
    case RepUnlock => (Release(sh, t), th.(pc := Idle))
    case _ => (sh, th)
  }

  function StepThread(sh: Shared, th: Thread, t: nat, c: Choice): (Shared, Thread) {
    match th.pc
    case Write =>
      StepWrite(sh, th, 12 + 4 * |th.cmd.params|,
                if PayloadOf(th.op).Some? then th.(pc := BuildData) else Receiving(sh, th), c)
    case WriteData =>
      StepWrite(sh, th, |DataBytes(th.cmd, sh.transaction, PayloadOf(th.op))|, Receiving(sh, th), c)
    case Read => StepRead(sh, th, c)
    case Idle => StepOperation(sh, th, t, c)
    case OuterLock => StepOperation(sh, th, t, c)
    case Returned => StepOperation(sh, th, t, c)
    case Parse => StepOperation(sh, th, t, c)
    case OuterUnlock => StepOperation(sh, th, t, c)
    case _ => if InReport(th.pc) then StepReport(sh, th, t) else StepSend(sh, th, t)
  }

  predicate InReport(pc: Pc) {
    pc.RepEnter? || pc.RepFlag? || pc.RepLock? || pc.RepCheck? || pc.RepSetOp? || pc.RepSetIo? || pc.RepUnlock?
  }

  function Step(s: State, t: nat, c: Choice): State {
    if t < |s.threads| then
      var (sh, th) := StepThread(s.sh, s.threads[t], t, c);
      State(sh, s.threads[t := th])
    else s
  }

  function Run(s: State, schedule: seq<(nat, Choice)>): State {
    if schedule == [] then s
    else
      var last := schedule[|schedule| - 1];
      Step(Run(s, schedule[..|schedule| - 1]), last.0, last.1)
  }

  /** A connected runtime, just before ptp_open_session sends its command. */
  function Init(n: nat, retries: nat, buf: seq<byte>): State {
    State(Shared(0, 0, false, false, 0, retries, buf, [], [], 0),
          seq(n, _ => Thread(0, Idle, OC_NONE, Command(0, []), 0, false, false, 0, 0, 0, 0, 0, 0, false, [])))
  }
}
