/** When nothing more will ever be written: which failures are final, and which leave a gap in which
    another thread still sends. */
module EngineSilence {
  import opened Bytes
  import opened Packets
  import opened PacketAccess
  import opened UsbReceive
  import opened Engine
  import opened EngineSafety

  // ---- when the wire falls silent ----

  /** The thread is inside an attempt, or about to repeat an ignored one. */
  predicate Attempting(th: Thread) {
    th.pc.Build? || th.pc.Write? || th.pc.BuildData? || th.pc.WriteData? || th.pc.Read?
    || (th.pc.Tried? && th.rc == PTP_COMMAND_IGNORED && !th.retry)
  }

  /** Operations are switched off and no thread is inside an attempt. */
  predicate Muted(s: State) {
    s.sh.opKill && forall t :: 0 <= t < |s.threads| ==> !Attempting(s.threads[t])
  }

  predicate SameWire(sh: Shared, sh1: Shared) {
    sh1.wire == sh.wire && sh1.attempts == sh.attempts && (sh.opKill ==> sh1.opKill)
  }

  /** Such a step writes nothing, and starts an attempt only past the test of an unset switch. */
  predicate Mute(sh: Shared, th: Thread, r: (Shared, Thread)) {
    SameWire(sh, r.0) && (Attempting(r.1) ==> th.pc.Recheck? && !sh.opKill)
  }

  lemma MutedSend(sh: Shared, th: Thread, t: nat)
    requires !Attempting(th)
    ensures Mute(sh, th, StepSend(sh, th, t))
  {
    hide CommandBytes, DataBytes, ReturnCode, Overlay, CodeResult;
  }

  lemma MutedOperation(sh: Shared, th: Thread, t: nat, c: Choice)
    requires !Attempting(th)
    ensures Mute(sh, th, StepOperation(sh, th, t, c))
  {
    hide PartialLength;
  }

  lemma MutedReport(sh: Shared, th: Thread, t: nat)
    requires !Attempting(th)
    ensures Mute(sh, th, StepReport(sh, th, t))
  {
  }

  /** Only attempts write, and none begins once operations are switched off. */
  lemma MutedThread(sh: Shared, th: Thread, t: nat, c: Choice)
    requires !Attempting(th)
    ensures Mute(sh, th, StepThread(sh, th, t, c))
  {
    hide Mute, StepSend, StepOperation, StepReport, StepRead, StepWrite;
    MutedSend(sh, th, t);
    MutedOperation(sh, th, t, c);
    MutedReport(sh, th, t);
  }

  lemma {:induction false} MutedRun(s: State, schedule: seq<(nat, Choice)>)
    requires Muted(s)
    ensures Muted(Run(s, schedule)) && SameWire(s.sh, Run(s, schedule).sh)
  {
    hide StepThread, Attempting;
    if schedule != [] {
      var n := |schedule| - 1;
      MutedRun(s, schedule[..n]);
      var s1, t, c := Run(s, schedule[..n]), schedule[n].0, schedule[n].1;
      if t < |s1.threads| {
        MutedThread(s1.sh, s1.threads[t], t, c);
      }
    }
  }

  /** With operations switched off and the mutex free nothing is ever written again, whatever the threads
      go on to do. */
  lemma SilentOnceIdle(s: State, schedule: seq<(nat, Choice)>)
    requires Reachable(s) && s.sh.opKill && s.sh.depth == 0
    ensures Run(s, schedule).sh.wire == s.sh.wire
  {
    hide Reachable, SharedInv, Phase, Local, Run;
    ReachableInv(s);
    forall t | 0 <= t < |s.threads| ensures !Attempting(s.threads[t]) {
      assert ThreadInv(s.sh, s.threads[t], t);
    }
    MutedRun(s, schedule);
  }

  /** Once the I/O kill switch is set nothing more is written, held mutex or not. */
  lemma SilentAfterKill(s: State, schedule: seq<(nat, Choice)>)
    requires Reachable(s) && s.sh.ioKill
    ensures Run(s, schedule).sh.wire == s.sh.wire
  {
    hide Reachable, Phase, Local, Run, HistoryOk, Flatten, Completed, AllClosed;
    ReachableInv(s);
    forall t | 0 <= t < |s.threads| ensures !Attempting(s.threads[t]) {
      assert ThreadInv(s.sh, s.threads[t], t);
    }
    MutedRun(s, schedule);
  }

  /** After a final attempt no thread is, or ever gets, inside another. */
  lemma SealedThread(sh: Shared, th: Thread, t: nat, c: Choice)
    requires SharedInv(sh) && ThreadInv(sh, th, t) && Sealed(sh)
    ensures SameWire(sh, StepThread(sh, th, t, c).0)
  {
    hide CommandBytes, DataBytes, ReturnCode, HistoryOk, Flatten, Completed, AllClosed, UsbComplete, CodeResult,
      PacketsOf, StepThread;
    if Attempting(th) {
      assert false;
    }
    MutedThread(sh, th, t, c);
  }

  lemma {:induction false} SealedRun(s: State, schedule: seq<(nat, Choice)>)
    requires Inv(s) && Sealed(s.sh)
    ensures SameWire(s.sh, Run(s, schedule).sh) && Sealed(Run(s, schedule).sh)
  {
    hide StepThread, SharedInv, ThreadInv;
    if schedule != [] {
      var n := |schedule| - 1;
      SealedRun(s, schedule[..n]);
      RunInv(s, schedule[..n]);
      var s1, t, c := Run(s, schedule[..n]), schedule[n].0, schedule[n].1;
      if t < |s1.threads| {
        SealedThread(s1.sh, s1.threads[t], t, c);
      }
    }
  }

  /** An attempt that failed as a retry, or with the mutex held around it, is the last on the wire. */
  lemma FinalMeansLast(s: State, i: nat, schedule: seq<(nat, Choice)>)
    requires Reachable(s) && i < |s.sh.attempts| && Final(s.sh.attempts[i])
    ensures i == |s.sh.attempts| - 1 && Run(s, schedule).sh.wire == s.sh.wire
  {
    hide Reachable, Run, Flatten, Completed, AllClosed, WellAttempt, RetryOf, Phase, Local, HistoryOk, Final;
    ReachableInv(s);
    HistoryAt(s.sh.attempts, i);
    SealedRun(s, schedule);
  }

  // ---- runs of one thread ----

  /** What one thread does while the others rest. */
  function Solo(sh: Shared, th: Thread, t: nat, cs: seq<Choice>): (Shared, Thread) {
    if cs == [] then (sh, th)
    else
      var r := Solo(sh, th, t, cs[..|cs| - 1]);
      StepThread(r.0, r.1, t, cs[|cs| - 1])
  }

  function By(t: nat, cs: seq<Choice>): (schedule: seq<(nat, Choice)>)
    ensures |schedule| == |cs|
  {
    seq(|cs|, i requires 0 <= i < |cs| => (t, cs[i]))
  }

  lemma {:induction false} SoloIsRun(s: State, t: nat, cs: seq<Choice>)
    requires t < |s.threads|
    ensures var r := Solo(s.sh, s.threads[t], t, cs);
            Run(s, By(t, cs)) == State(r.0, s.threads[t := r.1])
  {
    hide StepThread;
    if cs != [] {
      var n := |cs| - 1;
      SoloIsRun(s, t, cs[..n]);
      assert By(t, cs)[..n] == By(t, cs[..n]);
    }
  }

  lemma {:induction false} RunJoin(s: State, a: seq<(nat, Choice)>, b: seq<(nat, Choice)>)
    ensures Run(s, a + b) == Run(Run(s, a), b)
  {
    hide Step;
    if b == [] {
      assert a + b == a;
    } else {
      var n := |b| - 1;
      RunJoin(s, a, b[..n]);
      assert (a + b)[..|a + b| - 1] == a + b[..n];
    }
  }

  lemma SoloNext(sh: Shared, th: Thread, t: nat, cs: seq<Choice>, c: Choice)
    ensures var r := Solo(sh, th, t, cs); Solo(sh, th, t, cs + [c]) == StepThread(r.0, r.1, t, c)
  {
    hide StepThread;
    assert (cs + [c])[..|cs|] == cs;
  }

  /** A ptp_send that gets the mutex and writes n bytes of its command. */
  function Opening(cmd: Command, n: nat): seq<Choice> {
    [Start(Plain(cmd, None)), Go, Go, Go, Go] + [Wrote(n)]
  }

  lemma StepsToBuild(sh: Shared, th: Thread, t: nat, cmd: Command)
    requires th.pc.Idle? && sh.depth == 0 && !sh.opKill
    ensures var r1 := StepThread(sh, th, t, Start(Plain(cmd, None)));
            var r2 := StepThread(r1.0, r1.1, t, Go);
            var r3 := StepThread(r2.0, r2.1, t, Go);
            StepThread(r3.0, r3.1, t, Go)
            == (sh.(owner := t, depth := 1),
                th.(op := Plain(cmd, None), off := 0, more := false, parsed := [], cmd := cmd, bumped := false,
                  retry := false, pc := Build))
  {
    hide StepReport, StepRead, StepWrite, CommandBytes, DataBytes, Overlay, ReturnCode, PartialLength;
    var th1 := th.(op := Plain(cmd, None), off := 0, more := false, parsed := [], cmd := cmd, pc := Check);
    assert StepThread(sh, th, t, Start(Plain(cmd, None))) == (sh, th1);
    var th2 := th1.(bumped := false, pc := InnerLock);
    assert StepThread(sh, th1, t, Go) == (sh, th2);
    assert StepThread(sh, th2, t, Go) == (sh.(owner := t, depth := 1), th2.(pc := Recheck));
  }

  lemma StepBuilds(sh: Shared, th: Thread, t: nat)
    requires th.pc.Build?
    ensures StepThread(sh, th, t, Go)
            == (sh.(buf := Overlay(sh.buf, 0, CommandBytes(th.cmd, sh.transaction)),
                    attempts := sh.attempts
                                + [Attempt(t, th.cmd, PayloadOf(th.op), sh.transaction, th.retry, sh.depth > 1, [],
                                  [], Open)]),
                th.(pc := Write, att := |sh.attempts|, sent := 0))
  {
    hide StepReport, StepOperation, StepRead, StepWrite, CommandBytes, DataBytes, Overlay, ReturnCode;
  }

  lemma BeforeWrite(sh: Shared, th: Thread, t: nat, cmd: Command)
    requires th.pc.Idle? && sh.depth == 0 && !sh.opKill
    ensures var r := Solo(sh, th, t, [Start(Plain(cmd, None)), Go, Go, Go, Go]);
            && r.0 == sh.(owner := t, depth := 1, buf := Overlay(sh.buf, 0, CommandBytes(cmd, sh.transaction)),
                          attempts := sh.attempts + [Attempt(t, cmd, None, sh.transaction, false, false, [], [], Open)])
            && r.1 == th.(op := Plain(cmd, None), off := 0, more := false, parsed := [], cmd := cmd, bumped := false,
                          retry := false, pc := Write, att := |sh.attempts|, sent := 0)
  {
    hide CommandBytes, Overlay, StepThread, Solo;
    var start := Start(Plain(cmd, None));
    NoSteps(sh, th, t);
    SoloNext(sh, th, t, [], start);
    SoloNext(sh, th, t, [start], Go);
    SoloNext(sh, th, t, [start, Go], Go);
    SoloNext(sh, th, t, [start, Go, Go], Go);
    SoloNext(sh, th, t, [start, Go, Go, Go], Go);
    assert [] + [start] == [start] && [start] + [Go] == [start, Go] && [start, Go] + [Go] == [start, Go, Go];
    assert [start, Go, Go] + [Go] == [start, Go, Go, Go] && [start, Go, Go, Go] + [Go] == [start, Go, Go, Go, Go];
    StepsToBuild(sh, th, t, cmd);
    var r := Solo(sh, th, t, [start, Go, Go, Go]);
    StepBuilds(r.0, r.1, t);
  }

  lemma NoSteps(sh: Shared, th: Thread, t: nat)
    ensures Solo(sh, th, t, []) == (sh, th)
  {
  }

  /** Its bytes are on the wire, in a new attempt that is not nested. */
  lemma AfterOpening(sh: Shared, th: Thread, t: nat, cmd: Command, n: nat)
    requires th.pc.Idle? && sh.depth == 0 && !sh.opKill && n <= |CommandBytes(cmd, sh.transaction)|
    ensures var r := Solo(sh, th, t, Opening(cmd, n));
            var sent := CommandBytes(cmd, sh.transaction)[..n];
            && r.0.wire == sh.wire + Tagged(|sh.attempts|, sent)
            && r.0.attempts == sh.attempts + [Attempt(t, cmd, None, sh.transaction, false, false, sent, [], Open)]
            && r.0.depth == 1 && r.0.owner == t && !r.0.opKill && r.0.transaction == sh.transaction
            && r.1.att == |sh.attempts| && !r.1.retry && r.1.base == th.base && r.1.op == Plain(cmd, None)
            && r.1.pc == if n == |CommandBytes(cmd, sh.transaction)| then Read else Write
  {
    hide StepOperation, StepSend, StepReport, StepRead, Solo, CommandBytes, Overlay, Tagged;
    var start := [Start(Plain(cmd, None)), Go, Go, Go, Go];
    BeforeWrite(sh, th, t, cmd);
    SoloNext(sh, th, t, start, Wrote(n));
    FirstBytes(sh.buf, CommandBytes(cmd, sh.transaction), n);
    var sent := CommandBytes(cmd, sh.transaction)[..n];
    var made := Attempt(t, cmd, None, sh.transaction, false, false, [], [], Open);
    assert [] + sent == sent;
    assert (sh.attempts + [made])[|sh.attempts| := made.(sent := sent)] == sh.attempts + [made.(sent := sent)];
  }

  lemma FirstBytes(buf: seq<byte>, e: seq<byte>, n: nat)
    requires n <= |e|
    ensures |Overlay(buf, 0, e)| >= |e| && Overlay(buf, 0, e)[0..n] == e[..n]
  {
    var o := Overlay(buf, 0, e);
    assert o[..|e|] == e;
    SliceOfPrefix(o, e, 0, n);
  }

  // ---- which failures are final ----

  /** Thread t has just seen an attempt of its own fail. */
  predicate Fails(s: State, t: nat) {
    t < |s.threads| && s.threads[t].pc.Tried? && s.threads[t].rc == PTP_IO_ERR
  }

  lemma FailureShape(s: State, t: nat)
    requires Inv(s) && Fails(s, t)
    ensures s.sh.attempts != [] && Last(s.sh).outcome == Failed && Last(s.sh).thread == t
            && Last(s.sh).retry == s.threads[t].retry
    ensures s.sh.owner == t && s.sh.depth == Held(s.threads[t]) > 0 && (Last(s.sh).nested <==> s.sh.depth > 1)
    ensures forall u :: 0 <= u < |s.threads| && u != t ==> !Attempting(s.threads[u]) && Held(s.threads[u]) == 0
  {
    hide SharedInv, Local, AllClosed, Completed, CommandBytes, DataBytes, EngineSafety.Answer, Coded;
    assert ThreadInv(s.sh, s.threads[t], t);
    forall u | 0 <= u < |s.threads| && u != t ensures !Attempting(s.threads[u]) && Held(s.threads[u]) == 0 {
      assert ThreadInv(s.sh, s.threads[u], u);
    }
  }

  /** The schedule that uses the gap: t lets go of the mutex and is delayed, u sends cmd. */
  function Gap(t: nat, u: nat, cmd: Command): seq<(nat, Choice)> {
    By(t, [Go, Go]) + By(u, Opening(cmd, 12 + 4 * |cmd.params|))
  }

  /** A first attempt without a mutex around it: src/lib.c unlocks before it sets the kill switch. */
  lemma GapIsUsed(s: State, t: nat, u: nat, cmd: Command)
    requires Inv(s) && Fails(s, t) && u < |s.threads| && u != t && s.threads[u].pc.Idle?
    requires !s.sh.opKill && !Last(s.sh).nested && !Last(s.sh).retry
    ensures var sh1 := Run(s, Gap(t, u, cmd)).sh;
            var sent := CommandBytes(cmd, s.sh.transaction);
            && sh1.wire == s.sh.wire + Tagged(|s.sh.attempts|, sent)
            && sh1.attempts == s.sh.attempts + [Attempt(u, cmd, None, s.sh.transaction, false, false, sent, [], Open)]
  {
    hide Inv, Run, Solo, Held, CommandBytes;
    FailureShape(s, t);
    LetsGo(s.sh, s.threads[t], t);
    var sh1, th1 := Solo(s.sh, s.threads[t], t, [Go, Go]).0, Solo(s.sh, s.threads[t], t, [Go, Go]).1;
    var s1 := State(sh1, s.threads[t := th1]);
    SoloIsRun(s, t, [Go, Go]);
    var n := |CommandBytes(cmd, s.sh.transaction)|;
    AfterOpening(sh1, s1.threads[u], u, cmd, n);
    SoloIsRun(s1, u, Opening(cmd, n));
    RunJoin(s, By(t, [Go, Go]), By(u, Opening(cmd, n)));
    assert CommandBytes(cmd, s.sh.transaction)[..n] == CommandBytes(cmd, s.sh.transaction);
  }

  lemma LetsGo(sh: Shared, th: Thread, t: nat)
    requires th.pc.Tried? && th.rc == PTP_IO_ERR && !th.retry && sh.depth == 1 && sh.owner == t
    ensures Solo(sh, th, t, [Go, Go]).0 == sh.(depth := 0)
  {
    hide StepOperation, StepReport, StepRead, StepWrite, Solo, CommandBytes, DataBytes, Overlay, ReturnCode;
    NoSteps(sh, th, t);
    SoloNext(sh, th, t, [], Go);
    SoloNext(sh, th, t, [Go], Go);
    assert [] + [Go] == [Go] && [Go] + [Go] == [Go, Go];
  }

  /** A thread that can still get as far as writing: nothing on its way sets the kill switch. */
  predicate Ready(th: Thread) {
    th.pc.Idle? || th.pc.OuterLock? || th.pc.Check? || th.pc.InnerLock? || th.pc.Returned?
    || ((th.pc.RepEnter? || th.pc.RepFlag? || th.pc.RepLock?) && !ForError(th.op))
  }

  // A ready thread that is left alone writes.

  /** How many steps the thread is away from its first byte. */
  function Distance(pc: Pc): nat {
    match pc
    case Write => 0
    case Build => 1
    case Recheck => 2
    case InnerLock => 3
    case Check => 4
    case RepCheck => 5
    case RepLock => 6
    case RepFlag => 7
    case RepEnter => 8
    case OuterLock => 5
    case Idle => 5
    case Returned => 6
    case _ => 9
  }

  /** The thread is on its way to its next attempt, or at the first byte of it. */
  predicate Heading(sh: Shared, th: Thread, t: nat) {
    && !sh.opKill && !sh.ioKill && CanLock(sh, t) && Distance(th.pc) < 9
    && (th.pc.Returned? ==> th.op.Plain?)
    && (InReport(th.pc) ==> th.op.Report? && th.op.code == 0)
    && (th.pc.Write? ==> th.sent == 0 && th.att < |sh.attempts| && |sh.buf| >= 12)
  }

  function Onwards(pc: Pc): Choice {
    if pc.Idle? then Start(OC_NONE) else Go
  }

  lemma HeadingOperation(sh: Shared, th: Thread, t: nat)
    requires Heading(sh, th, t) && (th.pc.Idle? || th.pc.OuterLock? || th.pc.Returned?)
    ensures var r := StepThread(sh, th, t, Onwards(th.pc));
            r.0.wire == sh.wire && Heading(r.0, r.1, t) && Distance(r.1.pc) < Distance(th.pc)
  {
    hide StepSend, StepReport, StepRead, StepWrite, PartialLength;
  }

  lemma HeadingReport(sh: Shared, th: Thread, t: nat)
    requires Heading(sh, th, t) && InReport(th.pc)
    ensures var r := StepThread(sh, th, t, Onwards(th.pc));
            r.0.wire == sh.wire && Heading(r.0, r.1, t) && Distance(r.1.pc) < Distance(th.pc)
  {
    hide StepSend, StepOperation, StepRead, StepWrite;
  }

  lemma HeadingSend(sh: Shared, th: Thread, t: nat)
    requires Heading(sh, th, t) && (th.pc.Check? || th.pc.InnerLock? || th.pc.Recheck?)
    ensures var r := StepThread(sh, th, t, Onwards(th.pc));
            r.0.wire == sh.wire && Heading(r.0, r.1, t) && Distance(r.1.pc) < Distance(th.pc)
  {
    hide StepReport, StepOperation, StepRead, StepWrite, CommandBytes, DataBytes, Overlay, ReturnCode, CodeResult;
  }

  lemma HeadingBuild(sh: Shared, th: Thread, t: nat)
    requires Heading(sh, th, t) && th.pc.Build?
    ensures var r := StepThread(sh, th, t, Onwards(th.pc));
            r.0.wire == sh.wire && Heading(r.0, r.1, t) && Distance(r.1.pc) < Distance(th.pc)
  {
    hide StepThread, CommandBytes, Overlay;
    StepBuilds(sh, th, t);
    FirstBytes(sh.buf, CommandBytes(th.cmd, sh.transaction), 0);
  }

  lemma FirstByteOut(sh: Shared, th: Thread, t: nat)
    requires Heading(sh, th, t) && th.pc.Write?
    ensures StepThread(sh, th, t, Wrote(1)).0.wire != sh.wire
  {
    hide StepOperation, StepReport, StepRead, StepSend, CommandBytes, DataBytes, Tagged;
    assert |StepThread(sh, th, t, Wrote(1)).0.wire| == |sh.wire| + 1;
  }

  lemma {:induction false} WritesSoon(sh: Shared, th: Thread, t: nat, cs: seq<Choice>) returns (ds: seq<Choice>)
    requires var r := Solo(sh, th, t, cs); Heading(r.0, r.1, t) && r.0.wire == sh.wire
    ensures Solo(sh, th, t, ds).0.wire != sh.wire
    decreases Distance(Solo(sh, th, t, cs).1.pc)
  {
    hide Solo, StepThread;
    var r := Solo(sh, th, t, cs);
    var c := if r.1.pc.Write? then Wrote(1) else Onwards(r.1.pc);
    SoloNext(sh, th, t, cs, c);
    ds := cs + [c];
    if r.1.pc.Write? {
      FirstByteOut(r.0, r.1, t);
    } else {
      if InReport(r.1.pc) {
        HeadingReport(r.0, r.1, t);
      } else if r.1.pc.Build? {
        HeadingBuild(r.0, r.1, t);
      } else if r.1.pc.Check? || r.1.pc.InnerLock? || r.1.pc.Recheck? {
        HeadingSend(r.0, r.1, t);
      } else {
        HeadingOperation(r.0, r.1, t);
      }
      ds := WritesSoon(sh, th, t, ds);
    }
  }

  /** A first attempt without a mutex around it fails, and another thread is ready: that thread can write in
      the gap between the unlocking and the kill switch. */
  lemma ReadyWrites(s: State, t: nat, u: nat) returns (schedule: seq<(nat, Choice)>)
    requires Inv(s) && Fails(s, t) && u < |s.threads| && u != t && Ready(s.threads[u])
    requires !s.sh.opKill && !Last(s.sh).nested && !Last(s.sh).retry
    ensures Run(s, schedule).sh.wire != s.sh.wire
  {
    hide Inv, Run, Solo, Held, Ready, Heading;
    FailureShape(s, t);
    LetsGo(s.sh, s.threads[t], t);
    var r := Solo(s.sh, s.threads[t], t, [Go, Go]);
    var s1 := State(r.0, s.threads[t := r.1]);
    SoloIsRun(s, t, [Go, Go]);
    ReadyIsHeading(s, r.0, u);
    NoSteps(r.0, s1.threads[u], u);
    var ds := WritesSoon(r.0, s1.threads[u], u, []);
    SoloIsRun(s1, u, ds);
    schedule := By(t, [Go, Go]) + By(u, ds);
    RunJoin(s, By(t, [Go, Go]), By(u, ds));
  }

  lemma ReadyIsHeading(s: State, sh1: Shared, u: nat)
    requires Inv(s) && u < |s.threads| && Ready(s.threads[u]) && Held(s.threads[u]) == 0 && !s.sh.opKill
    requires sh1 == s.sh.(depth := 0)
    ensures Heading(sh1, s.threads[u], u)
  {
    hide Flatten, HistoryOk, Settled, Sealed, Phase;
    assert ThreadInv(s.sh, s.threads[u], u);
  }

  // Threads that are not ready only set the switch.

  /** Nothing lies between the thread and its setting operation_kill_switch. */
  predicate Doomed(th: Thread) {
    th.pc.UnlockFailed? || th.pc.KillUnlocked? || (th.pc.Tried? && th.rc == PTP_IO_ERR && !th.retry)
    || ((th.pc.RepEnter? || th.pc.RepFlag?) && ForError(th.op))
  }

  lemma DoomedStep(sh: Shared, th: Thread, t: nat, c: Choice)
    requires Doomed(th) && !sh.ioKill
    ensures var r := StepThread(sh, th, t, c);
            && SameWire(sh, r.0) && !r.0.ioKill && !Attempting(r.1) && (r.0.opKill || Doomed(r.1))
  {
    hide StepOperation, StepRead, StepWrite, CommandBytes, DataBytes, Overlay, ReturnCode, CodeResult;
  }

  predicate AllDoomed(s: State) {
    !s.sh.ioKill && forall t :: 0 <= t < |s.threads| ==> Doomed(s.threads[t])
  }

  lemma {:induction false} DoomedRun(s: State, schedule: seq<(nat, Choice)>)
    requires AllDoomed(s)
    ensures Run(s, schedule).sh.wire == s.sh.wire
    ensures Muted(Run(s, schedule)) || AllDoomed(Run(s, schedule))
  {
    hide StepThread, Attempting, Doomed;
    if schedule != [] {
      var n := |schedule| - 1;
      DoomedRun(s, schedule[..n]);
      var s1, t, c := Run(s, schedule[..n]), schedule[n].0, schedule[n].1;
      if Muted(s1) {
        MutedRun(s1, [schedule[n]]);
        assert Run(s1, [schedule[n]]) == Step(Run(s1, []), t, c);
      } else if t < |s1.threads| {
        DoomedStep(s1.sh, s1.threads[t], t, c);
        forall u | 0 <= u < |s1.threads| ensures !Attempting(s1.threads[u]) {
          DoomedRests(s1.threads[u]);
        }
      }
    }
  }

  lemma DoomedRests(th: Thread)
    requires Doomed(th)
    ensures !Attempting(th)
  {
  }

  lemma RestIsDoomed(sh: Shared, th: Thread, t: nat)
    requires ThreadInv(sh, th, t) && Held(th) == 0 && !sh.opKill
    ensures Ready(th) || Doomed(th)
  {
    hide Phase, Settled, Sealed, Flatten, HistoryOk;
  }

  lemma AllOthersDoomed(s: State, t: nat)
    requires Inv(s) && Fails(s, t) && !s.sh.opKill && !Last(s.sh).retry
    requires forall u :: 0 <= u < |s.threads| && u != t ==> !Ready(s.threads[u])
    ensures AllDoomed(s)
  {
    hide Ready, Held, Phase, Local, Flatten, HistoryOk, Settled, Sealed, ThreadInv;
    FailureShape(s, t);
    forall u | 0 <= u < |s.threads| ensures Doomed(s.threads[u]) {
      if u != t {
        RestIsDoomed(s.sh, s.threads[u], u);
      }
    }
  }

  /** A failure is final - nothing is ever written after it, whatever happens - exactly when operations were
      switched off already, or the attempt was a retry, or its thread holds the mutex around ptp_send, or no
      other thread is ready to begin. */
  lemma FailureIsFinal(s: State, t: nat)
    requires Reachable(s) && Fails(s, t)
    ensures s.sh.attempts != []
    ensures (forall schedule :: Run(s, schedule).sh.wire == s.sh.wire) <==>
            (s.sh.opKill || Last(s.sh).nested || Last(s.sh).retry
             || forall u :: 0 <= u < |s.threads| && u != t ==> !Ready(s.threads[u]))
  {
    hide Reachable, Inv, Run, Held, Ready, Muted, AllDoomed;
    ReachableInv(s);
    FailureShape(s, t);
    if s.sh.opKill {
      MutedAtFailure(s, t);
      forall schedule ensures Run(s, schedule).sh.wire == s.sh.wire {
        MutedRun(s, schedule);
      }
    } else if Last(s.sh).nested || Last(s.sh).retry {
      forall schedule ensures Run(s, schedule).sh.wire == s.sh.wire {
        SealedRun(s, schedule);
      }
    } else if u :| 0 <= u < |s.threads| && u != t && Ready(s.threads[u]) {
      var schedule := ReadyWrites(s, t, u);
    } else {
      AllOthersDoomed(s, t);
      forall schedule ensures Run(s, schedule).sh.wire == s.sh.wire {
        DoomedRun(s, schedule);
      }
    }
  }

  lemma MutedAtFailure(s: State, t: nat)
    requires Inv(s) && Fails(s, t) && s.sh.opKill
    ensures Muted(s)
  {
    hide Inv;
    FailureShape(s, t);
  }

  /** One thread fails five bytes into its command, lets go of the mutex and is delayed; another sends. */
  function CutShort(first: Command, second: Command): seq<(nat, Choice)> {
    By(0, Opening(first, 5)) + [(0, IoError)] + Gap(0, 1, second)
  }

  /** So the wire can hold a part of one command with another right behind it. */
  lemma CutShortOnTheWire(retries: nat, buf: seq<byte>, first: Command, second: Command)
    ensures var s := Run(Init(2, retries, buf), CutShort(first, second));
            && Reachable(s) && |s.sh.attempts| == 2
            && s.sh.attempts[0].outcome == Failed && s.sh.attempts[0].thread == 0
            && s.sh.attempts[0].sent == CommandBytes(first, 0)[..5]
            && s.sh.attempts[1].thread == 1 && s.sh.attempts[1].sent == CommandBytes(second, 0)
            && s.sh.wire == Tagged(0, CommandBytes(first, 0)[..5]) + Tagged(1, CommandBytes(second, 0))
  {
    hide Run, Solo, Inv, CommandBytes, Tagged, Reachable;
    var s0 := Init(2, retries, buf);
    var th0 := s0.threads[0];
    var opening := Opening(first, 5);
    AfterOpening(s0.sh, th0, 0, first, 5);
    SoloIsRun(s0, 0, opening);
    var s1 := Run(s0, By(0, opening));
    var s2 := Run(s0, By(0, opening) + [(0, IoError)]);
    OneMore(s0, By(0, opening), 0, IoError);
    WriteError(s1.sh, s1.threads[0], 0);
    ReachableRun(2, retries, buf, By(0, opening) + [(0, IoError)]);
    ReachableInv(s2);
    GapIsUsed(s2, 0, 1, second);
    RunJoin(s0, By(0, opening) + [(0, IoError)], Gap(0, 1, second));
    ReachableRun(2, retries, buf, CutShort(first, second));
    assert s0.sh.wire + Tagged(0, CommandBytes(first, 0)[..5]) == Tagged(0, CommandBytes(first, 0)[..5]);
  }

  lemma OneMore(s: State, schedule: seq<(nat, Choice)>, t: nat, c: Choice)
    ensures Run(s, schedule + [(t, c)]) == Step(Run(s, schedule), t, c)
  {
    hide Step;
    assert (schedule + [(t, c)])[..|schedule|] == schedule;
  }

  lemma WriteError(sh: Shared, th: Thread, t: nat)
    requires th.pc.Write?
    ensures StepThread(sh, th, t, IoError) == (Close(sh, th, Failed), th.(pc := Tried, rc := PTP_IO_ERR))
  {
    hide StepOperation, StepReport, StepRead, StepSend, CommandBytes, DataBytes;
  }

  lemma ReachableRun(n: nat, retries: nat, buf: seq<byte>, schedule: seq<(nat, Choice)>)
    ensures Reachable(Run(Init(n, retries, buf), schedule))
  {
  }
}
