/** Sending packets through arbitrary writes, and a whole transaction: the specification of ptp_send_packet
    (src/transport.c) and of the attempts that ptp_send and ptp_send_data make (src/lib.c). */
module UsbSend {
  import opened Bytes
  import opened Packets
  import opened PacketAccess
  import opened UsbReceive

  /** The write loop has put `sent` of n bytes on the wire in k calls, none of which failed. */
  ghost predicate Sending(n: nat, sched: Schedule, max: nat, c: nat, k: nat, sent: nat) {
    && sent == Moved(n, sched, max, c, k)
    && (k > 0 ==> sent < n)
    && forall t: nat :: c <= t < c + k ==> Ask(sched, t) >= 0
  }

  lemma SendingStart(n: nat, sched: Schedule, max: nat, c: nat)
    ensures Sending(n, sched, max, c, 0, 0)
  {
  }

  /** One more call, offered `offer` bytes, either keeps the loop going, completes the packet, or shows
      that no number of calls ever will. */
  lemma SendingNext(n: nat, sched: Schedule, max: nat, c: nat, k: nat, sent: nat, offer: nat, rc: int)
    requires Sending(n, sched, max, c, k, sent) && offer == Min(max, n - sent)
    requires rc == Granted(Ask(sched, c + k), offer, offer)
    ensures rc < 0 ==> forall j: nat :: !SendsIn(n, sched, max, c, j)
    ensures rc >= 0 && sent + rc == n ==> SendsIn(n, sched, max, c, k + 1)
    ensures rc >= 0 && sent + rc != n ==> sent + rc < n && Sending(n, sched, max, c, k + 1, sent + rc)
  {
    assert rc >= 0 ==> Moved(n, sched, max, c, k + 1) == sent + rc;
    if rc < 0 {
      forall j: nat ensures !SendsIn(n, sched, max, c, j) {
        if 0 < j <= k {
          MovedGrows(n, sched, max, c, j, k);
        }
      }
    }
  }

  /** k calls move all n bytes and none of them fails. */
  ghost predicate SendsIn(n: nat, sched: Schedule, max: nat, c: nat, k: nat) {
    && k > 0 && Moved(n, sched, max, c, k) == n
    && forall t: nat :: c <= t < c + k ==> Ask(sched, t) >= 0
  }

  // ---- when the write loop ends ----

  /** e calls complete the packet, or the next one fails; otherwise the source goes on for ever. */
  ghost predicate WriteEnds(n: nat, sched: Schedule, max: nat, c: nat, e: nat) {
    SendsIn(n, sched, max, c, e) || Ask(sched, c + e) < 0
  }

  ghost predicate WriteStops(n: nat, sched: Schedule, max: nat, c: nat) {
    exists e :: WriteEnds(n, sched, max, c, e)
  }

  /** From time `from` on, no packet of n bytes keeps the write loop going for ever. */
  ghost predicate WritesEnd(n: nat, sched: Schedule, max: nat, from: nat) {
    forall c: nat :: c >= from ==> WriteStops(n, sched, max, c)
  }

  /** As long as the loop goes on, its end is ahead. */
  lemma EndIsAhead(n: nat, sched: Schedule, max: nat, c: nat, k: nat, sent: nat, e: nat)
    requires Sending(n, sched, max, c, k, sent) && WriteEnds(n, sched, max, c, e)
    ensures k <= e
  {
    if e < k && SendsIn(n, sched, max, c, e) {
      MovedGrows(n, sched, max, c, e, k);
    }
  }

  lemma {:induction false} BusyMoves(n: nat, sched: Schedule, max: nat, c: nat, h: nat, j: nat)
    requires max > 0 && forall t: nat :: c + h <= t < c + h + j ==> Ask(sched, t) > 0
    ensures Moved(n, sched, max, c, h + j) >= Min(n, j)
  {
    if j > 0 {
      BusyMoves(n, sched, max, c, h, j - 1);
    }
  }

  /** It is enough that the backend does not go on returning 0 for ever; it may succeed or fail for ever. */
  lemma BusyEnds(n: nat, sched: Schedule, max: nat, horizon: nat)
    requires max > 0 && forall t: nat :: t >= horizon ==> Ask(sched, t) != 0
    ensures WritesEnd(n, sched, max, 0)
  {
    hide Moved, Ask;
    forall c: nat ensures WriteStops(n, sched, max, c) {
      if t: nat :| t >= c && Ask(sched, t) < 0 {
        assert WriteEnds(n, sched, max, c, t - c);
      } else {
        var h := if c < horizon then horizon - c else 0;
        BusyMoves(n, sched, max, c, h, n + 1);
        assert SendsIn(n, sched, max, c, h + (n + 1));
        assert WriteEnds(n, sched, max, c, h + (n + 1));
      }
    }
  }

  // ---- attempts ----

  /** The packets of an attempt all end the write loop. */
  ghost predicate AttemptEnds(ns: seq<nat>, sched: Schedule, max: nat, from: nat) {
    forall i :: 0 <= i < |ns| ==> WritesEnd(ns[i], sched, max, from)
  }

  lemma WritesEndNow(n: nat, sched: Schedule, max: nat, from: nat, c: nat) returns (e: nat)
    requires WritesEnd(n, sched, max, from) && c >= from
    ensures WriteEnds(n, sched, max, c, e)
  {
    hide WriteEnds;
    assert WriteStops(n, sched, max, c);
    e :| WriteEnds(n, sched, max, c, e);
  }

  lemma AttemptEndsAt(ns: seq<nat>, sched: Schedule, max: nat, from: nat, i: nat, later: nat)
    requires AttemptEnds(ns, sched, max, from) && i < |ns| && later >= from
    ensures WritesEnd(ns[i], sched, max, later)
  {
    hide WriteStops;
  }

  lemma AttemptEndsLater(ns: seq<nat>, sched: Schedule, max: nat, from: nat, later: nat)
    requires AttemptEnds(ns, sched, max, from) && later >= from
    ensures AttemptEnds(ns, sched, max, later)
  {
    hide WriteStops;
  }

  /** The k-th call is the one that completes the n bytes. */
  ghost predicate SentBy(n: nat, sched: Schedule, max: nat, c: nat, k: nat) {
    SendsIn(n, sched, max, c, k) && (k == 1 || Moved(n, sched, max, c, k - 1) < n)
  }

  /** The write loop stops with the first call that completes the packet. */
  lemma SendingEnds(n: nat, sched: Schedule, max: nat, c: nat, k: nat, sent: nat)
    requires Sending(n, sched, max, c, k, sent)
    ensures SendsIn(n, sched, max, c, k + 1) ==> SentBy(n, sched, max, c, k + 1)
  {
  }

  lemma SentOnce(n: nat, sched: Schedule, max: nat, c: nat, j: nat, k: nat)
    requires SentBy(n, sched, max, c, j) && SentBy(n, sched, max, c, k)
    ensures j == k
  {
    if j < k {
      MovedGrows(n, sched, max, c, j, k - 1);
    } else if k < j {
      MovedGrows(n, sched, max, c, k, j - 1);
    }
  }

  /** What an attempt returns, how much of the device's stream it takes, and when it is over. */
  datatype TryOutcome = TryOutcome(rc: int, used: nat, clock: nat)

  /** ptp_send_try and ptp_send_data_try: packets of the lengths ns go out, then the answer to them comes in. */
  ghost function TryRun(ns: seq<nat>, s: seq<byte>, sched: Schedule, max: nat, retries: nat, c: nat): (o: TryOutcome)
    requires |s| < INT_MAX_PLUS_1 && retries >= 1
  {
    if ns == [] then
      var out := UsbReceived(s, sched, max, retries, c);
      TryOutcome(out.rc, out.read, out.clock)
    else if exists k :: SentBy(ns[0], sched, max, c, k) then
      var k :| SentBy(ns[0], sched, max, c, k);
      TryRun(ns[1..], s, sched, max, retries, c + k)
    else TryOutcome(PTP_IO_ERR, 0, c)
  }

  lemma TrySends(ns: seq<nat>, s: seq<byte>, sched: Schedule, max: nat, retries: nat, c: nat, k: nat)
    requires |s| < INT_MAX_PLUS_1 && retries >= 1 && ns != [] && SentBy(ns[0], sched, max, c, k)
    ensures TryRun(ns, s, sched, max, retries, c) == TryRun(ns[1..], s, sched, max, retries, c + k)
  {
    hide SentBy, UsbReceived;
    var j :| SentBy(ns[0], sched, max, c, j)
      && TryRun(ns, s, sched, max, retries, c) == TryRun(ns[1..], s, sched, max, retries, c + j);
    SentOnce(ns[0], sched, max, c, j, k);
  }

  /** What one call of ptp_send_packet, which ended at time `now`, means for the attempt it is part of. */
  lemma AttemptGoesOn(ns: seq<nat>, s: seq<byte>, sched: Schedule, max: nat, retries: nat, c: nat, now: nat, sent: bool)
    requires |s| < INT_MAX_PLUS_1 && retries >= 1 && ns != [] && now > c
    requires if sent then SentBy(ns[0], sched, max, c, now - c) else forall k :: !SendsIn(ns[0], sched, max, c, k)
    ensures !sent ==> TryRun(ns, s, sched, max, retries, c).rc == PTP_IO_ERR
    ensures sent && |ns| > 1 ==> TryRun(ns, s, sched, max, retries, c) == TryRun(ns[1..], s, sched, max, retries, now)
    ensures sent && |ns| == 1 ==>
              var out := UsbReceived(s, sched, max, retries, now);
              TryRun(ns, s, sched, max, retries, c) == TryOutcome(out.rc, out.read, out.clock)
  {
    hide SendsIn, UsbReceived;
    if sent {
      TrySends(ns, s, sched, max, retries, c, now - c);
    } else {
      TryCannotSend(ns, s, sched, max, retries, c);
    }
  }

  lemma TryCannotSend(ns: seq<nat>, s: seq<byte>, sched: Schedule, max: nat, retries: nat, c: nat)
    requires |s| < INT_MAX_PLUS_1 && retries >= 1 && ns != [] && forall k :: !SentBy(ns[0], sched, max, c, k)
    ensures TryRun(ns, s, sched, max, retries, c).rc == PTP_IO_ERR
  {
  }

  lemma {:induction false} TryUsed(ns: seq<nat>, s: seq<byte>, sched: Schedule, max: nat, retries: nat, c: nat)
    requires |s| < INT_MAX_PLUS_1 && retries >= 1
    ensures var o := TryRun(ns, s, sched, max, retries, c);
            o.used <= |s| && o.rc in {PTP_OK, PTP_IO_ERR, PTP_COMMAND_IGNORED}
  {
    hide SentBy, UsbReceived, Misses;
    if ns == [] {
      UsbSound(s, sched, max, retries, c);
    } else if exists k :: SentBy(ns[0], sched, max, c, k) {
      var k :| SentBy(ns[0], sched, max, c, k);
      TrySends(ns, s, sched, max, retries, c, k);
      TryUsed(ns[1..], s, sched, max, retries, c + k);
    }
  }

  /** An attempt succeeds exactly when its packets are accepted and the receive loop then succeeds. */
  lemma TrySucceeds(n: nat, s: seq<byte>, sched: Schedule, max: nat, retries: nat, c: nat)
    requires |s| < INT_MAX_PLUS_1 && retries >= 1
    ensures TryRun([n], s, sched, max, retries, c).rc == PTP_OK
            <==> exists k :: SentBy(n, sched, max, c, k) && UsbReceived(s, sched, max, retries, c + k).rc == PTP_OK
  {
    hide SentBy, UsbReceived;
    if exists k :: SentBy(n, sched, max, c, k) {
      var k :| SentBy(n, sched, max, c, k);
      TrySends([n], s, sched, max, retries, c, k);
      assert [n][1..] == [];
      forall j | SentBy(n, sched, max, c, j) ensures j == k {
        SentOnce(n, sched, max, c, j, k);
      }
    }
  }

  /** An attempt that succeeds against nothing but a well-formed answer takes all of it. */
  lemma {:induction false} TakesTheAnswer(ns: seq<nat>, s: seq<byte>, sched: Schedule, max: nat, retries: nat, c: nat)
    requires WellFormed(s) && retries >= 1 && TryRun(ns, s, sched, max, retries, c).rc == 0
    ensures TryRun(ns, s, sched, max, retries, c).used == |s|
  {
    hide SentBy, UsbReceived, WellFormed, Drains;
    WellFormedIsShort(s);
    if ns == [] {
      UsbChunking(s, sched, max, retries, c);
    } else if exists k :: SentBy(ns[0], sched, max, c, k) {
      var k :| SentBy(ns[0], sched, max, c, k);
      TrySends(ns, s, sched, max, retries, c, k);
      TakesTheAnswer(ns[1..], s, sched, max, retries, c + k);
    }
  }

  /** The code it then finds is the one the device put into its response. */
  lemma FindsTheCode(ns: seq<nat>, r: Response, op: u16, conn: Conn, sched: Schedule, max: nat, retries: nat, c: nat)
    requires conn != PTP_IP && retries >= 1
    ensures |UsbStream(r, op)| < INT_MAX_PLUS_1
    ensures var o := TryRun(ns, UsbStream(r, op), sched, max, retries, c);
            o.rc == 0 ==>
              o.used == |UsbStream(r, op)| && ReturnCode(conn, UsbStream(r, op)[..o.used]) == Some(r.code)
  {
    hide TryRun, WellFormed, UsbStream, ReturnCode, TransactionId, ParamLength, UsbComplete;
    StreamIsWellFormed(r, op);
    UsbStreamCarries(conn, r, op);
    WellFormedIsShort(UsbStream(r, op));
    if TryRun(ns, UsbStream(r, op), sched, max, retries, c).rc == 0 {
      TakesTheAnswer(ns, UsbStream(r, op), sched, max, retries, c);
      assert UsbStream(r, op)[..|UsbStream(r, op)|] == UsbStream(r, op);
    }
  }

  lemma WellFormedIsShort(s: seq<byte>)
    requires WellFormed(s)
    ensures |s| < INT_MAX_PLUS_1
  {
  }

  // ---- transactions ----

  /** One attempt, or a second one after an ignored first, succeeds. */
  ghost predicate Transacts(ns: seq<nat>, s: seq<byte>, sched: Schedule, max: nat, retries: nat, c: nat)
    requires |s| < INT_MAX_PLUS_1 && retries >= 1
  {
    var first := TryRun(ns, s, sched, max, retries, c);
    first.rc == PTP_OK
    || (first.rc == PTP_COMMAND_IGNORED
        && (TryUsed(ns, s, sched, max, retries, c); TryRun(ns, s[first.used..], sched, max, retries, first.clock).rc
           == PTP_OK))
  }

  /** One retry, and only after an ignored first attempt, which took nothing that the retry needs. */
  lemma RetriedOnce(ns: seq<nat>, s: seq<byte>, sched: Schedule, max: nat, retries: nat, c: nat)
    requires |s| < INT_MAX_PLUS_1 && retries >= 1
    ensures var first := TryRun(ns, s, sched, max, retries, c);
            && first.used <= |s| && first.rc in {0, -5, -10}
            && (Transacts(ns, s, sched, max, retries, c) <==>
                 first.rc == 0
                 || (first.rc == -10 && TryRun(ns, s[first.used..], sched, max, retries, first.clock).rc == 0))
  {
    hide TryRun;
    TryUsed(ns, s, sched, max, retries, c);
  }
}
