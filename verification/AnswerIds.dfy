/** Whose answer it is that a transaction accepts.  The code never compares the transaction ID of an answer
    with that of the command it sent: ptp_get_last_transaction_id (src/packet.c) has no caller. */
module AnswerIds {
  import opened Bytes
  import opened Packets
  import opened PacketAccess
  import opened UsbReceive
  import opened UsbSend

  /** A device's answer to a command with operation code op. */
  datatype Reply = Reply(r: Response, op: u16)

  function Encoded(a: Reply): (s: seq<byte>)
    ensures 12 <= |s| < INT_MAX_PLUS_1
  {
    UsbStream(a.r, a.op)
  }

  /** The answers q, one after the other. */
  function Replies(q: seq<Reply>): seq<byte> {
    if q == [] then [] else Encoded(q[0]) + Replies(q[1..])
  }

  /** Answers to earlier transactions lie before those to transaction id, as when a device answers every
      command once and in order. */
  predicate InOrder(q: seq<Reply>, id: u32) {
    forall i, j :: 0 <= i < j < |q| && q[i].r.id == id ==> q[j].r.id == id
  }

  /** Nothing unread belongs to another transaction than id. */
  predicate NothingStale(q: seq<Reply>, id: u32) {
    forall i :: 0 <= i < |q| ==> q[i].r.id == id
  }

  /** The receive loop accepts the first complete answer in the stream, whatever follows it. */
  lemma AcceptsTheFirst(a: seq<byte>, s: seq<byte>, sched: Schedule, max: nat, retries: nat, c: nat)
    requires WellFormed(a) && a <= s && |s| < INT_MAX_PLUS_1 && retries >= 1
    requires UsbReceived(s, sched, max, retries, c).rc == PTP_OK
    ensures var n := UsbReceived(s, sched, max, retries, c).read;
            && |a| <= n <= |s| && UsbComplete(s[..n])
            && (ReadU16(a, 4) == TYPE_DATA ==> n == |a|)
  {
    hide UsbReceived, Judge, ReadU16, ReadU32, UsbComplete, Moved, Misses;
    UsbReceivedExplained(s, sched, max, retries, c);
    var n := UsbReceived(s, sched, max, retries, c).read;
    DoneIsComplete(s[..n]);
    if n < |a| {
      assert s[..n] == a[..n];
      JudgePrefix(a, n);
    } else {
      assert a <= s[..n];
      CompleteExtent(a, s[..n]);
    }
  }

  /** A data phase fixes where an answer ends. */
  lemma CompleteExtent(a: seq<byte>, p: seq<byte>)
    requires UsbComplete(a) && UsbComplete(p) && a <= p
    ensures ReadU16(a, 4) == TYPE_DATA ==> |a| == |p|
  {
    var length: int := ReadU32(a, 0);
    assert ReadU32(p, 0) == length && ReadU16(p, 4) == ReadU16(a, 4);
    if ReadU16(a, 4) == TYPE_DATA {
      assert ReadU32(p, length) == ReadU32(a, length);
    }
  }

  lemma AcceptedIsFirst(a: Reply, s: seq<byte>, conn: Conn, sched: Schedule, max: nat, retries: nat, c: nat)
    requires conn != PTP_IP && Encoded(a) <= s && |s| < INT_MAX_PLUS_1 && retries >= 1
    requires UsbReceived(s, sched, max, retries, c).rc == PTP_OK
    ensures var n := UsbReceived(s, sched, max, retries, c).read;
            && |Encoded(a)| <= n <= |s|
            && TransactionId(conn, s[..n]) == Some(a.r.id) && ReturnCode(conn, s[..n]) == Some(a.r.code)
            && (a.r.data.Some? ==> n == |Encoded(a)|)
  {
    hide UsbReceived, UsbComplete, WellFormed, ReadU16, ReadU32, UsbStream, TransactionId, ReturnCode, UsbReadable;
    StreamIsWellFormed(a.r, a.op);
    DataFirst(a);
    AcceptsTheFirst(Encoded(a), s, sched, max, retries, c);
    UsbStreamCarries(conn, a.r, a.op);
    CompletePrefix(conn, Encoded(a), s[..UsbReceived(s, sched, max, retries, c).read]);
  }

  lemma DataFirst(a: Reply)
    ensures a.r.data.Some? ==> ReadU16(Encoded(a), 4) == TYPE_DATA
  {
    hide ReadU16, ReadU32, UsbStream;
    UsbStreamShape(a.r, a.op);
    if a.r.data.Some? {
      UsbContainerFields(Encoded(a), 0, TYPE_DATA, a.op, a.r.id, a.r.data.value);
    }
  }

  /** With the whole answers q unread when the command of transaction id goes out, and its own answer behind
      them, what is accepted carries ID id exactly when nothing in q answers an earlier transaction. */
  lemma AcceptsOwnAnswer(q: seq<Reply>, own: Reply, conn: Conn, sched: Schedule, max: nat, retries: nat, c: nat)
    requires conn != PTP_IP && retries >= 1 && InOrder(q, own.r.id)
    requires |Replies(q + [own])| < INT_MAX_PLUS_1
    requires UsbReceived(Replies(q + [own]), sched, max, retries, c).rc == PTP_OK
    ensures var s := Replies(q + [own]);
            var n := UsbReceived(s, sched, max, retries, c).read;
            && n <= |s|
            && (TransactionId(conn, s[..n]) == Some(own.r.id) <==> NothingStale(q, own.r.id))
  {
    hide UsbReceived, Encoded, TransactionId, ReturnCode;
    var all := q + [own];
    AcceptedIsFirst(all[0], Replies(all), conn, sched, max, retries, c);
  }

  /** Once behind, a conversation with data phases stays behind: the transaction after one that took the
      answer of the one before it finds its own answer unread, whole. */
  lemma StaysBehind(late: Reply, own: Reply, conn: Conn, sched: Schedule, max: nat, retries: nat, c: nat)
    requires conn != PTP_IP && retries >= 1 && late.r.data.Some?
    requires |Replies([late, own])| < INT_MAX_PLUS_1
    requires UsbReceived(Replies([late, own]), sched, max, retries, c).rc == PTP_OK
    ensures var s := Replies([late, own]);
            var n := UsbReceived(s, sched, max, retries, c).read;
            n <= |s| && s[n..] == Replies([own]) && TransactionId(conn, s[..n]) == Some(late.r.id)
  {
    hide UsbReceived, Encoded, TransactionId, ReturnCode;
    assert [late, own][1..] == [own];
    AcceptedIsFirst(late, Replies([late, own]), conn, sched, max, retries, c);
  }

  /** In step, a transaction answered at its first attempt leaves nothing unread. */
  lemma StaysInStep(own: Reply, conn: Conn, sched: Schedule, max: nat, retries: nat, c: nat)
    requires conn != PTP_IP && retries >= 1
    requires UsbReceived(Encoded(own), sched, max, retries, c).rc == PTP_OK
    ensures UsbReceived(Encoded(own), sched, max, retries, c).read == |Encoded(own)|
    ensures TransactionId(conn, Encoded(own)) == Some(own.r.id)
  {
    hide UsbReceived, Drains, WellFormed, UsbStream, TransactionId, ReturnCode;
    StreamIsWellFormed(own.r, own.op);
    UsbChunking(Encoded(own), sched, max, retries, c);
    UsbStreamCarries(conn, own.r, own.op);
  }

  // ---- how a conversation falls behind ----

  /** The answer OK to transaction id, without parameters or data. */
  function Plain(id: u32): Reply {
    Reply(Response(RC_OK, id, [], None), 0)
  }

  lemma PlainIsShort(id: u32)
    ensures |Encoded(Plain(id))| == 12
  {
  }

  /** Two reads that come back empty, then one that brings twelve bytes. */
  function Hiccup(k: nat): int {
    if k == 1 || k == 2 then 0 else 12
  }

  lemma HiccupSends(max: nat, c: nat)
    requires max >= 12 && c !in {1, 2}
    ensures SentBy(12, Hiccup, max, c, 1)
  {
    assert Ask(Hiccup, c) == 12;
    assert Moved(12, Hiccup, max, c, 0) == 0;
  }

  /** A 12-byte command whose answer comes with the first read. */
  lemma HiccupTransacts(s: seq<byte>, max: nat, c: nat)
    requires 12 <= |s| < INT_MAX_PLUS_1 && max >= 12 && c >= 3 && Judge(s[..12]) == Done
    ensures TryRun([12], s, Hiccup, max, 1, c) == TryOutcome(PTP_OK, 12, c + 2)
  {
    hide Judge, SentBy;
    HiccupSends(max, c);
    TrySends([12], s, Hiccup, max, 1, c, 1);
    assert Granted(Ask(Hiccup, c + 1), max, |s|) == 12;
  }

  /** A 12-byte command whose answer is two reads late. */
  lemma HiccupIgnores(s: seq<byte>, max: nat)
    requires |s| < INT_MAX_PLUS_1 && max >= 12
    ensures TryRun([12], s, Hiccup, max, 1, 0) == TryOutcome(PTP_COMMAND_IGNORED, 0, 3)
  {
    hide Judge, SentBy;
    HiccupSends(max, 0);
    TrySends([12], s, Hiccup, max, 1, 0, 1);
    assert Granted(Ask(Hiccup, 1), max, |s|) == Granted(Ask(Hiccup, 2), max, |s|) == 0;
    assert UsbRun(s, Hiccup, max, 0, 0, 1, 2) == UsbOutcome(PTP_COMMAND_IGNORED, 0, 0, 3);
  }

  lemma PlainArrives(id: u32, s: seq<byte>)
    requires Encoded(Plain(id)) <= s
    ensures |s| >= 12 && Judge(s[..12]) == Done && TransactionId(PTP_USB, s[..12]) == Some(id)
  {
    hide Judge, UsbStream, TransactionId, ReturnCode, WellFormed;
    PlainIsShort(id);
    var a := Encoded(Plain(id));
    StreamIsWellFormed(Plain(id).r, 0);
    JudgePrefix(a, 12);
    UsbStreamCarries(PTP_USB, Plain(id).r, 0);
    assert s[..12] == a == a[..12];
  }

  /** A device that answers every command once, in order and with its ID: the answer to the first command of
      transaction id comes two reads late, so the command is repeated; the repetition is answered by that
      late answer, and transaction id + 1 by the answer to the repetition. */
  lemma AnswersLagBehind(id: u32, max: nat)
    requires id + 1 < U32_MOD && max >= 12
    ensures var s := Replies([Plain(id), Plain(id), Plain(id + 1)]);
            && |s| == 36
            && TryRun([12], s, Hiccup, max, 1, 0) == TryOutcome(PTP_COMMAND_IGNORED, 0, 3)
            && TryRun([12], s, Hiccup, max, 1, 3) == TryOutcome(PTP_OK, 12, 5)
            && Transacts([12], s, Hiccup, max, 1, 0) && Transacts([12], s[12..], Hiccup, max, 1, 5)
            && TryRun([12], s[12..], Hiccup, max, 1, 5) == TryOutcome(PTP_OK, 12, 7)
            && TransactionId(PTP_USB, s[12..24]) == Some(id)
  {
    hide Encoded, Judge, TryRun, TransactionId, Plain;
    var a, b, d := Plain(id), Plain(id), Plain(id + 1);
    var s := Replies([a, b, d]);
    ThreeReplies(a, b, d);
    PlainIsShort(id);
    PlainIsShort(id + 1);
    assert s[12..] == Encoded(b) + Encoded(d) && s[12..24] == s[12..][..12];
    PlainArrives(id, s);
    PlainArrives(id, s[12..]);
    HiccupIgnores(s, max);
    HiccupTransacts(s, max, 3);
    HiccupTransacts(s[12..], max, 5);
  }

  lemma ThreeReplies(a: Reply, b: Reply, d: Reply)
    ensures Replies([a, b, d]) == Encoded(a) + (Encoded(b) + Encoded(d))
  {
    hide Encoded;
    assert [a, b, d][1..] == [b, d] && [b, d][1..] == [d] && [d][1..] == [];
    assert Replies([d]) == Encoded(d) + [] == Encoded(d);
    assert Replies([b, d]) == Encoded(b) + Replies([d]);
  }

  /** An answer of which part was read already is no answer any more: what is left may pass for one with any
      ID, here a payload that is taken for the answer to transaction id + 1. */
  lemma CutAnswerMimics(id: u32)
    requires id + 1 < U32_MOD
    ensures var stale := Reply(Response(RC_OK, id, [], Some(Encoded(Plain(id + 1)))), 0x1009);
            var s := Encoded(stale)[12..] + Encoded(Plain(id + 1));
            |s| == 36 && WellFormed(s[..12]) && TransactionId(PTP_USB, s[..12]) == Some(id + 1)
  {
    hide WellFormed, TransactionId, ReadU16, ReadU32, U16, U32, UsbHeader;
    var a := Encoded(Plain(id + 1));
    PlainIsShort(id + 1);
    StreamIsWellFormed(Plain(id + 1).r, 0);
    UsbStreamCarries(PTP_USB, Plain(id + 1).r, 0);
    var stale := Reply(Response(RC_OK, id, [], Some(a)), 0x1009);
    var s := Encoded(stale)[12..] + a;
    var body := UsbData(0x1009, id, a);
    assert |body| == 24 && body[12..] == a;
    assert |Encoded(stale)| == 36 && Encoded(stale)[..24] == body;
    assert Encoded(stale)[12..24] == body[12..];
    assert s[..12] == a;
  }
}
