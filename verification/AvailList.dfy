/** The list of currently legal property values: ptp_set_prop_avail_info (src/lib.c) builds it on the
    heap, ptp_validate_property_value (src/generic.c) looks values up in it. */
module AvailList {
  import opened Bytes

  // ---- what the list means ----

  /** What is remembered about one property code. */
  datatype Entry = Entry(membSize: u32, membCnt: u32, bytes: seq<byte>)

  /** The members that a lookup visits lie inside the buffer. */
  predicate Sized(e: Entry) {
    e.membSize * e.membCnt <= |e.bytes|
  }

  /** The i-th value of a list whose members are 1, 2 or 4 bytes wide. */
  function Member(size: u32, bytes: seq<byte>, i: nat): u32
    requires size in {1, 2, 4} && size * (i + 1) <= |bytes|
  {
    if size == 4 then ReadU32(bytes, 4 * i) else if size == 2 then ReadU16(bytes, 2 * i) else bytes[i]
  }

  /** Value i of a list of cnt. */
  function Slot(size: u32, bytes: seq<byte>, cnt: nat, i: nat): u32
    requires size in {1, 2, 4} && size * cnt <= |bytes| && i < cnt
  {
    EnoughRoom(size, i, cnt);
    Member(size, bytes, i)
  }

  predicate Listed(size: u32, bytes: seq<byte>, cnt: nat, value: u32)
    requires size in {1, 2, 4} && size * cnt <= |bytes|
  {
    exists i: nat :: i < cnt && Slot(size, bytes, cnt, i) == value
  }

  /** An announcement of the legal values of a property. */
  datatype Announcement = Announcement(code: int, membSize: u32, cnt: u32, data: seq<byte>)

  predicate WellFormed(a: Announcement) {
    |a.data| == a.membSize * a.cnt < INT_MAX_PLUS_1
  }

  /** Exactly when the copy stays inside the buffer, and later lookups do too. */
  predicate Safe(m: map<int, Entry>, a: Announcement) {
    a.code in m ==>
      var e := m[a.code];
      if a.cnt > e.membCnt then e.membSize * e.membCnt <= |a.data| else |a.data| <= |e.bytes|
  }

  /** The size and the count of a known code stay what they were when it was first announced.  A node of code
      0 counts as blank: the next new code takes it over, and announced before any other code it lists
      nothing. */
  function Announce(m: map<int, Entry>, a: Announcement): map<int, Entry>
    requires Safe(m, a)
  {
    if a.code !in m then
      if a.code == 0 && m == map[] then m else (m - {0})[a.code := Entry(a.membSize, a.cnt, a.data)]
    else
      var e := m[a.code];
      m[a.code := e.(bytes := if a.cnt > e.membCnt then a.data else a.data + e.bytes[|a.data|..])]
  }

  /** ptp_validate_property_value: 0 for a legal value, 1 for an unknown property, 2 for an illegal value. */
  function Verdict(m: map<int, Entry>, code: int, value: u32): int
    requires code in m ==> Sized(m[code]) && m[code].membSize in {1, 2, 4}
  {
    if code !in m then 1 else if Listed(m[code].membSize, m[code].bytes, m[code].membCnt, value) then 0 else 2
  }

  lemma EnoughRoom(size: u32, i: int, cnt: int)
    requires i < cnt
    ensures size * (i + 1) <= size * cnt
  {
  }

  // ---- the list itself ----

  /** struct PtpPropAvail; the buffer is the node's own, so its bytes are kept in the node. */
  class Node {
    var next: Node?
    var prev: Node?
    var code: int
    var membSize: u32
    var membCnt: u32
    var data: seq<byte>

    /** calloc */
    constructor ()
      ensures next == null && prev == null && code == 0 && membSize == 0 && membCnt == 0 && data == []
    {
      next, prev, code, membSize, membCnt, data := null, null, 0, 0, 0, [];
    }

    method Fill(a: Announcement)
      modifies this`code, this`membSize, this`membCnt, this`data
      ensures code == a.code && membSize == a.membSize && membCnt == a.cnt && data == a.data
    {
      code := a.code;
      membSize := a.membSize;
      membCnt := a.cnt;
      data := a.data;
    }
  }

  /** The list head r->avail, which is the newest node; the rest hangs off it through prev. */
  class PropAvail {
    var avail: Node
    ghost var nodes: seq<Node>          // oldest first
    ghost var contents: map<int, Entry> // what the nodes hold
    ghost var slot: map<int, nat>       // where the node of a code is
    ghost var repr: set<Node>

    /** The prev chain visits the nodes in order and ends; next undoes prev. */
    ghost predicate Linked()
      reads this, repr
    {
      && nodes != [] && nodes[|nodes| - 1] == avail
      && (forall i :: 0 <= i < |nodes| ==> nodes[i] in repr)
      && (forall i, j :: 0 <= i < j < |nodes| && j == i + 1 ==> nodes[j].prev == nodes[i] && nodes[i].next == nodes[j])
      && nodes[0].prev == null && avail.next == null
    }

    ghost predicate Holds(n: Node)
      reads this, repr
    {
      n in repr && n.code in contents && contents[n.code] == Entry(n.membSize, n.membCnt, n.data)
    }

    /** Every node has a code of its own, which is 0 at most for the newest, and holds the entry of its code. */
    ghost predicate Filled()
      reads this, repr
    {
      && (forall i :: 0 <= i < |nodes| ==> HoldsOwn(i))
      && (forall c :: c in contents ==>
         Sized(contents[c]) && c in slot && slot[c] < |nodes| && nodes[slot[c]] in repr && nodes[slot[c]].code == c)
    }

    ghost predicate HoldsOwn(i: nat)
      requires i < |nodes|
      reads this, repr
    {
      var n := nodes[i];
      Holds(n) && n.code in slot && slot[n.code] == i && (n.code == 0 ==> i == |nodes| - 1)
    }

    /** Before the first announcement of a code other than 0 there is one blank node. */
    ghost predicate Blank()
      reads this, repr
    {
      |nodes| == 1 && nodes[0] in repr && nodes[0].code == 0 && nodes[0].membCnt == 0 && contents == map[]
    }

    ghost predicate Valid()
      reads this, repr
    {
      Linked() && (Blank() || Filled())
    }

    constructor ()
      ensures Valid() && contents == map[] && fresh(repr)
    {
      var n := new Node();
      avail := n;
      nodes := [n];
      contents, slot := map[], map[];
      repr := {n};
    }

    lemma Found(at: nat)
      requires Valid() && at < |nodes|
      ensures if contents == map[] then nodes[at].code == 0 && nodes[at].membCnt == 0 && Blank()
              else Filled() && Holds(nodes[at]) && Sized(contents[nodes[at].code])
    {
      hide Linked;
      assert Filled() ==> HoldsOwn(at);
    }

    lemma NotFound(code: int)
      requires Valid() && forall j :: 0 <= j < |nodes| ==> nodes[j].code != code
      ensures code !in contents && (code == 0 ==> contents != map[])
    {
      hide Linked;
      assert nodes != [] by { Newest(); }
      assert Filled() ==> HoldsOwn(0);
    }

    /** The walk along prev that both operations begin with. */
    method Find(code: int) returns (n: Node?, ghost at: int)
      requires Valid()
      ensures n != null ==> 0 <= at < |nodes| && n == nodes[at] && n.code == code
      ensures n != null ==> if contents == map[] then code == 0 && n.membCnt == 0 && Blank()
                            else Holds(n) && Sized(contents[code]) && Filled()
      ensures n == null ==> code !in contents && (code == 0 ==> contents != map[])
    {
      hide Filled, Blank, Holds;
      n := avail;
      at := |nodes| - 1;
      while n != null
        invariant -1 <= at < |nodes| && (forall j :: at < j < |nodes| ==> nodes[j].code != code)
        invariant n == if at >= 0 then nodes[at] else null
        decreases at
      {
        if n.code == code {
          Found(at);
          return;
        }
        assert n == nodes[at] && n.prev == nodes[at].prev;
        n := n.prev;
        at := at - 1;
      }
      NotFound(code);
    }

    /** ptp_validate_property_value; another member size is a panic in the source.  Code 0 finds the blank
        node, as long as no other code was announced. */
    method Validate(code: int, value: u32) returns (rc: int)
      requires Valid() && (code in contents ==> contents[code].membSize in {1, 2, 4})
      ensures code in contents ==> Sized(contents[code])
      ensures rc == if code == 0 && contents == map[] then 2 else Verdict(contents, code, value)
    {
      hide Valid, Linked, Filled, Blank, ReadU16, ReadU32;
      var n, at := Find(code);
      if n == null { return 1; }
      ghost var e := if contents == map[] then Entry(1, 0, []) else contents[code];
      var i := 0;
      while i < n.membCnt
        invariant i <= n.membCnt
        invariant forall j: nat :: j < i ==> Slot(e.membSize, e.bytes, e.membCnt, j) != value
      {
        EnoughRoom(n.membSize, i, n.membCnt);
        var curVal: u32;
        if n.membSize == 4 {
          curVal := ReadU32(n.data, 4 * i);
        } else if n.membSize == 2 {
          curVal := ReadU16(n.data, 2 * i);
        } else {
          curVal := n.data[i];
        }
        assert curVal == Slot(e.membSize, e.bytes, e.membCnt, i);
        if value == curVal { return 0; }
        i := i + 1;
      }
      return 2;
    }

    /** ptp_set_prop_avail_info, a known code: the buffer changes, the count and the size do not. */
    method Overwrite(n: Node, ghost at: nat, a: Announcement)
      requires Valid() && at < |nodes| && n == nodes[at] && n.code == a.code
      requires if contents == map[] then Blank() && a.code == 0 else Filled() && Holds(n)
      requires WellFormed(a) && Safe(contents, a)
      modifies this, repr
      ensures Valid() && fresh(repr - old(repr))
      ensures contents == Announce(old(contents), a)
    {
      assert contents != map[] ==> HoldsOwn(at);
      if a.cnt > n.membCnt {
        n.data := a.data;
      } else {
        n.data := a.data + n.data[|a.data|..];
      }
      contents := Announce(contents, a);
      if old(contents) != map[] {
        forall i | 0 <= i < |nodes| ensures HoldsOwn(i) {
          assert old(HoldsOwn(i));
        }
      }
    }

    lemma Newest()
      requires Valid()
      ensures avail in repr && Linked()
      ensures if contents == map[] then nodes == [avail] && avail.code == 0
              else Filled() && (0 in contents <==> avail.code == 0)
    {
      assert Filled() ==> HoldsOwn(|nodes| - 1);
      assert Filled() && 0 in contents ==> HoldsOwn(slot[0]);
    }

    /** The blank node filled in is a valid list. */
    twostate lemma OnlyNode()
      requires old(Linked()) && nodes == old(nodes) == [avail] && avail == old(avail) && Holds(avail)
      requires avail.next == old(avail.next) && avail.prev == old(avail.prev)
      requires contents.Keys == {avail.code} && Sized(contents[avail.code]) && avail.code in slot
               && slot[avail.code] == 0
      ensures Linked() && Filled()
    {
    }

    /** So is a list whose newest node, of code 0, is filled in anew. */
    twostate lemma TakenOver()
      requires old(Linked() && Filled()) && nodes == old(nodes) && avail == old(avail) && repr == old(repr)
      requires old(avail.code) == 0 && 0 in old(contents) && avail.code !in old(contents)
      requires forall m :: m in repr ==> m.prev == old(m.prev) && m.next == old(m.next)
      requires forall m :: m in repr && m != avail ==>
               m.code == old(m.code) && m.membSize == old(m.membSize) && m.membCnt == old(m.membCnt)
               && m.data == old(m.data)
      requires avail.code in contents && Sized(contents[avail.code])
      requires contents == (old(contents) - {0})[avail.code := contents[avail.code]]
               && slot == old(slot)[avail.code := |nodes| - 1]
      requires Holds(avail)
      ensures Linked() && Filled()
    {
      forall i | 0 <= i < |nodes| ensures HoldsOwn(i) {
        assert old(HoldsOwn(i));
      }
    }

    /** A node put after the newest one leaves a valid list. */
    twostate lemma Appended()
      requires old(Linked() && Filled()) && old(avail.code) != 0
      requires nodes == old(nodes) + [avail] && old(repr) <= repr && avail !in old(repr)
      requires forall m :: m in old(repr) ==>
               m.prev == old(m.prev) && m.code == old(m.code) && m.membSize == old(m.membSize)
                                              && m.membCnt == old(m.membCnt) && m.data == old(m.data)
                                              && (m != old(avail) ==> m.next == old(m.next))
      requires avail in repr && avail.next == null && avail.prev == old(avail) && old(avail).next == avail
      requires avail.code in contents && Sized(contents[avail.code])
      requires avail.code !in old(contents) && contents == old(contents)[avail.code := contents[avail.code]]
               && slot == old(slot)[avail.code := |nodes| - 1]
      requires Holds(avail)
      ensures Linked() && Filled()
    {
      forall i | 0 <= i < |nodes| ensures HoldsOwn(i) {
        assert i < |nodes| - 1 ==> old(HoldsOwn(i));
      }
    }

    /** ptp_set_prop_avail_info, a new code and a newest node that is not blank: a new node becomes the newest. */
    method Append(a: Announcement)
      requires Valid() && WellFormed(a) && a.code !in contents && avail.code != 0
      modifies this, repr
      ensures Valid() && fresh(repr - old(repr))
      ensures contents == Announce(old(contents), a)
    {
      hide Linked, Filled, HoldsOwn, Blank;
      Newest();
      var n := new Node();
      avail.next := n;
      n.prev := avail;
      n.Fill(a);
      avail := n;
      nodes := nodes + [n];
      repr := repr + {n};
      contents := Announce(contents, a);
      slot := slot[a.code := |nodes| - 1];
      Appended();
    }

    /** A newest node of code 0 is filled in instead. */
    method Refill(a: Announcement)
      requires Valid() && WellFormed(a) && a.code !in contents && avail.code == 0 && a.code != 0
      modifies this, repr
      ensures Valid() && fresh(repr - old(repr))
      ensures contents == Announce(old(contents), a)
    {
      hide Linked, Filled, HoldsOwn, Blank;
      Newest();
      avail.Fill(a);
      contents := Announce(contents, a);
      slot := slot[a.code := |nodes| - 1];
      if old(contents) == map[] {
        OnlyNode();
      } else {
        TakenOver();
      }
    }

    /** ptp_set_prop_avail_info */
    method Set(a: Announcement)
      requires Valid() && WellFormed(a) && Safe(contents, a)
      modifies this, repr
      ensures Valid() && fresh(repr - old(repr))
      ensures contents == Announce(old(contents), a)
    {
      hide Linked, Blank, Filled, Holds;
      var n, at := Find(a.code);
      if n != null {
        Overwrite(n, at, a);
      } else if avail.code == 0 {
        Newest();
        Refill(a);
      } else {
        Append(a);
      }
    }
  }

  /** A property is forgotten exactly when its code is 0 and a new one is announced. */
  lemma OnlyZeroIsForgotten(m: map<int, Entry>, a: Announcement, code: int)
    requires Safe(m, a) && code in m
    ensures code in Announce(m, a) <==> code != 0 || a.code in m
  {
  }

  /** Code 0 is announced behind another one, and is unknown once a third has come. */
  lemma ZeroIsForgotten()
    ensures var a1, a2, a3 := Announcement(1, 1, 1, [5]), Announcement(0, 1, 1, [6]), Announcement(2, 1, 1, [7]);
            var m := Announce(Announce(map[], a1), a2);
            && Sized(m[0]) && Verdict(m, 0, 6) == 0 && Safe(m, a3) && Verdict(Announce(m, a3), 0, 6) == 1
  {
    var m := Announce(Announce(map[], Announcement(1, 1, 1, [5])), Announcement(0, 1, 1, [6]));
    assert Slot(1, m[0].bytes, 1, 0) == 6;
  }

  // ---- what a whole history of announcements leaves behind ----

  /** Every announcement is well formed and has a code, and a code keeps the member size it was first announced
      with. */
  predicate Steady(h: seq<Announcement>) {
    && (forall i :: 0 <= i < |h| ==> h[i].code != 0 && WellFormed(h[i]) && h[i].membSize in {1, 2, 4})
    && (forall i, j :: 0 <= i < j < |h| && h[i].code == h[j].code ==> h[i].membSize == h[j].membSize)
  }

  /** The first announcement of a code, or -1. */
  function First(h: seq<Announcement>, code: int): (k: int)
    ensures -1 <= k < |h| && (k >= 0 ==> h[k].code == code)
    ensures k < 0 ==> forall j :: 0 <= j < |h| ==> h[j].code != code
  {
    if h == [] then -1
    else
      var n := |h| - 1;
      var k := First(h[..n], code);
      if k < 0 && h[n].code == code then n else k
  }

  /** The latest announcement of a code with more than i values, or -1. */
  function Covering(h: seq<Announcement>, code: int, i: nat): (k: int)
    ensures -1 <= k < |h| && (k >= 0 ==> h[k].code == code && h[k].cnt > i)
    ensures forall j :: k < j < |h| ==> h[j].code != code || h[j].cnt <= i
  {
    if h == [] then -1
    else
      var n := |h| - 1;
      if h[n].code == code && h[n].cnt > i then n else Covering(h[..n], code, i)
  }

  function AnnounceAll(h: seq<Announcement>): (m: map<int, Entry>)
    requires Steady(h)
    ensures forall c :: c in m <==> First(h, c) >= 0
    ensures forall c :: c in m ==>
            m[c].membSize == h[First(h, c)].membSize && m[c].membCnt == h[First(h, c)].cnt && Sized(m[c])
  {
    if h == [] then map[]
    else
      var n := |h| - 1;
      var m := AnnounceAll(h[..n]);
      SteadyIsSafe(h, m);
      Announce(m, h[n])
  }

  lemma SteadyIsSafe(h: seq<Announcement>, m: map<int, Entry>)
    requires Steady(h) && h != [] && (h[|h| - 1].code in m ==> First(h[..|h| - 1], h[|h| - 1].code) >= 0)
    requires var a := h[|h| - 1];
             a.code in m ==> m[a.code].membSize == h[First(h[..|h| - 1], a.code)].membSize && Sized(m[a.code])
    ensures Safe(m, h[|h| - 1])
    ensures h[|h| - 1].code in m ==> Sized(Announce(m, h[|h| - 1])[h[|h| - 1].code])
  {
    var a := h[|h| - 1];
    if a.code in m {
      var e := m[a.code];
      assert e.membSize == a.membSize;
      if a.cnt > e.membCnt {
        EnoughRoom(a.membSize, e.membCnt - 1, a.cnt);
      } else {
        EnoughRoom(a.membSize, a.cnt - 1, e.membCnt);
      }
    }
  }

  lemma EntryIsFirst(h: seq<Announcement>, code: int)
    requires Steady(h)
    ensures var m, f := AnnounceAll(h), First(h, code);
            && (code in m <==> f >= 0)
            && (code in m ==> m[code].membSize == h[f].membSize && m[code].membCnt == h[f].cnt && Sized(m[code]))
  {
  }

  /** Values depend only on their own bytes. */
  lemma MemberOfPrefix(size: u32, s: seq<byte>, t: seq<byte>, i: nat)
    requires size in {1, 2, 4} && size * (i + 1) <= |s| <= |t| && s == t[..|s|]
    ensures Member(size, s, i) == Member(size, t, i)
  {
  }

  lemma MemberOfSuffix(size: u32, s: seq<byte>, e: seq<byte>, i: nat)
    requires size in {1, 2, 4} && size * (i + 1) <= |e| && |s| <= size * i
    ensures Member(size, s + e[|s|..], i) == Member(size, e, i)
  {
  }

  lemma SlotAfter(e: Entry, a: Announcement, i: nat)
    requires Sized(e) && WellFormed(a) && e.membSize == a.membSize && a.membSize in {1, 2, 4} && i < e.membCnt
    requires Safe(map[a.code := e], a)
    ensures var after := Announce(map[a.code := e], a)[a.code];
            && Sized(after)
            && Slot(a.membSize, after.bytes, e.membCnt, i) ==
                 if i < a.cnt then Slot(a.membSize, a.data, a.cnt, i) else Slot(e.membSize, e.bytes, e.membCnt, i)
  {
    var size, after := a.membSize, Announce(map[a.code := e], a)[a.code];
    EnoughRoom(size, i, e.membCnt);
    if i < a.cnt {
      EnoughRoom(size, i, a.cnt);
      MemberOfPrefix(size, a.data, after.bytes, i);
    } else {
      EnoughRoom(size, a.cnt - 1, i);
      MemberOfSuffix(size, a.data, e.bytes, i);
    }
  }

  /** Slot i as a lookup after the history h reads it. */
  ghost predicate SlotIs(h: seq<Announcement>, code: int, i: nat, value: u32)
    requires Steady(h)
  {
    var k := Covering(h, code, i);
    k >= 0 && Slot(h[k].membSize, h[k].data, h[k].cnt, i) == value
  }

  /** Slot i of a list holds what the latest announcement long enough to reach slot i put there. */
  lemma {:induction false} SlotHoldsLatestCovering(h: seq<Announcement>, code: int, i: nat)
    requires Steady(h) && First(h, code) >= 0 && i < h[First(h, code)].cnt
    ensures var e := (EntryIsFirst(h, code); AnnounceAll(h)[code]);
            SlotIs(h, code, i, Slot(e.membSize, e.bytes, e.membCnt, i))
  {
    hide Slot;
    EntryIsFirst(h, code);
    var n := |h| - 1;
    var a := h[n];
    EntryIsFirst(h[..n], code);
    if First(h[..n], code) < 0 {
      assert Covering(h, code, i) == n;
    } else {
      SlotHoldsLatestCovering(h[..n], code, i);
      if a.code == code {
        var e := AnnounceAll(h[..n])[code];
        SteadyIsSafe(h, AnnounceAll(h[..n]));
        SlotAfter(e, a, i);
      }
    }
  }

  /** ptp_validate_property_value after any history: 1 for a code never announced; 0 when the value is in
      one of the slots of the first announcement, as last written; 2 otherwise. */
  lemma ValidatedAfter(h: seq<Announcement>, code: int, value: u32)
    requires Steady(h)
    ensures var f, v := First(h, code), (EntryIsFirst(h, code); Verdict(AnnounceAll(h), code, value));
            && (v == 1 <==> f < 0)
            && (v == 0 <==> f >= 0 && exists i: nat :: i < h[f].cnt && SlotIs(h, code, i, value))
            && v in {0, 1, 2}
  {
    EntryIsFirst(h, code);
    var f := First(h, code);
    if f >= 0 {
      var e := AnnounceAll(h)[code];
      forall i: nat | i < e.membCnt
        ensures SlotIs(h, code, i, value) <==> Slot(e.membSize, e.bytes, e.membCnt, i) == value
      {
        SlotHoldsLatestCovering(h, code, i);
      }
    }
  }

  function Latest(h: seq<Announcement>, code: int): (k: int)
    ensures -1 <= k < |h| && (k >= 0 ==> h[k].code == code)
    ensures forall j :: k < j < |h| ==> h[j].code != code
  {
    if h == [] then -1 else if h[|h| - 1].code == code then |h| - 1 else Latest(h[..|h| - 1], code)
  }

  /** When a code always comes with the same number of values, the list is a map from codes to the latest
      values: 0 exactly for a value in the latest list, 1 for an unknown code, 2 for the rest. */
  lemma RefinesMap(h: seq<Announcement>, code: int, value: u32)
    requires Steady(h)
    requires forall i, j :: 0 <= i < j < |h| && h[i].code == h[j].code ==> h[i].cnt == h[j].cnt
    ensures var k, v := Latest(h, code), (EntryIsFirst(h, code); Verdict(AnnounceAll(h), code, value));
            && (k < 0 ==> v == 1)
            && (k >= 0 ==> v == if Listed(h[k].membSize, h[k].data, h[k].cnt, value) then 0 else 2)
  {
    EntryIsFirst(h, code);
    ValidatedAfter(h, code, value);
    var f, k := First(h, code), Latest(h, code);
    if k >= 0 {
      hide Slot;
      assert f == k || h[f].cnt == h[k].cnt;
      forall i: nat | i < h[f].cnt ensures SlotIs(h, code, i, value) <==>
        Slot(h[k].membSize, h[k].data, h[k].cnt, i) == value {
        assert Covering(h, code, i) == k;
      }
    }
  }

  /** The values that an announcement of another length leaves in or out of the list do not matter. */
  predicate NothingStale(e: Entry, a: Announcement)
    requires Sized(e) && WellFormed(a) && e.membSize == a.membSize && a.membSize in {1, 2, 4}
  {
    if a.cnt <= e.membCnt then
      forall i: nat :: a.cnt <= i < e.membCnt ==>
        Listed(a.membSize, a.data, a.cnt, Slot(e.membSize, e.bytes, e.membCnt, i))
    else
      EnoughRoom(a.membSize, e.membCnt - 1, a.cnt);
      forall i: nat :: e.membCnt <= i < a.cnt ==>
        Listed(a.membSize, a.data, e.membCnt, Slot(a.membSize, a.data, a.cnt, i))
  }

  lemma SlotsOfLonger(e: Entry, a: Announcement)
    requires WellFormed(a) && a.membSize in {1, 2, 4} && e.membCnt < a.cnt
    ensures a.membSize * e.membCnt <= |a.data|
    ensures forall i: nat :: i < e.membCnt ==>
            Slot(a.membSize, a.data, e.membCnt, i) == Slot(a.membSize, a.data, a.cnt, i)
  {
    EnoughRoom(a.membSize, e.membCnt - 1, a.cnt);
  }

  /** With another number of values, what is accepted is the latest list exactly when the stale values
      beyond a shorter list are in it anyway, or every value that a longer list has beyond the first
      count repeats an earlier one. */
  lemma AgreesWithLatest(m: map<int, Entry>, a: Announcement)
    requires WellFormed(a) && a.code in m && Sized(m[a.code]) && m[a.code].membSize == a.membSize
             && a.membSize in {1, 2, 4}
    requires Safe(m, a) && Sized(Announce(m, a)[a.code])
    ensures (forall v: u32 :: Verdict(Announce(m, a), a.code, v) == 0 <==> Listed(a.membSize, a.data, a.cnt, v)) <==>
            NothingStale(m[a.code], a)
  {
    hide Slot;
    var size, e, after := a.membSize, m[a.code], Announce(m, a)[a.code];
    forall i: nat | i < e.membCnt
      ensures Slot(size, after.bytes, e.membCnt, i) == if i < a.cnt then Slot(size, a.data, a.cnt, i)
              else Slot(size, e.bytes, e.membCnt, i)
    {
      SlotAfter(e, a, i);
    }
    if e.membCnt < a.cnt {
      SlotsOfLonger(e, a);
    }
    if NothingStale(e, a) {
      forall v: u32 ensures Listed(size, after.bytes, e.membCnt, v) <==> Listed(size, a.data, a.cnt, v) {
      }
    } else if a.cnt <= e.membCnt {
      var i: nat :| a.cnt <= i < e.membCnt && !Listed(size, a.data, a.cnt, Slot(size, e.bytes, e.membCnt, i));
      assert Listed(size, after.bytes, e.membCnt, Slot(size, after.bytes, e.membCnt, i));
    } else {
      var i: nat :| e.membCnt <= i < a.cnt && !Listed(size, a.data, e.membCnt, Slot(size, a.data, a.cnt, i));
      assert Listed(size, a.data, a.cnt, Slot(size, a.data, a.cnt, i));
    }
  }

  /** Three values are announced, then one: the second of the three is still accepted. */
  lemma StaleValueAccepted()
    ensures var h := [Announcement(1, 1, 3, [5, 6, 7]), Announcement(1, 1, 1, [9])];
            && Steady(h) && (EntryIsFirst(h, 1); Verdict(AnnounceAll(h), 1, 6) == 0)
            && !Listed(1, [9], 1, 6)
  {
    var h := [Announcement(1, 1, 3, [5, 6, 7]), Announcement(1, 1, 1, [9])];
    assert h[..1] == [h[0]] && h[..1][..0] == [];
    EntryIsFirst(h, 1);
    ValidatedAfter(h, 1, 6);
    assert First(h[..1], 1) == 0 && First(h, 1) == 0;
    assert Covering(h[..1], 1, 1) == 0 && Covering(h, 1, 1) == 0;
    assert SlotIs(h, 1, 1, 6);
  }

  // ---- another member size ----

  /** The first member size stays too.  After an announcement with another size, slot i as a lookup sees it
      holds whatever bytes of the new values lie there, completed by old bytes if the new ones end inside
      it, or the old value if none reach it. */
  lemma SlotReinterpreted(e: Entry, a: Announcement, i: nat)
    requires Sized(e) && WellFormed(a) && e.membSize in {1, 2, 4} && i < e.membCnt && Safe(map[a.code := e], a)
    ensures var after := Announce(map[a.code := e], a)[a.code];
            && after.membSize == e.membSize && after.membCnt == e.membCnt && Sized(after)
            && (e.membSize * (i + 1) <= |a.data| ==>
                 Slot(after.membSize, after.bytes, after.membCnt, i) == Member(e.membSize, a.data, i))
            && (|a.data| <= e.membSize * i ==>
                 Slot(after.membSize, after.bytes, after.membCnt, i) == Slot(e.membSize, e.bytes, e.membCnt, i))
            && (e.membSize * i < |a.data| < e.membSize * (i + 1) ==>
                 Slot(after.membSize, after.bytes, after.membCnt, i)
                 == Member(e.membSize, a.data[e.membSize * i..] + e.bytes[|a.data|..e.membSize * (i + 1)], 0))
  {
    var after := Announce(map[a.code := e], a)[a.code];
    EnoughRoom(e.membSize, i, e.membCnt);
    if e.membSize * (i + 1) <= |a.data| {
      MemberOfPrefix(e.membSize, a.data, after.bytes, i);
    } else if |a.data| <= e.membSize * i {
      MemberOfSuffix(e.membSize, a.data, e.bytes, i);
    } else {
      MemberAcross(e.membSize, a.data, e.bytes, i);
    }
  }

  lemma MemberAcross(size: u32, s: seq<byte>, e: seq<byte>, i: nat)
    requires size in {1, 2, 4} && size * i < |s| < size * (i + 1) <= |e|
    ensures Member(size, s + e[|s|..], i) == Member(size, s[size * i..] + e[|s|..size * (i + 1)], 0)
  {
    MemberAt(size, s + e[|s|..], i);
    assert (s + e[|s|..])[size * i..size * (i + 1)] == s[size * i..] + e[|s|..size * (i + 1)];
  }

  lemma MemberAt(size: u32, bytes: seq<byte>, i: nat)
    requires size in {1, 2, 4} && size * (i + 1) <= |bytes|
    ensures size * i <= size * (i + 1) && Member(size, bytes, i) == Member(size, bytes[size * i..size * (i + 1)], 0)
  {
  }

  /** A list of one 16-bit value, then two 8-bit ones: neither of the two is accepted, but their pair is. */
  lemma SizesMixedUp()
    ensures var m := map[1 := Entry(2, 1, [7, 0])];
            var a := Announcement(1, 1, 2, [5, 6]);
            Safe(m, a) && var after := Announce(m, a);
            && Sized(after[1]) && Verdict(after, 1, 5) == 2 && Verdict(after, 1, 6) == 2
            && Verdict(after, 1, 0x605) == 0
  {
    var after := Announce(map[1 := Entry(2, 1, [7, 0])], Announcement(1, 1, 2, [5, 6]));
    assert Slot(2, after[1].bytes, 1, 0) == 0x605;
  }
}
