/** `optimized_insert_before_cursor` and its recovery: how a task enters a ready list. */
module ListInsertCursor {
  import opened PowerSupply
  import opened PLists
  import opened ListLog

  /** A cursor position: of an element, or 0 in an empty ring. */
  ghost predicate IsPos(s: seq<Node>, c: int) {
    if s == [] then c == 0 else 0 <= c < |s|
  }

  ghost predicate RingBeside(l: PList, s: seq<Node>, c: int, node: Node)
    requires 0 <= c <= |s|
    reads s`prev, s`next, s`list
  {
    Distinct(s) && node !in s && LinkedBeside(s, c, true) && Owned(l, s)
  }

  /** The cursor is at `cur`, `p` before it: the store to `cur.prev` is the switch-over point. */
  ghost predicate CursorCut(l: PList, node: Node, p: Node, cur: Node, h0: Node?)
    reads l, node`prev, node`next, p`next, cur`prev
  {
    && l.cursor == cur
    && (cur.prev == node ==> node.prev == p && node.next == cur && p.next == node)
    && (cur.prev != node ==> cur.prev == p && (p.next == cur || p.next == node) && l.head == h0)
    && (l.head == h0 || (cur == h0 && l.head == node))
  }

  ghost predicate EmptyRingCut(l: PList, node: Node)
    reads l`cursor, l`head
  {
    (l.cursor == null || l.cursor == node) && (l.head == null || l.head == node)
  }

  /** Everything a power failure may leave behind after the insertion was logged. */
  ghost predicate RingInsertCut(l: PList, s: seq<Node>, c: int, node: Node)
    requires IsPos(s, c)
    reads l, s, node
  {
    && RingBeside(l, s, c, node)
    && (node.list == null || node.list == l)
    && (if s == [] then EmptyRingCut(l, node)
        else CursorCut(l, node, SlotPrev(s, c, true), s[c], s[0]))
  }

  ghost predicate InRingSlot(l: PList, node: Node, p: Node, cur: Node, h0: Node?)
    reads l`cursor, l`head, node`prev, node`next, p`next, cur`prev
  {
    && l.cursor == cur && node.prev == p && node.next == cur && p.next == node && cur.prev == node
    && l.head == (if cur == h0 then node else h0)
  }

  // ---------- the stores ----------

  method LinkBeforeCursor(l: PList, node: Node, cur: Node, pw0: Power, ghost p: Node, ghost h0: Node?) returns (pw: Power)
    requires !pw0.Off? && node != cur && node != p && h0 != node && CursorCut(l, node, p, cur, h0) && cur.prev != node
    modifies node`prev, node`next, p`next, cur`prev
    ensures pw0.Mains? ==> pw.Mains?
    ensures CursorCut(l, node, p, cur, h0)
    ensures !pw.Off? ==> cur.prev == node
  {
    pw := pw0.Tick();
    if pw.Off? { return; }
    node.prev := cur.prev;
    pw := pw.Tick();
    if pw.Off? { return; }
    node.next := l.cursor;
    pw := pw.Tick();
    if pw.Off? { return; }
    node.prev.next := node;
    pw := pw.Tick();
    if pw.Off? { return; }
    cur.prev := node;
  }

  method MoveHead(l: PList, node: Node, pw0: Power, ghost p: Node, ghost cur: Node, ghost h0: Node?) returns (pw: Power)
    requires !pw0.Off? && node != cur && h0 != node && CursorCut(l, node, p, cur, h0) && cur.prev == node
    modifies l`head
    ensures pw0.Mains? ==> pw.Mains?
    ensures CursorCut(l, node, p, cur, h0)
    ensures !pw.Off? ==> InRingSlot(l, node, p, cur, h0)
  {
    pw := pw0.Tick();
    if pw.Off? { return; }
    if l.cursor == l.head {
      l.head := node;
    }
  }

  /** The first node of a ring. */
  method LinkAlone(l: PList, node: Node, pw0: Power) returns (pw: Power)
    requires !pw0.Off? && EmptyRingCut(l, node)
    modifies l`cursor, l`head, node`prev, node`next
    ensures pw0.Mains? ==> pw.Mains?
    ensures EmptyRingCut(l, node)
    ensures !pw.Off? ==> node.prev == node && node.next == node && l.cursor == node && l.head == node
  {
    pw := pw0.Tick();
    if pw.Off? { return; }
    node.prev := node;
    pw := pw.Tick();
    if pw.Off? { return; }
    node.next := node;
    pw := pw.Tick();
    if pw.Off? { return; }
    l.cursor := node;
    pw := pw.Tick();
    if pw.Off? { return; }
    l.head := node;
  }

  // ---------- the whole ring ----------

  /** Everything but the length is in place. */
  ghost predicate RingLinked(l: PList, s: seq<Node>, c: int, node: Node)
    requires IsPos(s, c)
    reads l, s`prev, s`next, s`list, node
  {
    && RingBeside(l, s, c, node)
    && (if s == [] then node.prev == node && node.next == node && l.cursor == node && l.head == node
        else InRingSlot(l, node, SlotPrev(s, c, true), s[c], s[0]))
  }

  /** Where the cursor ends up: on the node it was on, or on the only node. */
  ghost function CursorAfter(s: seq<Node>, c: int): int {
    if s == [] then 0 else c + 1
  }

  lemma RingInsertedShape(l: PList, s: seq<Node>, c: int, node: Node)
    requires IsPos(s, c)
    requires RingLinked(l, s, c, node) && l.len == |s| + 1
    ensures RingShape(l, With(s, c, node), CursorAfter(s, c))
    ensures IsRing(l, With(s, c, node), CursorAfter(s, c)) <==> node.list == l
  {
    hide Distinct, Linked, LinkedBeside, Owned, With;
    WithIsDistinct(s, c, node);
    WithIsLinked(s, c, node, true);
    WithIsOwned(l, s, c, node);
    WithEnds(s, c, node);
  }

  lemma WithEnds(s: seq<Node>, c: int, node: Node)
    requires IsPos(s, c)
    ensures
      var t := With(s, c, node);
      |t| == |s| + 1 && t[c] == node && First(t) == (if c == 0 then node else s[0]) && (s != [] ==> t[c + 1] == s[c])
  {
  }

  lemma WithIsOwned(l: PList, s: seq<Node>, c: int, node: Node)
    requires 0 <= c <= |s| && Owned(l, s)
    ensures Owned(l, With(s, c, node)) <==> node.list == l
  {
    var t := With(s, c, node);
    assert t[c] == node;
    forall i {:trigger t[i]} | 0 <= i < |t| && node.list == l
      ensures t[i].list == l
    {
      if i != c {
        assert t[i] == s[if i < c then i else i - 1];
      }
    }
  }

  lemma RingCutAtStart(l: PList, s: seq<Node>, c: int, node: Node)
    requires IsRing(l, s, c) && node !in s && node.list == null
    ensures RingInsertCut(l, s, c, node) && l.len == |s|
    ensures s != [] ==> s[c].prev != node
  {
  }

  method PlaceBeforeCursor(l: PList, node: Node, pw0: Power, ghost s: seq<Node>, ghost c: int) returns (pw: Power)
    requires !pw0.Off? && 0 <= c < |s| && RingInsertCut(l, s, c, node) && s[c].prev != node
    modifies node`prev, node`next, Opt(SlotPrev(s, c, true))`next, {s[c]}`prev
    ensures pw0.Mains? ==> pw.Mains?
    ensures RingInsertCut(l, s, c, node)
    ensures !pw.Off? ==> s[c].prev == node
  {
    pw := LinkBeforeCursor(l, node, l.cursor, pw0, SlotPrev(s, c, true), s[0]);
  }

  method HeadOfRing(l: PList, node: Node, pw0: Power, ghost s: seq<Node>, ghost c: int) returns (pw: Power)
    requires !pw0.Off? && 0 <= c < |s| && RingInsertCut(l, s, c, node) && s[c].prev == node
    modifies l`head
    ensures pw0.Mains? ==> pw.Mains?
    ensures RingInsertCut(l, s, c, node)
    ensures !pw.Off? ==> RingLinked(l, s, c, node)
  {
    pw := MoveHead(l, node, pw0, SlotPrev(s, c, true), s[c], s[0]);
  }

  method AloneInRing(l: PList, node: Node, pw0: Power, ghost s: seq<Node>) returns (pw: Power)
    requires !pw0.Off? && s == [] && RingInsertCut(l, s, 0, node)
    modifies l`cursor, l`head, node`prev, node`next
    ensures pw0.Mains? ==> pw.Mains?
    ensures RingInsertCut(l, s, 0, node)
    ensures !pw.Off? ==> RingLinked(l, s, 0, node)
  {
    pw := LinkAlone(l, node, pw0);
  }

  method GrowRing(l: PList, node: Node, newLen: nat, pw0: Power, ghost s: seq<Node>, ghost c: int) returns (pw: Power)
    requires !pw0.Off? && IsPos(s, c) && newLen == |s| + 1
    requires RingInsertCut(l, s, c, node) && RingLinked(l, s, c, node)
    modifies l`len
    ensures pw0.Mains? ==> pw.Mains?
    ensures RingInsertCut(l, s, c, node)
    ensures !pw.Off? ==> RingShape(l, With(s, c, node), CursorAfter(s, c))
    ensures !pw.Off? ==> (IsRing(l, With(s, c, node), CursorAfter(s, c)) <==> node.list == l)
  {
    pw := pw0.Tick();
    if pw.Off? { return; }
    l.len := newLen;
    RingInsertedShape(l, s, c, node);
  }

  ghost function Neighbours(s: seq<Node>, c: int): set<Node>
    requires IsPos(s, c)
  {
    if s == [] then {} else {s[c]}
  }

  /** The insertion itself, after `start_op_log`. A node that is in a list is left where it is. */
  method OptimizedInsertBeforeCursor(l: PList, node: Node, pw0: Power, ghost s: seq<Node>, ghost c: int) returns (pw: Power)
    requires !pw0.Off? && IsPos(s, c) && (node.list == null ==> IsRing(l, s, c) && node !in s)
    modifies l, node`list, node`prev, node`next, Opt(SlotPrev(s, c, true))`next, Neighbours(s, c)`prev
    ensures pw0.Mains? ==> pw.Mains?
    ensures old(node.list) != null ==> pw == pw0 && unchanged(l, node, s)
    ensures old(node.list) == null ==> RingInsertCut(l, s, c, node)
    ensures old(node.list) == null ==> node.list == (if pw0 == Failing(0) then null else l)
    ensures old(node.list) == null && !pw.Off? ==> IsRing(l, With(s, c, node), CursorAfter(s, c)) && node.list == l
  {
    if node.list != null { return pw0; }
    RingCutAtStart(l, s, c, node);
    pw := pw0.Tick();
    if pw.Off? { return; }
    node.list := l;
    if l.cursor == null {
      pw := AloneInRing(l, node, pw, s);
    } else {
      pw := PlaceBeforeCursor(l, node, pw, s, c);
      if pw.Off? { return; }
      pw := HeadOfRing(l, node, pw, s, c);
    }
    if pw.Off? { return; }
    pw := GrowRing(l, node, l.len + 1, pw, s, c);
  }

  /** The recovery never stores the container of the node: links, header and length are always
      repaired, and the node belongs to the ring exactly when it already did at the crash. */
  method RecoverFromFailedInsertBeforeCursor(l: PList, node: Node, oldLen: nat, pw0: Power,
                                             ghost s: seq<Node>, ghost c: int) returns (pw: Power)
    requires !pw0.Off? && IsPos(s, c) && oldLen == |s| && RingInsertCut(l, s, c, node)
    modifies l, node`prev, node`next, Opt(SlotPrev(s, c, true))`next, Neighbours(s, c)`prev
    ensures pw0.Mains? ==> pw.Mains?
    ensures RingInsertCut(l, s, c, node)
    ensures !pw.Off? ==> RingShape(l, With(s, c, node), CursorAfter(s, c))
    ensures !pw.Off? ==> (IsRing(l, With(s, c, node), CursorAfter(s, c)) <==> old(node.list) == l)
  {
    pw := pw0;
    if oldLen == 0 {
      pw := AloneInRing(l, node, pw, s);
    } else {
      if l.cursor.prev != node {
        pw := PlaceBeforeCursor(l, node, pw, s, c);
        if pw.Off? { return; }
      }
      pw := HeadOfRing(l, node, pw, s, c);
    }
    if pw.Off? { return; }
    pw := GrowRing(l, node, oldLen + 1, pw, s, c);
  }
}
