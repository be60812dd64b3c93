/** `optimized_insert_sorted` and its five-case recovery. */
module ListInsertSorted {
  import opened PowerSupply
  import opened PLists
  import opened ListLog

  /** `i` is the position the walk finds: the first node whose key is not below the new one. */
  ghost predicate IsSpot(s: seq<Node>, node: Node, i: int)
    reads s`key, node`key
  {
    && 0 <= i <= |s|
    && (forall j {:trigger s[j]} :: 0 <= j < i ==> s[j].key < node.key)
    && (i < |s| ==> node.key <= s[i].key)
  }

  ghost predicate Sorted(s: seq<Node>)
    reads s`key
  {
    forall i, j {:trigger s[i], s[j]} :: 0 <= i < j < |s| ==> s[i].key <= s[j].key
  }

  /** The walk has exactly one place to stop, on any list. */
  lemma {:induction false} SpotExists(s: seq<Node>, node: Node) returns (i: int)
    ensures IsSpot(s, node, i)
    ensures forall j :: IsSpot(s, node, j) ==> j == i
  {
    if s == [] || node.key <= s[0].key {
      i := 0;
    } else {
      var r := SpotExists(s[1..], node);
      i := r + 1;
      assert forall j {:trigger s[j]} :: 1 <= j < i ==> s[j] == s[1..][j - 1];
      assert i < |s| ==> s[i] == s[1..][r];
    }
  }

  /** Inserting at the spot keeps a sorted list sorted, before the nodes with an equal key. */
  lemma InsertKeepsSorted(s: seq<Node>, node: Node, i: int)
    requires Sorted(s) && IsSpot(s, node, i)
    ensures Sorted(With(s, i, node))
    ensures forall j :: i < j <= |s| ==> node.key <= With(s, i, node)[j].key
    ensures forall j :: 0 <= j < i ==> With(s, i, node)[j].key < node.key
  {
    var t := With(s, i, node);
    forall a, b {:trigger t[a], t[b]} | 0 <= a < b < |t|
      ensures t[a].key <= t[b].key
    {
      if a != i && b != i {
        assert t[a] == s[if a < i then a else a - 1] && t[b] == s[if b < i then b else b - 1];
      } else if a == i {
        assert t[b] == s[b - 1];
      } else {
        assert t[a] == s[a];
      }
    }
    forall j | i < j <= |s| ensures node.key <= t[j].key {
      assert t[j] == s[j - 1];
    }
  }

  // ---------- what a power failure may leave behind ----------

  /** Neighbours of the slot still point at each other; the header is that of the old list. */
  ghost predicate SlotIntact(l: PList, s: seq<Node>, p: Node?, n: Node?)
    reads l, Opt(p)`next, Opt(n)`prev
  {
    && (p != null ==> p.next == n) && (n != null ==> n.prev == p)
    && l.head == First(s) && l.len == |s|
  }

  /** The links of the node are cleared and it claims, or is about to claim, its container. */
  ghost predicate Cleared(l: PList, s: seq<Node>, node: Node, p: Node?, n: Node?)
    reads l, node, Opt(p)`next, Opt(n)`prev
  {
    node.next == null && node.prev == null && (node.list == l || node.list == null) && SlotIntact(l, s, p, n)
  }

  /** Inserting before `n`: the store that makes `n` point back comes after the node's own links. */
  ghost predicate BeforeCut(l: PList, s: seq<Node>, node: Node, p: Node?, n: Node?)
    reads l, node, Opt(p)`next, Opt(n)`prev
  {
    && n != null && node.list == l && node.next == n
    && (n.prev == node ==> node.prev == p)
    && (n.prev != node ==> n.prev == p && (p != null ==> p.next == n) && l.head == First(s))
    && (p != null ==> l.head == First(s) && (p.next == n || p.next == node))
    && (p == null ==> l.head == n || l.head == node)
  }

  /** Inserting at the end. */
  ghost predicate TailCut(l: PList, s: seq<Node>, node: Node, p: Node?, n: Node?)
    reads l, node, Opt(p)`next
  {
    && n == null && p != null && node.list == l && node.next == null && node.prev == p
    && (p.next == null || p.next == node) && l.head == First(s)
  }

  /** Inserting into an empty list. */
  ghost predicate OnlyCut(l: PList, node: Node, p: Node?, n: Node?)
    reads l, node
  {
    n == null && p == null && node.list == l && node.next == null && node.prev == null && l.head == node
  }

  ghost predicate StageCut(l: PList, s: seq<Node>, node: Node, p: Node?, n: Node?)
    reads l, node, Opt(p)`next, Opt(n)`prev
  {
    || (node.list == null && SlotIntact(l, s, p, n))
    || Cleared(l, s, node, p, n)
    || BeforeCut(l, s, node, p, n)
    || TailCut(l, s, node, p, n)
    || OnlyCut(l, node, p, n)
  }

  ghost predicate Beside(l: PList, s: seq<Node>, i: int, node: Node)
    requires 0 <= i <= |s|
    reads s`prev, s`next, s`list, l`cursor
  {
    Distinct(s) && node !in s && LinkedBeside(s, i, false) && Owned(l, s) && l.cursor == null
  }

  /** Everything a power failure may leave behind after the insertion was logged. */
  ghost predicate InsertCut(l: PList, s: seq<Node>, i: int, node: Node)
    requires 0 <= i <= |s|
    reads l, s, node
  {
    Beside(l, s, i, node) && StageCut(l, s, node, SlotPrev(s, i, false), SlotNext(s, i, false))
  }

  /** The node sits in its slot. */
  ghost predicate InSlot(l: PList, s: seq<Node>, node: Node, p: Node?, n: Node?)
    reads l, node, Opt(p)`next, Opt(n)`prev
  {
    && node.list == l && node.prev == p && node.next == n
    && (p != null ==> p.next == node) && (n != null ==> n.prev == node)
    && l.head == (if p == null then node else First(s))
  }

  // ---------- the stores ----------

  /** Insert before `n`: from any cut of this insertion, redo what is missing. */
  method LinkBefore(l: PList, node: Node, at: Node, pw0: Power, ghost s: seq<Node>, ghost p: Node?) returns (pw: Power)
    requires !pw0.Off? && node != at && p != node && p != at
    requires Cleared(l, s, node, p, at) && node.list == l && (p == null ==> First(s) == at)
    modifies l`head, node`next, node`prev, Opt(p)`next, at`prev
    ensures pw0.Mains? ==> pw.Mains?
    ensures Cleared(l, s, node, p, at) || BeforeCut(l, s, node, p, at)
    ensures !pw.Off? ==> InSlot(l, s, node, p, at)
  {
    pw := pw0.Tick();
    if pw.Off? { return; }
    node.next := at;
    pw := pw.Tick();
    if pw.Off? { return; }
    node.prev := at.prev;
    pw := pw.Tick();
    if pw.Off? { return; }
    at.prev := node;
    pw := pw.Tick();
    if pw.Off? { return; }
    if node.prev != null {
      node.prev.next := node;
    } else {
      l.head := node;
    }
  }

  method LinkAfter(l: PList, node: Node, at: Node, pw0: Power, ghost s: seq<Node>) returns (pw: Power)
    requires !pw0.Off? && node != at
    requires Cleared(l, s, node, at, null) && node.list == l
    modifies node`next, node`prev, at`next
    ensures pw0.Mains? ==> pw.Mains?
    ensures Cleared(l, s, node, at, null) || TailCut(l, s, node, at, null)
    ensures !pw.Off? ==> InSlot(l, s, node, at, null)
  {
    pw := pw0.Tick();
    if pw.Off? { return; }
    node.prev := at;
    pw := pw.Tick();
    if pw.Off? { return; }
    node.next := null;
    pw := pw.Tick();
    if pw.Off? { return; }
    at.next := node;
  }

  /** The walk along the list: the node before which to insert, or the last node. */
  method Walk(l: PList, node: Node, ghost s: seq<Node>, ghost i: int) returns (at: Node, tail: bool)
    requires s != [] && l.head == s[0] && Linked(s, false) && IsSpot(s, node, i)
    ensures !tail ==> i < |s| && at == s[i]
    ensures tail ==> i == |s| && at == s[|s| - 1]
  {
    at := l.head;
    ghost var j := 0;
    while node.key > at.key
      invariant 0 <= j <= i && j < |s| && at == s[j]
      decreases |s| - j
    {
      if at.next == null {
        return at, true;
      }
      at := at.next;
      j := j + 1;
    }
    tail := false;
  }

  // ---------- the operation on the whole list ----------

  method PlaceBefore(l: PList, node: Node, at: Node, pw0: Power, ghost s: seq<Node>, ghost i: int) returns (pw: Power)
    requires !pw0.Off? && 0 <= i < |s| && at == s[i]
    requires Beside(l, s, i, node) && node.list == l
    requires Cleared(l, s, node, SlotPrev(s, i, false), at)
    modifies l`head, node`next, node`prev, Opt(SlotPrev(s, i, false))`next, at`prev
    ensures pw0.Mains? ==> pw.Mains?
    ensures InsertCut(l, s, i, node)
    ensures !pw.Off? ==> InSlot(l, s, node, SlotPrev(s, i, false), at)
  {
    hide Cleared, BeforeCut, InSlot, SlotIntact, TailCut, OnlyCut, Owned;
    pw := LinkBefore(l, node, at, pw0, s, SlotPrev(s, i, false));
  }

  method PlaceLast(l: PList, node: Node, at: Node, pw0: Power, ghost s: seq<Node>) returns (pw: Power)
    requires !pw0.Off? && s != [] && at == s[|s| - 1]
    requires Beside(l, s, |s|, node) && node.list == l
    requires Cleared(l, s, node, at, null)
    modifies node`next, node`prev, at`next
    ensures pw0.Mains? ==> pw.Mains?
    ensures InsertCut(l, s, |s|, node)
    ensures !pw.Off? ==> InSlot(l, s, node, at, null)
  {
    hide Cleared, BeforeCut, InSlot, SlotIntact, TailCut, OnlyCut, Owned;
    pw := LinkAfter(l, node, at, pw0, s);
  }

  lemma InsertedShape(l: PList, s: seq<Node>, i: int, node: Node)
    requires 0 <= i <= |s| && Beside(l, s, i, node)
    requires InSlot(l, s, node, SlotPrev(s, i, false), SlotNext(s, i, false)) && l.len == |s| + 1
    ensures IsChain(l, With(s, i, node))
  {
    WithIsDistinct(s, i, node);
    WithIsLinked(s, i, node, false);
  }

  lemma SlotOfChain(l: PList, s: seq<Node>, i: int, node: Node)
    requires 0 <= i <= |s| && IsChain(l, s) && node !in s
    ensures Beside(l, s, i, node)
    ensures SlotIntact(l, s, SlotPrev(s, i, false), SlotNext(s, i, false))
  {
  }

  lemma ChainOfSlot(l: PList, s: seq<Node>, i: int, node: Node)
    requires 0 <= i <= |s| && Beside(l, s, i, node)
    requires SlotIntact(l, s, SlotPrev(s, i, false), SlotNext(s, i, false))
    ensures IsChain(l, s)
  {
  }

  /** The last store. */
  method Grow(l: PList, node: Node, newLen: nat, pw0: Power, ghost s: seq<Node>, ghost i: int) returns (pw: Power)
    requires !pw0.Off? && 0 <= i <= |s| && newLen == |s| + 1 && Beside(l, s, i, node)
    requires InSlot(l, s, node, SlotPrev(s, i, false), SlotNext(s, i, false))
    modifies l`len
    ensures pw0.Mains? ==> pw.Mains?
    ensures InsertCut(l, s, i, node)
    ensures !pw.Off? ==> IsChain(l, With(s, i, node))
  {
    pw := pw0.Tick();
    if pw.Off? { return; }
    l.len := newLen;
    InsertedShape(l, s, i, node);
  }

  /** Find the slot and store the links. */
  method LinkSorted(l: PList, node: Node, pw0: Power, ghost s: seq<Node>, ghost i: int) returns (pw: Power)
    requires !pw0.Off? && IsSpot(s, node, i) && Beside(l, s, i, node) && node.list == l
    requires Cleared(l, s, node, SlotPrev(s, i, false), SlotNext(s, i, false))
    modifies l`head, node`next, node`prev, Opt(SlotPrev(s, i, false))`next, Opt(SlotNext(s, i, false))`prev
    ensures pw0.Mains? ==> pw.Mains?
    ensures InsertCut(l, s, i, node)
    ensures !pw.Off? ==> InSlot(l, s, node, SlotPrev(s, i, false), SlotNext(s, i, false))
  {
    ChainOfSlot(l, s, i, node);
    if l.head == null {
      pw := pw0.Tick();
      if pw.Off? { return; }
      l.head := node;
    } else {
      var at, tail := Walk(l, node, s, i);
      if tail {
        pw := PlaceLast(l, node, at, pw0, s);
      } else {
        pw := PlaceBefore(l, node, at, pw0, s, i);
      }
    }
  }

  method InsertSortedImpl(l: PList, node: Node, pw0: Power, ghost s: seq<Node>, ghost i: int) returns (pw: Power)
    requires !pw0.Off? && IsSpot(s, node, i) && Beside(l, s, i, node)
    requires Cleared(l, s, node, SlotPrev(s, i, false), SlotNext(s, i, false))
    modifies l, node`list, node`next, node`prev, Opt(SlotPrev(s, i, false))`next, Opt(SlotNext(s, i, false))`prev
    ensures pw0.Mains? ==> pw.Mains?
    ensures InsertCut(l, s, i, node)
    ensures !pw.Off? ==> IsChain(l, With(s, i, node))
  {
    pw := pw0.Tick();
    if pw.Off? { return; }
    node.list := l;
    pw := LinkSorted(l, node, pw, s, i);
    if pw.Off? { return; }
    pw := Grow(l, node, l.len + 1, pw, s, i);
  }

  /** Clear the links of a free node, as both the operation and case 1 of its recovery do. */
  method ClearLinks(l: PList, node: Node, pw0: Power, ghost s: seq<Node>, ghost i: int) returns (pw: Power)
    requires !pw0.Off? && 0 <= i <= |s| && InsertCut(l, s, i, node) && node.list == null
    requires SlotIntact(l, s, SlotPrev(s, i, false), SlotNext(s, i, false))
    modifies node`next, node`prev
    ensures pw0.Mains? ==> pw.Mains?
    ensures InsertCut(l, s, i, node)
    ensures SlotIntact(l, s, SlotPrev(s, i, false), SlotNext(s, i, false))
    ensures !pw.Off? ==> node.next == null && node.prev == null
  {
    pw := pw0.Tick();
    if pw.Off? { return; }
    node.next := null;
    pw := pw.Tick();
    if pw.Off? { return; }
    node.prev := null;
  }

  method InsertFree(l: PList, node: Node, pw0: Power, ghost s: seq<Node>, ghost i: int) returns (pw: Power)
    requires !pw0.Off? && IsSpot(s, node, i) && Beside(l, s, i, node) && node.list == null
    requires SlotIntact(l, s, SlotPrev(s, i, false), SlotNext(s, i, false))
    modifies l, node`list, node`next, node`prev, Opt(SlotPrev(s, i, false))`next, Opt(SlotNext(s, i, false))`prev
    ensures pw0.Mains? ==> pw.Mains?
    ensures InsertCut(l, s, i, node)
    ensures !pw.Off? ==> IsChain(l, With(s, i, node))
  {
    pw := ClearLinks(l, node, pw0, s, i);
    if pw.Off? { return; }
    pw := InsertSortedImpl(l, node, pw, s, i);
  }

  method OptimizedInsertSorted(l: PList, node: Node, pw0: Power, ghost s: seq<Node>, ghost i: int) returns (pw: Power)
    requires !pw0.Off? && IsChain(l, s) && node !in s && node.list == null && IsSpot(s, node, i)
    modifies l, node`list, node`next, node`prev, Opt(SlotPrev(s, i, false))`next, Opt(SlotNext(s, i, false))`prev
    ensures pw0.Mains? ==> pw.Mains?
    ensures InsertCut(l, s, i, node)
    ensures !pw.Off? ==> IsChain(l, With(s, i, node))
  {
    SlotOfChain(l, s, i, node);
    pw := InsertFree(l, node, pw0, s, i);
  }

  lemma InsertCutAtStart(l: PList, s: seq<Node>, i: int, node: Node)
    requires 0 <= i <= |s| && IsChain(l, s) && node !in s && node.list == null
    ensures InsertCut(l, s, i, node) && l.len == |s|
  {
  }

  // ---------- recovery ----------

  /** The insertion before `at` has begun: finish it from whatever is there. */
  method FinishBefore(l: PList, node: Node, at: Node, pw0: Power, ghost s: seq<Node>, ghost p: Node?) returns (pw: Power)
    requires !pw0.Off? && node != at && p != node && p != at && BeforeCut(l, s, node, p, at)
    requires p == null ==> First(s) == at
    modifies l`head, node`prev, Opt(p)`next, at`prev
    ensures pw0.Mains? ==> pw.Mains?
    ensures BeforeCut(l, s, node, p, at)
    ensures !pw.Off? ==> InSlot(l, s, node, p, at)
  {
    pw := pw0;
    if at.prev != node {
      pw := pw.Tick();
      if pw.Off? { return; }
      node.prev := at.prev;
      pw := pw.Tick();
      if pw.Off? { return; }
      at.prev := node;
    }
    pw := pw.Tick();
    if pw.Off? { return; }
    if node.prev != null {
      node.prev.next := node;
    } else {
      l.head := node;
    }
  }

  method FinishLast(l: PList, node: Node, at: Node, pw0: Power, ghost s: seq<Node>) returns (pw: Power)
    requires !pw0.Off? && node != at && TailCut(l, s, node, at, null)
    modifies node`next, at`next
    ensures pw0.Mains? ==> pw.Mains?
    ensures TailCut(l, s, node, at, null)
    ensures !pw.Off? ==> InSlot(l, s, node, at, null)
  {
    pw := pw0.Tick();
    if pw.Off? { return; }
    node.next := null;
    pw := pw.Tick();
    if pw.Off? { return; }
    at.next := node;
  }

  /** The node's own fields tell how far an insertion got. */
  lemma FieldsTellTheStage(l: PList, s: seq<Node>, i: int, node: Node)
    requires 0 <= i <= |s| && InsertCut(l, s, i, node) && node.list == l
    ensures var p, n := SlotPrev(s, i, false), SlotNext(s, i, false);
            && (node.next != null ==> BeforeCut(l, s, node, p, n) && node.next == n)
            && (node.next == null && node.prev != null ==> TailCut(l, s, node, p, n) && node.prev == p)
            && (node.next == null && node.prev == null && l.head == node ==> InSlot(l, s, node, p, n))
            && (node.next == null && node.prev == null && l.head != node ==> Cleared(l, s, node, p, n))
  {
  }

  lemma SidesDiffer(s: seq<Node>, i: int)
    requires 0 <= i < |s| && Distinct(s)
    ensures SlotPrev(s, i, false) != SlotNext(s, i, false)
  {
  }

  /** Case 2: the node knows its successor. */
  method RecoverBefore(l: PList, node: Node, at: Node, pw0: Power, ghost s: seq<Node>, ghost i: int) returns (pw: Power)
    requires !pw0.Off? && 0 <= i < |s| && at == s[i] && Beside(l, s, i, node)
    requires BeforeCut(l, s, node, SlotPrev(s, i, false), at)
    modifies l`head, node`prev, Opt(SlotPrev(s, i, false))`next, at`prev
    ensures pw0.Mains? ==> pw.Mains?
    ensures Beside(l, s, i, node) && BeforeCut(l, s, node, SlotPrev(s, i, false), at)
    ensures !pw.Off? ==> InSlot(l, s, node, SlotPrev(s, i, false), at)
  {
    hide Distinct, Owned, BeforeCut, InSlot;
    SidesDiffer(s, i);
    pw := FinishBefore(l, node, at, pw0, s, SlotPrev(s, i, false));
  }

  /** Case 3: the node knows its predecessor only. */
  method RecoverLast(l: PList, node: Node, at: Node, pw0: Power, ghost s: seq<Node>) returns (pw: Power)
    requires !pw0.Off? && s != [] && at == s[|s| - 1] && Beside(l, s, |s|, node)
    requires TailCut(l, s, node, at, null)
    modifies node`next, at`next
    ensures pw0.Mains? ==> pw.Mains?
    ensures Beside(l, s, |s|, node) && TailCut(l, s, node, at, null)
    ensures !pw.Off? ==> InSlot(l, s, node, at, null)
  {
    hide Distinct, TailCut, InSlot;
    pw := FinishLast(l, node, at, pw0, s);
  }

  /** Cases 2 and 3 store the container once more. */
  method Claim(l: PList, node: Node, pw0: Power, ghost s: seq<Node>, ghost i: int) returns (pw: Power)
    requires !pw0.Off? && 0 <= i <= |s| && Beside(l, s, i, node)
    requires InSlot(l, s, node, SlotPrev(s, i, false), SlotNext(s, i, false))
    modifies node`list
    ensures pw0.Mains? ==> pw.Mains?
    ensures Beside(l, s, i, node)
    ensures InSlot(l, s, node, SlotPrev(s, i, false), SlotNext(s, i, false))
  {
    hide Distinct, LinkedBeside;
    pw := pw0.Tick();
    if pw.Off? { return; }
    node.list := l;
  }

  lemma InSlotIsCut(l: PList, s: seq<Node>, i: int, node: Node)
    requires 0 <= i <= |s| && Beside(l, s, i, node)
    requires InSlot(l, s, node, SlotPrev(s, i, false), SlotNext(s, i, false))
    ensures InsertCut(l, s, i, node)
  {
    hide Distinct, LinkedBeside, Owned;
  }

  method RecoverFromFailedInsertSorted(l: PList, node: Node, oldLen: nat, pw0: Power,
                                       ghost s: seq<Node>, ghost i: int) returns (pw: Power)
    requires !pw0.Off? && oldLen == |s| && IsSpot(s, node, i) && InsertCut(l, s, i, node)
    modifies l, node`list, node`next, node`prev, Opt(SlotPrev(s, i, false))`next, Opt(SlotNext(s, i, false))`prev
    ensures pw0.Mains? ==> pw.Mains?
    ensures InsertCut(l, s, i, node)
    ensures !pw.Off? ==> IsChain(l, With(s, i, node))
  {
    if node.list != l {
      pw := InsertFree(l, node, pw0, s, i);
    } else {
      pw := RecoverOwned(l, node, oldLen, pw0, s, i);
    }
  }

  method RecoverOwned(l: PList, node: Node, oldLen: nat, pw0: Power, ghost s: seq<Node>, ghost i: int) returns (pw: Power)
    requires !pw0.Off? && oldLen == |s| && IsSpot(s, node, i) && InsertCut(l, s, i, node) && node.list == l
    modifies l, node`list, node`next, node`prev, Opt(SlotPrev(s, i, false))`next, Opt(SlotNext(s, i, false))`prev
    ensures pw0.Mains? ==> pw.Mains?
    ensures InsertCut(l, s, i, node)
    ensures !pw.Off? ==> IsChain(l, With(s, i, node))
  {
    hide Distinct, LinkedBeside, Owned, Linked, IsChain, InSlot;
    FieldsTellTheStage(l, s, i, node);
    pw := pw0;
    if node.next == null && node.prev == null && l.head != node {
      // case 5: never inserted, redo everything
      pw := pw.Tick();
      if pw.Off? { return; }
      l.len := oldLen;
      pw := InsertSortedImpl(l, node, pw, s, i);
      return;
    }
    if node.next != null {
      pw := RecoverBefore(l, node, node.next, pw, s, i);
    } else if node.prev != null {
      pw := RecoverLast(l, node, node.prev, pw, s);
    }
    if pw.Off? { return; }
    InSlotIsCut(l, s, i, node);
    if node.next != null || node.prev != null {
      pw := Claim(l, node, pw, s, i);
      InSlotIsCut(l, s, i, node);
      if pw.Off? { return; }
    }
    pw := Grow(l, node, oldLen + 1, pw, s, i);
  }
}
