/** `optimized_remove` and its recovery. */
module ListRemove {
  import opened PowerSupply
  import opened PLists
  import opened ListLog

  /** Where a header link points once `node` is gone. */
  ghost function Past(link: Node?, node: Node, next: Node?): Node? {
    if link == node then next else link
  }

  /** Where the cursor is once position `k` is gone. */
  ghost function CursorWithout(c: Node?, s: seq<Node>, k: int, circ: bool): Node?
    requires 0 <= k < |s|
  {
    if c != s[k] then c else if |s| == 1 then null else NextOf(s, k, circ)
  }

  /** Everything a power failure may leave behind after `Remove` of `s[k]` was logged:
      every cell the operation writes holds its old or its new value. */
  ghost predicate RemoveCut(l: PList, s: seq<Node>, k: int, circ: bool, c0: Node?)
    requires 0 <= k < |s|
    reads l, s
  {
    && Distinct(s) && LinksCut(s, k, circ)
    && OwnedBut(l, s, k)
    && (l.cursor == c0 || (c0 == s[k] && l.cursor == NextOf(s, k, circ)))
    && (l.head == s[0] || (k == 0 && l.head == NextOf(s, k, circ)))
  }

  ghost predicate OwnedBut(l: PList, s: seq<Node>, k: int)
    requires 0 <= k < |s|
    reads s`list
  {
    && (forall i {:trigger s[i]} :: 0 <= i < |s| && i != k ==> s[i].list == l)
    && (s[k].list == l || s[k].list == null)
  }

  ghost predicate LinksCut(s: seq<Node>, k: int, circ: bool)
    requires 0 <= k < |s|
    reads s`prev, s`next
  {
    && LinkedAround(s, k, circ)
    && NeighboursCut(s[k], PrevOf(s, k, circ), NextOf(s, k, circ))
  }

  ghost predicate NeighboursCut(node: Node, p: Node?, n: Node?)
    reads node`prev, node`next, Opt(p)`next, Opt(n)`prev
  {
    && node.prev == p && node.next == n && p != node && n != node
    && (p != null ==> p.next == node || p.next == n)
    && (n != null ==> n.prev == node || n.prev == p)
  }

  ghost predicate Bypassed(node: Node, p: Node?, n: Node?)
    reads Opt(p)`next, Opt(n)`prev
  {
    (p != null ==> p.next == n) && (n != null ==> n.prev == p)
  }

  /** The two stores that make the neighbours of `node` point past it. */
  method StoreNeighbours(node: Node, pw0: Power) returns (pw: Power)
    requires !pw0.Off? && NeighboursCut(node, node.prev, node.next)
    modifies Opt(node.prev)`next, Opt(node.next)`prev
    ensures pw == pw0.After(2)
    ensures NeighboursCut(node, old(node.prev), old(node.next))
    ensures !pw.Off? ==> Bypassed(node, node.prev, node.next)
  {
    pw := pw0.Tick();
    if pw.Off? { return; }
    if node.prev != null {
      node.prev.next := node.next;
    }
    pw := pw.Tick();
    if pw.Off? { return; }
    if node.next != null {
      node.next.prev := node.prev;
    }
  }

  method BypassLinks(node: Node, pw0: Power, ghost s: seq<Node>, ghost k: int, ghost circ: bool) returns (pw: Power)
    requires !pw0.Off? && 0 <= k < |s| && s[k] == node && LinksCut(s, k, circ)
    modifies Opt(node.prev)`next, Opt(node.next)`prev
    ensures pw == pw0.After(2)
    ensures LinksCut(s, k, circ)
    ensures !pw.Off? ==> Bypassed(node, node.prev, node.next)
  {
    pw := StoreNeighbours(node, pw0);
  }

  method Bypass(l: PList, node: Node, pw0: Power,
                ghost s: seq<Node>, ghost k: int, ghost circ: bool, ghost c0: Node?) returns (pw: Power)
    requires !pw0.Off? && 0 <= k < |s| && s[k] == node && RemoveCut(l, s, k, circ, c0)
    modifies Opt(node.prev)`next, Opt(node.next)`prev
    ensures pw == pw0.After(2)
    ensures RemoveCut(l, s, k, circ, c0)
    ensures !pw.Off? ==> Bypassed(node, node.prev, node.next)
  {
    pw := BypassLinks(node, pw0, s, k, circ);
  }

  /** Move cursor and head off `node`. */
  method SkipHeader(l: PList, node: Node, pw0: Power,
                    ghost s: seq<Node>, ghost k: int, ghost circ: bool, ghost c0: Node?) returns (pw: Power)
    requires !pw0.Off? && 0 <= k < |s| && s[k] == node && RemoveCut(l, s, k, circ, c0)
    modifies l`cursor, l`head
    ensures pw == pw0.After(2)
    ensures RemoveCut(l, s, k, circ, c0)
    ensures !pw.Off? ==> l.cursor == Past(c0, node, node.next) && l.head == Past(s[0], node, node.next)
  {
    pw := pw0.Tick();
    if pw.Off? { return; }
    if l.cursor == node {
      l.cursor := node.next;
    }
    pw := pw.Tick();
    if pw.Off? { return; }
    if l.head == node {
      l.head := node.next;
    }
  }

  /** Shrink the list, then release the node. */
  method Release(l: PList, node: Node, newLen: nat, pw0: Power,
                 ghost s: seq<Node>, ghost k: int, ghost circ: bool, ghost c0: Node?) returns (pw: Power)
    requires !pw0.Off? && 0 <= k < |s| && s[k] == node && newLen == |s| - 1 && RemoveCut(l, s, k, circ, c0)
    requires Bypassed(node, node.prev, node.next) && l.head == Past(s[0], node, node.next)
    modifies l`len, node`list
    ensures pw == pw0.After(2)
    ensures RemoveCut(l, s, k, circ, c0)
    ensures pw.Off? ==> node.list == old(node.list)
    ensures !pw.Off? ==> node.list == null && IsList(l, Without(s, k), circ)
  {
    hide LinkedAround, IsList;
    pw := pw0.Tick();
    if pw.Off? { return; }
    l.len := newLen;
    pw := pw.Tick();
    if pw.Off? { return; }
    node.list := null;
    RemovedShape(l, s, k, circ, c0);
  }

  lemma RemovedShape(l: PList, s: seq<Node>, k: int, circ: bool, c0: Node?)
    requires 0 <= k < |s| && RemoveCut(l, s, k, circ, c0)
    requires Bypassed(s[k], s[k].prev, s[k].next) && l.head == Past(s[0], s[k], s[k].next)
    requires s[k].list == null && l.len == |s| - 1
    ensures IsList(l, Without(s, k), circ)
  {
    WithoutIsDistinct(s, k);
    WithoutIsLinked(s, k, circ);
  }

  /** A chain has no cursor, and a removal sets none. */
  lemma CursorStaysUnset(s: seq<Node>, k: int)
    requires 0 <= k < |s|
    ensures CursorWithout(null, s, k, false) == null
  {
  }

  /** The removal of `s[k]`; `k == -1` says that the node is in no list, and then only the log changes. */
  method OptimizedRemove(l: PList, node: Node, log: OpLog, pw0: Power,
                         ghost s: seq<Node>, ghost k: int, ghost circ: bool) returns (pw: Power)
    requires !pw0.Off? && -1 <= k < |s| < MAX_LEN
    requires if k < 0 then node.list == null else s[k] == node
    requires IsList(l, s, circ) && (l.cursor == null || l.cursor in s)
    requires circ ==> |s| > 1
    modifies l, log`word, node`list, (if k < 0 then {} else Opt(node.prev))`next, (if k < 0 then {} else Opt(node.next))`prev
    ensures pw == pw0.After(if k < 0 then 1 else if |s| == 1 then 5 else 7)
    ensures k < 0 ==> IsList(l, s, circ) && l.cursor == old(l.cursor)
    ensures k >= 0 ==> RemoveCut(l, s, k, circ, old(l.cursor))
    ensures pw.Off? ==> node.list == old(node.list)
    ensures if pw0 == Failing(0) then
              pw.Off? && log.word == old(log.word) && IsList(l, s, circ) && l.cursor == old(l.cursor)
            else Logged(log, Remove, |s|)
    ensures !pw.Off? ==> Logged(log, Remove, |s|) && node.list == null
    ensures !pw.Off? && k >= 0 ==> IsList(l, Without(s, k), circ) && l.cursor == CursorWithout(old(l.cursor), s, k, circ)
  {
    hide RemoveCut, CursorWithout, Without, Distinct, Linked;
    if k >= 0 {
      CutAtStart(l, s, k, circ);
    }
    pw := StartOpLog(log, Remove, l.len, pw0);
    if pw.Off? { return; }
    if node.list == null { return; }
    pw := Unlink(l, node, pw, s, k, circ);
  }

  lemma CutAtStart(l: PList, s: seq<Node>, k: int, circ: bool)
    requires 0 <= k < |s| && IsList(l, s, circ)
    requires circ ==> |s| > 1
    ensures RemoveCut(l, s, k, circ, l.cursor)
  {
  }

  method Unlink(l: PList, node: Node, pw0: Power,
                ghost s: seq<Node>, ghost k: int, ghost circ: bool) returns (pw: Power)
    requires !pw0.Off? && 0 <= k < |s| && s[k] == node && l.len == |s|
    requires RemoveCut(l, s, k, circ, l.cursor) && (l.cursor == null || l.cursor in s)
    requires circ ==> |s| > 1
    modifies l, node`list, Opt(node.prev)`next, Opt(node.next)`prev
    ensures pw == pw0.After(if |s| == 1 then 4 else 6)
    ensures RemoveCut(l, s, k, circ, old(l.cursor))
    ensures pw.Off? ==> node.list == old(node.list)
    ensures !pw.Off? ==> node.list == null && IsList(l, Without(s, k), circ)
    ensures !pw.Off? ==> l.cursor == CursorWithout(old(l.cursor), s, k, circ)
  {
    ghost var c0 := l.cursor;
    if l.len == 1 {
      pw := ClearHeader(l, node, pw0, s, k, circ, c0);
    } else {
      pw := Bypass(l, node, pw0, s, k, circ, c0);
      if pw.Off? { return; }
      pw := SkipHeader(l, node, pw, s, k, circ, c0);
    }
    if pw.Off? { return; }
    pw := Release(l, node, l.len - 1, pw, s, k, circ, c0);
  }

  method ClearHeader(l: PList, node: Node, pw0: Power,
                     ghost s: seq<Node>, ghost k: int, ghost circ: bool, ghost c0: Node?) returns (pw: Power)
    requires !pw0.Off? && 0 <= k < |s| == 1 && !circ && s[k] == node && RemoveCut(l, s, k, circ, c0)
    requires c0 == null || c0 in s
    modifies l`cursor, l`head
    ensures pw == pw0.After(2)
    ensures RemoveCut(l, s, k, circ, c0)
    ensures !pw.Off? ==> l.cursor == Past(c0, node, node.next) && l.head == Past(s[0], node, node.next)
    ensures !pw.Off? ==> Bypassed(node, node.prev, node.next)
  {
    pw := pw0.Tick();
    if pw.Off? { return; }
    l.cursor := null;
    pw := pw.Tick();
    if pw.Off? { return; }
    l.head := null;
  }

  method RecoverFromFailedRemove(l: PList, node: Node, oldLen: nat, pw0: Power,
                                 ghost s: seq<Node>, ghost k: int, ghost circ: bool, ghost c0: Node?)
    returns (pw: Power)
    requires !pw0.Off? && 0 <= k < |s| && s[k] == node && oldLen == |s|
    requires RemoveCut(l, s, k, circ, c0) && (c0 == null || c0 in s)
    requires circ ==> |s| > 1
    modifies l, node`list, Opt(node.prev)`next, Opt(node.next)`prev
    ensures pw == pw0.After(6)
    ensures RemoveCut(l, s, k, circ, c0)
    ensures pw.Off? ==> node.list == old(node.list)
    ensures !pw.Off? ==> node.list == null && IsList(l, Without(s, k), circ)
    ensures !pw.Off? ==> l.cursor == CursorWithout(c0, s, k, circ)
  {
    pw := Bypass(l, node, pw0, s, k, circ, c0);
    if pw.Off? { return; }
    pw := SkipHeader(l, node, pw, s, k, circ, c0);
    if pw.Off? { return; }
    pw := Release(l, node, oldLen - 1, pw, s, k, circ, c0);
  }

  lemma CutNeighboursAreIn(l: PList, s: seq<Node>, k: int, circ: bool, c0: Node?)
    requires 0 <= k < |s| && RemoveCut(l, s, k, circ, c0)
    ensures s[k].prev == null || s[k].prev in s
    ensures s[k].next == null || s[k].next in s
  {
  }
}
