/** Where the recovery of a removal meets its promise and where it does not: the only node of a ring, and a
    node that was in no list. */
module RemoveLimits {
  import opened PowerSupply
  import opened PLists
  import opened ListLog
  import opened ListRemove

  /** `old_len - 1` on the 16-bit `usize`. */
  function Pred16(n: nat): nat {
    if n == 0 then 0xFFFF else n - 1
  }

  /** `recover_from_failed_remove` on any node, without assuming anything about it. */
  method RecoverRemoveOfAny(l: PList, node: Node, oldLen: nat, pw0: Power) returns (pw: Power)
    requires !pw0.Off?
    modifies l, node`list, Opt(node.prev)`next, Opt(node.next)`prev
    ensures pw0.Mains? ==> pw.Mains?
    ensures node.prev == old(node.prev) && node.next == old(node.next)
    ensures !pw.Off? && node.prev != null ==> node.prev.next == node.next
    ensures !pw.Off? && node.next != null ==> node.next.prev == node.prev
    ensures !pw.Off? ==> l.cursor == Past(old(l.cursor), node, old(node.next))
    ensures !pw.Off? ==> l.head == Past(old(l.head), node, old(node.next))
    ensures !pw.Off? ==> l.len == Pred16(oldLen) && node.list == null
    ensures pw.Off? ==> l.cursor == old(l.cursor) || (old(l.cursor) == node && l.cursor == old(node.next))
    ensures pw.Off? ==> l.head == old(l.head) || (old(l.head) == node && l.head == old(node.next))
  {
    pw := pw0.Tick();
    if pw.Off? { return; }
    if node.prev != null {
      node.prev.next := node.next;
    }
    pw := pw.Tick();
    if pw.Off? { return; }
    if node.next != null {
      node.next.prev := node.prev;
    }
    pw := pw.Tick();
    if pw.Off? { return; }
    if l.cursor == node {
      l.cursor := node.next;
    }
    pw := pw.Tick();
    if pw.Off? { return; }
    if l.head == node {
      l.head := node.next;
    }
    pw := pw.Tick();
    if pw.Off? { return; }
    l.len := Pred16(oldLen);
    pw := pw.Tick();
    if pw.Off? { return; }
    node.list := null;
  }

  /** What a reboot finds of a ring whose only node is being removed, by the number of stores that were made:
      the record, the cursor, the head, the length and the container. */
  ghost predicate RingRemovalAt(l: PList, node: Node, made: nat)
    reads l, node
  {
    && node.prev == node && node.next == node
    && l.cursor == (if made < 2 then node else null) && l.head == (if made < 3 then node else null)
    && l.len == (if made < 4 then 1 else 0) && node.list == (if made < 5 then l else null)
  }

  /** The removal of the only node of a ring: cursor and head are cleared, the node keeps pointing at itself. */
  method RemoveOnlyRingNode(l: PList, node: Node, log: OpLog, pw0: Power) returns (pw: Power)
    requires !pw0.Off? && IsRing(l, [node], 0)
    modifies l, log`word, node`list
    ensures pw == pw0.After(5)
    ensures RingRemovalAt(l, node, if pw0.Failing? && pw0.stores < 5 then pw0.stores else 5)
    ensures if pw0 == Failing(0) then log.word == old(log.word) else Logged(log, Remove, 1)
  {
    assert [node][0] == node;
    pw := StartOpLog(log, Remove, l.len, pw0);
    if pw.Off? { return; }
    pw := pw.Tick();
    if pw.Off? { return; }
    l.cursor := null;
    pw := pw.Tick();
    if pw.Off? { return; }
    l.head := null;
    pw := ReleaseLast(l, node, pw);
  }

  method ReleaseLast(l: PList, node: Node, pw0: Power) returns (pw: Power)
    requires !pw0.Off? && l.len == 1
    modifies l`len, node`list
    ensures pw == pw0.After(2)
    ensures l.len == (if pw0 == Failing(0) then 1 else 0)
    ensures node.list == (if pw.Off? then old(node.list) else null)
  {
    pw := pw0.Tick();
    if pw.Off? { return; }
    l.len := l.len - 1;
    pw := pw.Tick();
    if pw.Off? { return; }
    node.list := null;
  }

  /** The recovery of that removal has no case of its own: it leaves the header as it was found. */
  method RecoverOnlyRingNode(l: PList, node: Node, pw0: Power) returns (pw: Power)
    requires !pw0.Off? && node.prev == node && node.next == node
    requires l.cursor in {null, node} && l.head in {null, node}
    modifies l, node`list, node`next, node`prev
    ensures pw0.Mains? ==> pw.Mains?
    ensures l.cursor == old(l.cursor) && l.head == old(l.head) && node.prev == node && node.next == node
    ensures !pw.Off? ==> l.len == 0 && node.list == null
  {
    pw := RecoverRemoveOfAny(l, node, 1, pw0);
  }

  /** Removal and recoveries together, for every supply: nothing happens without the record, and with it the ring
      ends empty unless the first supply gave out before the head was cleared. Then the list has length 0 and a
      head pointing at the removed node, and holds no sequence of nodes at all. */
  method RemoveOnlyRingNodeUnderFailures(l: PList, node: Node, log: OpLog, first: Power, reboots: seq<Power>)
    requires !first.Off? && forall r :: 0 <= r < |reboots| ==> !reboots[r].Off?
    requires IsRing(l, [node], 0) && log.word == 0
    modifies l, log`word, node`list, node`next, node`prev
    ensures if first == Failing(0) then IsRing(l, [node], 0)
            else if first.Failing? && first.stores < 3 then l.head == node && forall s, c :: !IsRing(l, s, c)
            else IsRing(l, [], 0) && node.list == null
  {
    var pw := RemoveOnlyRingNode(l, node, log, first);
    var r := 0;
    while pw.Off?
      invariant 0 <= r <= |reboots| + 1
      invariant r > |reboots| ==> !pw.Off?
      invariant if first == Failing(0) then log.word == 0 && RingRemovalAt(l, node, 0) else Logged(log, Remove, 1)
      invariant node.prev == node && node.next == node
      invariant l.cursor == (if first.Failing? && first.stores < 2 then node else null)
      invariant l.head == (if first.Failing? && first.stores < 3 then node else null)
      invariant !pw.Off? && first != Failing(0) ==> l.len == 0 && node.list == null
      decreases |reboots| + 1 - r
    {
      pw := if r < |reboots| then reboots[r] else Mains;
      if OpOf(log.word) == Remove {
        pw := RecoverOnlyRingNode(l, node, pw);
      }
      r := r + 1;
    }
    assert [node][0] == node;
  }

  /** A removal logged for a node that is in no list (stopping a timer that is not active): the operation leaves
      the list alone, but its recovery always shortens the recorded length. */
  method RecoverRemoveOfFreeNode(l: PList, node: Node, pw0: Power, ghost s: seq<Node>) returns (pw: Power)
    requires !pw0.Off? && IsChain(l, s) && |s| < MAX_LEN && node !in s && node.list == null
    modifies l, node`list, Opt(node.prev)`next, Opt(node.next)`prev
    ensures pw0.Mains? ==> pw.Mains?
    ensures !pw.Off? ==> l.len == Pred16(|s|) && !IsChain(l, s)
  {
    pw := RecoverRemoveOfAny(l, node, l.len, pw0);
  }
}
