/** `optimized_insert_front` and its recovery: how a task enters an unsorted wait list. */
module ListInsertFront {
  import opened PowerSupply
  import opened PLists
  import opened ListLog

  ghost predicate FrontBeside(l: PList, s: seq<Node>, node: Node)
    reads l`cursor, s`prev, s`next, s`list, node`list
  {
    && Distinct(s) && node !in s && LinkedBeside(s, 0, false) && Owned(l, s) && l.cursor == null
    && (node.list == null || node.list == l)
  }

  /** `h` was the head: the store of the new one is the switch-over point. */
  ghost predicate FrontLinks(l: PList, node: Node, h: Node?)
    reads l`head, node`prev, node`next, Opt(h)`prev
  {
    && node != h && (l.head == h || l.head == node)
    && (h != null ==> h.prev == null || h.prev == node)
    && (l.head == node ==> node.prev == null && node.next == h && (h != null ==> h.prev == node))
  }

  /** Everything a power failure may leave behind after the insertion was logged. */
  ghost predicate FrontCut(l: PList, s: seq<Node>, node: Node)
    reads l, s`prev, s`next, s`list, node
  {
    FrontBeside(l, s, node) && FrontLinks(l, node, First(s))
  }

  lemma FrontCutAtStart(l: PList, s: seq<Node>, node: Node)
    requires IsChain(l, s) && node !in s && node.list == null
    ensures FrontCut(l, s, node)
  {
  }

  lemma FrontShape(l: PList, s: seq<Node>, node: Node)
    requires FrontCut(l, s, node) && l.head == node && l.len == |s| + 1 && node.list == l
    ensures IsChain(l, With(s, 0, node))
  {
    var t := With(s, 0, node);
    WithIsDistinct(s, 0, node);
    WithIsLinked(s, 0, node, false);
    assert t[0] == node;
    forall i {:trigger t[i]} | 0 <= i < |t|
      ensures t[i].list == l
    {
      if i > 0 {
        assert t[i] == s[i - 1];
      }
    }
  }

  /** Link the node before the present head. */
  method LinkBeforeHead(l: PList, node: Node, pw0: Power, ghost h: Node?) returns (pw: Power)
    requires !pw0.Off? && FrontLinks(l, node, h) && l.head == h
    modifies l`head, node`prev, node`next, Opt(h)`prev
    ensures pw0.Mains? ==> pw.Mains?
    ensures FrontLinks(l, node, h)
    ensures !pw.Off? ==> l.head == node
  {
    pw := pw0.Tick();
    if pw.Off? { return; }
    node.prev := null;
    pw := pw.Tick();
    if pw.Off? { return; }
    node.next := null;
    if l.head != null {
      pw := pw.Tick();
      if pw.Off? { return; }
      node.next := l.head;
      pw := pw.Tick();
      if pw.Off? { return; }
      l.head.prev := node;
    }
    pw := pw.Tick();
    if pw.Off? { return; }
    l.head := node;
  }

  method LinkInFront(l: PList, node: Node, pw0: Power, ghost s: seq<Node>) returns (pw: Power)
    requires !pw0.Off? && FrontCut(l, s, node) && l.head == First(s)
    modifies l`head, node`prev, node`next, Opt(First(s))`prev
    ensures pw0.Mains? ==> pw.Mains?
    ensures FrontCut(l, s, node)
    ensures !pw.Off? ==> l.head == node
  {
    hide FrontLinks, Distinct, Owned;
    pw := LinkBeforeHead(l, node, pw0, First(s));
  }

  /** The length, then the container. */
  method CountAndOwn(l: PList, node: Node, newLen: nat, pw0: Power, ghost s: seq<Node>) returns (pw: Power)
    requires !pw0.Off? && FrontCut(l, s, node) && l.head == node && newLen == |s| + 1
    modifies l`len, node`list
    ensures pw0.Mains? ==> pw.Mains?
    ensures FrontCut(l, s, node)
    ensures !pw.Off? ==> IsChain(l, With(s, 0, node))
  {
    pw := pw0.Tick();
    if pw.Off? { return; }
    l.len := newLen;
    pw := pw.Tick();
    if pw.Off? { return; }
    node.list := l;
    FrontShape(l, s, node);
  }

  /** `optimized_insert_front_impl`, after the operation was logged. */
  method OptimizedInsertFront(l: PList, node: Node, pw0: Power, ghost s: seq<Node>) returns (pw: Power)
    requires !pw0.Off? && IsChain(l, s) && node !in s && node.list == null
    modifies l, node`list, node`prev, node`next, Opt(First(s))`prev
    ensures pw0.Mains? ==> pw.Mains?
    ensures FrontCut(l, s, node)
    ensures !pw.Off? ==> IsChain(l, With(s, 0, node))
  {
    FrontCutAtStart(l, s, node);
    pw := LinkInFront(l, node, pw0, s);
    if pw.Off? { return; }
    pw := CountAndOwn(l, node, l.len + 1, pw, s);
  }

  /** `recover_from_failed_insert_front`: from every crash point, and from every crash of its own, it leads to the list of
      the insertion without failures. */
  method RecoverFromFailedInsertFront(l: PList, node: Node, oldLen: nat, pw0: Power, ghost s: seq<Node>) returns (pw: Power)
    requires !pw0.Off? && FrontCut(l, s, node) && oldLen == |s|
    modifies l, node`list, node`prev, node`next, Opt(First(s))`prev
    ensures pw0.Mains? ==> pw.Mains?
    ensures FrontCut(l, s, node)
    ensures !pw.Off? ==> IsChain(l, With(s, 0, node))
  {
    pw := pw0;
    if l.head != node {
      pw := LinkInFront(l, node, pw, s);
      if pw.Off? { return; }
    }
    pw := CountAndOwn(l, node, oldLen + 1, pw, s);
  }

  /** `optimized_insert_front` under any number of power failures: nothing happens without the record, and with it the
      insertion is completed. */
  method InsertFrontUnderFailures(l: PList, node: Node, log: OpLog, first: Power, reboots: seq<Power>, ghost s: seq<Node>)
    requires !first.Off? && forall r :: 0 <= r < |reboots| ==> !reboots[r].Off?
    requires IsChain(l, s) && |s| < MAX_LEN && node !in s && node.list == null && log.word == 0
    modifies l, log`word, node`list, node`prev, node`next, Opt(First(s))`prev
    ensures if first == Failing(0) then IsChain(l, s) && node.list == null && log.word == 0
            else IsChain(l, With(s, 0, node)) && Logged(log, InsertFront, |s|)
  {
    hide FrontCut, IsChain, With;
    LengthOf(l, s);
    var pw := StartOpLog(log, InsertFront, l.len, first);
    if pw.Off? { return; }
    pw := OptimizedInsertFront(l, node, pw, s);
    var r := 0;
    while pw.Off?
      invariant 0 <= r && (r > |reboots| ==> !pw.Off?)
      invariant FrontCut(l, s, node) && Logged(log, InsertFront, |s|) && (!pw.Off? ==> IsChain(l, With(s, 0, node)))
      decreases |reboots| + 1 - r
    {
      pw := RecoverFromFailedInsertFront(l, node, LenOf(log.word), if r < |reboots| then reboots[r] else Mains, s);
      r := r + 1;
    }
  }

  lemma LengthOf(l: PList, s: seq<Node>)
    requires IsChain(l, s)
    ensures l.len == |s|
  {
  }
}
