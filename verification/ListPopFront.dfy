/** `optimized_pop_front` and its recovery. */
module ListPopFront {
  import opened PowerSupply
  import opened PLists
  import opened ListLog
  import opened ListRemove

  /** Everything a power failure may leave behind after the pop was logged: the head store is
      the switch-over point. */
  ghost predicate PopCut(l: PList, s: seq<Node>, c0: Node?)
    requires s != []
    reads l, s
  {
    && Distinct(s) && LinkedAround(s, 0, false) && OwnedBut(l, s, 0)
    && (l.cursor == c0 || (l.head != s[0] && c0 == s[0] && l.cursor == NextOf(s, 0, false)))
    && HeadCut(l, s[0], NextOf(s, 0, false), |s|)
  }

  ghost predicate HeadCut(l: PList, node: Node, n: Node?, len: nat)
    reads l`head, l`len, node, Opt(n)`prev
  {
    && node.prev == null && node.next == n && n != node
    && (l.head == node ==> l.len == len && node.list != null && (n != null ==> n.prev == node))
    && (l.head != node ==> l.head == n && (n != null ==> n.prev == node || n.prev == null))
  }

  method DetachHead(l: PList, pw0: Power, ghost node: Node, ghost len: nat) returns (pw: Power)
    requires !pw0.Off? && l.head == node.next && node != node.next && HeadCut(l, node, node.next, len)
    requires l.head != node
    modifies Opt(node.next)`prev
    ensures pw == pw0.After(1)
    ensures HeadCut(l, node, node.next, len)
    ensures !pw.Off? ==> (node.next != null ==> node.next.prev == null)
  {
    pw := pw0.Tick();
    if pw.Off? { return; }
    if l.head != null {
      l.head.prev := null;
    }
  }

  /** The stores after the head has moved: shared by the operation and its recovery. */
  method FinishPop(l: PList, node: Node, newLen: nat, pw0: Power, ghost s: seq<Node>, ghost c0: Node?) returns (pw: Power)
    requires !pw0.Off? && s != [] && node == s[0] && newLen == |s| - 1 && PopCut(l, s, c0) && l.head != node
    modifies l`cursor, l`len, node`list, Opt(node.next)`prev
    ensures pw == pw0.After(4)
    ensures PopCut(l, s, c0) && l.head != node
    ensures pw.Off? ==> node.list == old(node.list)
    ensures !pw.Off? ==> node.list == null && IsList(l, Without(s, 0), false) && l.cursor == Past(c0, node, node.next)
  {
    hide Distinct, OwnedBut, Without, IsList;
    pw := DetachHead(l, pw0, node, |s|);
    if pw.Off? { return; }
    pw := pw.Tick();
    if pw.Off? { return; }
    if l.cursor == node {
      l.cursor := l.head;
    }
    pw := ReleaseHead(l, node, newLen, pw, s, c0);
  }

  method ReleaseHead(l: PList, node: Node, newLen: nat, pw0: Power, ghost s: seq<Node>, ghost c0: Node?) returns (pw: Power)
    requires !pw0.Off? && s != [] && node == s[0] && newLen == |s| - 1 && PopCut(l, s, c0) && l.head != node
    requires node.next != null ==> node.next.prev == null
    requires l.cursor == Past(c0, node, node.next)
    modifies l`len, node`list
    ensures pw == pw0.After(2)
    ensures PopCut(l, s, c0)
    ensures pw.Off? ==> node.list == old(node.list)
    ensures !pw.Off? ==> node.list == null && IsList(l, Without(s, 0), false) && l.cursor == Past(c0, node, node.next)
  {
    pw := pw0.Tick();
    if pw.Off? { return; }
    l.len := newLen;
    pw := pw.Tick();
    if pw.Off? { return; }
    node.list := null;
    PoppedShape(l, s, c0);
  }

  lemma PoppedShape(l: PList, s: seq<Node>, c0: Node?)
    requires s != [] && PopCut(l, s, c0) && l.head != s[0]
    requires s[0].next != null ==> s[0].next.prev == null
    requires l.len == |s| - 1 && s[0].list == null
    ensures IsList(l, Without(s, 0), false)
  {
    WithoutIsDistinct(s, 0);
    WithoutIsLinked(s, 0, false);
  }

  lemma PopCutAtStart(l: PList, s: seq<Node>, c0: Node?)
    requires s != [] && IsList(l, s, false) && l.cursor == c0
    ensures PopCut(l, s, c0) && l.head == s[0]
  {
  }

  lemma ListBeforePop(l: PList, s: seq<Node>, c0: Node?)
    requires s != [] && PopCut(l, s, c0) && l.head == s[0]
    ensures IsList(l, s, false) && l.cursor == c0
  {
    assert s[0].list == l;
  }

  /** The pop of a non-empty list, from the log record on. */
  method PopHead(l: PList, node: Node, log: OpLog, pw0: Power, ghost s: seq<Node>, ghost c0: Node?) returns (pw: Power)
    requires !pw0.Off? && s != [] && |s| < MAX_LEN && IsList(l, s, false) && l.head == node && l.cursor == c0
    modifies l, log`word, node`list, Opt(node.next)`prev
    ensures pw == pw0.After(6)
    ensures PopCut(l, s, c0)
    ensures pw.Off? ==> node.list == old(node.list)
    ensures if pw0 == Failing(0) then pw.Off? && log.word == old(log.word) && IsList(l, s, false) && l.cursor == c0
            else Logged(log, PopFront, |s|)
    ensures !pw.Off? ==> node.list == null
    ensures !pw.Off? ==> IsList(l, Without(s, 0), false) && l.cursor == Past(c0, node, node.next)
    ensures l.head == node <==> pw0.Failing? && pw0.stores < 2
  {
    PopCutAtStart(l, s, c0);
    pw := StartOpLog(log, PopFront, l.len, pw0);
    if pw.Off? { return; }
    pw := pw.Tick();
    if pw.Off? { return; }
    l.head := node.next;
    pw := FinishPop(l, node, l.len - 1, pw, s, c0);
  }

  method OptimizedPopFront(l: PList, log: OpLog, pw0: Power, ghost s: seq<Node>, ghost c0: Node?)
    returns (pw: Power, popped: Node?)
    requires !pw0.Off? && |s| < MAX_LEN && IsList(l, s, false) && l.cursor == c0
    modifies l, log`word, (if s == [] then {} else {s[0]})`list, (if |s| < 2 then {} else {s[1]})`prev
    ensures pw == pw0.After(if s == [] then 0 else 6)
    ensures popped == First(s)
    ensures s == [] ==> pw == pw0 && IsList(l, s, false) && l.cursor == c0 && log.word == old(log.word)
    ensures s != [] ==> PopCut(l, s, c0)
    ensures s != [] && pw.Off? ==> s[0].list == old(s[0].list)
    ensures s != [] ==>
              if pw0 == Failing(0) then pw.Off? && log.word == old(log.word) && IsList(l, s, false) && l.cursor == c0
              else Logged(log, PopFront, |s|)
    ensures s != [] && !pw.Off? ==> s[0].list == null && IsList(l, Without(s, 0), false)
    ensures s != [] && !pw.Off? ==> l.cursor == Past(c0, s[0], s[0].next)
    ensures s != [] ==> (l.head == s[0] <==> pw0.Failing? && pw0.stores < 2)
  {
    popped := l.head;
    if popped == null {
      pw := pw0;
    } else {
      pw := PopHead(l, popped, log, pw0, s, c0);
    }
  }

  method RecoverFromFailedPopFront(l: PList, oldHead: Node, oldLen: nat, log: OpLog, pw0: Power,
                                   ghost s: seq<Node>, ghost c0: Node?)
    returns (pw: Power)
    requires !pw0.Off? && s != [] && |s| < MAX_LEN && oldHead == s[0] && oldLen == |s| && PopCut(l, s, c0)
    requires Logged(log, PopFront, |s|)
    modifies l, log`word, oldHead`list, Opt(oldHead.next)`prev
    ensures pw == pw0.After(if old(l.head) == oldHead then 6 else 4)
    ensures l.head == oldHead <==> old(l.head) == oldHead && pw0.Failing? && pw0.stores < 2
    ensures PopCut(l, s, c0) && Logged(log, PopFront, |s|)
    ensures pw.Off? ==> oldHead.list == old(oldHead.list)
    ensures !pw.Off? ==> oldHead.list == null && IsList(l, Without(s, 0), false)
    ensures !pw.Off? ==> l.cursor == Past(c0, oldHead, oldHead.next)
  {
    if l.head != oldHead {
      pw := FinishPop(l, oldHead, oldLen - 1, pw0, s, c0);
    } else {
      ListBeforePop(l, s, c0);
      pw := PopHead(l, oldHead, log, pw0, s, c0);
    }
  }
}
