/** The expiry of an auto-reloading timer: pop the first timer and insert it again. */
module TimerPop {
  import opened PowerSupply
  import opened PLists
  import opened ListLog
  import opened ListRemove
  import opened ListPopFront
  import opened ListInsertSorted
  import opened TimerList

  /** The pop was logged and the insertion was not. */
  ghost predicate PopPending(al: PList, s0: seq<Node>)
    requires s0 != []
    reads al, s0
  {
    PopCut(al, s0, null) && (s0[0].list == null ==> IsChain(al, Without(s0, 0)))
  }

  ghost predicate PopReinsertPending(al: PList, log: OpLog, node: Node, s0: seq<Node>, b: seq<Node>, i: int)
    requires s0 != [] && 0 <= i <= |b|
    reads al, s0, b, node, log
  {
    || (Logged(log, PopFront, |s0|) && PopPending(al, s0))
    || InsertPending(al, log, node, b, i)
  }

  /** What a reboot finds after a pop-reinsert that was not completed. */
  ghost predicate PopReinsertCut(al: PList, log: OpLog, node: Node, s0: seq<Node>, b: seq<Node>, i: int)
    requires s0 != [] && 0 <= i <= |b|
    reads al, s0, b, node, log
  {
    || (log.op == TxInvalid && Untouched(al, log, node, s0, 0))
    || (log.op == ActiveListPopReInsert && log.blockNode == node
        && (Untouched(al, log, node, s0, 0) || PopReinsertPending(al, log, node, s0, b, i)))
    || Finished(al, log, With(b, i, node))
  }

  lemma PopIsInside(al: PList, node: Node, s0: seq<Node>, b: seq<Node>, i: int)
    requires Planned(node, s0, 0, b, i) && (IsChain(al, s0) || PopPending(al, s0))
    ensures |b| < MAX_LEN && b == Without(s0, 0) && node == s0[0]
    ensures node.next == null || node.next in s0
    ensures node.next != null ==> |s0| > 1 && node.next == s0[1]
    ensures node.list == null || node.list == al
    ensures IsChain(al, s0) ==> node.list == al && al.head == node
    ensures SlotPrev(b, i, false) == null || SlotPrev(b, i, false) in s0
    ensures SlotNext(b, i, false) == null || SlotNext(b, i, false) in s0
  {
    WithoutIsIn(s0, 0);
    SidesAreIn(b, i, false);
  }

  /** Log the insertion of the popped timer, insert it and commit. */
  method InsertPopped(al: PList, node: Node, log: OpLog, pw0: Power,
                      ghost s0: seq<Node>, ghost b: seq<Node>, ghost i: int) returns (pw: Power)
    requires !pw0.Off? && Planned(node, s0, 0, b, i)
    requires Logged(log, PopFront, |s0|) && PopPending(al, s0) && node.list == null
    modifies al, log`op, log`word, s0`prev, s0`next, node`list, node`prev, node`next
    ensures pw0.Mains? ==> pw.Mains?
    ensures (log.op == old(log.op) && PopReinsertPending(al, log, node, s0, b, i)) || Finished(al, log, With(b, i, node))
    ensures !pw.Off? ==> Finished(al, log, With(b, i, node)) && log.word == 0
  {
    hide IsList, InsertCut, PopCut, Without, SlotPrev, SlotNext, IsSpot;
    PopIsInside(al, node, s0, b, i);
    InsertCutAtStart(al, b, i, node);
    pw := StartOpLog(log, InsertSortedDelayList, al.len, pw0);
    if pw.Off? { return; }
    pw := InsertAndCommit(al, node, log, pw, b, i);
  }

  lemma PendingIsLogged(al: PList, log: OpLog, node: Node, s0: seq<Node>, b: seq<Node>, i: int)
    requires s0 != [] && 0 <= i <= |b| && PopReinsertPending(al, log, node, s0, b, i)
    ensures log.word != 0
  {
    hide PopPending, InsertCut;
  }

  /** Up to the record of the pop, the third store, nothing has happened; from then on recovery rolls forward. */
  method PopReinsert(al: PList, log: OpLog, pw0: Power, ghost s0: seq<Node>, ghost b: seq<Node>, ghost i: int)
    returns (pw: Power)
    requires !pw0.Off? && s0 != [] && Planned(s0[0], s0, 0, b, i)
    requires Untouched(al, log, s0[0], s0, 0) && log.op == TxInvalid
    modifies al, log, s0`prev, s0`next, {s0[0]}`list
    ensures pw0.Mains? ==> pw.Mains?
    ensures PopReinsertCut(al, log, s0[0], s0, b, i)
    ensures !pw.Off? ==> Finished(al, log, With(b, i, s0[0])) && log.word == 0
    ensures pw0.Failing? ==> (Recorded(log) <==> pw0.stores >= 3)
  {
    hide IsList, InsertCut, PopCut, Without, SlotPrev, SlotNext, IsSpot, InsertPending;
    PopIsInside(al, s0[0], s0, b, i);
    pw := pw0.Tick();
    if pw.Off? { return; }
    log.blockNode := al.head;
    pw := pw.Tick();
    if pw.Off? { return; }
    log.op := ActiveListPopReInsert;
    var popped;
    pw, popped := OptimizedPopFront(al, log, pw, s0, null);
    if pw.Off? { return; }
    pw := InsertPopped(al, popped, log, pw, s0, b, i);
    if log.op == ActiveListPopReInsert {
      PendingIsLogged(al, log, popped, s0, b, i);
    }
  }

  /** `PopFront` was the logged micro operation: finish the pop, then insert. */
  method RedoFromPop(al: PList, node: Node, log: OpLog, pw0: Power,
                     ghost s0: seq<Node>, ghost b: seq<Node>, ghost i: int) returns (pw: Power)
    requires !pw0.Off? && Planned(node, s0, 0, b, i)
    requires Logged(log, PopFront, |s0|) && PopPending(al, s0)
    modifies al, log`op, log`word, s0`prev, s0`next, node`list
    ensures pw0.Mains? ==> pw.Mains?
    ensures (log.op == old(log.op) && PopReinsertPending(al, log, node, s0, b, i)) || Finished(al, log, With(b, i, node))
    ensures !pw.Off? ==> Finished(al, log, With(b, i, node)) && log.word == 0
  {
    hide IsList, InsertCut, PopCut, Without, SlotPrev, SlotNext, IsSpot;
    PopIsInside(al, node, s0, b, i);
    pw := pw0;
    if node.list != null {
      pw := RecoverFromFailedPopFront(node.list, node, LenOf(log.word), log, pw, s0, null);
      if pw.Off? { return; }
    }
    pw := InsertPopped(al, node, log, pw, s0, b, i);
  }

  /** `recover_and_roll_forward_of_activelist_pop_reinsert`; `ok` is false when nothing was logged. */
  method RecoverPopReinsert(al: PList, log: OpLog, pw0: Power, ghost node: Node,
                            ghost s0: seq<Node>, ghost b: seq<Node>, ghost i: int)
    returns (pw: Power, ok: bool)
    requires !pw0.Off? && s0 != [] && Planned(node, s0, 0, b, i) && log.blockNode == node
    requires Untouched(al, log, node, s0, 0) || PopReinsertPending(al, log, node, s0, b, i)
    modifies al, log`op, log`word, s0`prev, s0`next, node`list
    ensures pw0.Mains? ==> pw.Mains?
    ensures !ok ==> Untouched(al, log, node, s0, 0) && pw == pw0 && log.op == old(log.op)
    ensures ok ==> (log.op == old(log.op) && PopReinsertPending(al, log, node, s0, b, i)) || Finished(al, log, With(b, i, node))
    ensures ok && !pw.Off? ==> Finished(al, log, With(b, i, node)) && log.word == 0
    ensures ok <==> old(log.word) != 0
  {
    hide IsChain, InsertCut, PopPending, Without, SlotPrev, SlotNext, IsSpot;
    BaseIsInside(node, s0, 0, b, i);
    match OpOf(log.word)
    case PopFront =>
      pw := RedoFromPop(al, log.blockNode, log, pw0, s0, b, i);
      ok := true;
    case InsertSortedDelayList =>
      pw := RedoInsert(al, log.blockNode, log, pw0, b, i);
      ok := true;
    case _ =>
      pw, ok := pw0, false;
  }

  method RebootPopReinsert(al: PList, log: OpLog, supply: Power, ghost node: Node,
                           ghost s0: seq<Node>, ghost b: seq<Node>, ghost i: int)
    returns (pw: Power, none: bool)
    requires !supply.Off? && s0 != [] && Planned(node, s0, 0, b, i) && PopReinsertCut(al, log, node, s0, b, i)
    modifies al, log`op, log`word, s0`prev, s0`next, node`list
    ensures supply.Mains? ==> pw.Mains?
    ensures PopReinsertCut(al, log, node, s0, b, i)
    ensures none ==> !pw.Off? && Untouched(al, log, node, s0, 0)
    ensures !none && !pw.Off? ==> Finished(al, log, With(b, i, node))
    ensures none <==> !old(Recorded(log))
    ensures Recorded(log) == old(Recorded(log))
  {
    hide PopReinsertPending, IsChain, IsSpot;
    pw, none := supply, false;
    if log.op == TxInvalid {
      none := true;
    } else if log.op == ActiveListPopReInsert {
      var ok;
      pw, ok := RecoverPopReinsert(al, log, supply, node, s0, b, i);
      none := !ok;
      if PopReinsertPending(al, log, node, s0, b, i) {
        PendingIsLogged(al, log, node, s0, b, i);
      }
    }
  }

  /** The whole pop-reinsert under any number of power failures. */
  method PopReinsertUnderFailures(al: PList, log: OpLog, first: Power, reboots: seq<Power>,
                                  ghost s0: seq<Node>, ghost b: seq<Node>, ghost i: int)
    returns (done: bool)
    requires !first.Off? && forall r :: 0 <= r < |reboots| ==> !reboots[r].Off?
    requires s0 != [] && Planned(s0[0], s0, 0, b, i)
    requires Untouched(al, log, s0[0], s0, 0) && log.op == TxInvalid
    modifies al, log, s0`prev, s0`next, {s0[0]}`list
    ensures done ==> Finished(al, log, With(b, i, s0[0]))
    ensures !done ==> Untouched(al, log, s0[0], s0, 0)
    ensures done <==> first.Mains? || first.stores >= 3
  {
    hide Untouched, PopReinsertPending, IsChain, IsSpot;
    var pw := PopReinsert(al, log, first, s0, b, i);
    ghost var recorded := Recorded(log);
    var none, r := false, 0;
    while pw.Off? && r <= |reboots|
      invariant 0 <= r <= |reboots| + 1
      invariant r > |reboots| ==> !pw.Off?
      invariant PopReinsertCut(al, log, s0[0], s0, b, i)
      invariant none ==> !pw.Off? && Untouched(al, log, s0[0], s0, 0)
      invariant !none && !pw.Off? ==> Finished(al, log, With(b, i, s0[0]))
      invariant Recorded(log) == recorded && (!pw.Off? ==> none == !recorded)
    {
      var supply := if r < |reboots| then reboots[r] else Mains;
      pw, none := RebootPopReinsert(al, log, supply, s0[0], s0, b, i);
      r := r + 1;
    }
    done := !none;
  }
}
