/** The transactions of the timer daemon on its active list: remove a timer and insert it again,
    pop the first timer and insert it again, and remove a timer. */
module TimerList {
  import opened PowerSupply
  import opened PLists
  import opened ListLog
  import opened ListRemove
  import opened ListPopFront
  import opened ListInsertSorted

  /** `k` is the position of `node` in `s0`, or -1 when it is in no list. */
  ghost predicate Position(node: Node, s0: seq<Node>, k: int) {
    if k < 0 then k == -1 && node !in s0 else k < |s0| && s0[k] == node
  }

  ghost function Base(s0: seq<Node>, k: int): seq<Node>
    requires -1 <= k < |s0|
  {
    if k < 0 then s0 else Without(s0, k)
  }

  /** The removal was logged and the insertion was not. */
  ghost predicate RemovePending(al: PList, node: Node, s0: seq<Node>, k: int)
    requires -1 <= k < |s0|
    reads al, s0, node
  {
    && (k < 0 ==> node.list == null && IsChain(al, s0))
    && (k >= 0 ==> RemoveCut(al, s0, k, false, null) && (node.list == null ==> IsChain(al, Without(s0, k))))
  }

  ghost predicate InsertPending(al: PList, log: OpLog, node: Node, b: seq<Node>, i: int)
    requires 0 <= i <= |b|
    reads al, b, node, log
  {
    Logged(log, InsertSortedDelayList, |b|) && InsertCut(al, b, i, node)
  }

  /** The plan of a re-insertion: `b` is the list without the node and `i` its slot there. */
  ghost predicate Planned(node: Node, s0: seq<Node>, k: int, b: seq<Node>, i: int)
    reads b`key, node`key
  {
    && -1 <= k < |s0| < MAX_LEN && Position(node, s0, k) && b == Base(s0, k)
    && node !in b && 0 <= i <= |b| && IsSpot(b, node, i)
  }

  /** What persists after any number of power failures during a remove-reinsert, once the first
      micro operation is logged and until it is finished. */
  ghost predicate ReinsertPending(al: PList, log: OpLog, node: Node, s0: seq<Node>, k: int, b: seq<Node>, i: int)
    requires -1 <= k < |s0| && 0 <= i <= |b|
    reads al, s0, b, node, log
  {
    || (Logged(log, Remove, |s0|) && RemovePending(al, node, s0, k))
    || InsertPending(al, log, node, b, i)
  }

  /** No micro operation was logged and no list was touched. */
  ghost predicate Untouched(al: PList, log: OpLog, node: Node, s0: seq<Node>, k: int)
    reads al, s0, log, node
  {
    log.word == 0 && IsChain(al, s0) && (k < 0 ==> node.list == null)
  }

  ghost predicate Finished(al: PList, log: OpLog, t: seq<Node>)
    reads al, t, log
  {
    log.op == ActiveListTxCommitted && IsChain(al, t)
  }

  method CommitActiveList(log: OpLog, pw0: Power, ghost al: PList, ghost t: seq<Node>) returns (pw: Power)
    requires !pw0.Off? && IsChain(al, t)
    modifies log`op, log`word
    ensures pw0.Mains? ==> pw.Mains?
    ensures if pw0 == Failing(0) then pw.Off? && log.op == old(log.op) && log.word == old(log.word)
            else Finished(al, log, t)
    ensures !pw.Off? ==> Finished(al, log, t) && log.word == 0
  {
    pw := pw0.Tick();
    if pw.Off? { return; }
    log.op := ActiveListTxCommitted;
    pw := pw.Tick();
    if pw.Off? { return; }
    log.word := 0;
  }

  /** The second half, from its log record on: insert and commit. */
  method InsertAndCommit(al: PList, node: Node, log: OpLog, pw0: Power, ghost b: seq<Node>, ghost i: int) returns (pw: Power)
    requires !pw0.Off? && IsChain(al, b) && node !in b && node.list == null && IsSpot(b, node, i)
    requires Logged(log, InsertSortedDelayList, |b|)
    modifies al, log`op, log`word, node`list, node`next, node`prev,
             Opt(SlotPrev(b, i, false))`next, Opt(SlotNext(b, i, false))`prev
    ensures pw0.Mains? ==> pw.Mains?
    ensures (InsertPending(al, log, node, b, i) && log.op == old(log.op)) || Finished(al, log, With(b, i, node))
    ensures !pw.Off? ==> Finished(al, log, With(b, i, node)) && log.word == 0
  {
    hide IsChain, InsertCut, Logged;
    pw := OptimizedInsertSorted(al, node, pw0, b, i);
    if pw.Off? { return; }
    pw := CommitActiveList(log, pw, al, With(b, i, node));
  }

  /** The nodes that a re-insertion touches are the node itself and nodes of the list. */
  lemma PlanIsInside(al: PList, node: Node, s0: seq<Node>, k: int, b: seq<Node>, i: int)
    requires Planned(node, s0, k, b, i) && IsChain(al, s0)
    ensures forall n :: n in b ==> n in s0
    ensures |b| < MAX_LEN && 0 <= i <= |b|
    ensures k >= 0 ==> node.list == al
    ensures k >= 0 ==> (node.prev == null || node.prev in s0) && (node.next == null || node.next in s0)
    ensures SlotPrev(b, i, false) == null || SlotPrev(b, i, false) in s0
    ensures SlotNext(b, i, false) == null || SlotNext(b, i, false) in s0
  {
    assert k >= 0 ==> s0[k].list == al;
    if k >= 0 {
      NeighboursAreIn(al, s0, k, false);
      WithoutIsIn(s0, k);
    }
    SidesAreIn(b, i, false);
  }

  /** A micro operation was recorded, or the transaction is complete. */
  predicate Recorded(log: OpLog)
    reads log`op, log`word
  {
    log.op == ActiveListTxCommitted || log.word != 0
  }

  lemma PendingIsRecorded(al: PList, log: OpLog, node: Node, s0: seq<Node>, k: int, b: seq<Node>, i: int)
    requires -1 <= k < |s0| && 0 <= i <= |b| && ReinsertPending(al, log, node, s0, k, b, i)
    ensures Recorded(log) && log.word != 0
  {
    hide RemovePending, InsertCut;
  }

  /** Up to the record of the removal, the third store, nothing has happened; from then on recovery rolls forward. */
  method RemoveReinsert(al: PList, node: Node, log: OpLog, pw0: Power,
                        ghost s0: seq<Node>, ghost k: int, ghost b: seq<Node>, ghost i: int) returns (pw: Power)
    requires !pw0.Off? && Planned(node, s0, k, b, i) && Untouched(al, log, node, s0, k)
    modifies al, log, s0`prev, s0`next, node`list, node`prev, node`next
    ensures pw0.Mains? ==> pw.Mains?
    ensures || (pw.Off? && Untouched(al, log, node, s0, k)
                && (log.op == old(log.op) || (log.op == ActiveListRemoveReInsert && log.blockNode == node)))
            || (log.op == ActiveListRemoveReInsert && log.blockNode == node && ReinsertPending(al, log, node, s0, k, b, i))
            || Finished(al, log, With(b, i, node))
    ensures !pw.Off? ==> Finished(al, log, With(b, i, node)) && log.word == 0
    ensures pw0.Failing? && old(log.op) == TxInvalid ==> (Recorded(log) <==> pw0.stores >= 3)
  {
    hide IsList, InsertCut, RemoveCut, Without, SlotPrev, SlotNext, IsSpot;
    PlanIsInside(al, node, s0, k, b, i);
    pw := pw0.Tick();
    if pw.Off? { return; }
    log.blockNode := node;
    pw := pw.Tick();
    if pw.Off? { return; }
    log.op := ActiveListRemoveReInsert;
    pw := OptimizedRemove(al, node, log, pw, s0, k, false);
    if pw.Off? { return; }
    InsertCutAtStart(al, b, i, node);
    pw := StartOpLog(log, InsertSortedDelayList, al.len, pw);
    if pw.Off? { return; }
    pw := InsertAndCommit(al, node, log, pw, b, i);
    if InsertPending(al, log, node, b, i) {
      PendingIsRecorded(al, log, node, s0, k, b, i);
    }
  }

  // ---------- recovery of remove-reinsert ----------

  /** `Remove` was the logged micro operation: finish the removal, then insert. */
  method RedoFromRemove(al: PList, node: Node, log: OpLog, pw0: Power,
                        ghost s0: seq<Node>, ghost k: int, ghost b: seq<Node>, ghost i: int) returns (pw: Power)
    requires !pw0.Off? && Planned(node, s0, k, b, i)
    requires Logged(log, Remove, |s0|) && RemovePending(al, node, s0, k)
    modifies al, log`op, log`word, s0`prev, s0`next, node`list, node`prev, node`next
    ensures pw0.Mains? ==> pw.Mains?
    ensures (log.op == old(log.op) && ReinsertPending(al, log, node, s0, k, b, i)) || Finished(al, log, With(b, i, node))
    ensures !pw.Off? ==> Finished(al, log, With(b, i, node)) && log.word == 0
  {
    hide IsList, InsertCut, RemoveCut, Without, SlotPrev, SlotNext, IsSpot;
    PendingIsInside(al, node, s0, k, b, i);
    pw := pw0;
    if node.list != null {
      pw := RecoverFromFailedRemove(al, node, LenOf(log.word), pw, s0, k, false, null);
      if pw.Off? { return; }
    }
    InsertCutAtStart(al, b, i, node);
    pw := StartOpLog(log, InsertSortedDelayList, al.len, pw);
    if pw.Off? { return; }
    pw := InsertAndCommit(al, node, log, pw, b, i);
  }

  lemma PendingIsInside(al: PList, node: Node, s0: seq<Node>, k: int, b: seq<Node>, i: int)
    requires Planned(node, s0, k, b, i) && RemovePending(al, node, s0, k)
    ensures forall n :: n in b ==> n in s0
    ensures |b| < MAX_LEN && 0 <= i <= |b|
    ensures k >= 0 ==> (node.prev == null || node.prev in s0) && (node.next == null || node.next in s0)
    ensures k >= 0 ==> node.list == null || node.list == al
    ensures SlotPrev(b, i, false) == null || SlotPrev(b, i, false) in s0
    ensures SlotNext(b, i, false) == null || SlotNext(b, i, false) in s0
  {
    hide Without, Distinct, LinkedAround, IsChain, IsSpot, SlotPrev, SlotNext;
    BaseIsInside(node, s0, k, b, i);
    if k >= 0 {
      WithoutIsIn(s0, k);
      CutNeighboursAreIn(al, s0, k, false, null);
      CutOwner(al, s0, k);
    }
  }

  lemma CutOwner(al: PList, s0: seq<Node>, k: int)
    requires 0 <= k < |s0| && RemoveCut(al, s0, k, false, null)
    ensures s0[k].list == null || s0[k].list == al
  {
    hide Distinct, LinkedAround, IsChain;
  }

  /** The insertion was the logged micro operation: finish it. */
  method RedoInsert(al: PList, node: Node, log: OpLog, pw0: Power, ghost b: seq<Node>, ghost i: int) returns (pw: Power)
    requires !pw0.Off? && 0 <= i <= |b| && IsSpot(b, node, i) && InsertPending(al, log, node, b, i)
    modifies al, log`op, log`word, node`list, node`prev, node`next,
             Opt(SlotPrev(b, i, false))`next, Opt(SlotNext(b, i, false))`prev
    ensures pw0.Mains? ==> pw.Mains?
    ensures (log.op == old(log.op) && InsertPending(al, log, node, b, i)) || Finished(al, log, With(b, i, node))
    ensures !pw.Off? ==> Finished(al, log, With(b, i, node)) && log.word == 0
  {
    hide IsChain, InsertCut, Without, SlotPrev, SlotNext, IsSpot;
    pw := RecoverFromFailedInsertSorted(al, node, LenOf(log.word), pw0, b, i);
    if pw.Off? { return; }
    pw := CommitActiveList(log, pw, al, With(b, i, node));
  }

  /** `recover_and_roll_forward_of_activelist_remove_reinsert`; `ok` is false when nothing was logged. */
  method RecoverRemoveReinsert(al: PList, log: OpLog, pw0: Power, ghost node: Node,
                               ghost s0: seq<Node>, ghost k: int, ghost b: seq<Node>, ghost i: int)
    returns (pw: Power, ok: bool)
    requires !pw0.Off? && Planned(node, s0, k, b, i) && log.blockNode == node
    requires Untouched(al, log, node, s0, k) || ReinsertPending(al, log, node, s0, k, b, i)
    modifies al, log`op, log`word, s0`prev, s0`next, node`list, node`prev, node`next
    ensures pw0.Mains? ==> pw.Mains?
    ensures !ok ==> old(log.word) == 0 && Untouched(al, log, node, s0, k) && pw == pw0 && log.op == old(log.op)
    ensures ok ==> (log.op == old(log.op) && ReinsertPending(al, log, node, s0, k, b, i)) || Finished(al, log, With(b, i, node))
    ensures ok && !pw.Off? ==> Finished(al, log, With(b, i, node)) && log.word == 0
    ensures ok <==> old(log.word) != 0
  {
    hide IsChain, InsertCut, RemovePending, Without, SlotPrev, SlotNext, IsSpot;
    BaseIsInside(node, s0, k, b, i);
    match OpOf(log.word)
    case Remove =>
      pw := RedoFromRemove(al, log.blockNode, log, pw0, s0, k, b, i);
      ok := true;
    case InsertSortedDelayList =>
      pw := RedoInsert(al, log.blockNode, log, pw0, b, i);
      ok := true;
    case _ =>
      pw, ok := pw0, false;
  }

  lemma BaseIsInside(node: Node, s0: seq<Node>, k: int, b: seq<Node>, i: int)
    requires Planned(node, s0, k, b, i)
    ensures 0 <= i <= |b| && |b| < MAX_LEN
    ensures SlotPrev(b, i, false) == null || SlotPrev(b, i, false) in s0
    ensures SlotNext(b, i, false) == null || SlotNext(b, i, false) in s0
  {
    if k >= 0 {
      WithoutIsIn(s0, k);
    }
    SidesAreIn(b, i, false);
  }

  /** What a reboot finds after a remove-reinsert that was not completed. */
  ghost predicate ReinsertCut(al: PList, log: OpLog, node: Node, s0: seq<Node>, k: int, b: seq<Node>, i: int)
    requires -1 <= k < |s0| && 0 <= i <= |b|
    reads al, s0, b, node, log
  {
    || (log.op == TxInvalid && Untouched(al, log, node, s0, k))
    || (log.op == ActiveListRemoveReInsert && log.blockNode == node
        && (Untouched(al, log, node, s0, k) || ReinsertPending(al, log, node, s0, k, b, i)))
    || Finished(al, log, With(b, i, node))
  }

  /** One reboot: dispatch on the op code of the log. `none` says that there was nothing to recover. */
  method RebootReinsert(al: PList, log: OpLog, supply: Power, ghost node: Node,
                        ghost s0: seq<Node>, ghost k: int, ghost b: seq<Node>, ghost i: int)
    returns (pw: Power, none: bool)
    requires !supply.Off? && Planned(node, s0, k, b, i) && ReinsertCut(al, log, node, s0, k, b, i)
    modifies al, log`op, log`word, s0`prev, s0`next, node`list, node`prev, node`next
    ensures supply.Mains? ==> pw.Mains?
    ensures ReinsertCut(al, log, node, s0, k, b, i)
    ensures none ==> !pw.Off? && Untouched(al, log, node, s0, k)
    ensures !none && !pw.Off? ==> Finished(al, log, With(b, i, node))
    ensures none <==> !old(Recorded(log))
    ensures Recorded(log) == old(Recorded(log))
  {
    hide ReinsertPending, IsChain, IsSpot;
    pw, none := supply, false;
    if log.op == TxInvalid {
      none := true;
    } else if log.op == ActiveListRemoveReInsert {
      var ok;
      pw, ok := RecoverRemoveReinsert(al, log, supply, node, s0, k, b, i);
      none := !ok;
      if ReinsertPending(al, log, node, s0, k, b, i) {
        PendingIsRecorded(al, log, node, s0, k, b, i);
      }
    }
  }

  /** The whole remove-reinsert under any number of power failures, each cutting it or its recovery
      before an arbitrary store. Either nothing was logged and nothing has changed, or the list is
      exactly the one of the run without failures. */
  method RemoveReinsertUnderFailures(al: PList, node: Node, log: OpLog, first: Power, reboots: seq<Power>,
                                     ghost s0: seq<Node>, ghost k: int, ghost b: seq<Node>, ghost i: int)
    returns (done: bool)
    requires !first.Off? && forall r :: 0 <= r < |reboots| ==> !reboots[r].Off?
    requires Planned(node, s0, k, b, i) && Untouched(al, log, node, s0, k) && log.op == TxInvalid
    modifies al, log, s0`prev, s0`next, node`list, node`prev, node`next
    ensures done ==> Finished(al, log, With(b, i, node))
    ensures !done ==> Untouched(al, log, node, s0, k)
    ensures done <==> first.Mains? || first.stores >= 3
  {
    hide Untouched, ReinsertPending, IsChain, IsSpot;
    var pw := RemoveReinsert(al, node, log, first, s0, k, b, i);
    ghost var recorded := Recorded(log);
    var none, r := false, 0;
    while pw.Off? && r <= |reboots|
      invariant 0 <= r <= |reboots| + 1
      invariant r > |reboots| ==> !pw.Off?
      invariant ReinsertCut(al, log, node, s0, k, b, i)
      invariant none ==> !pw.Off? && Untouched(al, log, node, s0, k)
      invariant !none && !pw.Off? ==> Finished(al, log, With(b, i, node))
      invariant Recorded(log) == recorded && (!pw.Off? ==> none == !recorded)
    {
      var supply := if r < |reboots| then reboots[r] else Mains;
      pw, none := RebootReinsert(al, log, supply, node, s0, k, b, i);
      r := r + 1;
    }
    done := !none;
  }
}
