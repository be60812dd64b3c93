/** Stopping a timer: remove it from the active list. */
module TimerStop {
  import opened PowerSupply
  import opened PLists
  import opened ListLog
  import opened ListRemove
  import opened RemoveLimits
  import opened TimerList

  /** What a reboot finds after the removal of an active timer that was not completed. */
  ghost predicate StopCut(al: PList, log: OpLog, node: Node, s0: seq<Node>, k: int, b: seq<Node>)
    requires 0 <= k < |s0|
    reads al, s0, b, node, log
  {
    || (log.op == TxInvalid && Untouched(al, log, node, s0, k))
    || (log.op == ActiveListRemove && log.blockNode == node
        && (Untouched(al, log, node, s0, k) || (Logged(log, Remove, |s0|) && RemoveCut(al, s0, k, false, null))))
    || Finished(al, log, b)
  }

  ghost predicate StopPlanned(node: Node, s0: seq<Node>, k: int, b: seq<Node>) {
    0 <= k < |s0| < MAX_LEN && s0[k] == node && b == Without(s0, k)
  }

  /** `atomic_roll_forward_remove_from_activelist` of an active timer. */
  method StopActive(al: PList, node: Node, log: OpLog, pw0: Power,
                    ghost s0: seq<Node>, ghost k: int, ghost b: seq<Node>) returns (pw: Power)
    requires !pw0.Off? && StopPlanned(node, s0, k, b) && Untouched(al, log, node, s0, k) && log.op == TxInvalid
    modifies al, log, s0`prev, s0`next, node`list
    ensures pw0.Mains? ==> pw.Mains?
    ensures StopCut(al, log, node, s0, k, b)
    ensures !pw.Off? ==> Finished(al, log, b) && log.word == 0
    ensures pw0.Failing? ==> (Recorded(log) <==> pw0.stores >= 3)
  {
    hide IsList, RemoveCut, Without, CursorWithout;
    NeighboursAreIn(al, s0, k, false);
    CursorStaysUnset(s0, k);
    pw := pw0.Tick();
    if pw.Off? { return; }
    log.blockNode := node;
    pw := pw.Tick();
    if pw.Off? { return; }
    log.op := ActiveListRemove;
    pw := OptimizedRemove(al, node, log, pw, s0, k, false);
    if pw.Off? { return; }
    pw := CommitActiveList(log, pw, al, b);
  }

  /** `recover_and_roll_forward_of_activelist_remove`; `none` says that nothing was logged. */
  method RecoverStop(al: PList, log: OpLog, pw0: Power, ghost node: Node,
                     ghost s0: seq<Node>, ghost k: int, ghost b: seq<Node>)
    returns (pw: Power, none: bool)
    requires !pw0.Off? && StopPlanned(node, s0, k, b) && StopCut(al, log, node, s0, k, b)
    modifies al, log`op, log`word, s0`prev, s0`next, node`list
    ensures pw0.Mains? ==> pw.Mains?
    ensures StopCut(al, log, node, s0, k, b)
    ensures none ==> !pw.Off? && Untouched(al, log, node, s0, k)
    ensures !none && !pw.Off? ==> Finished(al, log, b)
    ensures none <==> !old(Recorded(log))
    ensures Recorded(log) == old(Recorded(log))
  {
    hide IsList, RemoveCut, Without, CursorWithout, IsChain;
    pw, none := pw0, false;
    CursorStaysUnset(s0, k);
    if log.op == TxInvalid {
      none := true;
    } else if log.op == ActiveListRemove {
      if OpOf(log.word) == Remove {
        pw := RedoStop(al, log.blockNode, log, pw0, s0, k, b);
      } else {
        none := true;
      }
    }
  }

  method RedoStop(al: PList, node: Node, log: OpLog, pw0: Power,
                  ghost s0: seq<Node>, ghost k: int, ghost b: seq<Node>) returns (pw: Power)
    requires !pw0.Off? && StopPlanned(node, s0, k, b) && Logged(log, Remove, |s0|) && RemoveCut(al, s0, k, false, null)
    modifies al, log`op, log`word, s0`prev, s0`next, node`list
    ensures pw0.Mains? ==> pw.Mains?
    ensures (log.op == old(log.op) && Logged(log, Remove, |s0|) && RemoveCut(al, s0, k, false, null)) || Finished(al, log, b)
    ensures !pw.Off? ==> Finished(al, log, b)
  {
    hide IsList, RemoveCut, Without, CursorWithout;
    CutNeighboursAreIn(al, s0, k, false, null);
    CursorStaysUnset(s0, k);
    pw := RecoverFromFailedRemove(al, node, LenOf(log.word), pw0, s0, k, false, null);
    if pw.Off? { return; }
    pw := CommitActiveList(log, pw, al, b);
  }

  /** Stopping an active timer under any number of power failures. */
  method StopUnderFailures(al: PList, node: Node, log: OpLog, first: Power, reboots: seq<Power>,
                           ghost s0: seq<Node>, ghost k: int, ghost b: seq<Node>)
    returns (done: bool)
    requires !first.Off? && forall r :: 0 <= r < |reboots| ==> !reboots[r].Off?
    requires StopPlanned(node, s0, k, b) && Untouched(al, log, node, s0, k) && log.op == TxInvalid
    modifies al, log, s0`prev, s0`next, node`list
    ensures if done then Finished(al, log, b) else Untouched(al, log, node, s0, k)
    ensures done <==> first.Mains? || first.stores >= 3
  {
    hide Untouched, StopCut;
    var pw := StopActive(al, node, log, first, s0, k, b);
    ghost var recorded := Recorded(log);
    var none, r := false, 0;
    while pw.Off? && r <= |reboots|
      invariant 0 <= r <= |reboots| + 1
      invariant r > |reboots| ==> !pw.Off?
      invariant StopCut(al, log, node, s0, k, b)
      invariant none ==> !pw.Off? && Untouched(al, log, node, s0, k)
      invariant !none && !pw.Off? ==> Finished(al, log, b)
      invariant Recorded(log) == recorded && (!pw.Off? ==> none == !recorded)
    {
      pw, none := RecoverStop(al, log, if r < |reboots| then reboots[r] else Mains, node, s0, k, b);
      r := r + 1;
    }
    done := !none;
  }

  // ---------- a timer that is not active ----------

  /** The same transaction on a timer that is in no list leaves the list as it is. Recovery has something to do after
      exactly three stores: the removal is recorded, and the transaction not marked complete. */
  method StopInactive(al: PList, node: Node, log: OpLog, pw0: Power, ghost s0: seq<Node>) returns (pw: Power)
    requires !pw0.Off? && IsChain(al, s0) && |s0| < MAX_LEN && node.list == null
    requires log.op == TxInvalid && log.word == 0
    modifies al, log, node`list
    ensures pw0.Mains? ==> pw.Mains?
    ensures IsChain(al, s0) && node.list == null
    ensures !pw.Off? ==> Finished(al, log, s0)
    ensures if pw0 == Failing(3) then log.op == ActiveListRemove && log.blockNode == node && Logged(log, Remove, |s0|)
            else log.op != ActiveListRemove || log.word == 0
  {
    hide IsList;
    pw := pw0.Tick();
    if pw.Off? { return; }
    log.blockNode := node;
    pw := pw.Tick();
    if pw.Off? { return; }
    log.op := ActiveListRemove;
    pw := OptimizedRemove(al, node, log, pw, s0, -1, false);
    if pw.Off? { return; }
    pw := CommitActiveList(log, pw, al, s0);
  }

  /** The removal of a free node is recorded, or has been recovered. */
  ghost predicate StopOfFree(al: PList, node: Node, log: OpLog, len: nat)
    reads al`len, log
  {
    || (log.op == ActiveListRemove && log.blockNode == node && Logged(log, Remove, len))
    || (log.op == ActiveListTxCommitted && al.len == Pred16(len))
  }

  method RedoStopOfFree(al: PList, node: Node, log: OpLog, pw0: Power, ghost len: nat) returns (pw: Power)
    requires !pw0.Off? && log.op == ActiveListRemove && log.blockNode == node && Logged(log, Remove, len)
    modifies al, log`op, log`word, node`list, Opt(node.prev)`next, Opt(node.next)`prev
    ensures pw0.Mains? ==> pw.Mains?
    ensures node.prev == old(node.prev) && node.next == old(node.next)
    ensures StopOfFree(al, node, log, len) && (!pw.Off? ==> al.len == Pred16(len))
  {
    pw := RecoverRemoveOfAny(al, log.blockNode, LenOf(log.word), pw0);
    if pw.Off? { return; }
    pw := pw.Tick();
    if pw.Off? { return; }
    log.op := ActiveListTxCommitted;
    pw := pw.Tick();
    if pw.Off? { return; }
    log.word := 0;
  }

  /** A stop of a timer that is not active, with its recoveries, for every supply: the list stays what it was unless
      the first supply gave out after exactly three stores. Then it has lost one from its length. */
  method StopInactiveUnderFailures(al: PList, node: Node, log: OpLog, first: Power, reboots: seq<Power>,
                                   ghost s0: seq<Node>)
    requires !first.Off? && forall r :: 0 <= r < |reboots| ==> !reboots[r].Off?
    requires IsChain(al, s0) && |s0| < MAX_LEN && node.list == null && log.op == TxInvalid && log.word == 0
    modifies al, log, node`list, Opt(node.prev)`next, Opt(node.next)`prev
    ensures if first == Failing(3) then al.len == Pred16(|s0|) && !IsChain(al, s0) else IsChain(al, s0)
  {
    hide IsList;
    var pw := StopInactive(al, node, log, first, s0);
    var r := 0;
    while pw.Off?
      invariant 0 <= r && (r > |reboots| ==> !pw.Off?)
      invariant node.prev == old(node.prev) && node.next == old(node.next)
      invariant if first == Failing(3) then StopOfFree(al, node, log, |s0|)
                else IsChain(al, s0) && (log.op != ActiveListRemove || log.word == 0)
      invariant first == Failing(3) && !pw.Off? ==> al.len == Pred16(|s0|)
      decreases |reboots| + 1 - r
    {
      pw := if r < |reboots| then reboots[r] else Mains;
      if log.op == ActiveListRemove && OpOf(log.word) == Remove {
        pw := RedoStopOfFree(al, node, log, pw, |s0|);
      }
      r := r + 1;
    }
    LengthOfChain(al, s0);
  }

  lemma LengthOfChain(al: PList, s0: seq<Node>)
    requires |s0| < MAX_LEN
    ensures IsChain(al, s0) ==> al.len != Pred16(|s0|)
  {
  }
}
