/** What the timer daemon does to its active list, and the one recovery that dispatches on the operation log. */
module TimerMoves {
  import opened PowerSupply
  import opened PLists
  import opened ListLog
  import opened ListRemove
  import opened ListInsertSorted
  import opened TimerList
  import opened TimerPop
  import opened TimerStop

  datatype Kind = Reinsert | PopAgain | Drop

  /** A timer is moved to a new slot, the first timer is moved to a new slot, or a timer is taken out. `s0` is the list,
      `k` the position of the timer in it or -1, `b` the other timers and `i` the new slot among them. */
  datatype Move = Move(kind: Kind, node: Node, s0: seq<Node>, k: int, b: seq<Node>, i: int) {

    predicate Bounds() {
      -1 <= k < |s0| < MAX_LEN && 0 <= i <= |b| && (kind != Reinsert ==> k >= 0) && (kind == PopAgain ==> k == 0)
    }

    ghost predicate Ok() {
      Bounds() && Position(node, s0, k) && b == Base(s0, k) && node !in b
    }

    /** The slot is that of the key. */
    ghost predicate AtSlot(key: int)
      requires Bounds()
      reads b`key
    {
      kind == Drop || ((forall j {:trigger b[j]} :: 0 <= j < i ==> b[j].key < key) && (i < |b| ==> key <= b[i].key))
    }

    ghost function After(): seq<Node>
      requires Bounds()
    {
      if kind == Drop then b else With(b, i, node)
    }

    ghost function Code(): TxOp {
      match kind
      case Reinsert => ActiveListRemoveReInsert
      case PopAgain => ActiveListPopReInsert
      case Drop => ActiveListRemove
    }
  }

  class Timer {
    const node: Node
    const autoReload: bool
    var active: bool

    constructor (node: Node, autoReload: bool)
      ensures this.node == node && this.autoReload == autoReload && !active
    {
      this.node, this.autoReload, active := node, autoReload, false;
    }
  }

  ghost predicate Still(al: PList, log: OpLog, m: Move)
    reads al, m.s0, log, m.node
  {
    Untouched(al, log, m.node, m.s0, m.k)
  }

  /** A micro operation was recorded. */
  ghost predicate Pending(al: PList, log: OpLog, m: Move)
    requires m.Bounds()
    reads al, m.s0, m.b, m.node, log
  {
    match m.kind
    case Reinsert => ReinsertPending(al, log, m.node, m.s0, m.k, m.b, m.i)
    case PopAgain => PopReinsertPending(al, log, m.node, m.s0, m.b, m.i)
    case Drop => m.k >= 0 && Logged(log, Remove, |m.s0|) && RemoveCut(al, m.s0, m.k, false, null)
  }

  ghost predicate Started(log: OpLog, m: Move)
    reads log`op, log`blockNode
  {
    log.op == m.Code() && log.blockNode == m.node
  }

  /** What a reboot finds. */
  ghost predicate MoveCut(al: PList, log: OpLog, m: Move)
    requires m.Bounds()
    reads al, m.s0, m.b, m.node, m.After(), log
  {
    || (Still(al, log, m) && (log.op == TxInvalid || Started(log, m)))
    || (Started(log, m) && Pending(al, log, m))
    || Finished(al, log, m.After())
  }

  lemma PendingMoveIsRecorded(al: PList, log: OpLog, m: Move)
    requires m.Bounds() && Pending(al, log, m)
    ensures log.word != 0
  {
    hide RemovePending, InsertCut, PopPending, RemoveCut, ReinsertPending, PopReinsertPending;
    match m.kind
    case Reinsert => PendingIsRecorded(al, log, m.node, m.s0, m.k, m.b, m.i);
    case PopAgain => PendingIsLogged(al, log, m.node, m.s0, m.b, m.i);
    case Drop => LoggedIsNonzero(log, Remove, |m.s0|);
  }

  lemma LoggedIsNonzero(log: OpLog, op: MicroOp, n: nat)
    requires Logged(log, op, n) && op != Invalid
    ensures log.word != 0
  {
  }

  /** Store a new key, and the slot it leads to is the planned one. */
  lemma SlotOfKey(m: Move)
    requires m.Ok() && m.AtSlot(m.node.key)
    ensures m.kind == Reinsert ==> Planned(m.node, m.s0, m.k, m.b, m.i)
    ensures m.kind == PopAgain ==> Planned(m.node, m.s0, 0, m.b, m.i)
    ensures m.kind == Drop ==> StopPlanned(m.node, m.s0, m.k, m.b)
  {
    hide Without;
    assert m.kind != Drop ==> IsSpot(m.b, m.node, m.i);
  }

  /** The list transaction of a message or of an expiry. Its first two stores name it, the third is its first record. */
  method MakeMove(al: PList, log: OpLog, node: Node, kind: Kind, pw0: Power, ghost m: Move) returns (pw: Power)
    requires !pw0.Off? && m.Ok() && node == m.node && kind == m.kind && m.AtSlot(node.key)
    requires Still(al, log, m) && log.op == TxInvalid
    modifies al, log, m.s0`prev, m.s0`next, node`list, node`prev, node`next
    ensures pw0.Mains? ==> pw.Mains?
    ensures MoveCut(al, log, m)
    ensures !pw.Off? ==> Finished(al, log, m.After()) && log.word == 0
    ensures pw0.Failing? ==> (Recorded(log) <==> pw0.stores >= 3)
  {
    hide IsChain, RemoveCut, ReinsertPending, PopReinsertPending, Without, With, IsSpot;
    SlotOfKey(m);
    match kind
    case Reinsert =>
      pw := RemoveReinsert(al, node, log, pw0, m.s0, m.k, m.b, m.i);
    case PopAgain =>
      pw := PopReinsert(al, log, pw0, m.s0, m.b, m.i);
    case Drop =>
      pw := StopActive(al, node, log, pw0, m.s0, m.k, m.b);
  }

  /** The branches of the recovery that have a list operation to finish. */
  method RecoverMove(al: PList, log: OpLog, pw0: Power, ghost m: Move) returns (pw: Power, ok: bool)
    requires !pw0.Off? && m.Ok() && m.AtSlot(m.node.key) && Started(log, m)
    requires Still(al, log, m) || Pending(al, log, m)
    modifies al, log`op, log`word, m.s0`prev, m.s0`next, m.node`list, m.node`prev, m.node`next
    ensures pw0.Mains? ==> pw.Mains?
    ensures ok <==> old(log.word) != 0
    ensures !ok ==> pw == pw0 && Still(al, log, m) && Started(log, m)
    ensures ok ==> (Started(log, m) && Pending(al, log, m)) || Finished(al, log, m.After())
    ensures ok && !pw.Off? ==> Finished(al, log, m.After())
  {
    hide IsChain, RemoveCut, ReinsertPending, PopReinsertPending, Without, With, IsSpot;
    SlotOfKey(m);
    if log.op == ActiveListRemoveReInsert {
      pw, ok := RecoverRemoveReinsert(al, log, pw0, m.node, m.s0, m.k, m.b, m.i);
    } else if log.op == ActiveListPopReInsert {
      pw, ok := RecoverPopReinsert(al, log, pw0, m.node, m.s0, m.b, m.i);
    } else {
      pw, ok := RecoverDrop(al, log, pw0, m);
    }
  }

  /** `recover_and_roll_forward_of_activelist_remove`. */
  method RecoverDrop(al: PList, log: OpLog, pw0: Power, ghost m: Move) returns (pw: Power, ok: bool)
    requires !pw0.Off? && m.Ok() && m.kind == Drop && Started(log, m) && (Still(al, log, m) || Pending(al, log, m))
    modifies al, log`op, log`word, m.s0`prev, m.s0`next, m.node`list
    ensures pw0.Mains? ==> pw.Mains?
    ensures ok <==> old(log.word) != 0
    ensures !ok ==> pw == pw0 && Still(al, log, m) && Started(log, m)
    ensures ok ==> (Started(log, m) && Pending(al, log, m)) || Finished(al, log, m.b)
    ensures ok && !pw.Off? ==> Finished(al, log, m.b)
  {
    hide IsChain, RemoveCut, Without;
    ok := OpOf(log.word) == Remove;
    pw := pw0;
    if ok {
      pw := RedoStop(al, log.blockNode, log, pw0, m.s0, m.k, m.b);
    }
  }

  /** The dispatch of `recover_timer_daemon_list_transaction`: `done` says that the list operation is complete. */
  method FinishMove(al: PList, log: OpLog, pw0: Power, ghost m: Move) returns (pw: Power, done: bool)
    requires !pw0.Off? && m.Ok() && MoveCut(al, log, m) && (Started(log, m) ==> m.AtSlot(m.node.key))
    modifies al, log`op, log`word, m.s0`prev, m.s0`next, m.node`list, m.node`prev, m.node`next
    ensures pw0.Mains? ==> pw.Mains?
    ensures MoveCut(al, log, m) && Recorded(log) == old(Recorded(log))
    ensures done <==> old(Recorded(log))
    ensures !done ==> pw == pw0 && Still(al, log, m) && log.op == old(log.op)
    ensures done && !pw.Off? ==> Finished(al, log, m.After())
  {
    hide IsList, Pending, With, Base, Position, Move.AtSlot;
    pw, done := pw0, false;
    if log.op == ActiveListTxCommitted {
      done := true;
    } else if log.op != TxInvalid {
      pw, done := RecoverMove(al, log, pw0, m);
      if Pending(al, log, m) {
        PendingMoveIsRecorded(al, log, m);
      }
    }
  }
}
