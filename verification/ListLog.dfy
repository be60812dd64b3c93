/** The operation log of the list transactions: one op code for the whole transaction and
    one word holding the micro operation in progress together with the old list length. */
module ListLog {
  import opened PowerSupply
  import opened PLists

  datatype MicroOp =
    | Invalid | InsertBeforeCursor | InsertFront | InsertSortedWaitList
    | InsertSortedDelayList | PopFront | Remove | ReadyListNext
  {
    function Code(): (c: nat)
      ensures c < 8
    {
      match this
      case Invalid => 0
      case InsertBeforeCursor => 1
      case InsertFront => 2
      case InsertSortedWaitList => 3
      case InsertSortedDelayList => 4
      case PopFront => 5
      case Remove => 6
      case ReadyListNext => 7
    }
  }

  datatype TxOp =
    | TxInvalid | WaitListPopRemoval | WaitListInsert | DelayListInsert
    | ActiveListRemove | ActiveListRemoveReInsert | ActiveListPopReInsert | ActiveListTxCommitted

  const MAX_LEN: nat := 0x1000  // 12 bits of old length

  function Decode(code: nat): MicroOp {
    if code == 1 then InsertBeforeCursor
    else if code == 2 then InsertFront
    else if code == 3 then InsertSortedWaitList
    else if code == 4 then InsertSortedDelayList
    else if code == 5 then PopFront
    else if code == 6 then Remove
    else if code == 7 then ReadyListNext
    else Invalid
  }

  /** The packed word: op code above twelve bits of length. */
  function Pack(op: MicroOp, oldLen: nat): nat
    requires oldLen < MAX_LEN
  {
    op.Code() * MAX_LEN + oldLen
  }

  function OpOf(word: nat): MicroOp {
    Decode(word / MAX_LEN)
  }

  function LenOf(word: nat): nat {
    word % MAX_LEN
  }

  /** One word store records both halves, and neither is lost. */
  lemma PackIsLossless(op: MicroOp, oldLen: nat)
    requires oldLen < MAX_LEN
    ensures OpOf(Pack(op, oldLen)) == op && LenOf(Pack(op, oldLen)) == oldLen
    ensures Pack(op, oldLen) < 0x10000
    ensures Pack(op, oldLen) == 0 <==> op == Invalid && oldLen == 0
  {
  }

  class OpLog {
    var op: TxOp
    var word: nat
    var blockNode: Node?
    var waitList: PList?

    constructor ()
      ensures op == TxInvalid && word == 0 && blockNode == null && waitList == null
    {
      op, word, blockNode, waitList := TxInvalid, 0, null, null;
    }
  }

  ghost predicate Logged(log: OpLog, op: MicroOp, oldLen: nat)
    reads log`word
  {
    OpOf(log.word) == op && LenOf(log.word) == oldLen
  }

  /** `start_op_log`: one word store. */
  method StartOpLog(log: OpLog, op: MicroOp, oldLen: nat, pw0: Power) returns (pw: Power)
    requires !pw0.Off? && oldLen < MAX_LEN
    modifies log`word
    ensures pw == pw0.Tick()
    ensures if pw.Off? then log.word == old(log.word) else Logged(log, op, oldLen)
  {
    pw := pw0.Tick();
    if pw.Off? { return; }
    log.word := Pack(op, oldLen);
    PackIsLossless(op, oldLen);
  }
}
