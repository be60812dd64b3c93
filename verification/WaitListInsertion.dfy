/** Blocking the current task: from its ready list into a wait list and the delay list,
    three lists and one status moved by one roll-forward transaction. */
module WaitListInsertion {
  import opened PowerSupply
  import opened PLists
  import opened ListLog
  import opened ListRemove
  import opened RemoveLimits
  import opened ListInsertSorted

  datatype TaskState = Ready | Blocked | Running | Killed

  class Task {
    var status: TaskState
    const sched: Node  // in a ready list or in the delay list
    const event: Node  // in a wait list, or free
    var listTxDone: bool  // the list transaction of the current system call is complete

    constructor (s: Node, e: Node)
      ensures sched == s && event == e && status == Ready && !listTxDone
    {
      sched, event, status, listTxDone := s, e, Ready, false;
    }
  }

  /** The objects that a list transaction works on. */
  datatype Kernel = Kernel(ready: PList, wait: PList, delay: PList, log: OpLog, task: Task)

  /** Where the task is taken from and where it goes: position `rk` of the ready list `rs`, leaving `rest`, slot `wi` of
      the wait list `ws` and slot `di` of the delay list `ds`. `made` is how many stores of the removal come before the
      first failure; it matters for a task that is alone in its ready list. */
  datatype Plan = Plan(rs: seq<Node>, rk: int, rest: seq<Node>, cursor: Node?, made: nat,
                       ws: seq<Node>, wi: int, ds: seq<Node>, di: int)

  /** `made` is what the supply of a removal says. */
  ghost predicate Foreseen(p: Plan, pw: Power) {
    pw.Off? || p.made == if pw.Failing? && pw.stores < 5 then pw.stores else 5
  }

  /** The task is alone in its ready list, and the header of the list is not cleared. */
  ghost predicate Stuck(p: Plan) {
    |p.rs| == 1 && p.made < 3
  }

  /** No node is in two of the lists. */
  ghost predicate Apart(k: Kernel, p: Plan) {
    && k.ready != k.wait && k.ready != k.delay && k.wait != k.delay && k.task.sched != k.task.event
    && (forall n :: n in p.rs ==> n !in p.ws && n !in p.ds && n != k.task.event)
    && (forall n :: n in p.ws ==> n !in p.rs && n !in p.ds && n != k.task.event && n != k.task.sched)
    && (forall n :: n in p.ds ==> n !in p.rs && n !in p.ws && n != k.task.event && n != k.task.sched)
  }

  ghost predicate Planned(k: Kernel, p: Plan)
    reads p.ws`key, p.ds`key, k.task.event`key, k.task.sched`key
  {
    && Apart(k, p)
    && |p.rs| < MAX_LEN && |p.ws| < MAX_LEN && |p.ds| < MAX_LEN
    && 0 <= p.rk < |p.rs| && p.rs[p.rk] == k.task.sched && p.cursor in p.rs
    && Distinct(p.rs) && p.rest == Without(p.rs, p.rk)
    && 0 <= p.wi <= |p.ws| && IsSpot(p.ws, k.task.event, p.wi)
    && 0 <= p.di <= |p.ds| && IsSpot(p.ds, k.task.sched, p.di)
  }

  // ---------- the state of each list ----------

  ghost predicate InReady(k: Kernel, p: Plan)
    reads k.ready, p.rs
  {
    IsList(k.ready, p.rs, true) && k.ready.cursor == p.cursor
  }

  /** What is left of the header of a list with one node. */
  ghost predicate HeaderOf(l: PList, node: Node, made: nat)
    reads l`cursor, l`head
  {
    l.cursor == (if made < 2 then node else null) && l.head == if made < 3 then node else null
  }

  ghost predicate LeftReady(k: Kernel, p: Plan)
    requires 0 <= p.rk < |p.rs|
    reads k.ready, p.rest
  {
    if |p.rs| == 1 then HeaderOf(k.ready, k.task.sched, p.made) && k.ready.len == 0
    else IsList(k.ready, p.rest, true) && k.ready.cursor == CursorWithout(p.cursor, p.rs, p.rk, true)
  }

  /** A list that a task has left is well formed, unless its header was stuck. */
  lemma ReadyAfter(k: Kernel, p: Plan)
    requires Planned(k, p) && LeftReady(k, p)
    ensures !Stuck(p) ==> IsList(k.ready, p.rest, true) && k.ready.cursor == CursorWithout(p.cursor, p.rs, p.rk, true)
    ensures Stuck(p) ==> k.ready.head == k.task.sched && forall s, c :: !IsRing(k.ready, s, c)
  {
  }

  ghost predicate RemovalCut(k: Kernel, p: Plan)
    requires 0 <= p.rk < |p.rs|
    reads k.ready, p.rs, k.task.sched
  {
    if |p.rs| == 1 then
      HeaderOf(k.ready, k.task.sched, p.made) && k.task.sched.prev == k.task.sched && k.task.sched.next == k.task.sched
    else RemoveCut(k.ready, p.rs, p.rk, true, p.cursor)
  }

  ghost predicate NotWaiting(k: Kernel, p: Plan)
    reads k.wait, p.ws, k.task.event`list
  {
    IsChain(k.wait, p.ws) && k.task.event.list == null
  }

  ghost predicate Waiting(k: Kernel, p: Plan)
    requires 0 <= p.wi <= |p.ws|
    reads k.wait, p.ws, k.task.event
  {
    IsChain(k.wait, With(p.ws, p.wi, k.task.event))
  }

  ghost predicate Delayed(k: Kernel, p: Plan)
    requires 0 <= p.di <= |p.ds|
    reads k.delay, p.ds, k.task.sched
  {
    IsChain(k.delay, With(p.ds, p.di, k.task.sched))
  }

  // ---------- the state of the transaction ----------

  /** Only in the ready list; nothing has happened. */
  ghost predicate NotBlocked(k: Kernel, p: Plan)
    reads k.ready, k.wait, k.delay, p.rs, p.rest, p.ws, p.ds, k.task.event`list
  {
    InReady(k, p) && NotWaiting(k, p) && IsChain(k.delay, p.ds)
  }

  /** In the wait list and in the delay list, and marked so. */
  ghost predicate HasBlocked(k: Kernel, p: Plan)
    requires 0 <= p.rk < |p.rs| && 0 <= p.wi <= |p.ws| && 0 <= p.di <= |p.ds|
    reads k.ready, k.wait, k.delay, p.rs, p.rest, p.ws, p.ds, k.task.event, k.task.sched, k.task`status
  {
    LeftReady(k, p) && Waiting(k, p) && Delayed(k, p) && k.task.status == Blocked
  }

  ghost predicate AtRemove(k: Kernel, p: Plan)
    requires 0 <= p.rk < |p.rs|
    reads k.ready, k.wait, k.delay, p.rs, p.rest, p.ws, p.ds, k.task.event`list, k.task.sched, k.log`word
  {
    && Logged(k.log, Remove, |p.rs|)
    && RemovalCut(k, p) && NotWaiting(k, p) && IsChain(k.delay, p.ds)
  }

  ghost predicate AtWait(k: Kernel, p: Plan)
    requires 0 <= p.rk < |p.rs| && 0 <= p.wi <= |p.ws|
    reads k.ready, k.wait, k.delay, p.rs, p.rest, p.ws, p.ds, k.task.event, k.task.sched`list, k.log`word
  {
    && Logged(k.log, InsertSortedWaitList, |p.ws|)
    && LeftReady(k, p) && InsertCut(k.wait, p.ws, p.wi, k.task.event) && IsChain(k.delay, p.ds)
    && k.task.sched.list == null
  }

  ghost predicate AtDelay(k: Kernel, p: Plan)
    requires 0 <= p.rk < |p.rs| && 0 <= p.wi <= |p.ws| && 0 <= p.di <= |p.ds|
    reads k.ready, k.wait, k.delay, p.rs, p.rest, p.ws, p.ds, k.task.event, k.task.sched, k.log`word
  {
    && Logged(k.log, InsertSortedDelayList, |p.ds|)
    && LeftReady(k, p) && Waiting(k, p) && InsertCut(k.delay, p.ds, p.di, k.task.sched)
  }

  /** What a reboot finds when the transaction was cut. */
  ghost predicate BlockCut(k: Kernel, p: Plan)
    requires 0 <= p.rk < |p.rs| && 0 <= p.wi <= |p.ws| && 0 <= p.di <= |p.ds|
    reads k.ready, k.wait, k.delay, p.rs, p.rest, p.ws, p.ds, k.task.event, k.task.sched, k.task`status, k.log
  {
    if k.log.op == TxInvalid then
      k.log.word == 0 && (NotBlocked(k, p) || HasBlocked(k, p))
    else
      && k.log.op == WaitListInsert && k.log.waitList == k.wait
      && ((k.log.word == 0 && (NotBlocked(k, p) || HasBlocked(k, p)))
          || AtRemove(k, p) || AtWait(k, p) || AtDelay(k, p))
  }

  // ---------- which nodes a step touches ----------

  ghost predicate OnlyReady(k: Kernel, p: Plan, n: Node?) {
    n == null || (n in p.rs && n !in p.ws && n !in p.ds && n != k.task.event)
  }

  ghost predicate OnlyWait(k: Kernel, p: Plan, n: Node?) {
    n == null || (n in p.ws && n !in p.rs && n !in p.ds && n != k.task.sched)
  }

  ghost predicate OnlyDelay(k: Kernel, p: Plan, n: Node?) {
    n == null || (n in p.ds && n !in p.rs && n !in p.ws && n != k.task.event)
  }

  lemma StepsStayInside(k: Kernel, p: Plan)
    requires Planned(k, p)
    ensures InReady(k, p) || AtRemove(k, p) ==> OnlyReady(k, p, k.task.sched.prev) && OnlyReady(k, p, k.task.sched.next)
    ensures OnlyWait(k, p, SlotPrev(p.ws, p.wi, false)) && OnlyWait(k, p, SlotNext(p.ws, p.wi, false))
    ensures OnlyDelay(k, p, SlotPrev(p.ds, p.di, false)) && OnlyDelay(k, p, SlotNext(p.ds, p.di, false))
    ensures k.task.event !in p.ws && k.task.event !in p.rs && k.task.event !in p.ds
    ensures k.task.sched !in p.ws && k.task.sched !in p.ds && k.task.sched in p.rs
    ensures forall n :: n in p.rest ==> n != k.task.sched && n != k.task.event && n !in p.ws && n !in p.ds
  {
    hide IsList, RemoveCut, IsSpot, Distinct, SlotPrev, SlotNext;
    SidesAreIn(p.ws, p.wi, false);
    SidesAreIn(p.ds, p.di, false);
    WithoutIsDistinct(p.rs, p.rk);
    WithoutIsIn(p.rs, p.rk);
    if InReady(k, p) {
      NeighboursAreIn(k.ready, p.rs, p.rk, true);
    }
    if AtRemove(k, p) && |p.rs| > 1 {
      CutNeighboursAreIn(k.ready, p.rs, p.rk, true, p.cursor);
    }
  }

  // ---------- the steps ----------

  method RemoveFromReadyList(k: Kernel, pw0: Power, ghost p: Plan) returns (pw: Power)
    requires !pw0.Off? && Planned(k, p) && NotBlocked(k, p) && Foreseen(p, pw0)
    modifies k.ready, k.log`word, k.task.sched`list, p.rs`prev, p.rs`next
    ensures pw0.Mains? ==> pw.Mains?
    ensures if pw0 == Failing(0) then pw.Off? && k.log.word == old(k.log.word) && NotBlocked(k, p) else AtRemove(k, p)
    ensures !pw.Off? ==> AtRemove(k, p) && LeftReady(k, p) && k.task.sched.list == null
  {
    hide IsList, RemoveCut, Without, CursorWithout, IsSpot;
    StepsStayInside(k, p);
    LengthOfReady(k, p);
    if k.ready.len == 1 {
      AloneIsRing(k.ready, k.task.sched, p.rs);
      pw := RemoveOnlyRingNode(k.ready, k.task.sched, k.log, pw0);
      AloneIsRing(k.ready, k.task.sched, p.rs);
    } else {
      pw := OptimizedRemove(k.ready, k.task.sched, k.log, pw0, p.rs, p.rk, true);
    }
  }

  lemma LengthOfReady(k: Kernel, p: Plan)
    requires Planned(k, p) && InReady(k, p)
    ensures k.ready.len == |p.rs|
  {
    hide Apart, IsSpot, Linked, Owned, Distinct, Without;
  }

  lemma AloneIsRing(l: PList, node: Node, s: seq<Node>)
    requires |s| == 1 && s[0] == node
    ensures s == [node]
    ensures IsList(l, s, true) && l.cursor == node ==> IsRing(l, [node], 0)
    ensures RingRemovalAt(l, node, 0) ==> IsList(l, s, true) && l.cursor == node
  {
    assert s == [node];
  }

  method RecoverReadyRemoval(k: Kernel, pw0: Power, ghost p: Plan) returns (pw: Power)
    requires !pw0.Off? && Planned(k, p) && AtRemove(k, p)
    modifies k.ready, k.task.sched`list, p.rs`prev, p.rs`next
    ensures pw0.Mains? ==> pw.Mains?
    ensures AtRemove(k, p)
    ensures !pw.Off? ==> LeftReady(k, p) && k.task.sched.list == null
  {
    hide IsList, RemoveCut, Without, CursorWithout, IsSpot;
    StepsStayInside(k, p);
    if LenOf(k.log.word) == 1 {
      pw := RecoverOnlyRingNode(k.ready, k.task.sched, pw0);
    } else {
      pw := RecoverFromFailedRemove(k.ready, k.task.sched, LenOf(k.log.word), pw0, p.rs, p.rk, true, p.cursor);
    }
  }

  method InsertIntoWaitList(k: Kernel, pw0: Power, ghost p: Plan) returns (pw: Power)
    requires !pw0.Off? && Planned(k, p) && AtRemove(k, p) && LeftReady(k, p) && k.task.sched.list == null
    modifies k.wait, k.log`word, p.ws`prev, p.ws`next, k.task.event`list, k.task.event`prev, k.task.event`next
    ensures pw0.Mains? ==> pw.Mains?
    ensures AtRemove(k, p) || AtWait(k, p)
    ensures !pw.Off? ==> AtWait(k, p) && Waiting(k, p)
  {
    hide IsList, InsertCut, RemoveCut, LeftReady, IsSpot, SlotPrev, SlotNext;
    StepsStayInside(k, p);
    InsertCutAtStart(k.wait, p.ws, p.wi, k.task.event);
    pw := StartOpLog(k.log, InsertSortedWaitList, k.wait.len, pw0);
    if pw.Off? { return; }
    pw := OptimizedInsertSorted(k.wait, k.task.event, pw, p.ws, p.wi);
  }

  method RecoverWaitInsertion(k: Kernel, pw0: Power, ghost p: Plan) returns (pw: Power)
    requires !pw0.Off? && Planned(k, p) && AtWait(k, p)
    modifies k.wait, p.ws`prev, p.ws`next, k.task.event`list, k.task.event`prev, k.task.event`next
    ensures pw0.Mains? ==> pw.Mains?
    ensures AtWait(k, p)
    ensures !pw.Off? ==> Waiting(k, p)
  {
    hide IsList, InsertCut, LeftReady, IsSpot, SlotPrev, SlotNext;
    StepsStayInside(k, p);
    pw := RecoverFromFailedInsertSorted(k.wait, k.task.event, LenOf(k.log.word), pw0, p.ws, p.wi);
  }

  /** `add_to_delayed_list`: the status is stored before the insertion is logged. */
  method AddToDelayedList(k: Kernel, pw0: Power, ghost p: Plan) returns (pw: Power)
    requires !pw0.Off? && Planned(k, p) && AtWait(k, p) && Waiting(k, p)
    modifies k.delay, k.log`word, k.task`status, p.ds`prev, p.ds`next,
             k.task.sched`list, k.task.sched`prev, k.task.sched`next
    ensures pw0.Mains? ==> pw.Mains?
    ensures AtWait(k, p) || AtDelay(k, p)
    ensures !pw.Off? ==> AtDelay(k, p) && HasBlocked(k, p)
  {
    hide IsList, InsertCut, LeftReady, Waiting, IsSpot, SlotPrev, SlotNext, Distinct, Without;
    StepsStayInside(k, p);
    pw := pw0.Tick();
    if pw.Off? { return; }
    k.task.status := Blocked;
    InsertCutAtStart(k.delay, p.ds, p.di, k.task.sched);
    pw := StartOpLog(k.log, InsertSortedDelayList, k.delay.len, pw);
    if pw.Off? { return; }
    pw := OptimizedInsertSorted(k.delay, k.task.sched, pw, p.ds, p.di);
  }

  /** `invalidate`: first the micro operation, then the transaction. */
  method Invalidate(k: Kernel, pw0: Power, ghost p: Plan) returns (pw: Power)
    requires !pw0.Off? && Planned(k, p) && BlockCut(k, p)
    requires HasBlocked(k, p) || (k.log.word == 0 && NotBlocked(k, p))
    modifies k.log`word, k.log`op
    ensures pw0.Mains? ==> pw.Mains?
    ensures BlockCut(k, p)
    ensures !pw.Off? ==> k.log.op == TxInvalid && k.log.word == 0
    ensures old(HasBlocked(k, p)) ==> HasBlocked(k, p)
    ensures old(NotBlocked(k, p)) ==> NotBlocked(k, p)
    ensures k.log.word == old(k.log.word) || k.log.word == 0
  {
    hide InReady, LeftReady, NotWaiting, Waiting, Delayed, AtRemove, AtWait, AtDelay, IsChain, IsSpot;
    pw := pw0.Tick();
    if pw.Off? { return; }
    k.log.word := 0;
    pw := pw.Tick();
    if pw.Off? { return; }
    k.log.op := TxInvalid;
  }

  // ---------- the transaction and its recovery ----------

  /** No micro operation was recorded. */
  ghost predicate Before(k: Kernel, p: Plan)
    reads k.ready, k.wait, k.delay, p.rs, p.rest, p.ws, p.ds, k.task.event`list, k.log`word
  {
    k.log.word == 0 && NotBlocked(k, p)
  }

  /** The removal was recorded: from here on the task will be blocked. */
  ghost predicate Going(k: Kernel, p: Plan)
    requires 0 <= p.rk < |p.rs| && 0 <= p.wi <= |p.ws| && 0 <= p.di <= |p.ds|
    reads k.ready, k.wait, k.delay, p.rs, p.rest, p.ws, p.ds, k.task.event, k.task.sched, k.task`status, k.log
  {
    k.log.word != 0 || HasBlocked(k, p)
  }

  lemma RecordedIsGoing(k: Kernel, p: Plan)
    requires Planned(k, p)
    ensures AtRemove(k, p) || AtWait(k, p) || AtDelay(k, p) ==> k.log.word != 0
    ensures !(NotBlocked(k, p) && HasBlocked(k, p))
  {
    hide RemoveCut, InsertCut, Waiting, Delayed, Distinct, IsSpot, Linked, Owned;
    assert |p.rest| < |p.rs|;
  }

  /** The three micro operations. */
  method MoveTask(k: Kernel, pw0: Power, ghost p: Plan) returns (pw: Power)
    requires !pw0.Off? && Planned(k, p) && NotBlocked(k, p) && k.log.word == 0 && Foreseen(p, pw0)
    requires k.log.op == WaitListInsert && k.log.waitList == k.wait
    modifies k.ready, k.wait, k.delay, k.log`word, k.task`status, {k.task.sched, k.task.event}`list,
             {k.task.sched, k.task.event}`prev, {k.task.sched, k.task.event}`next,
             p.rs`prev, p.rs`next, p.ws`prev, p.ws`next, p.ds`prev, p.ds`next
    ensures pw0.Mains? ==> pw.Mains?
    ensures BlockCut(k, p)
    ensures !pw.Off? ==> HasBlocked(k, p)
    ensures if pw0 == Failing(0) then Before(k, p) && k.task.status == old(k.task.status) else Going(k, p)
  {
    hide NotBlocked, HasBlocked, LeftReady, Waiting, AtRemove, AtWait, AtDelay, IsSpot, Apart;
    pw := RemoveFromReadyList(k, pw0, p);
    RecordedIsGoing(k, p);
    if pw.Off? { return; }
    pw := InsertIntoWaitList(k, pw, p);
    RecordedIsGoing(k, p);
    if pw.Off? { return; }
    pw := AddToDelayedList(k, pw, p);
    RecordedIsGoing(k, p);
  }

  /** `roll_forward_insert_into_waitlist`. */
  method InsertIntoWaitListTx(k: Kernel, pw0: Power, ghost p: Plan) returns (pw: Power)
    requires !pw0.Off? && Planned(k, p) && NotBlocked(k, p) && k.log.op == TxInvalid && k.log.word == 0
    requires Foreseen(p, pw0.After(2))
    modifies k.ready, k.wait, k.delay, k.log, k.task`status, {k.task.sched, k.task.event}`list,
             {k.task.sched, k.task.event}`prev, {k.task.sched, k.task.event}`next,
             p.rs`prev, p.rs`next, p.ws`prev, p.ws`next, p.ds`prev, p.ds`next
    ensures pw0.Mains? ==> pw.Mains?
    ensures BlockCut(k, p)
    ensures !pw.Off? ==> HasBlocked(k, p) && k.log.op == TxInvalid && k.log.word == 0
    ensures if pw0.Failing? && pw0.stores < 3 then Before(k, p) && k.task.status == old(k.task.status) else Going(k, p)
  {
    hide NotBlocked, HasBlocked, LeftReady, Waiting, AtRemove, AtWait, AtDelay, IsSpot, Apart;
    pw := pw0.Tick();
    if pw.Off? { return; }
    k.log.waitList := k.wait;
    pw := pw.Tick();
    if pw.Off? { return; }
    k.log.op := WaitListInsert;
    pw := MoveTask(k, pw, p);
    if pw.Off? { return; }
    pw := Invalidate(k, pw, p);
  }

  /** `recover_and_roll_forward_of_waitlist_insert`, dispatched on the op code of the log. */
  method RecoverWaitListInsert(k: Kernel, pw0: Power, ghost p: Plan) returns (pw: Power)
    requires !pw0.Off? && Planned(k, p) && BlockCut(k, p)
    modifies k.ready, k.wait, k.delay, k.log, k.task`status, {k.task.sched, k.task.event}`list,
             {k.task.sched, k.task.event}`prev, {k.task.sched, k.task.event}`next,
             p.rs`prev, p.rs`next, p.ws`prev, p.ws`next, p.ds`prev, p.ds`next
    ensures pw0.Mains? ==> pw.Mains?
    ensures BlockCut(k, p)
    ensures !pw.Off? ==> (HasBlocked(k, p) || NotBlocked(k, p)) && k.log.op == TxInvalid && k.log.word == 0
    ensures old(Before(k, p)) ==> Before(k, p) && k.task.status == old(k.task.status)
    ensures old(Going(k, p)) ==> Going(k, p) && (!pw.Off? ==> HasBlocked(k, p))
  {
    hide NotBlocked, HasBlocked, LeftReady, Waiting, AtRemove, AtWait, AtDelay, IsSpot, Apart;
    pw := pw0;
    if k.log.op == TxInvalid { return; }
    RecordedAs(k, p);
    match OpOf(k.log.word) {
      case Remove =>
        pw := RecoverReadyRemoval(k, pw, p);
        RecordedIsGoing(k, p);
        if pw.Off? { return; }
        pw := InsertIntoWaitList(k, pw, p);
        RecordedIsGoing(k, p);
        if pw.Off? { return; }
        pw := AddToDelayedList(k, pw, p);
      case InsertSortedWaitList =>
        pw := RecoverWaitInsertion(k, pw, p);
        RecordedIsGoing(k, p);
        if pw.Off? { return; }
        pw := AddToDelayedList(k, pw, p);
      case InsertSortedDelayList =>
        pw := RecoverDelayInsertion(k, pw, p);
      case _ =>
    }
    RecordedIsGoing(k, p);
    if pw.Off? { return; }
    pw := Invalidate(k, pw, p);
  }

  /** The op code of the record names the stage. */
  lemma RecordedAs(k: Kernel, p: Plan)
    requires Planned(k, p) && BlockCut(k, p) && k.log.op != TxInvalid
    ensures OpOf(k.log.word) == Remove ==> AtRemove(k, p)
    ensures OpOf(k.log.word) == InsertSortedWaitList ==> AtWait(k, p)
    ensures OpOf(k.log.word) == InsertSortedDelayList ==> AtDelay(k, p)
    ensures k.log.word == 0 <==> OpOf(k.log.word) !in {Remove, InsertSortedWaitList, InsertSortedDelayList}
    ensures k.log.word == 0 ==> Before(k, p) || HasBlocked(k, p)
  {
    hide NotBlocked, HasBlocked, LeftReady, Waiting, InsertCut, RemoveCut, IsChain, IsSpot, Apart, Without;
    RecordedIsGoing(k, p);
  }

  method RecoverDelayInsertion(k: Kernel, pw0: Power, ghost p: Plan) returns (pw: Power)
    requires !pw0.Off? && Planned(k, p) && AtDelay(k, p)
    modifies k.delay, k.task`status, p.ds`prev, p.ds`next, k.task.sched`list, k.task.sched`prev, k.task.sched`next
    ensures pw0.Mains? ==> pw.Mains?
    ensures AtDelay(k, p)
    ensures !pw.Off? ==> HasBlocked(k, p)
  {
    hide IsList, InsertCut, LeftReady, Waiting, IsSpot, SlotPrev, SlotNext;
    StepsStayInside(k, p);
    pw := RecoverFromFailedInsertSorted(k.delay, k.task.sched, LenOf(k.log.word), pw0, p.ds, p.di);
    if pw.Off? { return; }
    pw := pw.Tick();
    if pw.Off? { return; }
    k.task.status := Blocked;
  }

  /** Blocking under any number of power failures, of the transaction and of its recoveries. The wait list,
      the op code and the record of the removal are the first three stores: a supply that gives out before
      them leaves the task as it was, any other has it end in both other lists with status Blocked. Its ready list
      is then the list without it, unless it was alone there and the first supply gave out behind the third or the
      fourth store: that list ends with length 0 and a head, and holds nothing. */
  method BlockUnderFailures(k: Kernel, first: Power, reboots: seq<Power>, ghost p: Plan)
    requires !first.Off? && forall r :: 0 <= r < |reboots| ==> !reboots[r].Off?
    requires Planned(k, p) && NotBlocked(k, p) && k.log.op == TxInvalid && k.log.word == 0 && Foreseen(p, first.After(2))
    modifies k.ready, k.wait, k.delay, k.log, k.task`status, {k.task.sched, k.task.event}`list,
             {k.task.sched, k.task.event}`prev, {k.task.sched, k.task.event}`next,
             p.rs`prev, p.rs`next, p.ws`prev, p.ws`next, p.ds`prev, p.ds`next
    ensures if first.Failing? && first.stores < 3 then NotBlocked(k, p) && k.task.status == old(k.task.status)
            else HasBlocked(k, p)
    ensures k.log.op == TxInvalid && k.log.word == 0
    ensures |p.rs| == 1 && first.Failing? && 3 <= first.stores < 5 ==> forall s, c :: !IsRing(k.ready, s, c)
    ensures |p.rs| > 1 || !first.Failing? || first.stores >= 5 ==> NotBlocked(k, p) || IsList(k.ready, p.rest, true)
  {
    hide NotBlocked, HasBlocked, BlockCut, Going, IsSpot, Apart, IsRing, IsList;
    var pw := InsertIntoWaitListTx(k, first, p);
    var r := 0;
    while pw.Off?
      invariant 0 <= r <= |reboots| + 1
      invariant r > |reboots| ==> !pw.Off?
      invariant BlockCut(k, p)
      invariant if first.Failing? && first.stores < 3 then Before(k, p) && k.task.status == old(k.task.status)
                else Going(k, p) && (!pw.Off? ==> HasBlocked(k, p))
      invariant !pw.Off? ==> k.log.op == TxInvalid && k.log.word == 0
      decreases |reboots| + 1 - r
    {
      pw := RecoverWaitListInsert(k, if r < |reboots| then reboots[r] else Mains, p);
      r := r + 1;
    }
    ReadyOfBlocked(k, p);
  }

  lemma ReadyOfBlocked(k: Kernel, p: Plan)
    requires Planned(k, p)
    ensures HasBlocked(k, p) ==> if Stuck(p) then forall s, c :: !IsRing(k.ready, s, c) else IsList(k.ready, p.rest, true)
  {
    hide Waiting, Delayed, IsSpot, Apart, IsRing, IsList;
    if HasBlocked(k, p) {
      ReadyAfter(k, p);
    }
  }

  /** The container fields alone keep the lists apart. */
  lemma OwnersKeepListsApart(k: Kernel, p: Plan)
    requires k.ready != k.wait && k.ready != k.delay && k.wait != k.delay
    requires NotBlocked(k, p) && 0 <= p.rk < |p.rs| && p.rs[p.rk] == k.task.sched
    ensures Apart(k, p) && Distinct(p.rs)
  {
    assert k.task.sched.list == k.ready;
  }
}
