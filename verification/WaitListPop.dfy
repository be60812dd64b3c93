/** Waking the first waiter: out of the wait list and the delay list, into its ready list. */
module WaitListPop {
  import opened PowerSupply
  import opened PLists
  import opened ListLog
  import opened ListRemove
  import opened ListPopFront
  import opened ListInsertCursor
  import opened WaitListInsertion

  /** `ws` is the wait list with the task first, `dk` its position in the delay list `ds`, and `rc` the cursor
      position of its ready list `rs`, which becomes `after`. */
  datatype Wake = Wake(ws: seq<Node>, wrest: seq<Node>, ds: seq<Node>, dk: int, drest: seq<Node>,
                       rs: seq<Node>, rc: int, after: seq<Node>)

  ghost predicate WakeApart(k: Kernel, p: Wake) {
    && k.ready != k.wait && k.ready != k.delay && k.wait != k.delay && k.task.sched != k.task.event
    && (forall n :: n in p.rs ==> n !in p.ws && n !in p.ds && n != k.task.event && n != k.task.sched)
    && (forall n :: n in p.ws ==> n !in p.rs && n !in p.ds && n != k.task.sched)
    && (forall n :: n in p.ds ==> n !in p.rs && n !in p.ws && n != k.task.event)
  }

  ghost predicate WakePlanned(k: Kernel, p: Wake) {
    && WakeApart(k, p)
    && 0 < |p.ws| < MAX_LEN && |p.ds| < MAX_LEN && |p.rs| < MAX_LEN
    && Distinct(p.ws) && p.ws[0] == k.task.event && p.wrest == Without(p.ws, 0)
    && 0 <= p.dk < |p.ds| && Distinct(p.ds) && p.ds[p.dk] == k.task.sched && p.drest == Without(p.ds, p.dk)
    && IsPos(p.rs, p.rc) && p.after == With(p.rs, p.rc, k.task.sched)
  }

  // ---------- the states of the transaction ----------

  ghost predicate Asleep(k: Kernel, p: Wake)
    reads k.ready, k.wait, k.delay, p.ws, p.ds, p.rs
  {
    IsChain(k.wait, p.ws) && IsChain(k.delay, p.ds) && IsRing(k.ready, p.rs, p.rc)
  }

  ghost predicate AtPop(k: Kernel, p: Wake)
    requires p.ws != []
    reads k.ready, k.wait, k.delay, p.ws, p.wrest, p.ds, p.rs, k.task.event`list, k.log`word
  {
    && Logged(k.log, PopFront, |p.ws|)
    && PopCut(k.wait, p.ws, null) && (k.task.event.list == null ==> IsChain(k.wait, p.wrest))
    && IsChain(k.delay, p.ds) && IsRing(k.ready, p.rs, p.rc)
  }

  ghost predicate AtUndelay(k: Kernel, p: Wake)
    requires 0 <= p.dk < |p.ds|
    reads k.ready, k.wait, k.delay, p.wrest, p.ds, p.rs, k.task.event`list, k.log`word
  {
    && Logged(k.log, Remove, |p.ds|)
    && IsChain(k.wait, p.wrest) && k.task.event.list == null
    && RemoveCut(k.delay, p.ds, p.dk, false, null) && IsRing(k.ready, p.rs, p.rc)
  }

  ghost predicate Undelayed(k: Kernel, p: Wake)
    reads k.wait, k.delay, p.wrest, p.drest, k.task.event`list
  {
    IsChain(k.wait, p.wrest) && k.task.event.list == null && IsChain(k.delay, p.drest)
  }

  ghost predicate AtReady(k: Kernel, p: Wake)
    requires IsPos(p.rs, p.rc)
    reads k.ready, k.wait, k.delay, p.wrest, p.drest, p.rs, k.task.event`list, k.task.sched, k.log`word
  {
    Logged(k.log, InsertBeforeCursor, |p.rs|) && Undelayed(k, p) && RingInsertCut(k.ready, p.rs, p.rc, k.task.sched)
  }

  /** Out of both waiting lists, linked into the ready ring, and marked so. */
  ghost predicate Woken(k: Kernel, p: Wake)
    reads k.ready, k.wait, k.delay, p.wrest, p.drest, p.rs, p.after, k.task.event`list, k.task.sched`list, k.task`status
  {
    && Undelayed(k, p) && k.task.status == Ready
    && RingShape(k.ready, p.after, CursorAfter(p.rs, p.rc))
    && (k.task.sched.list == null || k.task.sched.list == k.ready)
    && Owned(k.ready, p.rs)
  }

  /** Where a cut transaction stands: nothing recorded, in the pop before and after the head was moved and after
      the waiter was released, in the removal from the delay list, and in the insertion into the ready list before
      (`Gap`) and after the container of the task was stored. */
  datatype Stage = Unrecorded | HeadKept | HeadMoved | Popped | Unlinking | Gap | Entered

  ghost predicate AtStage(k: Kernel, p: Wake, stage: Stage)
    requires p.ws != [] && 0 <= p.dk < |p.ds| && IsPos(p.rs, p.rc)
    reads k.ready, k.wait, k.delay, p.ws, p.wrest, p.ds, p.drest, p.rs, p.after, k.task.event, k.task.sched, k.task`status, k.log`word
  {
    match stage
    case Unrecorded => k.log.word == 0 && Asleep(k, p)
    case HeadKept => AtPop(k, p) && k.wait.head == k.task.event && k.task.event.list != null
    case HeadMoved => AtPop(k, p) && k.wait.head != k.task.event && k.task.event.list != null
    case Popped => AtPop(k, p) && k.task.event.list == null
    case Unlinking => AtUndelay(k, p)
    case Gap => (AtReady(k, p) || (k.log.word == 0 && Woken(k, p))) && k.task.sched.list == null
    case Entered => (AtReady(k, p) || (k.log.word == 0 && Woken(k, p))) && k.task.sched.list == k.ready
  }

  /** A transaction in flight: its op code is set. */
  ghost predicate WakeCut(k: Kernel, p: Wake, stage: Stage)
    requires p.ws != [] && 0 <= p.dk < |p.ds| && IsPos(p.rs, p.rc)
    reads k.ready, k.wait, k.delay, p.ws, p.wrest, p.ds, p.drest, p.rs, p.after, k.task.event, k.task.sched, k.task`status, k.log
  {
    k.log.op == WaitListPopRemoval && k.log.blockNode == k.task.event && AtStage(k, p, stage)
  }

  /** The stores of a removal from a delay list of `n` tasks. */
  function RemovalStores(n: nat): nat {
    if n == 1 then 5 else 7
  }

  /** The stage after `n` stores of the three moves, of a delay list with `d` tasks. */
  function StageAt(n: nat, d: nat): Stage {
    if n == 0 then Unrecorded
    else if n < 2 then HeadKept
    else if n < 6 then HeadMoved
    else if n == 6 then Popped
    else if n < 7 + RemovalStores(d) then Unlinking
    else if n == 7 + RemovalStores(d) then Gap
    else Entered
  }

  /** The stage in which the first supply leaves the transaction: two stores come before the moves. */
  function FirstStage(first: Power, d: nat): Stage {
    if !first.Failing? then Entered
    else if first.stores < 2 then Unrecorded
    else StageAt(first.stores - 2, d)
  }

  /** The stage in which a recovery from `stage` leaves it. */
  function NextStage(stage: Stage, supply: Power, d: nat): Stage {
    if stage in {Unrecorded, Gap, Entered} then stage
    else if !supply.Failing? then Entered
    else if stage == Unlinking then
      (if supply.stores < 7 then Unlinking else if supply.stores == 7 then Gap else Entered)
    else if stage == HeadKept then (if supply.stores == 0 then HeadKept else StageAt(supply.stores, d))
    else StageAt(supply.stores + (if stage == HeadMoved then 2 else 6), d)
  }

  /** The stage in which any number of recoveries leave it, the last of them on mains. */
  function LastStage(stage: Stage, reboots: seq<Power>, d: nat): Stage
    decreases |reboots|
  {
    if reboots == [] then NextStage(stage, Mains, d) else LastStage(NextStage(stage, reboots[0], d), reboots[1..], d)
  }

  // ---------- which nodes a step touches ----------

  ghost predicate WaitSide(k: Kernel, p: Wake, n: Node?) {
    n == null || (n in p.ws && n !in p.rs && n !in p.ds && n != k.task.sched)
  }

  ghost predicate DelaySide(k: Kernel, p: Wake, n: Node?) {
    n == null || (n in p.ds && n !in p.rs && n !in p.ws && n != k.task.event)
  }

  ghost predicate ReadySide(k: Kernel, p: Wake, n: Node?) {
    n == null || (n in p.rs && n !in p.ws && n !in p.ds && n != k.task.event && n != k.task.sched)
  }

  lemma WakeStaysInside(k: Kernel, p: Wake)
    requires WakePlanned(k, p)
    ensures IsChain(k.wait, p.ws) || PopCut(k.wait, p.ws, null) ==> WaitSide(k, p, k.task.event.next)
    ensures IsChain(k.wait, p.ws) || PopCut(k.wait, p.ws, null) ==>
              k.task.event.next == null || (|p.ws| > 1 && k.task.event.next == p.ws[1])
    ensures IsChain(k.delay, p.ds) || RemoveCut(k.delay, p.ds, p.dk, false, null) ==>
              DelaySide(k, p, k.task.sched.prev) && DelaySide(k, p, k.task.sched.next)
    ensures |p.ws| > 1 ==> WaitSide(k, p, p.ws[1])
    ensures ReadySide(k, p, SlotPrev(p.rs, p.rc, true))
    ensures p.rs != [] ==> ReadySide(k, p, p.rs[p.rc])
    ensures forall n :: n in p.wrest ==> n != k.task.sched && n != k.task.event && n !in p.ds && n !in p.rs
    ensures forall n :: n in p.drest ==> n != k.task.sched && n != k.task.event && n !in p.ws && n !in p.rs
    ensures k.task.event in p.ws && k.task.event !in p.ds && k.task.event !in p.rs
    ensures k.task.sched in p.ds && k.task.sched !in p.ws && k.task.sched !in p.rs
  {
    hide IsList, RemoveCut, Distinct;
    WithoutIsDistinct(p.ws, 0);
    WithoutIsIn(p.ws, 0);
    WithoutIsDistinct(p.ds, p.dk);
    WithoutIsIn(p.ds, p.dk);
    SidesAreIn(p.rs, p.rc, true);
    if IsChain(k.wait, p.ws) {
      NeighboursAreIn(k.wait, p.ws, 0, false);
      NextOfHead(k.wait, p.ws);
    }
    if IsChain(k.delay, p.ds) {
      NeighboursAreIn(k.delay, p.ds, p.dk, false);
    }
    if RemoveCut(k.delay, p.ds, p.dk, false, null) {
      CutNeighboursAreIn(k.delay, p.ds, p.dk, false, null);
    }
  }

  lemma NextOfHead(l: PList, s: seq<Node>)
    requires s != [] && IsList(l, s, false)
    ensures s[0].next == NextOf(s, 0, false)
  {
  }

  // ---------- the steps ----------

  method PopWaiter(k: Kernel, pw0: Power, ghost p: Wake) returns (pw: Power)
    requires !pw0.Off? && WakePlanned(k, p) && Asleep(k, p)
    modifies k.wait, k.log`word, k.task.event`list, p.ws`prev
    ensures pw == pw0.After(6)
    ensures if pw0 == Failing(0) then k.log.word == old(k.log.word) && Asleep(k, p) else AtPop(k, p)
    ensures k.wait.head == k.task.event <==> pw0.Failing? && pw0.stores < 2
    ensures k.task.event.list == null <==> !pw.Off?
  {
    hide IsList, RingShape, PopCut, Without, Distinct;
    WakeStaysInside(k, p);
    HeadIsOwned(k.wait, p.ws);
    var popped;
    pw, popped := OptimizedPopFront(k.wait, k.log, pw0, p.ws, null);
  }

  lemma HeadIsOwned(l: PList, s: seq<Node>)
    requires s != [] && IsChain(l, s)
    ensures s[0].list == l && l.head == s[0]
  {
  }

  /** `remove_from_delayed_list`, after the pop is complete. */
  method RemoveFromDelayedList(k: Kernel, pw0: Power, ghost p: Wake) returns (pw: Power)
    requires !pw0.Off? && WakePlanned(k, p) && AtPop(k, p) && k.task.event.list == null
    modifies k.delay, k.log`word, k.task.sched`list, p.ds`prev, p.ds`next
    ensures pw == pw0.After(RemovalStores(|p.ds|))
    ensures if pw0 == Failing(0) then AtPop(k, p) else AtUndelay(k, p)
    ensures !pw.Off? ==> Undelayed(k, p) && k.task.sched.list == null
  {
    hide IsList, RingShape, PopCut, RemoveCut, Without, Distinct;
    WakeStaysInside(k, p);
    pw := OptimizedRemove(k.delay, k.task.sched, k.log, pw0, p.ds, p.dk, false);
  }

  method RecoverUndelay(k: Kernel, pw0: Power, ghost p: Wake) returns (pw: Power)
    requires !pw0.Off? && WakePlanned(k, p) && AtUndelay(k, p)
    modifies k.delay, k.task.sched`list, p.ds`prev, p.ds`next
    ensures pw == pw0.After(6)
    ensures AtUndelay(k, p)
    ensures !pw.Off? ==> Undelayed(k, p) && k.task.sched.list == null
  {
    hide IsList, RingShape, RemoveCut, Without, Distinct;
    WakeStaysInside(k, p);
    pw := RecoverFromFailedRemove(k.delay, k.task.sched, LenOf(k.log.word), pw0, p.ds, p.dk, false, null);
  }

  method RecoverPop(k: Kernel, pw0: Power, ghost p: Wake) returns (pw: Power)
    requires !pw0.Off? && WakePlanned(k, p) && AtPop(k, p)
    modifies k.wait, k.log`word, k.task.event`list, p.ws`prev
    ensures pw == pw0.After(old(if k.task.event.list == null then 0 else if k.wait.head == k.task.event then 6 else 4))
    ensures AtPop(k, p) && (k.task.event.list == null <==> !pw.Off?)
    ensures k.wait.head == k.task.event <==> old(k.wait.head == k.task.event) && pw0.Failing? && pw0.stores < 2
  {
    hide IsList, RingShape, PopCut, Without, Distinct;
    WakeStaysInside(k, p);
    pw := pw0;
    PoppedFrom(k.wait, p.ws);
    if k.task.event.list != null {
      pw := RecoverFromFailedPopFront(k.task.event.list, k.task.event, LenOf(k.log.word), k.log, pw, p.ws, null);
    }
  }

  lemma PoppedFrom(l: PList, s: seq<Node>)
    requires s != [] && PopCut(l, s, null)
    ensures s[0].list == null || s[0].list == l
    ensures l.head == s[0] ==> s[0].list == l
  {
  }

  /** `add_to_ready_list`, after the task has left the delay list. */
  method AddToReadyList(k: Kernel, pw0: Power, ghost p: Wake) returns (pw: Power)
    requires !pw0.Off? && WakePlanned(k, p) && AtUndelay(k, p) && Undelayed(k, p) && k.task.sched.list == null
    modifies k.ready, k.log`word, k.task`status, {k.task.sched}`list, {k.task.sched}`prev, {k.task.sched}`next,
             p.rs`prev, p.rs`next
    ensures pw0.Mains? ==> pw.Mains?
    ensures if pw0 == Failing(0) then pw.Off? && AtUndelay(k, p) else AtReady(k, p)
    ensures pw0 == Failing(1) ==> pw.Off?
    ensures k.task.sched.list == (if pw0.Failing? && pw0.stores < 2 then null else k.ready)
    ensures !pw.Off? ==> Woken(k, p)
  {
    hide IsList, RemoveCut, RingShape, RingInsertCut, Without, With, Distinct, Linked, Undelayed, Woken, IsChain;
    WakeStaysInside(k, p);
    RingCutAtStart(k.ready, p.rs, p.rc, k.task.sched);
    pw := StartOpLog(k.log, InsertBeforeCursor, k.ready.len, pw0);
    if pw.Off? { return; }
    pw := EnterReadyList(k, pw, p);
  }

  method EnterReadyList(k: Kernel, pw0: Power, ghost p: Wake) returns (pw: Power)
    requires !pw0.Off? && WakePlanned(k, p) && AtReady(k, p) && IsRing(k.ready, p.rs, p.rc) && k.task.sched.list == null
    modifies k.ready, k.task`status, {k.task.sched}`list, {k.task.sched}`prev, {k.task.sched}`next,
             p.rs`prev, p.rs`next
    ensures pw0.Mains? ==> pw.Mains?
    ensures AtReady(k, p) && k.task.sched.list == (if pw0 == Failing(0) then null else k.ready)
    ensures pw0 == Failing(0) ==> pw.Off?
    ensures !pw.Off? ==> Woken(k, p)
  {
    hide IsList, IsChain, RemoveCut, RingShape, RingInsertCut, Without, With, Distinct, Linked;
    WakeStaysInside(k, p);
    pw := OptimizedInsertBeforeCursor(k.ready, k.task.sched, pw0, p.rs, p.rc);
    if pw.Off? { return; }
    RingCutOwners(k.ready, p.rs, p.rc, k.task.sched);
    pw := pw.Tick();
    if pw.Off? { return; }
    k.task.status := Ready;
  }

  /** The insertion was logged: finish it. The container of the node stays what it was. */
  method RecoverReady(k: Kernel, pw0: Power, ghost p: Wake) returns (pw: Power)
    requires !pw0.Off? && WakePlanned(k, p) && AtReady(k, p)
    modifies k.ready, k.task`status, {k.task.sched}`prev, {k.task.sched}`next, p.rs`prev, p.rs`next
    ensures pw0.Mains? ==> pw.Mains?
    ensures AtReady(k, p) && (!pw.Off? ==> Woken(k, p))
  {
    hide IsList, RingShape, RingInsertCut, Without, With, Distinct, Linked;
    WakeStaysInside(k, p);
    RingCutOwners(k.ready, p.rs, p.rc, k.task.sched);
    pw := RecoverFromFailedInsertBeforeCursor(k.ready, k.task.sched, LenOf(k.log.word), pw0, p.rs, p.rc);
    if pw.Off? { return; }
    pw := pw.Tick();
    if pw.Off? { return; }
    k.task.status := Ready;
  }

  lemma RingCutOwners(l: PList, s: seq<Node>, c: int, node: Node)
    requires IsPos(s, c) && RingInsertCut(l, s, c, node)
    ensures Owned(l, s) && (node.list == null || node.list == l)
  {
  }

  /** `commit`: the micro operation, then the transaction of the caller, then the op code. */
  method Commit(k: Kernel, caller: Task, pw0: Power, ghost p: Wake, ghost stage: Stage) returns (pw: Power)
    requires !pw0.Off? && WakePlanned(k, p) && WakeCut(k, p, stage) && stage in {Unrecorded, Gap, Entered}
    requires Woken(k, p) || stage == Unrecorded
    modifies k.log`word, k.log`op, caller`listTxDone
    ensures pw0.Mains? ==> pw.Mains?
    ensures AtStage(k, p, stage)
    ensures if pw.Off? then WakeCut(k, p, stage) else k.log.op == TxInvalid && k.log.word == 0 && caller.listTxDone
  {
    hide IsChain, IsRing, RingShape, Owned, AtPop, AtUndelay, AtReady, Undelayed, With;
    pw := pw0.Tick();
    if pw.Off? { return; }
    k.log.word := 0;
    pw := pw.Tick();
    if pw.Off? { return; }
    caller.listTxDone := true;
    pw := pw.Tick();
    if pw.Off? { return; }
    k.log.op := TxInvalid;
  }

  // ---------- the transaction and its recovery ----------

  /** The second and the third move, of a task that has left its wait list. */
  method MoveOn(k: Kernel, pw0: Power, ghost p: Wake) returns (pw: Power)
    requires !pw0.Off? && WakePlanned(k, p) && AtStage(k, p, Popped)
    modifies k.ready, k.delay, k.log`word, k.task`status, {k.task.sched}`list,
             {k.task.sched}`prev, {k.task.sched}`next, p.ds`prev, p.ds`next, p.rs`prev, p.rs`next
    ensures pw0.Mains? ==> pw.Mains?
    ensures AtStage(k, p, NextStage(Popped, pw0, |p.ds|))
    ensures !pw.Off? ==> Woken(k, p) && NextStage(Popped, pw0, |p.ds|) == Entered
  {
    hide Asleep, Woken, Undelayed, IsChain, IsRing, RingShape, PopCut, RemoveCut, RingInsertCut, With, Without, Distinct;
    pw := RemoveFromDelayedList(k, pw0, p);
    if pw.Off? { return; }
    pw := AddToReadyList(k, pw, p);
  }

  method RedoUnlinking(k: Kernel, pw0: Power, ghost p: Wake) returns (pw: Power)
    requires !pw0.Off? && WakePlanned(k, p) && AtStage(k, p, Unlinking)
    modifies k.ready, k.delay, k.log`word, k.task`status, {k.task.sched}`list,
             {k.task.sched}`prev, {k.task.sched}`next, p.ds`prev, p.ds`next, p.rs`prev, p.rs`next
    ensures pw0.Mains? ==> pw.Mains?
    ensures AtStage(k, p, NextStage(Unlinking, pw0, |p.ds|))
    ensures !pw.Off? ==> Woken(k, p) && NextStage(Unlinking, pw0, |p.ds|) == Entered
  {
    hide Asleep, Woken, Undelayed, IsChain, IsRing, RingShape, PopCut, RemoveCut, RingInsertCut, With, Without, Distinct;
    pw := RecoverUndelay(k, pw0, p);
    if pw.Off? { return; }
    pw := AddToReadyList(k, pw, p);
  }

  /** The three moves. */
  method WakeFirst(k: Kernel, pw0: Power, ghost p: Wake) returns (pw: Power)
    requires !pw0.Off? && WakePlanned(k, p) && Asleep(k, p) && k.log.word == 0
    modifies k.ready, k.wait, k.delay, k.log`word, k.task`status, {k.task.sched, k.task.event}`list,
             {k.task.sched}`prev, {k.task.sched}`next, p.ws`prev, p.ds`prev, p.ds`next, p.rs`prev, p.rs`next
    ensures pw0.Mains? ==> pw.Mains?
    ensures AtStage(k, p, if pw0.Failing? then StageAt(pw0.stores, |p.ds|) else Entered)
    ensures !pw.Off? ==> Woken(k, p) && (pw0.Failing? ==> StageAt(pw0.stores, |p.ds|) == Entered)
  {
    hide Asleep, Woken, Undelayed, IsChain, IsRing, RingShape, PopCut, RemoveCut, RingInsertCut, With, Without, Distinct;
    pw := PopWaiter(k, pw0, p);
    if pw.Off? { return; }
    pw := MoveOn(k, pw, p);
  }

  /** What remains of the three moves at any stage that was recorded. */
  method RedoMoves(k: Kernel, pw0: Power, ghost p: Wake, ghost stage: Stage) returns (pw: Power)
    requires !pw0.Off? && WakePlanned(k, p) && AtStage(k, p, stage)
    modifies k.ready, k.wait, k.delay, k.log`word, k.task`status, {k.task.sched, k.task.event}`list,
             {k.task.sched}`prev, {k.task.sched}`next, p.ws`prev, p.ds`prev, p.ds`next, p.rs`prev, p.rs`next
    ensures pw0.Mains? ==> pw.Mains?
    ensures AtStage(k, p, NextStage(stage, pw0, |p.ds|))
    ensures !pw.Off? ==> NextStage(stage, pw0, |p.ds|) in {Unrecorded, Gap, Entered}
    ensures !pw.Off? ==> stage == Unrecorded || Woken(k, p)
  {
    hide Asleep, Woken, Undelayed, IsChain, IsRing, RingShape, PopCut, RemoveCut, RingInsertCut, With, Without, Distinct;
    pw := pw0;
    match OpOf(k.log.word) {
      case PopFront =>
        pw := RecoverPop(k, pw, p);
        if pw.Off? { return; }
        pw := MoveOn(k, pw, p);
      case Remove =>
        pw := RedoUnlinking(k, pw, p);
      case InsertBeforeCursor =>
        pw := RecoverReady(k, pw, p);
      case _ =>
    }
  }

  /** The body of `roll_forward_pop_remove_from_waitlist` for a non-empty wait list. */
  method PopRemoveTx(k: Kernel, caller: Task, pw0: Power, ghost p: Wake) returns (pw: Power)
    requires !pw0.Off? && WakePlanned(k, p) && Asleep(k, p)
    requires k.log.op == TxInvalid && k.log.word == 0 && !caller.listTxDone
    modifies k.ready, k.wait, k.delay, k.log, k.task`status, caller`listTxDone, {k.task.sched, k.task.event}`list,
             {k.task.sched}`prev, {k.task.sched}`next, p.ws`prev, p.ds`prev, p.ds`next, p.rs`prev, p.rs`next
    ensures pw0.Mains? ==> pw.Mains?
    ensures AtStage(k, p, FirstStage(pw0, |p.ds|))
    ensures if pw0.Failing? && pw0.stores < 2 then pw.Off? && k.log.op == TxInvalid && !caller.listTxDone
            else if pw.Off? then WakeCut(k, p, FirstStage(pw0, |p.ds|))
            else FirstStage(pw0, |p.ds|) == Entered && k.log.op == TxInvalid && k.log.word == 0 && caller.listTxDone
  {
    hide Asleep, Woken, Undelayed, IsChain, IsRing, RingShape, PopCut, RemoveCut, RingInsertCut, With, Without, Distinct;
    HeadOfWaiters(k, p);
    pw := pw0.Tick();
    if pw.Off? { return; }
    k.log.blockNode := k.wait.head;
    pw := pw.Tick();
    if pw.Off? { return; }
    k.log.op := WaitListPopRemoval;
    pw := WakeFirst(k, pw, p);
    if pw.Off? { return; }
    pw := Commit(k, caller, pw, p, Entered);
  }

  lemma HeadOfWaiters(k: Kernel, p: Wake)
    requires WakePlanned(k, p) && Asleep(k, p)
    ensures k.wait.head == k.task.event
  {
  }

  /** `recover_and_roll_forward_of_waitlist_pop_remove`. */
  method RecoverPopRemove(k: Kernel, caller: Task, pw0: Power, ghost p: Wake, ghost stage: Stage) returns (pw: Power)
    requires !pw0.Off? && WakePlanned(k, p) && WakeCut(k, p, stage)
    modifies k.ready, k.wait, k.delay, k.log`word, k.log`op, k.task`status, caller`listTxDone,
             {k.task.sched, k.task.event}`list, {k.task.sched}`prev, {k.task.sched}`next,
             p.ws`prev, p.ds`prev, p.ds`next, p.rs`prev, p.rs`next
    ensures pw0.Mains? ==> pw.Mains?
    ensures AtStage(k, p, NextStage(stage, pw0, |p.ds|))
    ensures if pw.Off? then WakeCut(k, p, NextStage(stage, pw0, |p.ds|))
            else NextStage(stage, pw0, |p.ds|) in {Unrecorded, Gap, Entered}
                 && k.log.op == TxInvalid && k.log.word == 0 && caller.listTxDone
  {
    hide Asleep, Woken, Undelayed, IsChain, IsRing, RingShape, PopCut, RemoveCut, RingInsertCut, With, Without, Distinct;
    pw := RedoMoves(k, pw0, p, stage);
    if pw.Off? { return; }
    pw := Commit(k, caller, pw, p, NextStage(stage, pw0, |p.ds|));
  }

  /** A transaction that has ended stays as it is, and so does the outcome of one that has not begun. */
  lemma {:induction false} EndedStays(stage: Stage, reboots: seq<Power>, d: nat)
    requires stage in {Unrecorded, Gap, Entered}
    ensures LastStage(stage, reboots, d) == stage
    decreases |reboots|
  {
    if reboots != [] {
      EndedStays(stage, reboots[1..], d);
    }
  }

  /** Recoveries end a transaction: woken, with or without the container, or given away if nothing was recorded. */
  lemma {:induction false} LastIsEnded(stage: Stage, reboots: seq<Power>, d: nat)
    ensures if stage == Unrecorded then LastStage(stage, reboots, d) == Unrecorded
            else LastStage(stage, reboots, d) in {Gap, Entered}
    decreases |reboots|
  {
    if reboots != [] {
      LastIsEnded(NextStage(stage, reboots[0], d), reboots[1..], d);
    }
  }

  /** One failure alone: the task is left without its container by exactly one supply, which gives out behind
      the two stores before the moves, the six of the pop, those of the removal and the record of the insertion. */
  lemma OneFailureGap(first: Power, d: nat)
    ensures LastStage(FirstStage(first, d), [], d) == Gap <==> first == Failing(9 + RemovalStores(d))
  {
    var stage := FirstStage(first, d);
    assert LastStage(stage, [], d) == Gap <==> stage == Gap;
  }

  /** The boots after the first failure. */
  method ResumeWaking(k: Kernel, caller: Task, reboots: seq<Power>, ghost p: Wake, ghost stage: Stage)
    requires forall r :: 0 <= r < |reboots| ==> !reboots[r].Off?
    requires WakePlanned(k, p) && WakeCut(k, p, stage)
    modifies k.ready, k.wait, k.delay, k.log`word, k.log`op, k.task`status, caller`listTxDone,
             {k.task.sched, k.task.event}`list, {k.task.sched}`prev, {k.task.sched}`next,
             p.ws`prev, p.ds`prev, p.ds`next, p.rs`prev, p.rs`next
    ensures k.log.op == TxInvalid && k.log.word == 0 && caller.listTxDone
    ensures AtStage(k, p, LastStage(stage, reboots, |p.ds|))
    decreases |reboots|
  {
    hide AtStage, StageAt, Distinct;
    var pw := RecoverPopRemove(k, caller, if reboots == [] then Mains else reboots[0], p, stage);
    if reboots != [] {
      if pw.Off? {
        ResumeWaking(k, caller, reboots[1..], p, NextStage(stage, reboots[0], |p.ds|));
      } else {
        EndedStays(NextStage(stage, reboots[0], |p.ds|), reboots[1..], |p.ds|);
      }
    }
  }

  /** Waking under any number of power failures, exactly. The block node and the op code are the first two stores:
      before them nothing happens; when the supply gives out right behind them the recovery marks the call done
      and wakes nobody; from the third store on, which records the pop, the task gets woken. It is in its ready
      list in every respect unless some boot gives out in the gap between the record of the last insertion and the
      store of the container, which `LastStage` computes from the supplies. */
  method WakeUnderFailures(k: Kernel, caller: Task, first: Power, reboots: seq<Power>, ghost p: Wake)
    requires !first.Off? && forall r :: 0 <= r < |reboots| ==> !reboots[r].Off?
    requires WakePlanned(k, p) && Asleep(k, p) && k.log.op == TxInvalid && k.log.word == 0 && !caller.listTxDone
    modifies k.ready, k.wait, k.delay, k.log, k.task`status, caller`listTxDone, {k.task.sched, k.task.event}`list,
             {k.task.sched}`prev, {k.task.sched}`next, p.ws`prev, p.ds`prev, p.ds`next, p.rs`prev, p.rs`next
    ensures k.log.op == TxInvalid && k.log.word == 0
    ensures caller.listTxDone <==> !(first.Failing? && first.stores < 2)
    ensures if first.Failing? && first.stores < 3 then Asleep(k, p) else Woken(k, p)
    ensures !(first.Failing? && first.stores < 3) ==>
              (k.task.sched.list == k.ready <==> LastStage(FirstStage(first, |p.ds|), reboots, |p.ds|) == Entered)
  {
    hide Asleep, Woken, Undelayed, IsChain, IsRing, RingShape, PopCut, RemoveCut, RingInsertCut, With, Without, Distinct;
    var pw := PopRemoveTx(k, caller, first, p);
    if k.log.op == WaitListPopRemoval {
      ResumeWaking(k, caller, reboots, p, FirstStage(first, |p.ds|));
    }
    LastIsEnded(FirstStage(first, |p.ds|), reboots, |p.ds|);
    EndedStays(Entered, reboots, |p.ds|);
  }

  // ---------- nobody is waiting ----------

  /** The end of the transaction: the micro operation, the caller, the op code. */
  method CommitNobody(k: Kernel, caller: Task, pw0: Power) returns (pw: Power)
    requires !pw0.Off? && k.log.word == 0
    modifies k.log`word, k.log`op, caller`listTxDone
    ensures pw == pw0.After(3) && k.log.word == 0
    ensures k.log.op == if pw.Off? then old(k.log.op) else TxInvalid
    ensures caller.listTxDone <==> old(caller.listTxDone) || !pw0.Failing? || pw0.stores >= 2
  {
    pw := pw0.Tick();
    if pw.Off? { return; }
    k.log.word := 0;
    pw := pw.Tick();
    if pw.Off? { return; }
    caller.listTxDone := true;
    pw := pw.Tick();
    if pw.Off? { return; }
    k.log.op := TxInvalid;
  }

  /** With an empty wait list the transaction only marks itself done. A reboot that finds its op code set finds no
      block node. */
  method PopRemoveNobody(k: Kernel, caller: Task, pw0: Power) returns (pw: Power)
    requires !pw0.Off? && IsChain(k.wait, []) && !caller.listTxDone && k.log.op == TxInvalid && k.log.word == 0
    modifies k.wait, k.log, caller`listTxDone
    ensures pw == pw0.After(5)
    ensures IsChain(k.wait, []) && k.log.word == 0
    ensures k.log.op == if pw0.Failing? && 2 <= pw0.stores < 5 then WaitListPopRemoval else TxInvalid
    ensures k.log.op == WaitListPopRemoval ==> k.log.blockNode == null
    ensures caller.listTxDone <==> !pw0.Failing? || pw0.stores >= 4
  {
    pw := pw0.Tick();
    if pw.Off? { return; }
    k.log.blockNode := k.wait.head;
    pw := pw.Tick();
    if pw.Off? { return; }
    k.log.op := WaitListPopRemoval;
    var popped;
    pw, popped := OptimizedPopFront(k.wait, k.log, pw, [], null);
    pw := CommitNobody(k, caller, pw);
  }

  /** Transaction and recoveries, whose dispatch finds no micro operation and looks at no block node: nothing moves, and
      the call counts as done exactly if the op code was stored. */
  method PopNobodyUnderFailures(k: Kernel, caller: Task, first: Power, reboots: seq<Power>)
    requires !first.Off? && forall r :: 0 <= r < |reboots| ==> !reboots[r].Off?
    requires IsChain(k.wait, []) && !caller.listTxDone && k.log.op == TxInvalid && k.log.word == 0
    modifies k.wait, k.log, caller`listTxDone
    ensures IsChain(k.wait, []) && k.log.op == TxInvalid && k.log.word == 0
    ensures caller.listTxDone <==> !first.Failing? || first.stores >= 2
  {
    var pw := PopRemoveNobody(k, caller, first);
    var r := 0;
    while k.log.op == WaitListPopRemoval
      invariant 0 <= r && (r > |reboots| ==> k.log.op == TxInvalid)
      invariant IsChain(k.wait, []) && k.log.word == 0 && k.log.op in {TxInvalid, WaitListPopRemoval}
      invariant k.log.op == WaitListPopRemoval ==> first.Failing? && first.stores >= 2
      invariant k.log.op == TxInvalid ==> (caller.listTxDone <==> !first.Failing? || first.stores >= 2)
      decreases |reboots| + 1 - r
    {
      assert OpOf(k.log.word) == Invalid;
      pw := CommitNobody(k, caller, if r < |reboots| then reboots[r] else Mains);
      r := r + 1;
    }
  }
}
