/** Putting the current task to sleep: from its ready list into the delay list, no wait list involved. */
module DelayInsertion {
  import opened PowerSupply
  import opened PLists
  import opened ListLog
  import opened ListRemove
  import opened ListInsertSorted
  import opened WaitListInsertion

  /** The insertion into the delay list was recorded. */
  ghost predicate AtSleep(k: Kernel, p: Plan)
    requires 0 <= p.rk < |p.rs| && 0 <= p.di <= |p.ds|
    reads k.ready, k.wait, k.delay, p.rs, p.rest, p.ws, p.ds, k.task.event`list, k.task.sched, k.log`word
  {
    && Logged(k.log, InsertSortedDelayList, |p.ds|)
    && LeftReady(k, p) && NotWaiting(k, p) && InsertCut(k.delay, p.ds, p.di, k.task.sched)
  }

  /** In the delay list only, and marked so. */
  ghost predicate Sleeps(k: Kernel, p: Plan)
    requires 0 <= p.rk < |p.rs| && 0 <= p.di <= |p.ds|
    reads k.ready, k.wait, k.delay, p.rs, p.rest, p.ws, p.ds, k.task.event`list, k.task.sched, k.task`status
  {
    LeftReady(k, p) && NotWaiting(k, p) && Delayed(k, p) && k.task.status == Blocked
  }

  /** The removal was recorded: from here on the task will sleep. */
  ghost predicate Leaving(k: Kernel, p: Plan)
    requires 0 <= p.rk < |p.rs| && 0 <= p.di <= |p.ds|
    reads k.ready, k.wait, k.delay, p.rs, p.rest, p.ws, p.ds, k.task.event`list, k.task.sched, k.task`status, k.log`word
  {
    AtRemove(k, p) || AtSleep(k, p) || (k.log.word == 0 && Sleeps(k, p))
  }

  /** `add_to_delayed_list`, after the task has left its ready list: the status is stored first. */
  method FallAsleep(k: Kernel, pw0: Power, ghost p: Plan) returns (pw: Power)
    requires !pw0.Off? && Planned(k, p) && AtRemove(k, p) && LeftReady(k, p) && k.task.sched.list == null
    modifies k.delay, k.log`word, k.task`status, p.ds`prev, p.ds`next,
             k.task.sched`list, k.task.sched`prev, k.task.sched`next
    ensures pw0.Mains? ==> pw.Mains?
    ensures AtRemove(k, p) || AtSleep(k, p)
    ensures !pw.Off? ==> Sleeps(k, p)
  {
    hide IsList, InsertCut, RemoveCut, LeftReady, NotWaiting, IsSpot, SlotPrev, SlotNext, Distinct, Without;
    StepsStayInside(k, p);
    InsertCutAtStart(k.delay, p.ds, p.di, k.task.sched);
    pw := pw0.Tick();
    if pw.Off? { return; }
    k.task.status := Blocked;
    pw := StartOpLog(k.log, InsertSortedDelayList, k.delay.len, pw);
    if pw.Off? { return; }
    pw := OptimizedInsertSorted(k.delay, k.task.sched, pw, p.ds, p.di);
  }

  method RecoverFallAsleep(k: Kernel, pw0: Power, ghost p: Plan) returns (pw: Power)
    requires !pw0.Off? && Planned(k, p) && AtSleep(k, p)
    modifies k.delay, k.task`status, p.ds`prev, p.ds`next, k.task.sched`list, k.task.sched`prev, k.task.sched`next
    ensures pw0.Mains? ==> pw.Mains?
    ensures AtSleep(k, p) && (!pw.Off? ==> Sleeps(k, p))
  {
    hide IsList, InsertCut, LeftReady, NotWaiting, IsSpot, SlotPrev, SlotNext;
    StepsStayInside(k, p);
    pw := RecoverFromFailedInsertSorted(k.delay, k.task.sched, LenOf(k.log.word), pw0, p.ds, p.di);
    if pw.Off? { return; }
    pw := pw.Tick();
    if pw.Off? { return; }
    k.task.status := Blocked;
  }

  /** `commit`: the micro operation, then the list transaction of the task, then the op code. */
  method CommitDelay(k: Kernel, pw0: Power, ghost p: Plan) returns (pw: Power)
    requires !pw0.Off? && Planned(k, p) && k.log.op == DelayListInsert
    requires Before(k, p) || (Leaving(k, p) && Sleeps(k, p))
    modifies k.log`word, k.log`op, k.task`listTxDone
    ensures pw0.Mains? ==> pw.Mains?
    ensures old(Before(k, p)) ==> Before(k, p)
    ensures old(Sleeps(k, p)) ==> Sleeps(k, p) && Leaving(k, p)
    ensures if pw.Off? then k.log.op == DelayListInsert
            else k.log.op == TxInvalid && k.log.word == 0 && k.task.listTxDone
  {
    hide InReady, LeftReady, NotWaiting, Delayed, AtRemove, IsChain, IsSpot, Apart;
    pw := pw0.Tick();
    if pw.Off? { return; }
    k.log.word := 0;
    pw := pw.Tick();
    if pw.Off? { return; }
    k.task.listTxDone := true;
    pw := pw.Tick();
    if pw.Off? { return; }
    k.log.op := TxInvalid;
  }

  // ---------- the transaction and its recovery ----------

  /** The two moves. */
  method MoveToDelay(k: Kernel, pw0: Power, ghost p: Plan) returns (pw: Power)
    requires !pw0.Off? && Planned(k, p) && NotBlocked(k, p) && k.log.word == 0 && Foreseen(p, pw0)
    modifies k.ready, k.delay, k.log`word, k.task`status, {k.task.sched}`list,
             {k.task.sched}`prev, {k.task.sched}`next, p.rs`prev, p.rs`next, p.ds`prev, p.ds`next
    ensures pw0.Mains? ==> pw.Mains?
    ensures if pw0 == Failing(0) then pw.Off? && Before(k, p) && k.task.status == old(k.task.status)
            else Leaving(k, p) && (!pw.Off? ==> Sleeps(k, p))
  {
    hide NotBlocked, Sleeps, LeftReady, AtRemove, AtSleep, IsSpot, Apart;
    pw := RemoveFromReadyList(k, pw0, p);
    if pw.Off? { return; }
    pw := FallAsleep(k, pw, p);
  }

  /** `roll_forward_insert_into_delaylist`: a task whose list transaction is done passes it by. */
  method InsertIntoDelayListTx(k: Kernel, pw0: Power, ghost p: Plan) returns (pw: Power)
    requires !pw0.Off? && Planned(k, p)
    requires k.task.listTxDone || (NotBlocked(k, p) && k.log.op == TxInvalid && k.log.word == 0 && Foreseen(p, pw0.After(1)))
    modifies k.ready, k.delay, k.log`word, k.log`op, k.task`status, k.task`listTxDone, {k.task.sched}`list,
             {k.task.sched}`prev, {k.task.sched}`next, p.rs`prev, p.rs`next, p.ds`prev, p.ds`next
    ensures pw0.Mains? ==> pw.Mains?
    ensures old(k.task.listTxDone) ==> pw == pw0
    ensures old(k.task.listTxDone) ==> unchanged(k.ready, k.delay, k.log, k.task, k.task.sched, p.rs, p.ds)
    ensures !old(k.task.listTxDone) ==>
              if pw0.Failing? && pw0.stores < 2 then pw.Off? && Before(k, p) && k.task.status == old(k.task.status)
              else Leaving(k, p) && (!pw.Off? ==> Sleeps(k, p))
    ensures !old(k.task.listTxDone) && pw.Off? ==> k.log.op == (if pw0 == Failing(0) then TxInvalid else DelayListInsert)
    ensures !old(k.task.listTxDone) && pw0.Failing? && pw0.stores < 2 ==> !k.task.listTxDone
    ensures !old(k.task.listTxDone) && !pw.Off? ==> k.log.op == TxInvalid && k.log.word == 0 && k.task.listTxDone
  {
    hide NotBlocked, Sleeps, AtRemove, AtSleep, IsSpot, Apart;
    pw := pw0;
    if k.task.listTxDone { return; }
    pw := pw.Tick();
    if pw.Off? { return; }
    k.log.op := DelayListInsert;
    pw := MoveToDelay(k, pw, p);
    if pw.Off? { return; }
    pw := CommitDelay(k, pw, p);
  }

  /** `recover_and_roll_forward_of_delaylist_insert`. It commits even where nothing was recorded. */
  method RecoverDelayListInsert(k: Kernel, pw0: Power, ghost p: Plan) returns (pw: Power)
    requires !pw0.Off? && Planned(k, p) && k.log.op == DelayListInsert && (Before(k, p) || Leaving(k, p))
    modifies k.ready, k.delay, k.log`word, k.log`op, k.task`status, k.task`listTxDone, {k.task.sched}`list,
             {k.task.sched}`prev, {k.task.sched}`next, p.rs`prev, p.rs`next, p.ds`prev, p.ds`next
    ensures pw0.Mains? ==> pw.Mains?
    ensures old(Before(k, p)) ==> Before(k, p) && k.task.status == old(k.task.status)
    ensures old(Leaving(k, p)) ==> Leaving(k, p) && (!pw.Off? ==> Sleeps(k, p))
    ensures if pw.Off? then k.log.op == DelayListInsert
            else k.log.op == TxInvalid && k.log.word == 0 && k.task.listTxDone
  {
    hide NotBlocked, Sleeps, LeftReady, AtRemove, AtSleep, IsSpot, Apart;
    SleepRecordedAs(k, p);
    pw := pw0;
    match OpOf(k.log.word) {
      case Remove =>
        pw := RecoverReadyRemoval(k, pw, p);
        if pw.Off? { return; }
        pw := FallAsleep(k, pw, p);
      case InsertSortedDelayList =>
        pw := RecoverFallAsleep(k, pw, p);
      case _ =>
    }
    if pw.Off? { return; }
    pw := CommitDelay(k, pw, p);
  }

  /** The op code of the record names the stage. */
  lemma SleepRecordedAs(k: Kernel, p: Plan)
    requires Planned(k, p) && (Before(k, p) || Leaving(k, p))
    ensures OpOf(k.log.word) == Remove <==> AtRemove(k, p)
    ensures OpOf(k.log.word) == InsertSortedDelayList <==> AtSleep(k, p)
    ensures OpOf(k.log.word) !in {Remove, InsertSortedDelayList} ==> k.log.word == 0
    ensures !(Before(k, p) && Leaving(k, p))
  {
    hide InReady, LeftReady, NotWaiting, InsertCut, RemoveCut, IsChain, IsSpot, Apart, Without;
    NotBothPlaces(k, p);
  }

  lemma NotBothPlaces(k: Kernel, p: Plan)
    requires Planned(k, p)
    ensures !(NotBlocked(k, p) && Sleeps(k, p))
  {
    hide NotWaiting, Delayed, Distinct, IsSpot, Linked, Owned;
    assert |p.rest| < |p.rs|;
  }

  /** A delay under any number of power failures. Two stores decide: the op code, then the record of the removal. A
      supply that gives out before the first changes nothing. A supply that gives out between them loses the delay: the
      recovery marks the list transaction of the task as done although nothing moved, and the repeated call passes it
      by. With any other supply the task ends in the delay list. A ready list in which it was alone ends as in
      `BlockUnderFailures`: it holds nothing at all if the first supply gave out behind the second or the third store. */
  method DelayUnderFailures(k: Kernel, first: Power, reboots: seq<Power>, ghost p: Plan)
    requires !first.Off? && Foreseen(p, first.After(1)) && forall r :: 0 <= r < |reboots| ==> !reboots[r].Off?
    requires Planned(k, p) && NotBlocked(k, p) && k.log.op == TxInvalid && k.log.word == 0 && !k.task.listTxDone
    modifies k.ready, k.delay, k.log`word, k.log`op, k.task`status, k.task`listTxDone, {k.task.sched}`list,
             {k.task.sched}`prev, {k.task.sched}`next, p.rs`prev, p.rs`next, p.ds`prev, p.ds`next
    ensures if first.Failing? && first.stores < 2 then NotBlocked(k, p) && k.task.status == old(k.task.status)
            else Sleeps(k, p)
    ensures k.task.listTxDone <==> first != Failing(0)
    ensures k.log.op == TxInvalid && k.log.word == 0
    ensures |p.rs| == 1 && first.Failing? && 2 <= first.stores < 4 ==> forall s, c :: !IsRing(k.ready, s, c)
    ensures |p.rs| > 1 || !first.Failing? || first.stores >= 4 ==> NotBlocked(k, p) || IsList(k.ready, p.rest, true)
  {
    hide NotBlocked, Sleeps, Leaving, IsSpot, Apart, IsRing, IsList;
    var pw := InsertIntoDelayListTx(k, first, p);
    var r := 0;
    while k.log.op == DelayListInsert
      invariant 0 <= r && (r > |reboots| ==> k.log.op == TxInvalid)
      invariant if first.Failing? && first.stores < 2 then Before(k, p) && k.task.status == old(k.task.status)
                else Leaving(k, p)
      invariant k.log.op == TxInvalid || (k.log.op == DelayListInsert && first != Failing(0))
      invariant k.log.op == TxInvalid ==> k.log.word == 0 && (k.task.listTxDone <==> first != Failing(0))
      invariant k.log.op == TxInvalid ==> (first.Failing? && first.stores < 2) || Sleeps(k, p)
      decreases |reboots| + 1 - r
    {
      pw := RecoverDelayListInsert(k, if r < |reboots| then reboots[r] else Mains, p);
      r := r + 1;
    }
    ReadyOfSleeper(k, p);
  }

  lemma ReadyOfSleeper(k: Kernel, p: Plan)
    requires Planned(k, p)
    ensures Sleeps(k, p) ==> if Stuck(p) then forall s, c :: !IsRing(k.ready, s, c) else IsList(k.ready, p.rest, true)
  {
    hide Delayed, NotWaiting, IsSpot, Apart, IsRing, IsList;
    if Sleeps(k, p) {
      ReadyAfter(k, p);
    }
  }

  /** The call is made again after the reboots, as the replay of its task does: the task sleeps unless the first supply
      gave out between the two stores. */
  method DelayReplayed(k: Kernel, first: Power, reboots: seq<Power>, ghost p: Plan)
    requires !first.Off? && Foreseen(p, if first == Failing(0) then Mains else first.After(1))
    requires forall r :: 0 <= r < |reboots| ==> !reboots[r].Off?
    requires Planned(k, p) && NotBlocked(k, p) && k.log.op == TxInvalid && k.log.word == 0 && !k.task.listTxDone
    modifies k.ready, k.delay, k.log`word, k.log`op, k.task`status, k.task`listTxDone, {k.task.sched}`list,
             {k.task.sched}`prev, {k.task.sched}`next, p.rs`prev, p.rs`next, p.ds`prev, p.ds`next
    ensures k.task.listTxDone
    ensures if first == Failing(1) then NotBlocked(k, p) && k.task.status == old(k.task.status) else Sleeps(k, p)
  {
    hide NotBlocked, Sleeps, Leaving, IsSpot, Apart;
    DelayUnderFailures(k, first, reboots, p);
    var pw := InsertIntoDelayListTx(k, Mains, p);
  }
}
