/** The expiry of a timer: the callback runs under the undo log, the active list is rolled forward, and recovery has to
    bring both to the same side. */
module TimerDaemon {
  import opened PowerSupply
  import opened PLists
  import opened ListLog
  import opened ListInsertSorted
  import opened TimerList
  import opened TimerMoves
  import opened TxPrograms
  import opened TxCaching
  import opened UserTxs

  type Callback = Mem -> seq<Step>

  /** The timer at the head of the list is due. It is moved to the slot of its next expiry `newKey`, or taken out when
      it does not reload; memory is `mem0` before and `mem1` after the callback. */
  datatype Plan = Plan(m: Move, timer: Timer, oldKey: int, newKey: int, mem0: Mem, mem1: Mem) {

    ghost predicate Ok()
      reads m.b`key
    {
      && m.Ok() && m.k == 0 && m.node == timer.node && m.kind == (if timer.autoReload then PopAgain else Drop)
      && m.AtSlot(newKey)
    }

    /** A timer that does not reload keeps its key. */
    function FinalKey(): int {
      if timer.autoReload then newKey else oldKey
    }
  }

  /** Nothing has happened, or the callback was cut, or the list operation of a timer that does not reload was named
      but not recorded. */
  ghost predicate Waiting(al: PList, log: OpLog, ut: UserTxInfo, p: Plan)
    requires p.m.Bounds()
    reads al, log, p.m.s0, p.m.node, ut, ut.tc`ptr, ut.tc`tail, ut.tc.cache
  {
    && p.m.node.key == p.oldKey && IsChain(al, p.m.s0) && ut.View().mem == p.mem0
    && (ut.tc.Committed()
        || (log.word == 0 && (log.op == TxInvalid || (!p.timer.autoReload && Started(log, p.m)))))
  }

  /** The next expiry is stored and no record of a list operation was made. */
  ghost predicate Lost(al: PList, log: OpLog, ut: UserTxInfo, p: Plan)
    requires p.m.Bounds()
    reads al, log, p.m.s0, p.m.node, ut, ut.tc`ptr, ut.tc`tail, ut.tc.cache
  {
    && p.timer.autoReload && p.m.node.key == p.newKey && !ut.tc.Committed() && ut.View().mem == p.mem0
    && Still(al, log, p.m) && (log.op == TxInvalid || Started(log, p.m))
  }

  /** The list operation is recorded or complete, and the transaction is not committed. */
  ghost predicate Rolling(al: PList, log: OpLog, ut: UserTxInfo, p: Plan)
    requires p.m.Bounds()
    reads al, log, p.m.s0, p.m.b, p.m.node, p.m.After(), p.timer, ut, ut.tc`tail
  {
    && p.m.node.key == p.FinalKey() && p.timer.active == p.timer.autoReload && !ut.tc.Committed() && ut.mem == p.mem1
    && MoveCut(al, log, p.m) && Recorded(log)
  }

  ghost predicate Expired(al: PList, log: OpLog, ut: UserTxInfo, p: Plan)
    requires p.m.Bounds()
    reads al, log, p.m.s0, p.m.node, p.m.After(), p.timer, ut, ut.tc`tail
  {
    && p.m.node.key == p.FinalKey() && p.timer.active == p.timer.autoReload && ut.tc.Committed() && ut.mem == p.mem1
    && IsChain(al, p.m.After())
  }

  /** What a reboot may find. */
  ghost predicate ExpiryCut(al: PList, log: OpLog, ut: UserTxInfo, p: Plan)
    requires p.m.Bounds()
    reads al, log, p.m.s0, p.m.b, p.m.node, p.m.After(), p.timer, ut, ut.tc`ptr, ut.tc`tail, ut.tc.cache
  {
    Waiting(al, log, ut, p) || Lost(al, log, ut, p) || Rolling(al, log, ut, p) || Expired(al, log, ut, p)
  }

  // ---------- where a failure leaves an expiry ----------

  /** Waiting with the transaction committed or not and `logged` records in its log, skipped for good, or moved: the list
      operation was recorded. */
  datatype Stage = Wait(committed: bool, logged: nat) | Skipped | Moved

  ghost predicate AtStage(al: PList, log: OpLog, ut: UserTxInfo, p: Plan, s: Stage)
    requires p.m.Bounds()
    reads al, log, p.m.s0, p.m.b, p.m.node, p.m.After(), p.timer, ut, ut.tc`ptr, ut.tc`tail, ut.tc.cache
  {
    match s
    case Wait(c, n) => Waiting(al, log, ut, p) && ut.tc.Committed() == c && (!c ==> |ut.journal| == n)
    case Skipped => Lost(al, log, ut, p)
    case Moved => Rolling(al, log, ut, p) || Expired(al, log, ut, p)
  }

  /** The records that the first `n` steps leave behind. */
  ghost function Records(steps: seq<Step>, n: nat, m: Mem): nat {
    |JournalOf(steps[..if n < |steps| then n else |steps|], m)|
  }

  /** The stores of an expiry up to the last one before its list operation. */
  function StoresBefore(steps: seq<Step>, reloads: bool): nat {
    |steps| + if reloads then 5 else 4
  }

  /** After `n` stores of an expiry that began settled. */
  ghost function StageAt(n: nat, committed: bool, steps: seq<Step>, m: Mem, reloads: bool): Stage {
    if n < 3 then Wait(committed, 0)
    else if n >= StoresBefore(steps, reloads) + 3 then Moved
    else if reloads && n >= StoresBefore(steps, reloads) then Skipped
    else Wait(false, Records(steps, n - 3, m))
  }

  /** The stores of the recovery of an expiry that waits. */
  function RecoveryStores(s: Stage): nat
    requires s.Wait?
  {
    if s.committed then 2 else s.logged + 1
  }

  ghost function FirstStage(first: Power, committed: bool, steps: seq<Step>, m: Mem, reloads: bool): Stage {
    if first.Failing? then StageAt(first.stores, committed, steps, m, reloads) else Moved
  }

  /** A round of the daemon: the recovery, and the expiry again. */
  ghost function NextStage(s: Stage, supply: Power, steps: seq<Step>, m: Mem, reloads: bool): Stage {
    if !s.Wait? then s
    else if !supply.Failing? then Moved
    else if supply.stores < RecoveryStores(s) then s
    else StageAt(supply.stores - RecoveryStores(s), s.committed, steps, m, reloads)
  }

  /** Any number of rounds, the last of them on mains. */
  ghost function LastStage(s: Stage, reboots: seq<Power>, steps: seq<Step>, m: Mem, reloads: bool): Stage
    decreases |reboots|
  {
    if reboots == [] then NextStage(s, Mains, steps, m, reloads)
    else LastStage(NextStage(s, reboots[0], steps, m, reloads), reboots[1..], steps, m, reloads)
  }

  lemma {:induction false} SettledStage(s: Stage, reboots: seq<Power>, steps: seq<Step>, m: Mem, reloads: bool)
    requires !s.Wait?
    ensures LastStage(s, reboots, steps, m, reloads) == s
    decreases |reboots|
  {
    if reboots != [] {
      SettledStage(s, reboots[1..], steps, m, reloads);
    }
  }

  // ---------- one expiry ----------

  /** What is left of a supply after `n` stores. */
  function Spend(pw: Power, n: nat): Power
    requires pw.Failing?
  {
    if pw.stores < n then Off else Failing(pw.stores - n)
  }

  ghost predicate IsCallback(f: Callback, p: Plan) {
    WellLogged(f(p.mem0)) && p.mem1 == Apply(f(p.mem0), p.mem0)
  }

  /** Begin the transaction and run the callback. */
  method RunCallback(ut: UserTxInfo, f: Callback, pw0: Power, ghost p: Plan) returns (pw: Power)
    requires !pw0.Off? && IsCallback(f, p) && ut.journal == [] && ut.mem == p.mem0
    modifies ut`mem, ut`journal, ut.tc`tail
    ensures pw0.Mains? ==> pw.Mains?
    ensures ut.View().mem == p.mem0
    ensures ut.tc.Committed() ==> pw.Off? && old(ut.tc.Committed())
    ensures !pw.Off? ==> ut.mem == p.mem1
    ensures pw0.Failing? ==> pw == Spend(pw0, 1 + |f(p.mem0)|)
    ensures if pw0 == Failing(0) then ut.journal == [] && ut.tc.Committed() == old(ut.tc.Committed())
            else !ut.tc.Committed() && (pw0.Failing? ==> |ut.journal| == Records(f(p.mem0), pw0.stores - 1, p.mem0))
  {
    hide Undo, Apply, JournalOf, RolledBack, WellLogged;
    ut.NothingToUndo(p.mem0);
    pw := pw0.Tick();
    if pw.Off? { return; }
    ut.tc.ClearCommitFlag();
    ghost var n;
    pw, n := ut.RunSteps(f(ut.mem), pw, p.mem0);
    WellLoggedPrefix(f(p.mem0), n);
    RollBackRestores(f(p.mem0)[..n], p.mem0);
  }

  /** Clear the operation log of the previous round, begin the transaction and run the callback. */
  method RunDue(al: PList, log: OpLog, ut: UserTxInfo, f: Callback, pw0: Power, ghost p: Plan) returns (pw: Power)
    requires !pw0.Off? && p.Ok() && IsCallback(f, p) && Waiting(al, log, ut, p) && ut.journal == []
    modifies log`op, log`word, ut`mem, ut`journal, ut.tc`tail
    ensures pw0.Mains? ==> pw.Mains?
    ensures Waiting(al, log, ut, p)
    ensures !pw.Off? ==> !ut.tc.Committed() && ut.mem == p.mem1 && log.op == TxInvalid && log.word == 0
    ensures pw0.Failing? ==> pw == Spend(pw0, 3 + |f(p.mem0)|)
    ensures pw0.Failing? && pw0.stores < 3 ==> ut.journal == [] && ut.tc.Committed() == old(ut.tc.Committed())
    ensures pw0.Failing? && pw0.stores >= 3 ==>
      !ut.tc.Committed() && |ut.journal| == Records(f(p.mem0), pw0.stores - 3, p.mem0)
  {
    hide IsChain, Undo, UserTxInfo.View, TxCache.Committed, With, Base, Position, Move.AtSlot;
    MemWhenSettled(ut);
    pw := pw0.Tick();
    if pw.Off? { return; }
    log.word := 0;
    pw := pw.Tick();
    if pw.Off? { return; }
    log.op := TxInvalid;
    pw := RunCallback(ut, f, pw, p);
  }

  lemma MemWhenSettled(ut: UserTxInfo)
    requires ut.journal == []
    ensures ut.View().mem == ut.mem
  {
  }

  lemma MemWhenCommitted(ut: UserTxInfo)
    ensures ut.tc.Committed() ==> ut.View().mem == ut.mem
  {
  }

  /** `activate_timer`, or the end of a timer that does not reload. Neither is recorded. */
  method StoreTimer(timer: Timer, newKey: int, pw0: Power) returns (pw: Power)
    requires !pw0.Off?
    modifies timer`active, timer.node`key
    ensures pw0.Mains? ==> pw.Mains?
    ensures !pw.Off? ==> timer.active == timer.autoReload
    ensures timer.node.key == if pw.Off? || !timer.autoReload then old(timer.node.key) else newKey
    ensures pw0.Failing? ==> pw == Spend(pw0, if timer.autoReload then 2 else 1)
  {
    pw := pw0.Tick();
    if pw.Off? { return; }
    timer.active := timer.autoReload;
    if timer.autoReload {
      pw := pw.Tick();
      if pw.Off? { return; }
      timer.node.key := newKey;
    }
  }

  /** `process_expired_timer` of a timer that is due. The number of stores made says where it stands: in particular the
      expiry is skipped exactly if the next expiry time was stored and the pop was not recorded. */
  method ProcessExpired(al: PList, log: OpLog, ut: UserTxInfo, timer: Timer, f: Callback, newKey: int, pw0: Power,
                        ghost p: Plan) returns (pw: Power)
    requires !pw0.Off? && p.Ok() && IsCallback(f, p) && newKey == p.newKey && timer == p.timer
    requires Waiting(al, log, ut, p) && ut.journal == []
    modifies al, log, p.m.s0`prev, p.m.s0`next, timer.node`list, timer.node`prev, timer.node`next, timer.node`key
    modifies timer`active, ut`mem, ut`journal, ut.tc`tail
    ensures pw0.Mains? ==> pw.Mains?
    ensures ExpiryCut(al, log, ut, p)
    ensures !pw.Off? ==> Expired(al, log, ut, p)
    ensures !timer.autoReload ==> !Lost(al, log, ut, p)
    ensures pw0.Failing? ==>
      AtStage(al, log, ut, p, StageAt(pw0.stores, old(ut.tc.Committed()), f(p.mem0), p.mem0, timer.autoReload))
  {
    hide IsChain, MoveCut, Undo, UserTxInfo.View, TxCache.Committed, With, Base, Position, Move.AtSlot, IsCallback, Records;
    hide Finished, Pending;
    pw := RunDue(al, log, ut, f, pw0, p);
    if pw.Off? { return; }
    pw := StoreTimer(timer, newKey, pw);
    if pw.Off? { return; }
    pw := MoveHead(al, log, ut, timer, pw, p);
    if pw.Off? { return; }
    pw := CommitExpiry(al, log, ut, pw, p);
  }

  /** The list part of an expiry. */
  method MoveHead(al: PList, log: OpLog, ut: UserTxInfo, timer: Timer, pw0: Power, ghost p: Plan) returns (pw: Power)
    requires !pw0.Off? && p.Ok() && timer == p.timer && timer.node.key == p.FinalKey()
    requires IsChain(al, p.m.s0) && log.op == TxInvalid && log.word == 0 && timer.active == timer.autoReload
    requires !ut.tc.Committed() && ut.View().mem == p.mem0 && ut.mem == p.mem1
    modifies al, log, p.m.s0`prev, p.m.s0`next, timer.node`list, timer.node`prev, timer.node`next
    ensures pw0.Mains? ==> pw.Mains?
    ensures if Recorded(log) then Rolling(al, log, ut, p)
            else pw.Off? && if timer.autoReload then Lost(al, log, ut, p) else Waiting(al, log, ut, p)
    ensures !pw.Off? ==> Recorded(log) && Finished(al, log, p.m.After())
    ensures pw0.Failing? ==> (Recorded(log) <==> pw0.stores >= 3)
  {
    hide IsChain, Pending, Undo, UserTxInfo.View, TxCache.Committed, With, Base, Position;
    pw := MakeMove(al, log, timer.node, if timer.autoReload then PopAgain else Drop, pw0, p.m);
    if Pending(al, log, p.m) {
      PendingMoveIsRecorded(al, log, p.m);
    }
  }

  /** `commit_no_replay`. */
  method CommitExpiry(al: PList, log: OpLog, ut: UserTxInfo, pw0: Power, ghost p: Plan) returns (pw: Power)
    requires !pw0.Off? && p.Ok() && Rolling(al, log, ut, p) && Finished(al, log, p.m.After())
    modifies ut`journal, ut.tc`tail
    ensures pw0.Mains? ==> pw.Mains?
    ensures Rolling(al, log, ut, p) || Expired(al, log, ut, p)
    ensures !pw.Off? ==> Expired(al, log, ut, p)
  {
    hide IsList, Pending, Base, Position, Move.AtSlot;
    pw := pw0.Tick();
    if pw.Off? { return; }
    ut.tc.CommitNoReplay();
    pw := pw.Tick();
    if pw.Off? { return; }
    ut.journal := [];
  }

  // ---------- recovery ----------

  /** `recover_timer_daemon_list_transaction`, and the settling of the transaction behind it. `done` says that the
      transaction is committed. */
  method RecoverDaemon(al: PList, log: OpLog, ut: UserTxInfo, pw0: Power, ghost p: Plan) returns (pw: Power, done: bool)
    requires !pw0.Off? && p.Ok() && ExpiryCut(al, log, ut, p)
    modifies al, log`op, log`word, p.m.s0`prev, p.m.s0`next, p.m.node`list, p.m.node`prev, p.m.node`next
    modifies ut`mem, ut`journal, ut.tc`tail
    ensures pw0.Mains? ==> pw.Mains?
    ensures ExpiryCut(al, log, ut, p)
    ensures Lost(al, log, ut, p) <==> old(Lost(al, log, ut, p))
    ensures old(AtStage(al, log, ut, p, Moved)) ==> AtStage(al, log, ut, p, Moved)
    ensures !pw.Off? && done ==> Expired(al, log, ut, p) || Waiting(al, log, ut, p)
    ensures !pw.Off? && !done ==> Waiting(al, log, ut, p) || Lost(al, log, ut, p)
    ensures !pw.Off? ==> ut.journal == []
    ensures old(Waiting(al, log, ut, p)) ==>
      && Waiting(al, log, ut, p) && ut.tc.Committed() == old(ut.tc.Committed())
      && (pw.Off? && !ut.tc.Committed() ==> ut.journal == old(ut.journal))
      && pw == pw0.After(if ut.tc.Committed() then 2 else old(|ut.journal|) + 1)
  {
    hide IsList, Undo, UserTxInfo.View, MoveCut, Base, Position, Move.AtSlot;
    pw, done := RecoverList(al, log, ut, pw0, p);
    if pw.Off? { return; }
    if done {
      pw := pw.Tick();
      if pw.Off? { return; }
      log.op := TxInvalid;
    }
    pw := Settle(al, log, ut, pw, p);
  }

  /** The dispatch on the operation log: a transaction whose list operation was recorded is committed now. */
  method RecoverList(al: PList, log: OpLog, ut: UserTxInfo, pw0: Power, ghost p: Plan) returns (pw: Power, done: bool)
    requires !pw0.Off? && p.Ok() && ExpiryCut(al, log, ut, p)
    modifies al, log`op, log`word, p.m.s0`prev, p.m.s0`next, p.m.node`list, p.m.node`prev, p.m.node`next
    modifies ut`journal, ut.tc`tail
    ensures pw0.Mains? ==> pw.Mains?
    ensures ExpiryCut(al, log, ut, p)
    ensures Lost(al, log, ut, p) <==> old(Lost(al, log, ut, p))
    ensures old(AtStage(al, log, ut, p, Moved)) ==> AtStage(al, log, ut, p, Moved)
    ensures !pw.Off? && done ==> ut.tc.Committed() && (Expired(al, log, ut, p) || Waiting(al, log, ut, p))
    ensures !pw.Off? && !done ==> !ut.tc.Committed() && (Waiting(al, log, ut, p) || Lost(al, log, ut, p))
    ensures old(Waiting(al, log, ut, p)) ==>
      && Waiting(al, log, ut, p) && pw == pw0 && done == ut.tc.Committed() == old(ut.tc.Committed())
      && ut.journal == old(ut.journal)
  {
    hide IsChain, MoveCut, Undo, UserTxInfo.View, With, Base, Position, Move.AtSlot;
    pw, done := pw0, true;
    if ut.tc.Committed() { return; }
    CutOfMove(al, log, ut, p);
    pw, done := FinishMove(al, log, pw0, p.m);
    if pw.Off? || !done { return; }
    pw := CommitRollForward(al, log, ut, pw, p);
  }

  /** An uncommitted expiry is one of the cuts of its list operation. */
  lemma CutOfMove(al: PList, log: OpLog, ut: UserTxInfo, p: Plan)
    requires p.Ok() && ExpiryCut(al, log, ut, p) && !ut.tc.Committed()
    ensures MoveCut(al, log, p.m) && (Started(log, p.m) ==> p.m.AtSlot(p.m.node.key))
    ensures Recorded(log) <==> Rolling(al, log, ut, p)
    ensures !Recorded(log) ==> log.word == 0 && (log.op == TxInvalid || Started(log, p.m))
  {
    hide IsChain, Pending, Undo, UserTxInfo.View, With, Base, Position;
  }

  /** `commit_no_replay_roll_forward`: the journal is dropped before the commit bit is set. */
  method CommitRollForward(al: PList, log: OpLog, ut: UserTxInfo, pw0: Power, ghost p: Plan) returns (pw: Power)
    requires !pw0.Off? && p.Ok() && Rolling(al, log, ut, p) && Finished(al, log, p.m.After())
    modifies ut`journal, ut.tc`tail
    ensures pw0.Mains? ==> pw.Mains?
    ensures Rolling(al, log, ut, p) || Expired(al, log, ut, p)
    ensures !pw.Off? ==> Expired(al, log, ut, p)
  {
    hide IsList, Pending, Base, Position, Move.AtSlot;
    pw := pw0.Tick();
    if pw.Off? { return; }
    ut.journal := [];
    pw := pw.Tick();
    if pw.Off? { return; }
    ut.tc.CommitNoReplay();
  }

  /** Roll back what is not committed; otherwise drop its log. */
  method Settle(al: PList, log: OpLog, ut: UserTxInfo, pw0: Power, ghost p: Plan) returns (pw: Power)
    requires !pw0.Off? && p.Ok()
    requires Waiting(al, log, ut, p) || Lost(al, log, ut, p) || Expired(al, log, ut, p)
    modifies ut`mem, ut`journal
    ensures pw0.Mains? ==> pw.Mains?
    ensures Waiting(al, log, ut, p) <==> old(Waiting(al, log, ut, p))
    ensures Lost(al, log, ut, p) <==> old(Lost(al, log, ut, p))
    ensures Expired(al, log, ut, p) <==> old(Expired(al, log, ut, p))
    ensures pw == pw0.After(if ut.tc.Committed() then 1 else old(|ut.journal|) + 1)
    ensures ut.journal == if pw.Off? then old(ut.journal) else []
  {
    hide IsChain, Undo, UserTxInfo.View, Base, Position, Move.AtSlot, Still, Started;
    MemWhenCommitted(ut);
    pw := ut.SettleTx(pw0);
    MemWhenCommitted(ut);
  }

  // ---------- the lost expiry ----------

  /** A lost expiry leaves a timer at the head that is not due. Unless its slot is the first one the list is not sorted
      any more, and since only the head is looked at, timers behind it that are due wait as well. */
  lemma LostHidesOthers(al: PList, log: OpLog, ut: UserTxInfo, p: Plan, now: int)
    requires p.Ok() && Lost(al, log, ut, p) && now < p.newKey
    ensures al.head == p.m.node && al.head.key > now
    ensures p.m.i > 0 ==> !Sorted(p.m.s0) && p.m.s0[0].key > p.m.s0[1].key
    ensures Sorted(p.m.s0) ==> forall j :: 0 <= j < |p.m.s0| ==> p.m.s0[j].key > now
  {
    if p.m.i > 0 {
      assert p.m.s0[1] == p.m.b[0];
    }
  }

  // ---------- under any number of power failures ----------

  /** One round of the daemon after a reboot: recover, and process the timer again if it is at the head and still due. */
  method DaemonRound(al: PList, log: OpLog, ut: UserTxInfo, timer: Timer, f: Callback, now: int, newKey: int, pw0: Power,
                     ghost p: Plan, ghost s: Stage)
    returns (pw: Power)
    requires !pw0.Off? && p.Ok() && IsCallback(f, p) && p.oldKey <= now < newKey == p.newKey && timer == p.timer
    requires AtStage(al, log, ut, p, s)
    modifies al, log, p.m.s0`prev, p.m.s0`next, timer.node`list, timer.node`prev, timer.node`next, timer.node`key
    modifies timer`active, ut`mem, ut`journal, ut.tc`tail
    ensures pw0.Mains? ==> pw.Mains?
    ensures AtStage(al, log, ut, p, NextStage(s, pw0, f(p.mem0), p.mem0, timer.autoReload))
    ensures !pw.Off? ==> Expired(al, log, ut, p) || Lost(al, log, ut, p)
  {
    hide IsChain, MoveCut, Undo, UserTxInfo.View, TxCache.Committed, With, Finished, Base, Position, Move.AtSlot,
      IsCallback, Records;
    StagesAreApart(al, log, ut, p);
    var done;
    pw, done := RecoverDaemon(al, log, ut, pw0, p);
    WhoIsFirst(al, log, ut, p);
    StagesAreApart(al, log, ut, p);
    if !pw.Off? && al.head == timer.node && timer.node.key <= now {
      pw := ProcessExpired(al, log, ut, timer, f, newKey, pw, p);
    }
  }

  lemma StagesAreApart(al: PList, log: OpLog, ut: UserTxInfo, p: Plan)
    requires p.Ok() && p.oldKey != p.newKey
    ensures !(Waiting(al, log, ut, p) && Lost(al, log, ut, p))
    ensures Rolling(al, log, ut, p) || Expired(al, log, ut, p) ==> !Waiting(al, log, ut, p) && !Lost(al, log, ut, p)
    ensures Lost(al, log, ut, p) ==> p.timer.autoReload
  {
  }

  lemma WhoIsFirst(al: PList, log: OpLog, ut: UserTxInfo, p: Plan)
    requires p.Ok()
    ensures Waiting(al, log, ut, p) ==> al.head == p.m.node
    ensures Expired(al, log, ut, p) && !p.timer.autoReload ==> al.head != p.m.node
  {
  }

  lemma CallbackIs(f: Callback, p: Plan)
    requires IsCallback(f, p)
    ensures p.mem1 == Apply(f(p.mem0), p.mem0)
  {
  }

  /** A due timer under any number of power failures: the effects of its callback and the change of the list happen
      exactly once and together. The one exception is a timer that reloads, when a failure falls between the store of
      its next expiry time and the record of the list operation: the callback is rolled back, the timer is no longer
      due, and this expiry is skipped. The supplies, the steps of the callback and the commit bit say whether that
      happens. */
  method ExpireUnderFailures(al: PList, log: OpLog, ut: UserTxInfo, timer: Timer, f: Callback, now: int, newKey: int,
                             first: Power, reboots: seq<Power>, ghost p: Plan)
    returns (ghost skipped: bool)
    requires !first.Off? && forall r :: 0 <= r < |reboots| ==> !reboots[r].Off?
    requires p.Ok() && IsCallback(f, p) && p.oldKey <= now < newKey == p.newKey && timer == p.timer
    requires Waiting(al, log, ut, p) && ut.journal == []
    modifies al, log, p.m.s0`prev, p.m.s0`next, timer.node`list, timer.node`prev, timer.node`next, timer.node`key
    modifies timer`active, ut`mem, ut`journal, ut.tc`tail
    ensures !skipped ==> Expired(al, log, ut, p)
    ensures !skipped ==> timer.node.key == if timer.autoReload then newKey else old(timer.node.key)
    ensures !skipped ==> IsDone(al, ut, timer, Timers(p.m, timer.autoReload), f(p.mem0), p.mem0)
    ensures skipped ==> timer.autoReload && Lost(al, log, ut, p)
    ensures skipped ==> ut.View().mem == p.mem0 && timer.node.key == newKey
    ensures skipped <==>
      LastStage(FirstStage(first, old(ut.tc.Committed()), f(p.mem0), p.mem0, timer.autoReload), reboots,
                f(p.mem0), p.mem0, timer.autoReload).Skipped?
  {
    hide IsChain, MoveCut, Undo, UserTxInfo.View, With, Finished, Waiting, Rolling, Lost, Expired, Base, Position,
      Move.AtSlot, IsCallback, Records, StageAt, NextStage, IsDone, Apply;
    ghost var steps, reloads := f(p.mem0), timer.autoReload;
    CallbackIs(f, p);
    ExpiryIsDone(al, log, ut, p, steps);
    ghost var s := FirstStage(first, ut.tc.Committed(), steps, p.mem0, reloads);
    ghost var last := LastStage(s, reboots, steps, p.mem0, reloads);
    var pw := ProcessExpired(al, log, ut, timer, f, newKey, first, p);
    var r := 0;
    while pw.Off?
      invariant 0 <= r <= |reboots| + 1 && (r > |reboots| ==> !pw.Off?)
      invariant AtStage(al, log, ut, p, s)
      invariant r <= |reboots| ==> last == LastStage(s, reboots[r..], steps, p.mem0, reloads)
      invariant r > |reboots| ==> last == s
      invariant !pw.Off? ==> Expired(al, log, ut, p) || Lost(al, log, ut, p)
      decreases |reboots| + 1 - r
    {
      ghost var rest := reboots[r..];
      pw := DaemonRound(al, log, ut, timer, f, now, newKey, if r < |reboots| then reboots[r] else Mains, p, s);
      s := NextStage(s, if r < |reboots| then reboots[r] else Mains, steps, p.mem0, reloads);
      r := r + 1;
    }
    StagesAreApart(al, log, ut, p);
    if r <= |reboots| {
      SettledStage(s, reboots[r..], steps, p.mem0, reloads);
    }
    skipped := s.Skipped?;
    ExpiryIsDone(al, log, ut, p, f(p.mem0));
  }

  /** The last stores of the callback are in memory and what it did not store to is as before; the timer is active
      exactly if it reloads, and the list is the one it is to be. */
  ghost predicate IsDone(al: PList, ut: UserTxInfo, timer: Timer, timers: seq<Node>, steps: seq<Step>, mem0: Mem)
    reads al, timers, timer`active, ut`mem, ut.tc`tail
  {
    && ut.tc.Committed() && timer.active == timer.autoReload
    && IsChain(al, timers) && HasStores(steps, mem0, ut.mem)
  }

  /** The other timers, and the one that has expired among them if it reloads. */
  ghost function Timers(m: Move, reloads: bool): seq<Node>
    requires m.Bounds()
  {
    if reloads then With(m.b, m.i, m.node) else m.b
  }

  lemma ExpiryIsDone(al: PList, log: OpLog, ut: UserTxInfo, p: Plan, steps: seq<Step>)
    requires p.Ok() && p.mem1 == Apply(steps, p.mem0)
    ensures Expired(al, log, ut, p) ==>
      p.m.node.key == p.FinalKey() && IsDone(al, ut, p.timer, Timers(p.m, p.timer.autoReload), steps, p.mem0)
    ensures Waiting(al, log, ut, p) ==> p.m.node.key == p.oldKey
    ensures Lost(al, log, ut, p) ==> ut.View().mem == p.mem0 && p.m.node.key == p.newKey
  {
    hide IsChain, Base, Position, Move.AtSlot, Apply, HasStores;
    StoresAreThere(steps, p.mem0);
  }
}
