/** A message of the timer daemon: it is received by a system call, the timer is moved to the slot of its new expiry time
    or taken out, and one commit covers both. */
module TimerMessages {
  import opened PowerSupply
  import opened PLists
  import opened ListLog
  import opened TimerList
  import opened TimerMoves
  import opened TxPrograms
  import opened TxCaching
  import opened UserTxs
  import opened Syscalls

  /** Start and Reset carry the new expiry time. Delete does what Stop does. */
  datatype Command = Start(expiry: int) | Stop

  /** The transaction receives one message and stops. */
  function Receives(receive: Syscall): UserBody {
    (results: seq<Bytes>) => if results == [] then Call(receive) else Finish([])
  }

  /** What the message asks for, and the crash-free run of the call that receives it. */
  datatype Plan = Plan(m: Move, timer: Timer, oldKey: int, cmd: Command, r: UserRun) {

    ghost predicate Ok(receive: Syscall, command: Bytes -> Command)
      reads m.b`key
    {
      && m.Ok() && m.node == timer.node && m.kind == (if cmd.Start? then Reinsert else Drop)
      && m.AtSlot(FinalKey())
      && r.b == Receives(receive) && r.n == 1 && cmd == command(Ret(r, 0))
    }

    function FinalKey(): int {
      if cmd.Start? then cmd.expiry else oldKey
    }
  }

  /** The objects of the daemon: its task with the replay cache, the commit bit of its user transaction, list and log. */
  datatype Daemon = Daemon(st: SyscallTask, tc: TxCache, al: PList, log: OpLog) {
    predicate Apart() {
      tc != st.kt.tc
    }
  }

  // ---------- what a reboot may find ----------

  /** No list operation was recorded; `c` calls are through. */
  ghost predicate Waiting(d: Daemon, p: Plan, c: nat)
    requires p.m.Bounds()
    reads d.al, d.log, p.m.s0, p.m.node, d.tc`tail
    reads d.st, d.st.replay, d.st.kt, d.st.kt.tc, d.st.kt.tc.cache
  {
    && c <= 1 && p.r.n == 1 && d.st.Open(p.r, c)
    && IsChain(d.al, p.m.s0) && (p.m.k < 0 ==> p.m.node.list == null)
    && (p.m.node.key == p.oldKey || (c == 1 && p.m.node.key == p.FinalKey()))
    && (if d.tc.Committed() then c == 0
        else d.log.word == 0 && (d.log.op == TxInvalid
             || (Started(d.log, p.m) && c == 1 && p.m.node.key == p.FinalKey())))
  }

  /** A list operation was recorded, and the transaction is not committed. */
  ghost predicate Rolling(d: Daemon, p: Plan)
    requires p.m.Bounds()
    reads d.al, d.log, p.m.s0, p.m.b, p.m.node, p.m.After(), p.timer, d.tc`tail
    reads d.st, d.st.replay, d.st.kt, d.st.kt.tc, d.st.kt.tc.cache
  {
    && d.st.View().mem == p.r.Kernel(1) && !d.tc.Committed()
    && p.m.node.key == p.FinalKey() && p.timer.active == p.cmd.Start?
    && MoveCut(d.al, d.log, p.m) && Recorded(d.log)
  }

  /** The message is consumed, and the timer is where it asks for. */
  ghost predicate Processed(d: Daemon, p: Plan)
    requires p.m.Bounds()
    reads d.al, p.m.node, p.m.After(), p.timer, d.tc`tail, d.st, d.st.kt, d.st.kt.tc, d.st.kt.tc.cache
  {
    && d.st.View().mem == p.r.Kernel(1) && d.tc.Committed()
    && p.m.node.key == p.FinalKey() && p.timer.active == p.cmd.Start? && IsChain(d.al, p.m.After())
  }

  /** The transaction has begun. */
  ghost predicate Begun(d: Daemon, p: Plan, c: nat)
    requires p.m.Bounds()
    reads d.al, d.log, p.m.s0, p.m.b, p.m.node, p.m.After(), p.timer, d.tc`tail
    reads d.st, d.st.replay, d.st.kt, d.st.kt.tc, d.st.kt.tc.cache
  {
    (Waiting(d, p, c) && !d.tc.Committed()) || Rolling(d, p) || Processed(d, p)
  }

  ghost predicate Set(d: Daemon, p: Plan, receive: Syscall, command: Bytes -> Command)
    reads p.m.b`key
  {
    && d.Apart() && p.Ok(receive, command) && p.r.Wf(d.st.kt.tc.cache.Length, d.st.replay.Length)
  }

  // ---------- one message ----------

  /** Clear the operation log of the previous round. */
  method ClearOps(d: Daemon, pw0: Power, ghost p: Plan, ghost c: nat) returns (pw: Power)
    requires !pw0.Off? && d.Apart() && p.m.Bounds() && Waiting(d, p, c) && d.st.AtCall(p.r, c)
    modifies d.log`op, d.log`word
    ensures pw == pw0.After(2)
    ensures Waiting(d, p, c) && d.st.AtCall(p.r, c)
    ensures !pw.Off? ==> d.log.op == TxInvalid && d.log.word == 0
  {
    hide IsChain, SyscallTask.AtCall, SyscallTask.Open, TxCache.Committed, Base, Position, Move.AtSlot;
    pw := pw0.Tick();
    if pw.Off? { return; }
    d.log.word := 0;
    pw := pw.Tick();
    if pw.Off? { return; }
    d.log.op := TxInvalid;
  }

  /** Restart the replay pointer and begin the transaction, which is the fourth store. */
  method BeginMessage(d: Daemon, pw0: Power, ghost p: Plan, ghost c: nat) returns (pw: Power)
    requires !pw0.Off? && d.Apart() && p.m.Bounds() && Waiting(d, p, c) && d.st.AtCall(p.r, c)
    modifies d.log`op, d.log`word, d.st`ptr, d.tc`tail
    ensures pw0.Mains? ==> pw.Mains?
    ensures Waiting(d, p, c) && d.st.AtCall(p.r, c)
    ensures d.tc.Committed() ==> pw.Off? && old(d.tc.Committed())
    ensures !pw.Off? ==> d.log.op == TxInvalid && d.st.ptr == 0
    ensures pw0.Failing? ==> (pw.Off? <==> pw0.stores < 4)
    ensures pw.Off? ==> d.tc.tail == old(d.tc.tail)
  {
    hide IsChain, SyscallTask.AtCall, SyscallTask.View, TxCache.Committed, Base, Position, Move.AtSlot;
    pw := ClearOps(d, pw0, p, c);
    if pw.Off? { return; }
    pw := pw.Tick();
    if pw.Off? { return; }
    d.st.ptr := 0;
    pw := pw.Tick();
    if pw.Off? { return; }
    d.tc.ClearCommitFlag();
  }

  /** Receive the message, or the one received before the crash. */
  method Receive(d: Daemon, receive: Syscall, pw0: Power, ghost p: Plan, ghost c: nat)
    returns (pw: Power, msg: Bytes, ghost c': nat)
    requires !pw0.Off? && d.Apart() && p.m.Bounds() && p.r.b == Receives(receive) && p.r.n == 1
    requires p.r.Wf(d.st.kt.tc.cache.Length, d.st.replay.Length)
    requires Waiting(d, p, c) && !d.tc.Committed() && d.log.op == TxInvalid
    requires d.st.AtCall(p.r, c) && d.st.Ready() && d.st.ptr == 0
    modifies d.st`ptr, d.st`tail, d.st.replay, d.st.kt, d.st.kt.tc`ptr, d.st.kt.tc`tail, d.st.kt.tc.cache, d.st.kt.tailStack
    ensures pw0.Mains? ==> pw.Mains?
    ensures Waiting(d, p, c') && c <= c'
    ensures !pw.Off? ==> c' == 1 && d.st.AtCall(p.r, 1) && msg == Ret(p.r, 0) && d.st.tail > 0
  {
    hide IsChain, SyscallTask.AtCall, SyscallTask.View, TxCache.Committed, Ret, UserRun.Wf;
    FirstCall(p.r, receive, d.st.kt.tc.cache.Length, d.st.replay.Length);
    var safe;
    pw, msg, c', safe := d.st.DoSyscall(receive, pw0, p.r, 0, c);
    OpenMeans(d, p, c');
    if pw.Off? { return; }
    p.r.OffGrows(0, 1);
    assert p.r.Results(1)[0] == msg && p.r.Results(1)[0] == Ret(p.r, 0);
  }

  lemma FirstCall(r: UserRun, receive: Syscall, space: nat, replaySpace: nat)
    requires r.b == Receives(receive) && r.n == 1 && r.Wf(space, replaySpace)
    ensures r.Off(0) == 0 && r.Results(0) == [] && r.b(r.Results(0)) == Call(receive)
    ensures r.Results(1) == [Ret(r, 0)]
  {
    RetSize(r, 0, space, replaySpace);
  }

  lemma OpenMeans(d: Daemon, p: Plan, c: nat)
    requires d.st.Open(p.r, c)
    ensures c <= p.r.n
  {
  }

  lemma Received(d: Daemon, p: Plan)
    requires p.r.n == 1 && d.st.AtCall(p.r, 1)
    ensures d.st.View().mem == p.r.Kernel(1)
  {
    d.st.Finishes(p.r);
  }

  /** `activate_timer` for Start and Reset, the active flag alone for Stop. Neither is recorded. */
  method StoreTimer(timer: Timer, cmd: Command, pw0: Power) returns (pw: Power)
    requires !pw0.Off?
    modifies timer`active, timer.node`key
    ensures pw0.Mains? ==> pw.Mains?
    ensures timer.node.key == if pw.Off? || !cmd.Start? then old(timer.node.key) else cmd.expiry
    ensures !pw.Off? ==> timer.active == cmd.Start?
  {
    pw := pw0.Tick();
    if pw.Off? { return; }
    timer.active := cmd.Start?;
    if cmd.Start? {
      pw := pw.Tick();
      if pw.Off? { return; }
      timer.node.key := cmd.expiry;
    }
  }

  /** The transaction was cut before it began. */
  predicate NotBegun(d: Daemon, pw: Power)
    reads d.tc`tail, d.st`tail
  {
    pw.Off? && d.tc.Committed() && d.st.tail == 0
  }

  lemma NothingReceived(d: Daemon, p: Plan, c: nat)
    requires p.m.Bounds() && Waiting(d, p, c)
    ensures d.tc.Committed() ==> d.st.tail == 0
  {
  }

  /** The first half: begin, receive, and store the timer. */
  method TakeMessage(d: Daemon, receive: Syscall, command: Bytes -> Command, timer: Timer, pw0: Power,
                     ghost p: Plan, ghost c: nat)
    returns (pw: Power, cmd: Command, ghost c': nat)
    requires !pw0.Off? && Set(d, p, receive, command) && timer == p.timer
    requires Waiting(d, p, c) && d.st.AtCall(p.r, c) && d.st.Ready()
    modifies d.log`op, d.log`word, timer`active, timer.node`key, d.tc`tail
    modifies d.st`ptr, d.st`tail, d.st.replay, d.st.kt, d.st.kt.tc`ptr, d.st.kt.tc`tail, d.st.kt.tc.cache, d.st.kt.tailStack
    ensures pw0.Mains? ==> pw.Mains?
    ensures Waiting(d, p, c')
    ensures d.tc.Committed() ==> pw.Off? && old(d.tc.Committed()) && c' == c && d.st.tail == old(d.st.tail)
    ensures old(d.tc.Committed()) && pw0.Failing? ==> (d.tc.Committed() <==> pw0.stores < 4)
    ensures !pw.Off? ==> c' == 1 && d.log.op == TxInvalid && timer.node.key == p.FinalKey() && d.st.tail > 0
    ensures !pw.Off? ==> d.st.View().mem == p.r.Kernel(1) && cmd == p.cmd && timer.active == cmd.Start?
  {
    hide IsChain, SyscallTask.Open, SyscallTask.View, SyscallTask.AtCall, TxCache.Committed, Ret, UserRun.Wf, UserRun.State,
         With, Base, Position, Move.AtSlot;
    c', cmd := c, Stop;
    pw := BeginMessage(d, pw0, p, c);
    SameBit(d.tc);
    if pw.Off? { return; }
    var msg;
    pw, msg, c' := Receive(d, receive, pw, p, c);
    if pw.Off? { return; }
    Received(d, p);
    cmd := command(msg);
    pw := StoreTimer(timer, cmd, pw);
  }

  /** The list part. */
  method MoveTimer(d: Daemon, receive: Syscall, command: Bytes -> Command, timer: Timer, cmd: Command, pw0: Power,
                   ghost p: Plan)
    returns (pw: Power)
    requires !pw0.Off? && Set(d, p, receive, command) && timer == p.timer && cmd == p.cmd
    requires Waiting(d, p, 1) && d.st.View().mem == p.r.Kernel(1) && !d.tc.Committed()
    requires d.log.op == TxInvalid && timer.node.key == p.FinalKey() && timer.active == cmd.Start?
    modifies d.al, d.log, p.m.s0`prev, p.m.s0`next, timer.node`list, timer.node`prev, timer.node`next
    ensures pw0.Mains? ==> pw.Mains?
    ensures Waiting(d, p, 1) || Rolling(d, p)
    ensures !d.tc.Committed()
    ensures !pw.Off? ==> Rolling(d, p) && Finished(d.al, d.log, p.m.After())
  {
    hide IsChain, Pending, SyscallTask.Open, SyscallTask.View, TxCache.Committed, UserRun.Wf, UserRun.State, With, Base, Position;
    pw := MakeMove(d.al, d.log, timer.node, if cmd.Start? then Reinsert else Drop, pw0, p.m);
    if Pending(d.al, d.log, p.m) {
      PendingMoveIsRecorded(d.al, d.log, p.m);
    }
  }

  /** `commit_no_replay`, then the end of the user transaction. */
  method CommitMessage(d: Daemon, pw0: Power, ghost p: Plan) returns (pw: Power)
    requires !pw0.Off? && d.Apart() && p.m.Bounds() && Rolling(d, p) && Finished(d.al, d.log, p.m.After())
    modifies d.tc`tail, d.st`tail
    ensures pw0.Mains? ==> pw.Mains?
    ensures Rolling(d, p) || Processed(d, p)
    ensures if pw.Off? then d.st.tail == old(d.st.tail) else Processed(d, p)
  {
    hide IsList, SyscallTask.View, Pending;
    pw := pw0.Tick();
    if pw.Off? { return; }
    d.tc.CommitNoReplay();
    pw := pw.Tick();
    if pw.Off? { return; }
    d.st.tail := 0;
  }

  /** A round of `process_receive_timer_cmd`. */
  method ProcessMessage(d: Daemon, receive: Syscall, command: Bytes -> Command, timer: Timer, pw0: Power,
                        ghost p: Plan, ghost c: nat)
    returns (pw: Power, ghost c': nat)
    requires !pw0.Off? && Set(d, p, receive, command) && timer == p.timer
    requires Waiting(d, p, c) && d.st.AtCall(p.r, c) && d.st.Ready()
    modifies d.al, d.log, p.m.s0`prev, p.m.s0`next, timer.node`list, timer.node`prev, timer.node`next, timer.node`key
    modifies timer`active, d.tc`tail
    modifies d.st`ptr, d.st`tail, d.st.replay, d.st.kt, d.st.kt.tc`ptr, d.st.kt.tc`tail, d.st.kt.tc.cache, d.st.kt.tailStack
    ensures pw0.Mains? ==> pw.Mains?
    ensures if NotBegun(d, pw) then old(d.tc.Committed()) && Waiting(d, p, c) else Begun(d, p, c')
    ensures old(d.tc.Committed()) && pw0.Failing? ==> (NotBegun(d, pw) <==> pw0.stores < 4)
    ensures !pw.Off? ==> Processed(d, p)
  {
    hide Waiting, Rolling, Processed, Finished, TxCache.Committed, SyscallTask.AtCall, SyscallTask.View, UserRun.Wf,
         UserRun.State, Ret, With, IsChain, Position, Base, Untouched, Move.AtSlot;
    var cmd;
    pw, cmd, c' := TakeMessage(d, receive, command, timer, pw0, p, c);
    NothingReceived(d, p, c');
    if pw.Off? { return; }
    pw := MoveTimer(d, receive, command, timer, cmd, pw, p);
    if pw.Off? { return; }
    pw := CommitMessage(d, pw, p);
  }

  /** The commit bit is what the word says. */
  twostate lemma SameBit(tc: TxCache)
    ensures tc.tail == old(tc.tail) ==> tc.Committed() == old(tc.Committed())
  {
  }

  // ---------- recovery ----------

  /** `recover_timer_daemon_list_transaction`: commit if a list operation was recorded. `done` says that it was. */
  method RecoverList(d: Daemon, receive: Syscall, command: Bytes -> Command, pw0: Power, ghost p: Plan, ghost c: nat)
    returns (pw: Power, done: bool)
    requires !pw0.Off? && Set(d, p, receive, command) && Begun(d, p, c)
    modifies d.al, d.log`op, d.log`word, p.m.s0`prev, p.m.s0`next, p.m.node`list, p.m.node`prev, p.m.node`next
    modifies d.tc`tail, d.st`tail
    ensures pw0.Mains? ==> pw.Mains?
    ensures Begun(d, p, c)
    ensures !pw.Off? ==> done == d.tc.Committed() && if done then Processed(d, p) && d.st.tail == 0 else Waiting(d, p, c)
  {
    hide IsChain, SyscallTask.Open, SyscallTask.View, TxCache.Committed, MoveCut, With, UserRun.Wf, UserRun.State, Ret,
         Base, Position, Move.AtSlot;
    pw, done := RollForward(d, receive, command, pw0, p, c);
    if pw.Off? || !done { return; }
    pw := FinishMessage(d, pw, p);
  }

  /** Finish the list operation, and commit the transaction if there was one. */
  method RollForward(d: Daemon, receive: Syscall, command: Bytes -> Command, pw0: Power, ghost p: Plan, ghost c: nat)
    returns (pw: Power, done: bool)
    requires !pw0.Off? && Set(d, p, receive, command) && Begun(d, p, c)
    modifies d.al, d.log`op, d.log`word, p.m.s0`prev, p.m.s0`next, p.m.node`list, p.m.node`prev, p.m.node`next, d.tc`tail
    ensures pw0.Mains? ==> pw.Mains?
    ensures Begun(d, p, c)
    ensures !pw.Off? ==> if done then Processed(d, p) else Waiting(d, p, c) && !d.tc.Committed()
  {
    hide IsChain, SyscallTask.Open, SyscallTask.View, TxCache.Committed, MoveCut, With, UserRun.Wf, UserRun.State, Ret,
         Base, Position, Move.AtSlot;
    pw, done := pw0, true;
    if d.tc.Committed() { return; }
    CutOfMove(d, receive, command, p, c);
    pw, done := FinishMove(d.al, d.log, pw0, p.m);
    if pw.Off? || !done { return; }
    pw := CommitRollForward(d, pw, p);
  }

  /** An uncommitted message is one of the cuts of its list operation. */
  lemma CutOfMove(d: Daemon, receive: Syscall, command: Bytes -> Command, p: Plan, c: nat)
    requires Set(d, p, receive, command) && Begun(d, p, c) && !d.tc.Committed()
    ensures MoveCut(d.al, d.log, p.m) && (Started(d.log, p.m) ==> p.m.AtSlot(p.m.node.key))
    ensures if Recorded(d.log) then Rolling(d, p) else Waiting(d, p, c)
  {
    hide IsChain, Pending, SyscallTask.Open, SyscallTask.View, TxCache.Committed, With, UserRun.Wf, UserRun.State, Ret,
         Base, Position;
  }

  /** `commit_no_replay_roll_forward`; there are no undo records. */
  method CommitRollForward(d: Daemon, pw0: Power, ghost p: Plan) returns (pw: Power)
    requires !pw0.Off? && d.Apart() && p.m.Bounds() && Rolling(d, p) && Finished(d.al, d.log, p.m.After())
    modifies d.tc`tail
    ensures pw0.Mains? ==> pw.Mains?
    ensures Rolling(d, p) || Processed(d, p)
    ensures !pw.Off? ==> Processed(d, p)
  {
    hide IsList, SyscallTask.View, Pending;
    pw := pw0.Tick();
    if pw.Off? { return; }
    d.tc.CommitNoReplay();
  }

  /** `user_tx_end` and `invalidate_activelist`. */
  method FinishMessage(d: Daemon, pw0: Power, ghost p: Plan) returns (pw: Power)
    requires !pw0.Off? && d.Apart() && p.m.Bounds() && Processed(d, p)
    modifies d.st`tail, d.log`op
    ensures pw0.Mains? ==> pw.Mains?
    ensures Processed(d, p) && (!pw.Off? ==> d.st.tail == 0)
  {
    hide IsList, SyscallTask.View;
    pw := pw0.Tick();
    if pw.Off? { return; }
    d.st.tail := 0;
    pw := pw.Tick();
    if pw.Off? { return; }
    d.log.op := TxInvalid;
  }

  /** `jit_recovery` of the daemon. */
  method RecoverCall(d: Daemon, receive: Syscall, command: Bytes -> Command, pw0: Power, ghost p: Plan, ghost c: nat)
    returns (pw: Power)
    requires !pw0.Off? && Set(d, p, receive, command)
    requires if d.tc.Committed() then Processed(d, p) else Waiting(d, p, c)
    modifies d.st`tail, d.st.kt`mem, d.st.kt`journal, d.st.kt`stackTop, d.st.kt.tc`tail
    ensures pw0.Mains? ==> pw.Mains?
    ensures d.tc.Committed() == old(d.tc.Committed())
    ensures if d.tc.Committed() then Processed(d, p) else Waiting(d, p, c)
    ensures !pw.Off? && !d.tc.Committed() ==> d.st.AtCall(p.r, c) && d.st.Ready()
  {
    hide IsList, SyscallTask.AtCall, UserTxInfo.View, TxCache.Committed, UserRun.Wf, UserRun.State, Ret,
         Base, Position, Move.AtSlot;
    if d.tc.Committed() {
      pw := d.st.kt.SettleTx(pw0);
    } else {
      OneCallIsSafe(d, p, c);
      pw := d.st.Recover(pw0, p.r, c);
    }
  }

  /** With a single call, recovery never meets a call that is half done behind calls being bypassed. */
  lemma OneCallIsSafe(d: Daemon, p: Plan, c: nat)
    requires d.st.Open(p.r, c) && c <= 1 && p.r.n == 1
    ensures d.st.Safe(p.r, c)
  {
  }

  // ---------- under any number of power failures ----------

  /** One boot after a failure: recover, and process the message again if it was not completed. */
  method MessageRound(d: Daemon, receive: Syscall, command: Bytes -> Command, timer: Timer, pw0: Power,
                      ghost p: Plan, ghost c: nat)
    returns (pw: Power, ghost c': nat)
    requires !pw0.Off? && Set(d, p, receive, command) && timer == p.timer && Begun(d, p, c)
    modifies d.al, d.log, p.m.s0`prev, p.m.s0`next, timer.node`list, timer.node`prev, timer.node`next, timer.node`key
    modifies timer`active, d.tc`tail
    modifies d.st`ptr, d.st`tail, d.st.replay, d.st.kt, d.st.kt.tc`ptr, d.st.kt.tc`tail, d.st.kt.tc.cache, d.st.kt.tailStack
    ensures pw0.Mains? ==> pw.Mains?
    ensures Begun(d, p, c')
    ensures !pw.Off? ==> Processed(d, p)
  {
    hide Waiting, Rolling, Processed, TxCache.Committed, SyscallTask.AtCall, UserRun.Wf, UserRun.State, Ret,
         Base, Position, Move.AtSlot;
    c' := c;
    var done;
    pw, done := RecoverList(d, receive, command, pw0, p, c);
    if pw.Off? { return; }
    pw := RecoverCall(d, receive, command, pw, p, c);
    if pw.Off? || d.tc.Committed() { return; }
    pw, c' := ProcessMessage(d, receive, command, timer, pw, p, c);
  }

  /** A message that starts, resets or stops a timer, under any number of power failures, each cutting the receiving call,
      its kernel transactions, the stores to the timer, the list operation, the commit or a recovery: once the transaction
      has begun, which is its fourth store, the message is taken from the queue exactly once and the timer is where it
      asks for. */
  method MessageUnderFailures(d: Daemon, receive: Syscall, command: Bytes -> Command, timer: Timer,
                              first: Power, reboots: seq<Power>, ghost p: Plan)
    returns (begun: bool)
    requires !first.Off? && forall r :: 0 <= r < |reboots| ==> !reboots[r].Off?
    requires Set(d, p, receive, command) && timer == p.timer
    requires Waiting(d, p, 0) && d.tc.Committed() && d.st.AtCall(p.r, 0) && d.st.Ready() && d.st.tail == 0
    modifies d.al, d.log, p.m.s0`prev, p.m.s0`next, timer.node`list, timer.node`prev, timer.node`next, timer.node`key
    modifies timer`active, d.tc`tail
    modifies d.st`ptr, d.st`tail, d.st.replay, d.st.kt, d.st.kt.tc`ptr, d.st.kt.tc`tail, d.st.kt.tc.cache, d.st.kt.tailStack
    ensures begun <==> first.Mains? || first.stores >= 4
    ensures if begun then Processed(d, p) else Waiting(d, p, 0)
    ensures begun ==> IsDelivered(d, p.m, receive, command, timer, p.r.m, old(timer.node.key))
    ensures !begun ==> timer.node.key == old(timer.node.key)
  {
    hide Waiting, Rolling, Processed, TxCache.Committed, SyscallTask.AtCall, SyscallTask.View, UserRun.Wf, UserRun.State, Ret,
         Base, Position, Move.AtSlot, IsDelivered;
    ghost var c;
    BeforeMessage(d, p);
    var pw;
    pw, c := ProcessMessage(d, receive, command, timer, first, p, 0);
    begun := !NotBegun(d, pw);
    if !begun {
      BeforeMessage(d, p);
      return;
    }
    var r := 0;
    while pw.Off?
      invariant 0 <= r && (r > |reboots| ==> !pw.Off?)
      invariant Begun(d, p, c) && (!pw.Off? ==> Processed(d, p))
      decreases |reboots| + 1 - r
    {
      pw, c := MessageRound(d, receive, command, timer, if r < |reboots| then reboots[r] else Mains, p, c);
      r := r + 1;
    }
    Delivered(d, p, receive, command);
  }

  /** The kernel transactions of the receiving call have been run on memory `m`, once, and the timer is where the message
      that they yield asks for. */
  ghost predicate IsDelivered(d: Daemon, m: Move, receive: Syscall, command: Bytes -> Command, timer: Timer,
                              mem: Mem, oldKey: int)
    requires m.Bounds()
    reads d.al, m.b`prev, m.b`next, m.b`list, m.node, timer, d.st, d.st.kt, d.st.kt.tc, d.st.kt.tc.cache
  {
    Steps(receive.prog) &&
    var (after, env) := Eval(receive.prog, mem, receive.arg);
    var cmd := command(receive.ret(env));
    && d.st.View().mem == after && timer.active == cmd.Start?
    && m.node.key == (if cmd.Start? then cmd.expiry else oldKey)
    && IsChain(d.al, if cmd.Start? then With(m.b, m.i, m.node) else m.b)
  }

  lemma BeforeMessage(d: Daemon, p: Plan)
    requires p.m.Bounds() && Waiting(d, p, 0)
    ensures p.m.node.key == p.oldKey
  {
  }

  lemma Delivered(d: Daemon, p: Plan, receive: Syscall, command: Bytes -> Command)
    requires Set(d, p, receive, command) && p.m.Bounds() && Processed(d, p)
    ensures IsDelivered(d, p.m, receive, command, p.timer, p.r.m, p.oldKey)
  {
    hide Eval, IsChain, Base, Position, Move.AtSlot;
    FirstCall(p.r, receive, d.st.kt.tc.cache.Length, d.st.replay.Length);
  }
}
