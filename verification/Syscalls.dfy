/** System calls inside a user transaction. Each is made of kernel transactions; the user transaction around them
    is rolled back and run again after a crash, the kernel transactions are not. */
module Syscalls {
  import opened PowerSupply
  import opened TxPrograms
  import opened TxWord
  import opened TxCaching
  import opened ReplaySpec
  import opened UserTxs
  import JournalBytes

  type Bytes = seq<Byte>

  const ARCH_ALIGN: JournalBytes.WordSize := JournalBytes.WORD

  /** A kernel program with its arguments, and the result it hands back. */
  datatype Syscall = Syscall(prog: Prog, arg: Env, size: nat, ret: Env -> Bytes)

  /** What the body of a user transaction does next, given the results so far. Its own stores are logged and rolled
      back, so that every run of it starts from the same user memory. */
  datatype UserAction = Call(sys: Syscall) | Finish(res: Bytes)
  type UserBody = seq<Bytes> -> UserAction

  /** Space of an entry in the replay cache; a call without a result takes one word. */
  function SlotSize(size: nat): (n: nat)
    ensures size <= n && 0 < n
  {
    if size == 0 then ARCH_ALIGN else (size + ARCH_ALIGN - 1) / ARCH_ALIGN * ARCH_ALIGN
  }

  // ---------- without failures ----------

  ghost predicate WfCall(s: Syscall, space: nat) {
    && Steps(s.prog) && Wf(s.prog) && Loops(s.prog) == {} && Fits(s.prog, Pos(0, 0), space)
    && forall env :: |s.ret(env)| == s.size
  }

  /** A user transaction of `n` system calls on kernel memory `m`. */
  datatype UserRun = UserRun(b: UserBody, n: nat, m: Mem) {

    /** Kernel memory and results after the first `k` system calls. */
    ghost function State(k: nat): (Mem, seq<Bytes>) {
      if k == 0 then (m, [])
      else
        var (m1, rs) := State(k - 1);
        var act := b(rs);
        if act.Call? && Steps(act.sys.prog) then
          var (m2, env) := Eval(act.sys.prog, m1, act.sys.arg);
          (m2, rs + [act.sys.ret(env)])
        else (m1, rs)
    }

    ghost function Kernel(k: nat): Mem {
      State(k).0
    }

    ghost function Results(k: nat): seq<Bytes> {
      State(k).1
    }

    /** Where the entry of call `k` starts. */
    ghost function Off(k: nat): nat {
      if k == 0 then 0 else Off(k - 1) + SlotSize(if b(Results(k - 1)).Call? then b(Results(k - 1)).sys.size else 0)
    }

    ghost predicate Wf(space: nat, replaySpace: nat) {
      && (forall k :: 0 <= k < n ==> b(Results(k)).Call? && WfCall(b(Results(k)).sys, space))
      && b(Results(n)).Finish? && Off(n) <= replaySpace
    }

    /** One call more. */
    lemma Next(k: nat, space: nat, replaySpace: nat)
      requires Wf(space, replaySpace) && k < n
      ensures
        var s := b(Results(k)).sys;
        && b(Results(k)).Call? && WfCall(s, space) && Off(k + 1) == Off(k) + SlotSize(s.size)
        && Kernel(k + 1) == Eval(s.prog, Kernel(k), s.arg).0
        && Results(k + 1) == Results(k) + [s.ret(Eval(s.prog, Kernel(k), s.arg).1)]
    {
      hide Eval;
      assert State(k + 1 - 1) == State(k);
    }

    lemma {:induction false} OffGrows(j: nat, k: nat)
      requires j < k
      ensures Off(j) < Off(k)
      decreases k
    {
      if j < k - 1 {
        OffGrows(j, k - 1);
      }
    }

    lemma {:induction false} Inside(k: nat, space: nat, replaySpace: nat)
      requires Wf(space, replaySpace) && k <= n
      ensures Off(k) <= replaySpace
    {
      if k < n {
        OffGrows(k, n);
      }
    }
  }

  /** `ms` are the kernel memories before each call and behind the last one, and `rs` the results: every call is the one
      that the body makes after the results before it, and it runs on the memory that the call before it left. */
  ghost predicate IsRunOf(b: UserBody, m: Mem, ms: seq<Mem>, rs: seq<Bytes>) {
    && |ms| == |rs| + 1 && ms[0] == m
    && forall k {:trigger rs[..k]} :: 0 <= k < |rs| ==> b(rs[..k]).Call? && IsCall(b(rs[..k]).sys, ms[k], ms[k + 1], rs[k])
  }

  ghost predicate IsCall(s: Syscall, m: Mem, after: Mem, ret: Bytes) {
    Steps(s.prog) && after == Eval(s.prog, m, s.arg).0 && ret == s.ret(Eval(s.prog, m, s.arg).1)
  }

  /** Such a run exists, it is the one that the recursion describes, and its body finishes behind it. */
  lemma {:induction false} TheRun(r: UserRun, k: nat, space: nat, replaySpace: nat) returns (ms: seq<Mem>)
    requires r.Wf(space, replaySpace) && k <= r.n
    ensures IsRunOf(r.b, r.m, ms, r.Results(k)) && ms[|ms| - 1] == r.Kernel(k) && |r.Results(k)| == k
    decreases k
  {
    hide Eval, Wf, Fits, Loops, UserRun.Wf, IsCall;
    if k == 0 {
      ms := [r.m];
    } else {
      var before := TheRun(r, k - 1, space, replaySpace);
      r.Next(k - 1, space, replaySpace);
      OneCall(r, k - 1, space, replaySpace);
      ms := before + [r.Kernel(k)];
      RunMore(r.b, r.m, before, r.Results(k - 1), r.Kernel(k), Ret(r, k - 1));
    }
  }

  lemma OneCall(r: UserRun, k: nat, space: nat, replaySpace: nat)
    requires r.Wf(space, replaySpace) && k < r.n
    ensures r.b(r.Results(k)).Call? && IsCall(r.b(r.Results(k)).sys, r.Kernel(k), r.Kernel(k + 1), Ret(r, k))
    ensures r.Results(k + 1) == r.Results(k) + [Ret(r, k)]
  {
    hide Eval, UserRun.State, UserRun.Wf, Wf, Fits, Loops;
    r.Next(k, space, replaySpace);
  }

  lemma RunMore(b: UserBody, m: Mem, ms: seq<Mem>, rs: seq<Bytes>, after: Mem, ret: Bytes)
    requires IsRunOf(b, m, ms, rs) && b(rs).Call? && IsCall(b(rs).sys, ms[|ms| - 1], after, ret)
    ensures IsRunOf(b, m, ms + [after], rs + [ret])
  {
    hide IsCall;
    var longer := rs + [ret];
    forall k {:trigger longer[..k]} | 0 <= k < |longer|
      ensures b(longer[..k]).Call? && IsCall(b(longer[..k]).sys, (ms + [after])[k], (ms + [after])[k + 1], longer[k])
    {
      assert longer[..k] == rs[..k];
      if k == |rs| {
        assert rs[..k] == rs;
      }
    }
  }

  // ---------- kernel programs have no loops ----------

  lemma {:induction false} LoopCountersDoNotMatter(p: Prog, q: Pos, env: Env, m: Mem, v: Nv, w: Nv)
    requires Steps(p) && Loops(p) == {} && v.(ctr := map[]) == w.(ctr := map[])
    ensures Done(p, q, env, m, v) == Done(p, q, env, m, w)
    ensures Resume(p, q, env, m, v) == Resume(p, q, env, m, w)
  {
    match p
    case Seq(a, b) =>
      LoopCountersDoNotMatter(a, q, env, m, v, w);
      LoopCountersDoNotMatter(b, After(a, q), Eval(a, m, env).1, Eval(a, m, env).0, v, w);
    case _ =>
  }

  lemma {:induction false} NoLoopsNoDepth(p: Prog)
    requires Loops(p) == {}
    ensures Depth(p) == 0
  {
    match p
    case Seq(a, b) =>
      NoLoopsNoDepth(a);
      NoLoopsNoDepth(b);
    case _ =>
  }

  // ---------- the replay cache ----------

  ghost function Ret(r: UserRun, i: nat): Bytes
    requires r.b(r.Results(i)).Call?
  {
    var s := r.b(r.Results(i)).sys;
    if Steps(s.prog) then s.ret(Eval(s.prog, r.Kernel(i), s.arg).1) else []
  }

  /** The results of the first `k` calls stand where they belong. */
  ghost predicate Entered(bytes: Bytes, r: UserRun, k: nat) {
    forall i: nat :: i < k && r.b(r.Results(i)).Call? ==> Holds(bytes, r.Off(i), Ret(r, i))
  }

  lemma RetSize(r: UserRun, i: nat, space: nat, replaySpace: nat)
    requires r.Wf(space, replaySpace) && i < r.n
    ensures r.b(r.Results(i)).Call? && |Ret(r, i)| == r.b(r.Results(i)).sys.size
    ensures r.Off(i) + |Ret(r, i)| <= r.Off(i + 1) <= r.Off(r.n) <= replaySpace
    ensures r.Results(i + 1) == r.Results(i) + [Ret(r, i)]
  {
    hide Eval, Wf, Fits, Loops, UserRun.Wf, UserRun.State, UserRun.Off;
    r.Next(i, space, replaySpace);
    r.Inside(i + 1, space, replaySpace);
    r.Inside(r.n, space, replaySpace);
    if i + 1 < r.n {
      r.OffGrows(i + 1, r.n);
    }
  }

  /** Bytes behind the entries do not matter. */
  lemma EntersStay(b: Bytes, c: Bytes, r: UserRun, k: nat, space: nat, replaySpace: nat)
    requires r.Wf(space, replaySpace) && k <= r.n && Entered(b, r, k)
    requires r.Off(k) <= |b| == |c| && b[..r.Off(k)] == c[..r.Off(k)]
    ensures Entered(c, r, k)
  {
    hide Ret, SlotSize, Holds, UserRun.Wf, UserRun.State, UserRun.Off, UserRun.Results;
    forall i: nat | i < k && r.b(r.Results(i)).Call?
      ensures Holds(c, r.Off(i), Ret(r, i))
    {
      RetSize(r, i, space, replaySpace);
      if i + 1 < k {
        r.OffGrows(i + 1, k);
      }
      HoldsBelow(b, c, r.Off(i), Ret(r, i), r.Off(k));
    }
  }

  lemma HoldsBelow(b: Bytes, c: Bytes, at: nat, res: Bytes, n: nat)
    requires Holds(b, at, res) && at + |res| <= n <= |b| && n <= |c| && b[..n] == c[..n]
    ensures Holds(c, at, res)
  {
    assert b[at..at + |res|] == b[..n][at..at + |res|];
    assert c[at..at + |res|] == c[..n][at..at + |res|];
  }

  lemma OneMoreEntered(c: Bytes, r: UserRun, k: nat)
    requires Entered(c, r, k) && (r.b(r.Results(k)).Call? ==> Holds(c, r.Off(k), Ret(r, k)))
    ensures Entered(c, r, k + 1)
  {
    hide Ret, Holds;
  }

  /** Kernel state `v` is one from which call `k` can be begun or resumed. */
  ghost predicate Due(r: UserRun, k: nat, v: Nv) {
    if k < r.n then
      var act := r.b(r.Results(k));
      act.Call? && Steps(act.sys.prog) && Resume(act.sys.prog, Pos(0, 0), act.sys.arg, r.Kernel(k), v)
    else v.mem == r.Kernel(k) && v.tail == Pos(0, 0)
  }

  /** If the call has committed nothing, the transaction cache is empty. */
  lemma NothingPending(r: UserRun, k: nat, v: Nv)
    requires Due(r, k, v) && v.tail.id == 0
    ensures v.tail == Pos(0, 0)
  {
    hide UserRun.State, Eval, Resume;
    if k < r.n {
      var act := r.b(r.Results(k));
      ResumeIsAhead(act.sys.prog, Pos(0, 0), act.sys.arg, r.Kernel(k), v);
    }
  }

  // ---------- a task in the kernel ----------

  class SyscallTask {
    const kt: UserTxInfo           // transaction, journal and transaction cache of the kernel side
    const replay: array<Byte>      // results of the system calls of the open user transaction
    var ptr: nat
    var tail: nat
    var committed: bool            // the user transaction, with its cached result
    var outcome: Bytes

    constructor (kt: UserTxInfo, space: nat)
      requires kt.Valid() && kt.Quiet() && kt.tc.TailPos() == Pos(0, 0)
      ensures Valid() && this.kt == kt && replay.Length == space && fresh(replay)
      ensures ptr == 0 && tail == 0 && !committed
    {
      this.kt := kt;
      replay := new Byte[space](_ => 0);
      ptr, tail, committed, outcome := 0, 0, false, [];
    }

    ghost predicate Valid() {
      replay != kt.tc.cache && kt.Valid()
    }

    /** Nothing is left to be rolled back. The loop stack of the engine is not used by kernel programs. */
    ghost predicate Ready()
      reads kt`journal, kt`stackTop
    {
      kt.journal == [] && kt.stackTop == 0
    }

    /** The kernel side as a reboot sees it. */
    ghost function View(): Nv
      reads kt`mem, kt`ctr, kt`journal, kt`loopCtr, kt`loopLog, kt`loopStep, kt.tc`ptr, kt.tc`tail, kt.tc.cache
    {
      kt.View().(ctr := map[])
    }

    /** Call `k` is to be begun or resumed. */
    ghost predicate AtCall(r: UserRun, k: nat)
      reads kt`mem, kt`ctr, kt`journal, kt`loopCtr, kt`loopLog, kt`loopStep, kt.tc`ptr, kt.tc`tail, kt.tc.cache
    {
      Due(r, k, View())
    }

    /** The entry of call `k - 1` has just been added; its kernel transactions are complete. */
    ghost predicate JustEnded(r: UserRun, k: nat)
      reads this`ptr, this`tail, kt`mem, kt`ctr, kt`journal, kt`loopCtr, kt`loopLog, kt`loopStep, kt.tc`ptr, kt.tc`tail, kt.tc.cache
    {
      ptr < tail && View().mem == r.Kernel(k)
    }

    /** Where the user transaction stands. */
    ghost predicate Open(r: UserRun, k: nat)
      reads this, replay
      reads kt`mem, kt`ctr, kt`journal, kt`loopCtr, kt`loopLog, kt`loopStep, kt.tc`ptr, kt.tc`tail, kt.tc.cache
    {
      && Valid() && !committed && k <= r.n && ptr <= tail == r.Off(k) && Entered(replay[..], r, k)
      && (AtCall(r, k) || JustEnded(r, k))
    }

    /** Recovery takes a pointer behind the tail for a call that has just ended. That is so, or nothing is pending. */
    ghost predicate Safe(r: UserRun, k: nat)
      reads this`ptr, this`tail, kt`mem, kt`ctr, kt`journal, kt`loopCtr, kt`loopLog, kt`loopStep, kt.tc`ptr, kt.tc`tail, kt.tc.cache
    {
      ptr < tail ==> JustEnded(r, k) || View().tail.id == 0
    }

    /** A call is half done while the pointer is behind the tail because earlier calls are being bypassed: to
        recovery this looks like a call that has just ended. */
    ghost predicate Bypassing(r: UserRun, k: nat)
      reads this`ptr, this`tail, kt`mem, kt`ctr, kt`journal, kt`loopCtr, kt`loopLog, kt`loopStep, kt.tc`ptr, kt.tc`tail, kt.tc.cache
    {
      AtCall(r, k) && ptr < tail && View().tail.id > 0
    }

    /** The user transaction has committed. */
    ghost predicate Closed(r: UserRun)
      reads this`committed, this`outcome
      reads kt`mem, kt`ctr, kt`journal, kt`loopCtr, kt`loopLog, kt`loopStep, kt.tc`ptr, kt.tc`tail, kt.tc.cache
    {
      && Valid() && committed && View().mem == r.Kernel(r.n)
      && r.b(r.Results(r.n)).Finish? && outcome == r.b(r.Results(r.n)).res
    }

    /** `commit_reset_tail`. */
    method CommitResetTail()
      requires kt.journal == []
      modifies kt.tc`tail
      ensures View() == old(View()).(tail := Pos(0, 0))
    {
      kt.tc.CommitResetTail();
    }

    /** With an empty transaction cache and the right memory, the next call is to be begun. */
    lemma Begins(r: UserRun, k: nat)
      requires r.Wf(kt.tc.cache.Length, replay.Length) && k <= r.n
      requires View().mem == r.Kernel(k) && View().tail == Pos(0, 0)
      ensures AtCall(r, k)
    {
      hide Resume, Done, Eval, Undo, SlotSize;
      if k < r.n {
        r.Next(k, kt.tc.cache.Length, replay.Length);
        var s := r.b(r.Results(k)).sys;
        FreshResumes(s.prog, Pos(0, 0), s.arg, r.Kernel(k), View());
      }
    }

    /** Copy a result behind the entries of the calls before. */
    method Enter(res: Bytes, pw0: Power, ghost r: UserRun, ghost k: nat) returns (pw: Power)
      requires !pw0.Off? && r.Wf(kt.tc.cache.Length, replay.Length) && k < r.n && tail == r.Off(k)
      requires Entered(replay[..], r, k) && r.b(r.Results(k)).Call? && res == Ret(r, k)
      modifies replay
      ensures pw0.Mains? ==> pw.Mains?
      ensures Entered(replay[..], r, k) && (!pw.Off? ==> Entered(replay[..], r, k + 1))
    {
      hide Ret, Entered, SlotSize, UserRun.Wf, UserRun.State, UserRun.Off, UserRun.Results;
      RetSize(r, k, kt.tc.cache.Length, replay.Length);
      pw := pw0;
      ghost var b := replay[..];
      for i := 0 to |res|
        invariant !pw.Off? && (pw0.Mains? ==> pw.Mains?)
        invariant replay[..tail] == b[..tail] && replay[tail..tail + i] == res[..i]
      {
        pw := pw.Tick();
        if pw.Off? {
          assert replay[..][..tail] == replay[..tail];
          EntersStay(b, replay[..], r, k, kt.tc.cache.Length, replay.Length);
          return;
        }
        replay[tail + i] := res[i];
      }
      assert replay[..][..tail] == replay[..tail];
      assert replay[..][tail..tail + |res|] == replay[tail..tail + |res|] == res;
      EntersStay(b, replay[..], r, k, kt.tc.cache.Length, replay.Length);
      OneMoreEntered(replay[..], r, k);
    }

    /** `syscall_end`: the result is entered and the tail moves; then the transaction cache of the kernel side is
        emptied, and the pointer follows. */
    method EndSyscall(s: Syscall, res: Bytes, pw0: Power, ghost r: UserRun, ghost k: nat) returns (pw: Power, ghost k': nat)
      requires !pw0.Off? && Open(r, k) && ptr == tail && k < r.n && r.Wf(kt.tc.cache.Length, replay.Length)
      requires r.b(r.Results(k)) == Call(s) && Ready()
      requires View().mem == r.Kernel(k + 1) && res == Ret(r, k)
      modifies this`ptr, this`tail, replay, kt.tc`tail
      ensures pw0.Mains? ==> pw.Mains?
      ensures Open(r, k') && (pw.Off? ==> Safe(r, k')) && k <= k'
      ensures !pw.Off? ==> k' == k + 1 && AtCall(r, k') && ptr == tail && Ready()
      ensures !pw.Off? ==> View().mem == r.Kernel(k') && View().tail == Pos(0, 0)
    {
      hide Resume, Done, Undo, SlotSize, Ret, Entered, Due, View, UserTxInfo.View, PosOf;
      hide UserRun.Wf, UserRun.State, UserRun.Off, UserRun.Results;
      k' := k;
      r.Next(k, kt.tc.cache.Length, replay.Length);
      pw := Enter(res, pw0, r, k);
      if pw.Off? { return; }
      pw := pw.Tick();
      if pw.Off? { return; }
      tail := tail + SlotSize(s.size);
      k' := k + 1;
      pw := pw.Tick();
      if pw.Off? { return; }
      CommitResetTail();
      Begins(r, k');
      pw := pw.Tick();
      if pw.Off? { return; }
      ptr := tail;
    }

    method ResetPtr()
      modifies kt.tc`ptr
      ensures View() == old(View()) && kt.tc.PtrPos() == Pos(0, 0)
    {
      kt.tc.ResetPtr();
    }

    /** The kernel program of call `k`, run or resumed. */
    method RunSyscall(s: Syscall, pw0: Power, ghost r: UserRun, ghost k: nat) returns (pw: Power, res: Bytes)
      requires !pw0.Off? && Valid() && AtCall(r, k) && Ready()
      requires k < r.n && r.Wf(kt.tc.cache.Length, replay.Length) && r.b(r.Results(k)) == Call(s)
      modifies kt, kt.tc`ptr, kt.tc`tail, kt.tc.cache, kt.tailStack
      ensures pw0.Mains? ==> pw.Mains?
      ensures AtCall(r, k)
      ensures !pw.Off? ==> View().mem == r.Kernel(k + 1) && res == Ret(r, k) && Ready()
    {
      hide Resume, Done, Undo, SlotSize, Eval, PosOf, UserTxInfo.View, Kept, UserRun.State, Wf, Fits;
      res := [];
      r.Next(k, kt.tc.cache.Length, replay.Length);
      NoLoopsNoDepth(s.prog);
      pw := pw0.Tick();
      if pw.Off? { return; }
      ResetPtr();
      ghost var m := r.Kernel(k);
      LoopCountersDoNotMatter(s.prog, Pos(0, 0), s.arg, m, View(), kt.View());
      var env;
      pw, env := kt.Exec(s.prog, s.arg, pw, Pos(0, 0), m);
      LoopCountersDoNotMatter(s.prog, Pos(0, 0), s.arg, m, View(), kt.View());
      if pw.Off? { return; }
      res := s.ret(env);
    }

    /** A system call: bypassed if its result is cached, else run or resumed. */
    method DoSyscall(s: Syscall, pw0: Power, ghost r: UserRun, ghost j: nat, ghost k: nat)
      returns (pw: Power, res: Bytes, ghost k': nat, safe: bool)
      requires !pw0.Off? && Open(r, k) && AtCall(r, k) && Ready() && r.Wf(kt.tc.cache.Length, replay.Length)
      requires j < r.n && j <= k && ptr == r.Off(j) && r.b(r.Results(j)) == Call(s)
      modifies this`ptr, this`tail, replay, kt, kt.tc`ptr, kt.tc`tail, kt.tc.cache, kt.tailStack
      ensures pw0.Mains? ==> pw.Mains?
      ensures Open(r, k') && (pw.Off? ==> if safe then Safe(r, k') else Bypassing(r, k'))
      ensures !safe ==> pw.Off? && j < k
      ensures !pw.Off? ==> AtCall(r, k') && Ready() && j + 1 <= k' && ptr == r.Off(j + 1)
      ensures !pw.Off? ==> r.Results(j + 1) == r.Results(j) + [res]
      ensures k <= k' && (j < k ==> k' == k) && (!pw.Off? && j == k ==> k' == k + 1)
      ensures !pw.Off? && j == k ==> View().mem == r.Kernel(k') && View().tail == Pos(0, 0)
    {
      hide Resume, Done, Undo, SlotSize, Ret, Entered, Due, View, UserTxInfo.View, PosOf;
      hide UserRun.Wf, UserRun.State, UserRun.Off, UserRun.Results;
      k', safe := k, true;
      WhichCall(r, j, k);
      r.Next(j, kt.tc.cache.Length, replay.Length);
      RetSize(r, j, kt.tc.cache.Length, replay.Length);
      if ptr < tail {
        EnteredIs(replay[..], r, j, k);
        res := replay[ptr..ptr + s.size];
        pw := pw0.Tick();
        if pw.Off? {
          safe := TxId(kt.tc.tail) == 0;
          TailOfView();
          return;
        }
        ptr := ptr + SlotSize(s.size);
        WhichCall(r, j + 1, k);
      } else {
        pw, res := RunSyscall(s, pw0, r, k);
        if pw.Off? { return; }
        pw, k' := EndSyscall(s, res, pw, r, k);
      }
    }

    lemma TailOfView()
      ensures View().tail.id == TxId(kt.tc.tail)
    {
    }

    lemma WhichCall(r: UserRun, j: nat, k: nat)
      requires j <= k
      ensures r.Off(j) <= r.Off(k) && (r.Off(j) < r.Off(k) <==> j < k)
    {
      if j < k {
        r.OffGrows(j, k);
      }
    }

    lemma EnteredIs(b: Bytes, r: UserRun, j: nat, k: nat)
      requires j < k && Entered(b, r, k) && r.b(r.Results(j)).Call?
      ensures r.Off(j) + |Ret(r, j)| <= |b| && b[r.Off(j)..r.Off(j) + |Ret(r, j)|] == Ret(r, j)
    {
      hide Ret;
      assert Holds(b, r.Off(j), Ret(r, j));
    }

    // ---------- recovery ----------

    /** `jit_recovery` and `user_recovery`, as far as system calls go: settle the open kernel transaction, take a pointer
        behind the tail for a call that has just ended, and empty the replay cache of a committed user transaction.
        Whatever it finds, it keeps the memory that a reboot sees. With a call to be begun or resumed it keeps everything
        unless the state is `Bypassing`: then it forgets what that call has committed. */
    method Recover(pw0: Power, ghost r: UserRun, ghost k: nat) returns (pw: Power)
      requires !pw0.Off? && Valid() && r.Wf(kt.tc.cache.Length, replay.Length)
      modifies this`tail, kt`mem, kt`journal, kt`stackTop, kt.tc`tail
      ensures pw0.Mains? ==> pw.Mains?
      ensures committed == old(committed) && outcome == old(outcome)
      ensures View() == old(View()) || (old(ptr < tail) && View() == old(View()).(tail := Pos(0, 0)))
      ensures !pw.Off? ==> Ready() && (old(ptr < tail) ==> View() == old(View()).(tail := Pos(0, 0)))
      ensures !pw.Off? && old(AtCall(r, k)) ==> (View() == old(View()) <==> !old(Bypassing(r, k)))
      ensures !committed ==> tail == old(tail)
      ensures !pw.Off? && committed ==> tail == 0
      ensures old(Closed(r)) ==> Closed(r)
      ensures old(Open(r, k) && Safe(r, k)) ==> Open(r, k) && Safe(r, k) && (!pw.Off? ==> AtCall(r, k))
    {
      hide Resume, Done, Undo, SlotSize, Ret, Entered, Due, UserTxInfo.View, PosOf;
      hide UserRun.Wf, UserRun.State, UserRun.Off, UserRun.Results;
      pw := kt.SettleTx(pw0);
      kt.stackTop := 0;
      if pw.Off? { return; }
      if ptr < tail {
        ghost var safe, ended := Open(r, k) && Safe(r, k), JustEnded(r, k);
        if AtCall(r, k) && View().tail.id == 0 {
          NothingPending(r, k, View());
        }
        pw := pw.Tick();
        if pw.Off? { return; }
        CommitResetTail();
        if safe && ended {
          Begins(r, k);
        }
      }
      if committed {
        pw := pw.Tick();
        if pw.Off? { return; }
        tail := 0;
      }
    }

    // ---------- a boot ----------

    /** The body from the top, up to its commit and the end of the user transaction. */
    method RunBody(b: UserBody, pw0: Power, ghost r: UserRun, ghost k: nat)
      returns (pw: Power, res: Bytes, ghost k': nat, safe: bool)
      requires !pw0.Off? && r.b == b && Open(r, k) && Safe(r, k) && AtCall(r, k) && Ready()
      requires r.Wf(kt.tc.cache.Length, replay.Length)
      modifies this, replay, kt, kt.tc`ptr, kt.tc`tail, kt.tc.cache, kt.tailStack
      ensures pw0.Mains? ==> pw.Mains?
      ensures k <= k' && (!safe ==> pw.Off? && !committed && k' == k > 0)
      ensures if committed then Closed(r) else pw.Off? && Open(r, k') && if safe then Safe(r, k') else Bypassing(r, k')
      ensures !pw.Off? ==> committed && res == outcome && tail == 0
    {
      hide Resume, Done, Undo, SlotSize, Ret, Entered, Due, View, UserTxInfo.View, PosOf;
      hide UserRun.Wf, UserRun.State, UserRun.Off, UserRun.Results;
      k', res, safe := k, [], true;
      pw := pw0.Tick();
      if pw.Off? { return; }
      ptr := 0;
      NoCalls(r);
      var results: seq<Bytes> := [];
      ghost var j := 0;
      WhichAction(r, j, kt.tc.cache.Length, replay.Length);
      while b(results).Call?
        invariant !pw.Off? && safe && (pw0.Mains? ==> pw.Mains?) && k <= k' && (k' == k || k' == j)
        invariant j <= k' && results == r.Results(j) && ptr == r.Off(j)
        invariant Open(r, k') && AtCall(r, k') && Ready() && (b(results).Call? <==> j < r.n)
        decreases r.n - j
      {
        var ret;
        pw, ret, k', safe := DoSyscall(b(results).sys, pw, r, j, k');
        if pw.Off? { return; }
        results, j := results + [ret], j + 1;
        WhichAction(r, j, kt.tc.cache.Length, replay.Length);
      }
      Finishes(r);
      res := b(results).res;
      pw := pw.Tick();
      if pw.Off? { return; }
      committed, outcome := true, res;
      pw := pw.Tick();
      if pw.Off? { return; }
      tail := 0;
    }

    lemma NoCalls(r: UserRun)
      ensures r.Off(0) == 0 && r.Results(0) == []
    {
    }

    lemma WhichAction(r: UserRun, j: nat, space: nat, replaySpace: nat)
      requires r.Wf(space, replaySpace) && j <= r.n
      ensures r.b(r.Results(j)).Call? <==> j < r.n
    {
      hide UserRun.State;
    }

    lemma Finishes(r: UserRun)
      requires AtCall(r, r.n)
      ensures View().mem == r.Kernel(r.n)
    {
    }

    /** A boot: recover, then run the body from the top unless its result is cached. */
    method Boot(b: UserBody, pw0: Power, ghost r: UserRun, ghost k: nat)
      returns (pw: Power, res: Bytes, ghost k': nat, safe: bool)
      requires !pw0.Off? && r.b == b && r.Wf(kt.tc.cache.Length, replay.Length)
      requires (Open(r, k) && Safe(r, k)) || Closed(r)
      modifies this, replay, kt, kt.tc`ptr, kt.tc`tail, kt.tc.cache, kt.tailStack
      ensures pw0.Mains? ==> pw.Mains?
      ensures k <= k' && (!safe ==> pw.Off? && !committed && k' == k > 0)
      ensures if committed then Closed(r) else pw.Off? && Open(r, k') && if safe then Safe(r, k') else Bypassing(r, k')
      ensures !pw.Off? ==> View().mem == r.Kernel(r.n) && Finish(res) == r.b(r.Results(r.n)) && tail == 0
    {
      hide UserRun.Wf, UserRun.State, UserRun.Off, UserRun.Results, Safe, Entered, Due, View;
      k', res, safe := k, outcome, true;
      pw := Recover(pw0, r, k);
      if pw.Off? || committed { return; }
      pw, res, k', safe := RunBody(b, pw, r, k);
    }

    /** One crash at any store of a user transaction with system calls, and any number of crashes during the recovery
        from it: every kernel transaction takes effect exactly once, and the result is that of the run without failures. */
    method CrashOnce(b: UserBody, pw1: Power, supplies: seq<Power>, ghost r: UserRun)
      returns (res: Bytes, ghost ms: seq<Mem>, ghost rs: seq<Bytes>)
      requires !pw1.Off? && forall i :: 0 <= i < |supplies| ==> !supplies[i].Off?
      requires r.b == b && r.m == kt.mem && r.Wf(kt.tc.cache.Length, replay.Length)
      requires Valid() && Ready() && tail == ptr == 0 && !committed && kt.tc.TailPos() == Pos(0, 0)
      modifies this, replay, kt, kt.tc`ptr, kt.tc`tail, kt.tc.cache, kt.tailStack
      ensures View().mem == r.Kernel(r.n) && Finish(res) == b(r.Results(r.n)) && tail == 0
      ensures |rs| == r.n && IsRunOf(b, old(kt.mem), ms, rs) && View().mem == ms[r.n] && b(rs) == Finish(res)
    {
      hide UserRun.Wf, UserRun.State, UserRun.Off, UserRun.Results, AtCall, UserTxInfo.View, IsCall;
      ghost var k := 0;
      Fresh(r);
      rs := r.Results(r.n);
      ms := TheRun(r, r.n, kt.tc.cache.Length, replay.Length);
      var pw;
      var safe;
      pw, res, k, safe := Boot(b, pw1, r, 0);
      if !pw.Off? { return; }
      var i := 0;
      while i < |supplies|
        invariant 0 <= i <= |supplies| && ((Open(r, k) && Safe(r, k)) || Closed(r))
      {
        pw := Recover(supplies[i], r, k);
        i := i + 1;
      }
      pw, res, k, safe := Boot(b, Mains, r, k);
    }

    /** Any number of crashes at any stores: as long as none of them comes while earlier calls are bypassed with a call
        half done (`safe`), every kernel transaction takes effect exactly once and the result is that of the run
        without failures. One crash is never of that kind. */
    method RunUnderFailures(b: UserBody, supplies: seq<Power>, ghost r: UserRun)
      returns (res: Bytes, safe: bool, ghost k: nat, ghost ms: seq<Mem>, ghost rs: seq<Bytes>)
      requires forall i :: 0 <= i < |supplies| ==> !supplies[i].Off?
      requires r.b == b && r.m == kt.mem && r.Wf(kt.tc.cache.Length, replay.Length)
      requires Valid() && Ready() && tail == ptr == 0 && !committed && kt.tc.TailPos() == Pos(0, 0)
      modifies this, replay, kt, kt.tc`ptr, kt.tc`tail, kt.tc.cache, kt.tailStack
      ensures safe ==> View().mem == r.Kernel(r.n) && Finish(res) == b(r.Results(r.n)) && tail == 0
      ensures |rs| == r.n && IsRunOf(b, old(kt.mem), ms, rs) && (safe ==> View().mem == ms[r.n] && b(rs) == Finish(res))
      ensures !safe ==> Open(r, k) && Bypassing(r, k)
      ensures |supplies| <= 1 ==> safe
    {
      hide UserRun.Wf, UserRun.State, UserRun.Off, UserRun.Results, AtCall, Bypassing, View, UserTxInfo.View, IsCall;
      Fresh(r);
      rs := r.Results(r.n);
      ms := TheRun(r, r.n, kt.tc.cache.Length, replay.Length);
      k, safe := 0, true;
      var pw;
      var i := 0;
      while i < |supplies|
        invariant 0 <= i <= |supplies| && safe && ((Open(r, k) && Safe(r, k)) || Closed(r))
        invariant i == 0 ==> k == 0
      {
        pw, res, k, safe := Boot(b, supplies[i], r, k);
        if !pw.Off? || !safe { return; }
        i := i + 1;
      }
      pw, res, k, safe := Boot(b, Mains, r, k);
    }

    lemma Fresh(r: UserRun)
      requires Valid() && Ready() && tail == ptr == 0 && !committed && kt.tc.TailPos() == Pos(0, 0)
      requires r.m == kt.mem && r.Wf(kt.tc.cache.Length, replay.Length)
      ensures Open(r, 0) && Safe(r, 0)
    {
      NoCalls(r);
      Begins(r, 0);
    }
  }

  // ---------- crashing while earlier calls are being bypassed ----------

  /** Add one to location 0. */
  function Inc(): Closure {
    (m: Mem, env: Env) => Effect([Log(0), Store(0, m[0] + 1)], [])
  }

  function Once(): Prog {
    TxPrograms.Run(0, Inc())
  }

  /** A user transaction of two calls: the first does nothing, the second runs two kernel transactions. */
  function NoOp(): Syscall {
    Syscall(Skip, [], 0, (env: Env) => [])
  }

  function AddTwo(): Syscall {
    Syscall(Seq(Once(), Once()), [], 0, (env: Env) => [])
  }

  function TwoCalls(): UserBody {
    (rs: seq<Bytes>) => if |rs| == 0 then Call(NoOp()) else if |rs| == 1 then Call(AddTwo()) else Finish([])
  }

  ghost function TwoCallsOn(m: Mem): UserRun {
    UserRun(TwoCalls(), 2, m)
  }

  lemma FirstIsNoOp(m: Mem)
    ensures var r := TwoCallsOn(m);
            && TwoCalls()([]) == Call(NoOp()) && r.State(0) == (m, []) && r.State(1) == (m, [[]])
            && r.Off(0) == 0 && r.Off(1) == SlotSize(0)
  {
    hide SlotSize;
    var r := TwoCallsOn(m);
    var none: seq<Bytes> := [];
    assert TwoCalls()(none) == Call(NoOp());
    assert r.State(0) == (m, none) && r.Results(0) == none && r.Off(0) == 0;
    assert none + [[]] == [[]];
    assert r.State(1) == (m, [[]]);
  }

  lemma SecondIsAddTwo(m: Mem)
    ensures var r := TwoCallsOn(m);
            && TwoCalls()([[]]) == Call(AddTwo()) && r.State(2).0[0] == m[0] + 2 && r.State(2).1 == [[], []]
            && r.Off(2) == SlotSize(0) + SlotSize(0)
  {
    hide EvalTx, Inc, SlotSize;
    var r := TwoCallsOn(m);
    var one: seq<Bytes> := [[]];
    FirstIsNoOp(m);
    IncAddsOne(m, []);
    IncAddsOne(m[0 := m[0] + 1], EvalTx(Inc(), m, []).1);
    assert TwoCalls()(one) == Call(AddTwo());
    assert r.State(1) == (m, one) && r.Results(1) == one;
    assert one + [[]] == [[], []];
    assert r.State(2) == (Eval(AddTwo().prog, m, []).0, one + [[]]);
  }

  lemma CallsAreWf(space: nat)
    ensures WfCall(NoOp(), space) && WfCall(AddTwo(), space)
  {
    hide WfCall, NoOp, AddTwo;
    NoOpIsWf(space);
    AddTwoIsWf(space);
  }

  lemma NoOpIsWf(space: nat)
    ensures WfCall(NoOp(), space)
  {
  }

  lemma AddTwoIsWf(space: nat)
    ensures WfCall(AddTwo(), space)
  {
    hide Once, IsRestartable, IsIdempotent, Wf, Steps, Fits, Loops, After;
    OnceIsWf(Pos(0, 0), space);
    OnceIsWf(Pos(0, 1), space);
    SeqIsWf(Once(), Once(), Pos(0, 0), space);
  }

  lemma SeqIsWf(p: Prog, q: Prog, at: Pos, space: nat)
    requires Steps(p) && Wf(p) && Fits(p, at, space) && Steps(q) && Wf(q) && Fits(q, After(p, at), space)
    requires Loops(p) == Loops(q) == {}
    ensures Steps(Seq(p, q)) && Wf(Seq(p, q)) && Loops(Seq(p, q)) == {} && Fits(Seq(p, q), at, space)
  {
    hide IsRestartable, IsIdempotent;
  }

  lemma OnceIsWf(q: Pos, space: nat)
    requires q.off <= space && q.id < MAX_ID
    ensures Steps(Once()) && Wf(Once()) && Loops(Once()) == {} && Fits(Once(), q, space)
    ensures After(Once(), q) == Pos(q.off, q.id + 1)
  {
    hide IsRestartable, Inc;
    IncIsLogged();
  }

  /** Without failures location 0 grows by two. */
  lemma TwoCallsWithoutFailures(m: Mem, space: nat, replaySpace: nat)
    requires SlotSize(0) + SlotSize(0) <= replaySpace
    ensures TwoCallsOn(m).Wf(space, replaySpace) && TwoCallsOn(m).Kernel(2)[0] == m[0] + 2
  {
    hide EvalTx, Eval, WfCall, SlotSize;
    var r := TwoCallsOn(m);
    CallsAreWf(space);
    FirstIsNoOp(m);
    SecondIsAddTwo(m);
    forall k | 0 <= k < 2
      ensures r.b(r.Results(k)).Call? && WfCall(r.b(r.Results(k)).sys, space)
    {
      assert k == 0 || k == 1;
      assert r.Results(0) == [] && r.Results(1) == [[]];
    }
    assert r.Results(2) == [[], []];
  }

  /** The state after the first kernel transaction of the second call. */
  lemma HalfDone(m: Mem, v: Nv)
    requires v.mem == m[0 := m[0] + 1] && v.tail == Pos(0, 1) && Done(Once(), Pos(0, 0), [], m, v)
    ensures Due(TwoCallsOn(m), 1, v)
  {
    hide EvalTx, Inc;
    FirstIsNoOp(m);
    SecondIsAddTwo(m);
    IncAddsOne(m, []);
    FreshResumes(Once(), Pos(0, 1), EvalTx(Inc(), m, []).1, v.mem, v);
    assert Resume(Seq(Once(), Once()), Pos(0, 0), [], m, v);
  }

  /** The second call as far as its first kernel transaction. */
  method FirstTransaction(t: SyscallTask, ghost m: Mem)
    requires t.Valid() && t.Ready() && t.View().mem == m && t.View().tail == Pos(0, 0) && t.Open(TwoCallsOn(m), 1)
    modifies t.kt, t.kt.tc`ptr, t.kt.tc`tail, t.kt.tc.cache, t.kt.tailStack
    ensures t.View().mem == m[0 := m[0] + 1] && t.View().tail == Pos(0, 1)
    ensures t.Open(TwoCallsOn(m), 1) && t.AtCall(TwoCallsOn(m), 1)
  {
    hide EvalTx, Inc, SlotSize, Resume, Done, Undo, Kept, Due, Entered;
    t.ResetPtr();
    CallsAreWf(t.kt.tc.cache.Length);
    IncAddsOne(m, []);
    FreshResumes(Once(), Pos(0, 0), [], m, t.kt.View());
    var pw, _ := t.kt.Exec(Once(), [], Mains, Pos(0, 0), m);
    LoopCountersDoNotMatter(Once(), Pos(0, 0), [], m, t.kt.View(), t.View());
    HalfDone(m, t.View());
  }

  /** The first call ends, the second has made its first transaction when the power fails. The reboot recovers, starts
      the body from the top, and power fails again before the first call is bypassed. */
  method CrashWhileBypassing(t: SyscallTask)
    requires t.Valid() && t.Ready() && t.ptr == t.tail == 0 && !t.committed && t.kt.tc.TailPos() == Pos(0, 0)
    requires SlotSize(0) + SlotSize(0) <= t.replay.Length
    modifies t, t.replay, t.kt, t.kt.tc`ptr, t.kt.tc`tail, t.kt.tc.cache, t.kt.tailStack
    ensures var m := old(t.kt.mem);
            t.Open(TwoCallsOn(m), 1) && t.Bypassing(TwoCallsOn(m), 1) && t.View().mem == m[0 := m[0] + 1]
  {
    hide EvalTx, Inc, SlotSize, Due, Eval, Undo, Wf, Entered, UserRun.Wf, UserRun.State, UserRun.Off, UserRun.Results;
    hide TwoCalls, NoOp, SyscallTask.View, UserTxInfo.View, PosOf;
    ghost var m := t.kt.mem;
    ghost var r := TwoCallsOn(m);
    TwoCallsWithoutFailures(m, t.kt.tc.cache.Length, t.replay.Length);
    NoCallsYet(m);
    t.Fresh(r);
    var pw, ret, k, safe := t.DoSyscall(NoOp(), Mains, r, 0, 0);
    FirstTransaction(t, m);
    CrashAtTop(t, r);
  }

  /** Recover, and restart the pointer. */
  method CrashAtTop(t: SyscallTask, ghost r: UserRun)
    requires t.Open(r, 1) && t.AtCall(r, 1) && 0 < t.ptr == t.tail && t.View().tail.id > 0
    requires r.Wf(t.kt.tc.cache.Length, t.replay.Length)
    modifies t`ptr, t`tail, t.kt`mem, t.kt`journal, t.kt`stackTop, t.kt.tc`tail
    ensures t.Open(r, 1) && t.Bypassing(r, 1) && t.View() == old(t.View())
  {
    hide Due, Entered, UserRun.Wf, UserRun.State, UserRun.Off, SyscallTask.View, UserTxInfo.View;
    var pw := t.Recover(Mains, r, 1);
    t.ptr := 0;
  }

  lemma NoCallsYet(m: Mem)
    ensures var r := TwoCallsOn(m); r.b(r.Results(0)) == Call(NoOp()) && r.Off(0) == 0 < r.Off(1) && r.Kernel(1) == m
  {
    FirstIsNoOp(m);
  }

  /** To the recovery after that, the state is the one in which the first call has just ended on a memory where
      location 0 is one larger. */
  lemma LooksEnded(t: SyscallTask, m: Mem, n: Mem)
    requires t.Open(TwoCallsOn(m), 1) && t.Bypassing(TwoCallsOn(m), 1) && t.View().mem == n
    ensures t.Open(TwoCallsOn(n), 1) && t.JustEnded(TwoCallsOn(n), 1)
  {
    hide Due, SlotSize;
    FirstIsNoOp(m);
    FirstIsNoOp(n);
    assert Entered(t.replay[..], TwoCallsOn(n), 1);
  }

  /** The run that `safe` excludes: the recovery takes the pointer behind the tail for a call that has just ended and
      forgets the transaction made, which is made again. Location 0 grows by three. */
  method BypassingCrashRunsTwice(t: SyscallTask) returns (res: Bytes)
    requires t.Valid() && t.Ready() && t.ptr == t.tail == 0 && !t.committed && t.kt.tc.TailPos() == Pos(0, 0)
    requires SlotSize(0) + SlotSize(0) <= t.replay.Length
    modifies t, t.replay, t.kt, t.kt.tc`ptr, t.kt.tc`tail, t.kt.tc.cache, t.kt.tailStack
    ensures t.View().mem[0] == old(t.kt.mem[0]) + 3
    ensures TwoCallsOn(old(t.kt.mem)).Kernel(2)[0] == old(t.kt.mem[0]) + 2
  {
    hide EvalTx, Inc, SlotSize, Due, Eval, Undo, Wf, Entered, UserRun.Wf, UserRun.State, UserRun.Off, UserRun.Results;
    hide TwoCalls, NoOp, SyscallTask.View, UserTxInfo.View, PosOf, SyscallTask.Bypassing;
    ghost var m := t.kt.mem;
    CrashWhileBypassing(t);
    ghost var n := m[0 := m[0] + 1];
    TwoCallsWithoutFailures(m, t.kt.tc.cache.Length, t.replay.Length);
    TwoCallsWithoutFailures(n, t.kt.tc.cache.Length, t.replay.Length);
    LooksEnded(t, m, n);
    ghost var k;
    var pw, safe;
    pw, res, k, safe := t.Boot(TwoCalls(), Mains, TwoCallsOn(n), 1);
  }

  lemma IncIsLogged()
    ensures IsRestartable(Inc(), 0)
  {
    forall m: Mem, env: Env
      ensures |Inc()(m, env).result| == 0 && WellLogged(Inc()(m, env).steps)
    {
      assert Inc()(m, env).steps[..1][0] == Log(0);
    }
    LoggedIsRestartable(Inc(), 0);
  }

  lemma IncAddsOne(m: Mem, env: Env)
    ensures EvalTx(Inc(), m, env) == (m[0 := m[0] + 1], env + [Result([])])
    ensures Inc()(m, env).result == []
  {
    var steps := [Log(0), Store(0, m[0] + 1)];
    assert steps[..1] == [Log(0)] && steps[..1][..0] == [];
    assert Apply(steps[..1], m) == m;
  }
}
