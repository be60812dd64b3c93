/** `UserTxInfo` and the replay protocol: transactions, persistent loops, recovery and re-execution. */
module UserTxs {
  import opened PowerSupply
  import opened TxPrograms
  import opened TxWord
  import opened TxCaching
  import opened ReplaySpec
  import opened ProgramMeaning

  class UserTxInfo {
    var mem: Mem                     // the persistent objects of the task
    var ctr: map<Counter, nat>       // its persistent loop counters
    var journal: seq<Rec>
    const tc: TxCache
    const tailStack: array<Word>     // positions of the loops entered
    var stackTop: nat
    var loopCtr: Counter             // `loop_cnt_ptr`, `loop_cnt_log` and `step`: the increment to make
    var loopLog: nat
    var loopStep: nat

    constructor (m: Mem, counters: map<Counter, nat>, space: nat)
      requires space < CACHE_LIMIT
      ensures Valid() && fresh(tc) && fresh(tc.cache) && fresh(tailStack)
      ensures mem == m && Quiet() && tc.PtrPos() == Pos(0, 0) && tc.TailPos() == Pos(0, 0) && stackTop == 0
      ensures tc.cache.Length == space && tailStack.Length == 8
    {
      mem, ctr, journal := m, counters, [];
      tc := new TxCache(space);
      tailStack := new Word[8](_ => 0);
      stackTop, loopCtr, loopLog, loopStep := 0, 0, 0, 0;
    }

    ghost predicate Valid() {
      tc.Valid()
    }

    /** No transaction is open and the replay pointer is not ahead. */
    ghost predicate Quiet()
      reads this`journal, tc`ptr, tc`tail
    {
      journal == [] && tc.PtrPos().id <= tc.TailPos().id
    }

    /** The persistent state as it is once recovery is through. */
    ghost function View(): Nv
      reads this`mem, this`ctr, this`journal, this`loopCtr, this`loopLog, this`loopStep, tc`ptr, tc`tail, tc.cache
    {
      Nv(if tc.Committed() then mem else Undo(journal, mem),
         if tc.PtrPos().id > tc.TailPos().id then ctr[loopCtr := loopLog + loopStep] else ctr,
         tc.cache[..], tc.TailPos())
    }

    // ---------- one transaction ----------

    /** The body of a logged transaction, cut before any of its stores. */
    method RunSteps(steps: seq<Step>, pw0: Power, ghost m: Mem) returns (pw: Power, ghost n: nat)
      requires !pw0.Off? && mem == m && journal == []
      modifies this`mem, this`journal
      ensures pw0.Mains? ==> pw.Mains?
      ensures n <= |steps| && Undo(journal, mem) == RolledBack(steps[..n], m) && journal == JournalOf(steps[..n], m)
      ensures pw0.Failing? ==> n == if pw0.stores < |steps| then pw0.stores else |steps|
      ensures !pw.Off? ==> n == |steps| && mem == Apply(steps, m)
      ensures pw0.Failing? ==> pw == if pw0.stores < |steps| then Off else Failing(pw0.stores - |steps|)
    {
      hide Undo;
      pw, n := pw0, 0;
      for i := 0 to |steps|
        invariant !pw.Off? && (pw0.Mains? ==> pw.Mains?)
        invariant pw0.Failing? ==> i <= pw0.stores && pw == Failing(pw0.stores - i)
        invariant n == i && mem == Apply(steps[..i], m) && journal == JournalOf(steps[..i], m)
      {
        pw := pw.Tick();
        if pw.Off? { return; }
        assert steps[..i + 1][..i] == steps[..i];
        match steps[i] {
          case Log(a) => journal := journal + [Rec(a, mem[a])];
          case Store(a, v) => mem := mem[a := v];
        }
        n := i + 1;
      }
      assert steps[..|steps|] == steps;
    }

    /** Begin and run the body: until the commit, a reboot sees a memory on which the body does the same. */
    method OpenTx(size: nat, f: Closure, env: Env, pw0: Power, ghost m: Mem) returns (pw: Power, res: seq<Byte>)
      requires !pw0.Off? && IsRestartable(f, size) && journal == [] && EvalTx(f, mem, env) == EvalTx(f, m, env)
      modifies this`mem, this`journal, tc`tail
      ensures pw0.Mains? ==> pw.Mains?
      ensures tc.TailPos() == old(tc.TailPos())
      ensures tc.Committed() ==> pw.Off? && mem == old(mem)
      ensures EvalTx(f, Undo(journal, mem), env) == EvalTx(f, m, env)
      ensures res == f(m, env).result && |res| == size
      ensures !pw.Off? ==> mem == EvalTx(f, m, env).0
    {
      hide Undo, Apply;
      var effect := f(mem, env);
      ghost var start := mem;
      res := effect.result;
      SameResult(f, size, start, m, env);
      NothingToUndo(mem);
      pw := pw0.Tick();
      if pw.Off? { return; }
      tc.ClearCommitFlag();
      ghost var n;
      pw, n := RunSteps(effect.steps, pw, mem);
      assert EvalTx(f, Undo(journal, mem), env) == EvalTx(f, start, env) by {
        assert f(start, env).steps[..n] == effect.steps[..n];
      }
    }

    lemma NothingToUndo(m: Mem)
      ensures Undo([], m) == m
    {
    }

    /** Commit: the result is cached, then the journal is cleared. */
    method CommitTx(res: seq<Byte>, pw0: Power) returns (pw: Power)
      requires !pw0.Off? && Valid() && !tc.Committed() && tc.PtrPos() == tc.TailPos()
      requires tc.TailPos().id < MAX_ID && tc.TailPos().off + |res| <= tc.cache.Length
      modifies this`journal, tc`ptr, tc`tail, tc.cache
      ensures pw0.Mains? ==> pw.Mains?
      ensures tc.cache[..old(tc.TailPos().off)] == old(tc.cache[..tc.TailPos().off])
      ensures
        var t := old(tc.TailPos());
        || (pw.Off? && !tc.Committed() && tc.TailPos() == t && tc.PtrPos() == t && journal == old(journal))
        || (tc.Committed() && tc.TailPos() == Pos(t.off + |res|, t.id + 1) && tc.cache[t.off..t.off + |res|] == res
            && (tc.PtrPos() == t || tc.PtrPos() == tc.TailPos()))
      ensures !pw.Off? ==> tc.Committed() && tc.PtrPos() == tc.TailPos() && journal == []
    {
      pw := tc.CacheResult(res, pw0);
      if pw.Off? { return; }
      pw := pw.Tick();
      if pw.Off? { return; }
      journal := [];
    }

    /** `Transaction::run` where the replay has caught up. */
    method RunTx(size: nat, f: Closure, env: Env, pw0: Power, ghost q: Pos, ghost m: Mem) returns (pw: Power, env': Env)
      requires !pw0.Off? && Valid() && Quiet() && tc.PtrPos() == q && tc.TailPos() == q
      requires IsRestartable(f, size) && q.id < MAX_ID && q.off + size <= tc.cache.Length
      requires EvalTx(f, mem, env) == EvalTx(f, m, env)
      modifies this`mem, this`journal, tc`ptr, tc`tail, tc.cache
      ensures pw0.Mains? ==> pw.Mains?
      ensures Resume(Run(size, f), q, env, m, View()) && Kept(Run(size, f), q, old(View()), View())
      ensures !pw.Off? ==> Quiet() && tc.PtrPos() == Pos(q.off + size, q.id + 1)
      ensures !pw.Off? ==> Completed(Run(size, f), q, env, m, View()) && env' == EvalTx(f, m, env).1
    {
      hide IsRestartable, Apply, Undo;
      var res;
      pw, res := OpenTx(size, f, env, pw0, m);
      env' := env + [Result(res)];
      if pw.Off? { return; }
      pw := CommitTx(res, pw);
    }

    /** The body of a transaction without logging. */
    method FastSteps(steps: seq<Step>, pw0: Power, ghost m: Mem) returns (pw: Power, ghost n: nat)
      requires !pw0.Off? && mem == m
      modifies this`mem
      ensures pw0.Mains? ==> pw.Mains?
      ensures n <= |steps| && mem == Apply(steps[..n], m)
      ensures !pw.Off? ==> n == |steps|
    {
      pw, n := pw0, 0;
      for i := 0 to |steps|
        invariant !pw.Off? && (pw0.Mains? ==> pw.Mains?)
        invariant n == i && mem == Apply(steps[..i], m)
      {
        pw := pw.Tick();
        if pw.Off? { return; }
        assert steps[..i + 1][..i] == steps[..i];
        mem := StepOf(steps[i], mem);
        n := i + 1;
      }
    }

    /** Begin and run the body of an idempotent closure. */
    method OpenFast(size: nat, f: Closure, env: Env, pw0: Power, ghost m: Mem) returns (pw: Power, res: seq<Byte>)
      requires !pw0.Off? && IsIdempotent(f, size) && EvalTx(f, mem, env) == EvalTx(f, m, env)
      modifies this`mem, tc`tail
      ensures pw0.Mains? ==> pw.Mains?
      ensures tc.TailPos() == old(tc.TailPos())
      ensures EvalTx(f, mem, env) == EvalTx(f, m, env)
      ensures res == f(m, env).result && |res| == size
      ensures !pw.Off? ==> mem == EvalTx(f, m, env).0
    {
      var effect := f(mem, env);
      ghost var start := mem;
      res := effect.result;
      assert effect.steps[..|effect.steps|] == effect.steps;
      SameResult(f, size, start, m, env);
      pw := pw0.Tick();
      if pw.Off? { return; }
      tc.ClearCommitFlag();
      ghost var n;
      pw, n := FastSteps(effect.steps, pw, mem);
      assert EvalTx(f, mem, env) == EvalTx(f, start, env) by {
        assert f(start, env).steps[..n] == effect.steps[..n];
      }
    }

    /** `Transaction::fast_run`: the journal is not used. */
    method FastTx(size: nat, f: Closure, env: Env, pw0: Power, ghost q: Pos, ghost m: Mem) returns (pw: Power, env': Env)
      requires !pw0.Off? && Valid() && Quiet() && tc.PtrPos() == q && tc.TailPos() == q
      requires IsIdempotent(f, size) && q.id < MAX_ID && q.off + size <= tc.cache.Length
      requires EvalTx(f, mem, env) == EvalTx(f, m, env)
      modifies this`mem, tc`ptr, tc`tail, tc.cache
      ensures pw0.Mains? ==> pw.Mains?
      ensures Resume(FastRun(size, f), q, env, m, View()) && Kept(FastRun(size, f), q, old(View()), View())
      ensures !pw.Off? ==> Quiet() && tc.PtrPos() == Pos(q.off + size, q.id + 1)
      ensures !pw.Off? ==> Completed(FastRun(size, f), q, env, m, View()) && env' == EvalTx(f, m, env).1
    {
      hide IsIdempotent, Apply;
      var res;
      pw, res := OpenFast(size, f, env, pw0, m);
      env' := env + [Result(res)];
      if pw.Off? { return; }
      pw := tc.CacheResult(res, pw);
    }

    lemma SameResult(f: Closure, size: nat, m0: Mem, m: Mem, env: Env)
      requires EvalTx(f, m0, env) == EvalTx(f, m, env)
      ensures f(m0, env).result == f(m, env).result
      ensures Apply(f(m0, env).steps, m0) == Apply(f(m, env).steps, m)
    {
      assert EvalTx(f, m0, env).1[|env|] == EvalTx(f, m, env).1[|env|];
    }

    /** The first transaction of a loop: `fast_run` of the store that sets the counter. */
    method SetCounter(c: Counter, begin: nat, pw0: Power) returns (pw: Power)
      requires !pw0.Off? && Valid() && Quiet() && tc.PtrPos() == tc.TailPos() && tc.TailPos().id < MAX_ID
      requires tc.TailPos().off <= tc.cache.Length
      modifies this`ctr, tc`ptr, tc`tail, tc.cache
      ensures pw0.Mains? ==> pw.Mains?
      ensures tc.cache[..old(tc.TailPos().off)] == old(tc.cache[..tc.TailPos().off])
      ensures ctr == old(ctr) || ctr == old(ctr)[c := begin]
      ensures
        var t := old(tc.TailPos());
        || (pw.Off? && tc.TailPos() == t && tc.PtrPos() == t)
        || (tc.TailPos() == Pos(t.off, t.id + 1) && ctr == old(ctr)[c := begin]
            && (if pw.Off? then tc.PtrPos() == t else tc.PtrPos() == tc.TailPos()))
      ensures !pw.Off? ==> tc.PtrPos() == tc.TailPos()
    {
      pw := pw0.Tick();
      if pw.Off? { return; }
      tc.ClearCommitFlag();
      pw := pw.Tick();
      if pw.Off? { return; }
      ctr := ctr[c := begin];
      pw := tc.CacheResult([], pw);
    }

    // ---------- running or replaying a program ----------

    /** The replay stands at `q`, before `p`. */
    ghost predicate At(p: Prog, q: Pos, env: Env, m: Mem)
      reads this`mem, this`ctr, this`journal, this`loopCtr, this`loopLog, this`loopStep, tc`ptr, tc`tail, tc.cache
    {
      && Valid() && Quiet() && tc.PtrPos() == q
      && Steps(p) && Wf(p) && Fits(p, q, tc.cache.Length) && q.off <= tc.cache.Length
      && Ahead(p, q, env, m, View())
    }

    lemma ViewWhenQuiet()
      requires Quiet()
      ensures View() == Nv(mem, ctr, tc.cache[..], tc.TailPos())
    {
    }

    /** `run`: replay the result if it is cached, otherwise run. */
    method ExecRun(p: Prog, env: Env, pw0: Power, ghost q: Pos, ghost m: Mem) returns (pw: Power, env': Env)
      requires !pw0.Off? && p.Run? && At(p, q, env, m)
      modifies this`mem, this`journal, tc`ptr, tc`tail, tc.cache
      ensures pw0.Mains? ==> pw.Mains?
      ensures Moved(p, q, env, m, old(View()), View())
      ensures !pw.Off? ==> Quiet() && tc.PtrPos() == After(p, q) && Finished(p, q, env, m, old(View()), View())
      ensures !pw.Off? ==> env' == Eval(p, m, env).1
    {
      hide IsRestartable, IsIdempotent, Done, Resume, Completed, EvalTx, Undo, View;
      ViewWhenQuiet();
      TxStage(p, q, env, m, View());
      if View().tail.id > q.id {
        ReplayedResult(p, q, env, m, View());
      }
      var hit, res;
      pw, hit, res := tc.TryRetrieveResult(p.size, pw0);
      env' := env + [Result(res)];
      if hit {
        ViewWhenQuiet();
      } else {
        pw, env' := RunTx(p.size, p.f, env, pw, q, m);
      }
    }

    /** `fast_run`: replay the result if it is cached, otherwise run. */
    method ExecFast(p: Prog, env: Env, pw0: Power, ghost q: Pos, ghost m: Mem) returns (pw: Power, env': Env)
      requires !pw0.Off? && p.FastRun? && At(p, q, env, m)
      modifies this`mem, tc`ptr, tc`tail, tc.cache
      ensures pw0.Mains? ==> pw.Mains?
      ensures Moved(p, q, env, m, old(View()), View())
      ensures !pw.Off? ==> Quiet() && tc.PtrPos() == After(p, q) && Finished(p, q, env, m, old(View()), View())
      ensures !pw.Off? ==> env' == Eval(p, m, env).1
    {
      hide IsRestartable, IsIdempotent, Done, Resume, Completed, EvalTx, Undo, View;
      ViewWhenQuiet();
      TxStage(p, q, env, m, View());
      if View().tail.id > q.id {
        ReplayedResult(p, q, env, m, View());
      }
      var hit, res;
      pw, hit, res := tc.TryRetrieveResult(p.size, pw0);
      env' := env + [Result(res)];
      if hit {
        ViewWhenQuiet();
      } else {
        pw, env' := FastTx(p.size, p.f, env, pw, q, m);
      }
    }

    // ---------- persistent loops ----------

    /** `enter_idempotent_loop`: remember where the iteration starts. */
    method EnterLoop(pw0: Power) returns (pw: Power)
      requires !pw0.Off? && stackTop < tailStack.Length
      modifies this`stackTop, tailStack
      ensures pw0.Mains? ==> pw.Mains?
      ensures !pw.Off? ==> stackTop == old(stackTop) + 1
      ensures !pw.Off? ==> tailStack[..old(stackTop)] == old(tailStack[..stackTop])
      ensures !pw.Off? ==> PosOf(tailStack[stackTop - 1]) == tc.PtrPos() && IsCommitted(tailStack[stackTop - 1])
    {
      CommitKeepsPos(tc.ptr);
      pw := pw0.Tick();
      if pw.Off? { return; }
      tailStack[stackTop] := SetCommitted(tc.ptr);
      pw := pw.Tick();
      if pw.Off? { return; }
      stackTop := stackTop + 1;
    }

    /** `log_loop_cnt`: the increment is prepared while the pointer is not ahead, so none is pending yet. */
    method LogLoopCnt(c: Counter, cnt: nat, step: nat, pw0: Power) returns (pw: Power)
      requires !pw0.Off? && Quiet()
      modifies this`loopCtr, this`loopLog, this`loopStep
      ensures pw0.Mains? ==> pw.Mains?
      ensures View() == old(View())
      ensures !pw.Off? ==> loopCtr == c && loopLog == cnt && loopStep == step
    {
      pw := pw0.Tick();
      if pw.Off? { return; }
      loopCtr := c;
      pw := pw.Tick();
      if pw.Off? { return; }
      loopLog := cnt;
      pw := pw.Tick();
      if pw.Off? { return; }
      loopStep := step;
    }

    /** `exit_idempotent_loop`. The store to the tail is the switch-over point: while the pointer is ahead of it,
        the increment is pending. If the iteration committed nothing, the increment itself is. */
    method ExitLoop(pw0: Power) returns (pw: Power)
      requires !pw0.Off? && Quiet() && tc.PtrPos() == tc.TailPos() && 0 < stackTop <= tailStack.Length
      requires IsCommitted(tailStack[stackTop - 1])
      requires PosOf(tailStack[stackTop - 1]).id <= tc.PtrPos().id
      modifies this`ctr, this`stackTop, tc`ptr, tc`tail
      ensures pw0.Mains? ==> pw.Mains?
      ensures
        var v0, top := old(View()), PosOf(tailStack[old(stackTop) - 1]);
        || (pw.Off? && View() == v0)
        || (pw.Off? && View() == v0.(tail := top) && top.id == v0.tail.id)
        || View() == v0.(tail := top, ctr := v0.ctr[loopCtr := loopLog + loopStep])
      ensures !pw.Off? ==>
        var v0, top := old(View()), PosOf(tailStack[old(stackTop) - 1]);
        && View() == v0.(tail := top, ctr := v0.ctr[loopCtr := loopLog + loopStep])
        && Quiet() && tc.PtrPos() == top && stackTop == old(stackTop) - 1
    {
      hide Undo, PosOf, IsCommitted;
      ViewWhenQuiet();
      var oldTail := tailStack[stackTop - 1];
      pw := pw0.Tick();
      if pw.Off? { return; }
      tc.tail := oldTail;
      pw := pw.Tick();
      if pw.Off? { return; }
      ctr := ctr[loopCtr := loopLog + loopStep];
      assert ctr[loopCtr := loopLog + loopStep] == ctr;
      pw := pw.Tick();
      if pw.Off? { return; }
      tc.ptr := oldTail;
      pw := pw.Tick();
      if pw.Off? { return; }
      stackTop := stackTop - 1;
    }

    /** The end of an iteration: prepare the increment, then make it. */
    method EndIteration(c: Counter, cnt: nat, step: nat, pw0: Power) returns (pw: Power)
      requires !pw0.Off? && Quiet() && tc.PtrPos() == tc.TailPos() && 0 < stackTop <= tailStack.Length
      requires IsCommitted(tailStack[stackTop - 1])
      requires PosOf(tailStack[stackTop - 1]).id <= tc.PtrPos().id
      modifies this`ctr, this`loopCtr, this`loopLog, this`loopStep, this`stackTop, tc`ptr, tc`tail
      ensures pw0.Mains? ==> pw.Mains?
      ensures
        var v0, top := old(View()), PosOf(tailStack[old(stackTop) - 1]);
        || (pw.Off? && View() == v0)
        || (pw.Off? && View() == v0.(tail := top) && top.id == v0.tail.id)
        || View() == v0.(tail := top, ctr := v0.ctr[c := cnt + step])
      ensures !pw.Off? ==>
        var v0, top := old(View()), PosOf(tailStack[old(stackTop) - 1]);
        && View() == v0.(tail := top, ctr := v0.ctr[c := cnt + step])
        && Quiet() && tc.PtrPos() == top && stackTop == old(stackTop) - 1
    {
      hide View, PosOf, IsCommitted;
      pw := LogLoopCnt(c, cnt, step, pw0);
      if pw.Off? { return; }
      pw := ExitLoop(pw);
    }

    /** Top of an iteration. */
    ghost predicate AtIteration(p: Prog, q: Pos, env: Env, m: Mem, mk: Mem)
      reads this`mem, this`ctr, this`journal, this`loopCtr, this`loopLog, this`loopStep, tc`ptr, tc`tail, tc.cache
    {
      && p.For? && Valid() && Quiet() && tc.PtrPos() == Top(q)
      && Steps(p) && Wf(p) && Fits(p, q, tc.cache.Length) && q.off <= tc.cache.Length
      && InLoop(p, q, env, m, View(), mk)
    }

    ghost predicate StackKept(top: nat, stack: seq<Word>)
      reads this`stackTop, tailStack
    {
      stackTop == top && top <= tailStack.Length && tailStack[..top] == stack
    }

    /** Enter the iteration and run or replay its body. */
    method RunBody(p: Prog, env: Env, pw0: Power, ghost q: Pos, ghost m: Mem, ghost mk: Mem) returns (pw: Power)
      requires !pw0.Off? && AtIteration(p, q, env, m, mk)
      requires p.c in ctr && ctr[p.c] < p.end(env)
      requires stackTop + Depth(p) <= tailStack.Length
      modifies this, tc`ptr, tc`tail, tc.cache, tailStack
      ensures pw0.Mains? ==> pw.Mains?
      ensures InLoop(p, q, env, m, View(), mk) && Kept(p, q, old(View()), View())
      ensures !pw.Off? ==> Quiet() && tc.PtrPos() == tc.TailPos() == After(p.body, Top(q))
      ensures !pw.Off? ==> p.c in ctr && ctr[p.c] == old(ctr[p.c])
      ensures !pw.Off? ==> Completed(p.body, Top(q), env + [Count(ctr[p.c])], mk, View())
      ensures !pw.Off? ==> StackKept(old(stackTop) + 1, old(tailStack[..stackTop]) + [tailStack[old(stackTop)]])
      ensures !pw.Off? ==> PosOf(tailStack[old(stackTop)]) == Top(q) && IsCommitted(tailStack[old(stackTop)])
      decreases p, 0
    {
      hide InLoop, Kept, Resume, Done, Moved, Finished, Completed, View, Wf, Fits, Depth, After, Eval, EvalLoop, Undo;
      hide PosOf, IsCommitted, SetCommitted, ClearCommitted, TxId, CachePtr;
      ghost var v0, stack := View(), tailStack[..stackTop];
      ViewWhenQuiet();
      IterStart(p, q, env, m, v0, mk, tc.cache.Length);
      KeptRefl(p, q, v0);
      pw := EnterLoop(pw0);
      if pw.Off? { return; }
      var cnt := ctr[p.c];
      ghost var entry := tailStack[..stackTop];
      assert entry == stack + [tailStack[stackTop - 1]];
      var inner;
      pw, inner := Exec(p.body, env + [Count(cnt)], pw, Top(q), mk);
      IterInside(p, q, env, m, v0, View(), mk);
      if pw.Off? { return; }
      ResumedToTheEnd(p.body, Top(q), env + [Count(cnt)], mk, v0, View());
      ViewWhenQuiet();
    }

    /** One iteration. Cut anywhere, the loop can be resumed; otherwise the counter has stepped once and the memory
        is that of one crash-free run of the body. */
    method Iterate(p: Prog, env: Env, pw0: Power, ghost q: Pos, ghost m: Mem, ghost mk: Mem)
      returns (pw: Power, ghost mk': Mem)
      requires !pw0.Off? && AtIteration(p, q, env, m, mk)
      requires p.c in ctr && ctr[p.c] < p.end(env)
      requires stackTop + Depth(p) <= tailStack.Length
      modifies this, tc`ptr, tc`tail, tc.cache, tailStack
      ensures pw0.Mains? ==> pw.Mains?
      ensures InLoop(p, q, env, m, View(), mk') && Kept(p, q, old(View()), View())
      ensures !pw.Off? ==> AtIteration(p, q, env, m, mk') && StackKept(old(stackTop), old(tailStack[..stackTop]))
      ensures !pw.Off? ==> p.c in ctr && ctr[p.c] == old(ctr[p.c]) + p.step
      decreases p, 1
    {
      hide InLoop, Kept, Resume, Done, Completed, View, Wf, Fits, Depth, After, Eval, EvalLoop, Undo, Steps, Ahead;
      hide PosOf, IsCommitted, SetCommitted, ClearCommitted, TxId, CachePtr;
      ghost var v0 := View();
      ViewWhenQuiet();
      pw := RunBody(p, env, pw0, q, m, mk);
      mk' := mk;
      if pw.Off? { return; }
      ghost var v1 := View();
      ViewWhenQuiet();
      AfterGrows(p.body, Top(q));
      pw := EndIteration(p.c, ctr[p.c], p.step, pw);
      mk' := AfterExit(p, q, env, m, mk, v0, v1, View());
      if pw.Off? { return; }
      ViewWhenQuiet();
    }

    /** The three states an exit can be cut in, all of them inside the loop. */
    lemma AfterExit(p: Prog, q: Pos, env: Env, m: Mem, mk: Mem, v0: Nv, v1: Nv, v: Nv) returns (mk': Mem)
      requires p.For? && Steps(p) && Wf(p) && p.c in v0.ctr && p.c in v1.ctr
      requires InLoop(p, q, env, m, v0, mk) && v0.ctr[p.c] < p.end(env)
      requires InLoop(p, q, env, m, v1, mk) && Kept(p, q, v0, v1) && v1.ctr[p.c] == v0.ctr[p.c]
      requires Completed(p.body, Top(q), BodyEnv(p, env, v0), mk, v1)
      requires
        || v == v1
        || (v == v1.(tail := Top(q)) && Top(q).id == v1.tail.id)
        || v == v1.(tail := Top(q), ctr := v1.ctr[p.c := v1.ctr[p.c] + p.step])
      ensures InLoop(p, q, env, m, v, mk') && Kept(p, q, v0, v)
    {
      hide InLoop, Kept, Resume, Done, Wf, Fits, Depth, After, EvalLoop;
      mk' := mk;
      KeptAtEnd(p, q, v0, v1, v);
      if v == v1 {
      } else if v == v1.(tail := Top(q)) && Top(q).id == v1.tail.id {
        IterEndIdle(p, q, env, m, v0, v1, v, mk);
      } else {
        IterEnd(p, q, env, m, v0, v1, v, mk);
        mk' := Eval(p.body, mk, BodyEnv(p, env, v0)).0;
      }
    }

    /** The loop header: replay or run the transaction that sets the counter. */
    method ReachLoop(p: Prog, env: Env, pw0: Power, ghost q: Pos, ghost m: Mem) returns (pw: Power, ghost mk: Mem)
      requires !pw0.Off? && p.For? && At(p, q, env, m)
      modifies this`ctr, tc`ptr, tc`tail, tc.cache
      ensures pw0.Mains? ==> pw.Mains?
      ensures Moved(p, q, env, m, old(View()), View())
      ensures !pw.Off? ==> Quiet() && tc.PtrPos() == Top(q) && p.c in ctr
      ensures !pw.Off? && Resume(p, q, env, m, old(View())) ==> InLoop(p, q, env, m, View(), mk)
      ensures !pw.Off? && !Resume(p, q, env, m, old(View())) ==> ctr[p.c] >= p.end(env)
    {
      hide InLoop, Resume, Done, Completed, EvalLoop, Wf;
      ghost var v0 := View();
      ViewWhenQuiet();
      LoopStage(p, q, env, m, v0);
      KeptRefl(p, q, v0);
      mk := m;
      if tc.TailPos().id > q.id && Resume(p, q, env, m, v0) {
        mk :| InLoop(p, q, env, m, v0, mk);
        CounterOfLoop(p, q, env, m, v0, mk);
      }
      var hit, res;
      pw, hit, res := tc.TryRetrieveResult(0, pw0);
      if hit {
        ViewWhenQuiet();
      } else {
        pw := SetCounter(p.c, p.begin(env), pw);
        AfterSetting(p, q, env, m, v0, View());
      }
    }

    lemma CounterOfLoop(p: Prog, q: Pos, env: Env, m: Mem, v: Nv, mk: Mem)
      requires p.For? && Steps(p) && InLoop(p, q, env, m, v, mk)
      ensures p.c in v.ctr && v.tail.id >= q.id + 1
    {
    }

    /** Setting the counter before or after its commit keeps the loop resumable. */
    lemma AfterSetting(p: Prog, q: Pos, env: Env, m: Mem, v0: Nv, v: Nv)
      requires p.For? && Steps(p) && v0.tail == q && v0.mem == m && v.mem == m
      requires |v.bytes| == |v0.bytes| && q.off <= |v0.bytes| && v.bytes[..q.off] == v0.bytes[..q.off]
      requires v.ctr == v0.ctr || v.ctr == v0.ctr[p.c := p.begin(env)]
      requires v.tail == q || (v.tail == Top(q) && v.ctr == v0.ctr[p.c := p.begin(env)])
      ensures Moved(p, q, env, m, v0, v)
      ensures v.tail == Top(q) ==> InLoop(p, q, env, m, v, m)
    {
      if v.tail == Top(q) {
        LoopEntered(p, q, env, m, v);
        LoopResumes(p, q, env, m, v, m);
      } else {
        FreshResumes(p, q, env, m, v);
      }
      FreshResumes(p, q, env, m, v0);
    }

    /** `nv_for_loop!`. */
    method ExecFor(p: Prog, env: Env, pw0: Power, ghost q: Pos, ghost m: Mem) returns (pw: Power)
      requires !pw0.Off? && p.For? && At(p, q, env, m) && stackTop + Depth(p) <= tailStack.Length
      modifies this, tc`ptr, tc`tail, tc.cache, tailStack
      ensures pw0.Mains? ==> pw.Mains?
      ensures Moved(p, q, env, m, old(View()), View())
      ensures !pw.Off? ==> Quiet() && tc.PtrPos() == After(p, q) && Finished(p, q, env, m, old(View()), View())
      ensures !pw.Off? ==> StackKept(old(stackTop), old(tailStack[..stackTop]))
      decreases p, 2
    {
      hide InLoop, Resume, Done, Completed, Kept, EvalLoop, View, PosOf, Wf, Fits, Depth;
      ghost var v0 := View();
      ghost var active := Resume(p, q, env, m, v0);
      ghost var mk;
      pw, mk := ReachLoop(p, env, pw0, q, m);
      if pw.Off? { return; }
      while ctr[p.c] < p.end(env)
        invariant !pw.Off? && (pw0.Mains? ==> pw.Mains?)
        invariant p.c in ctr && Quiet() && tc.PtrPos() == Top(q) && StackKept(old(stackTop), old(tailStack[..stackTop]))
        invariant active ==> InLoop(p, q, env, m, View(), mk) && Kept(p, q, v0, View())
        invariant !active ==> View() == v0 && ctr[p.c] >= p.end(env)
        decreases p.end(env) - ctr[p.c]
      {
        ghost var v1 := View();
        pw, mk := Iterate(p, env, pw, q, m, mk);
        KeptTrans(p, q, v0, v1, View());
        if pw.Off? {
          LoopResumes(p, q, env, m, View(), mk);
          return;
        }
      }
      ViewWhenQuiet();
      if active {
        LoopOver(p, q, env, m, View(), mk);
        LoopResumes(p, q, env, m, View(), mk);
      }
    }

    /** Run or replay a sequence. */
    method ExecSeq(p: Prog, env: Env, pw0: Power, ghost q: Pos, ghost m: Mem) returns (pw: Power, env': Env)
      requires !pw0.Off? && p.Seq? && At(p, q, env, m) && stackTop + Depth(p) <= tailStack.Length
      modifies this, tc`ptr, tc`tail, tc.cache, tailStack
      ensures pw0.Mains? ==> pw.Mains?
      ensures Moved(p, q, env, m, old(View()), View())
      ensures !pw.Off? ==> Quiet() && tc.PtrPos() == After(p, q) && Finished(p, q, env, m, old(View()), View())
      ensures !pw.Off? ==> env' == Eval(p, m, env).1 && StackKept(old(stackTop), old(tailStack[..stackTop]))
      decreases p, 2
    {
      hide Resume, Done, Completed, Kept, View, PosOf, Moved, Finished, Ahead;
      ghost var v0 := View();
      ghost var (q1, env1, m1) := Mid(p, q, env, m);
      ViewWhenQuiet();
      SeqStart(p, q, env, m, v0);
      FitsAfter(p.first, q, tc.cache.Length);
      pw, env' := Exec(p.first, env, pw0, q, m);
      ghost var v1 := View();
      SeqInFirst(p, q, env, m, v0, v1);
      if pw.Off? { return; }
      ViewWhenQuiet();
      SeqMiddle(p, q, env, m, v0, v1);
      pw, env' := Exec(p.second, env', pw, q1, m1);
      SeqInSecond(p, q, env, m, v0, v1, View());
      if pw.Off? { return; }
      SeqEnd(p, q, env, m, v0, v1, View());
    }

    /** Run or replay a program. */
    method Exec(p: Prog, env: Env, pw0: Power, ghost q: Pos, ghost m: Mem) returns (pw: Power, env': Env)
      requires !pw0.Off? && At(p, q, env, m) && stackTop + Depth(p) <= tailStack.Length
      modifies this, tc`ptr, tc`tail, tc.cache, tailStack
      ensures pw0.Mains? ==> pw.Mains?
      ensures Moved(p, q, env, m, old(View()), View())
      ensures !pw.Off? ==> Quiet() && tc.PtrPos() == After(p, q) && Finished(p, q, env, m, old(View()), View())
      ensures !pw.Off? ==> env' == Eval(p, m, env).1 && StackKept(old(stackTop), old(tailStack[..stackTop]))
      decreases p, 3
    {
      hide Kept, View, Wf, Fits, Depth;
      match p
      case Skip =>
        ViewWhenQuiet();
        SkipDoesNothing(q, env, m, View());
        pw, env' := pw0, env;
      case Run(_, _) =>
        pw, env' := ExecRun(p, env, pw0, q, m);
      case FastRun(_, _) =>
        pw, env' := ExecFast(p, env, pw0, q, m);
      case Seq(_, _) =>
        pw, env' := ExecSeq(p, env, pw0, q, m);
      case For(_, _, _, _, _) =>
        pw := ExecFor(p, env, pw0, q, m);
        env' := env;
    }

    lemma SkipDoesNothing(q: Pos, env: Env, m: Mem, v: Nv)
      requires q.off <= |v.bytes|
      ensures Moved(Skip, q, env, m, v, v) && Finished(Skip, q, env, m, v, v)
    {
    }

    // ---------- reboot ----------

    /** `Journal::recover`: restore backwards; the log is dropped only at the end. */
    method RollBack(pw0: Power) returns (pw: Power)
      requires !pw0.Off?
      modifies this`mem, this`journal
      ensures pw0.Mains? ==> pw.Mains?
      ensures pw == pw0.After(old(|journal|) + 1)
      ensures Undo(journal, mem) == old(Undo(journal, mem))
      ensures journal == if pw.Off? then old(journal) else []
    {
      pw := pw0;
      ghost var target := Undo(journal, mem);
      var i := |journal|;
      assert journal[..i] == journal;
      while i > 0
        invariant 0 <= i <= |journal| && !pw.Off? && pw == pw0.After(|journal| - i)
        invariant journal == old(journal)
        invariant Undo(journal[..i], mem) == target && Undo(journal, mem) == target
      {
        pw := pw.Tick();
        if pw.Off? { return; }
        var last := journal[i - 1];
        assert journal[..i][..i - 1] == journal[..i - 1];
        UndoForgets(journal, mem, last.addr, last.saved);
        mem := mem[last.addr := last.saved];
        i := i - 1;
      }
      pw := pw.Tick();
      if pw.Off? { return; }
      journal := [];
    }

    /** `Transaction::roll_back_if_uncommitted`. */
    method SettleTx(pw0: Power) returns (pw: Power)
      requires !pw0.Off?
      modifies this`mem, this`journal
      ensures pw0.Mains? ==> pw.Mains?
      ensures pw == pw0.After(if tc.Committed() then 1 else old(|journal|) + 1)
      ensures View() == old(View())
      ensures journal == if pw.Off? then old(journal) else []
    {
      if tc.Committed() {
        pw := pw0.Tick();
        if pw.Off? { return; }
        journal := [];
      } else {
        pw := RollBack(pw0);
      }
    }

    /** The part of `jit_recovery` that concerns the user transaction: make a pending increment, settle the open
        transaction, restart the pointer and the stack. Cut anywhere, it leaves the same state to recover. */
    method Recover(pw0: Power) returns (pw: Power)
      requires !pw0.Off?
      modifies this, tc`ptr
      ensures pw0.Mains? ==> pw.Mains?
      ensures View() == old(View())
      ensures !pw.Off? ==> Quiet() && tc.PtrPos() == Pos(0, 0) && stackTop == 0
    {
      hide Undo;
      pw := pw0;
      if TxId(tc.ptr) > TxId(tc.tail) {
        pw := pw.Tick();
        if pw.Off? { return; }
        ctr := ctr[loopCtr := loopLog + loopStep];
        assert ctr[loopCtr := loopLog + loopStep] == ctr;
      }
      pw := SettleTx(pw);
      if pw.Off? { return; }
      pw := pw.Tick();
      if pw.Off? { return; }
      tc.ResetPtr();
      pw := pw.Tick();
      if pw.Off? { return; }
      stackTop := 0;
    }

    /** A task that runs program `p` from the top after every reboot. */
    ghost predicate Task(p: Prog) {
      Valid() && Steps(p) && Wf(p) && Fits(p, Pos(0, 0), tc.cache.Length) && Depth(p) <= tailStack.Length
    }

    /** One reboot: recover and run again from the top. */
    method Reboot(p: Prog, pw0: Power, ghost m: Mem) returns (pw: Power, env: Env)
      requires !pw0.Off? && Task(p) && Resume(p, Pos(0, 0), [], m, View())
      modifies this, tc`ptr, tc`tail, tc.cache, tailStack
      ensures pw0.Mains? ==> pw.Mains?
      ensures Resume(p, Pos(0, 0), [], m, View())
      ensures !pw.Off? ==> mem == Eval(p, m, []).0 && env == Eval(p, m, []).1
    {
      hide Resume, Done, View, Wf, Fits, Depth, Steps, Kept, EvalLoop;
      env := [];
      pw := Recover(pw0);
      if pw.Off? { return; }
      pw, env := Exec(p, [], pw, Pos(0, 0), m);
      if pw.Off? { return; }
      ViewWhenQuiet();
    }

    /** Any program of transactions, sequences and nested loops, cut by any number of power failures before any
        of its stores or of the stores of its recovery, ends with the memory and the values of the run without
        failures: every transaction of every iteration takes effect exactly once. */
    method RunUnderFailures(p: Prog, supplies: seq<Power>) returns (env: Env)
      requires Task(p) && Quiet() && tc.PtrPos() == Pos(0, 0) && tc.TailPos() == Pos(0, 0)
      requires forall r :: 0 <= r < |supplies| ==> !supplies[r].Off?
      modifies this, tc`ptr, tc`tail, tc.cache, tailStack
      ensures mem == Eval(p, old(mem), []).0
      ensures env == Eval(p, old(mem), []).1
      ensures Perform(Acts(p, old(mem), []), State(old(mem), [], [])) == State(mem, env, [])
      ensures Adds([], env, Outside(p))
    {
      hide Resume, View, Wf, Fits, Depth, Steps, Acts, Perform, Adds, Outside;
      ghost var m := mem;
      ViewWhenQuiet();
      StepsOfTask(p);
      FreshResumes(p, Pos(0, 0), [], m, View());
      var pw;
      pw, env := Reboot(p, if supplies == [] then Mains else supplies[0], m);
      var r := 1;
      while pw.Off?
        invariant 1 <= r
        invariant r > |supplies| ==> !pw.Off?
        invariant Resume(p, Pos(0, 0), [], m, View())
        invariant !pw.Off? ==> mem == Eval(p, m, []).0 && env == Eval(p, m, []).1
        decreases |supplies| + 1 - r
      {
        pw, env := Reboot(p, if r < |supplies| then supplies[r] else Mains, m);
        r := r + 1;
      }
      MeaningIsActs(p, m, [], []);
      ResultsOutside(p, m, []);
    }

    lemma StepsOfTask(p: Prog)
      requires Task(p)
      ensures Steps(p)
    {
    }
  }
}
