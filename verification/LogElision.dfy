/** Which undo records a transaction may leave out: rollback then does not restore everything, and running the
    body again still ends as if the power had never failed. */
module LogElision {
  import opened TxPrograms

  /** One access to a persistent location. */
  datatype Access = Reads(a: int) | Logs(a: int) | Writes(a: int)

  /** What a body does next, given its local variables and the values it has read so far. */
  datatype Action = Read(addr: int) | Do(step: Step) | Return(result: seq<Byte>)
  type Body = (Env, seq<int>) -> Action

  /** A body after some of its actions: what it has seen, one entry an action, and what it has done. */
  datatype Progress = Progress(seen: seq<int>, steps: seq<Step>, acts: seq<Access>)

  function Next(s: Progress, act: Action, m: Mem): Progress {
    match act
    case Read(a) => Progress(s.seen + [Apply(s.steps, m)[a]], s.steps, s.acts + [Reads(a)])
    case Do(Log(a)) => Progress(s.seen + [0], s.steps + [Log(a)], s.acts + [Logs(a)])
    case Do(Store(a, v)) => Progress(s.seen + [0], s.steps + [Store(a, v)], s.acts + [Writes(a)])
    case Return(_) => s
  }

  function RunFor(b: Body, env: Env, m: Mem, k: nat): Progress {
    if k == 0 then Progress([], [], [])
    else var s := RunFor(b, env, m, k - 1); Next(s, b(env, s.seen), m)
  }

  /** A body sees what it has stored last, and what memory held where it has stored nothing. */
  lemma ReadSees(s: Progress, a: int, m: Mem)
    ensures var t := Next(s, Read(a), m);
            && |t.seen| == |s.seen| + 1 && t.seen[..|s.seen|] == s.seen && t.steps == s.steps
            && (forall k :: EndsAs(s.steps, k, a, t.seen[|s.seen|]))
            && (NeverStored(s.steps, a) ==> t.seen[|s.seen|] == m[a])
  {
    hide EndsAs, NeverStored, Apply;
    StoresAreThere(s.steps, m);
  }

  function ResultOf(act: Action): seq<Byte> {
    if act.Return? then act.result else []
  }

  /** The transaction closure that a body of at most `n` actions is. */
  function ClosureOf(b: Body, n: nat): Closure {
    (m: Mem, env: Env) => Effect(RunFor(b, env, m, n).steps, ResultOf(b(env, RunFor(b, env, m, n).seen)))
  }

  ghost predicate Returns(b: Body, n: nat, size: nat) {
    forall m: Mem, env: Env {:trigger RunFor(b, env, m, n)} ::
      var act := b(env, RunFor(b, env, m, n).seen); act.Return? && |act.result| == size
  }

  /** The closure does what the body does, action by action, and hands back what it returns. */
  lemma ClosureDoes(b: Body, n: nat, m: Mem, env: Env, k: nat)
    requires k < n
    ensures var act, s, t := b(env, RunFor(b, env, m, k).seen), RunFor(b, env, m, k), RunFor(b, env, m, k + 1);
            && (act.Do? ==> t.steps == s.steps + [act.step])
            && (!act.Do? ==> t.steps == s.steps)
            && (act.Return? ==> t == s)
    ensures ClosureOf(b, n)(m, env).steps == RunFor(b, env, m, n).steps
    ensures var act := b(env, RunFor(b, env, m, n).seen); act.Return? ==> ClosureOf(b, n)(m, env).result == act.result
  {
  }

  // ---------- the discipline ----------

  function Touched(acts: seq<Access>): set<int> {
    if acts == [] then {} else Touched(acts[..|acts| - 1]) + {acts[|acts| - 1].a}
  }

  function Logged(acts: seq<Access>): set<int> {
    if acts == [] then {}
    else Logged(acts[..|acts| - 1]) + if acts[|acts| - 1].Logs? then {acts[|acts| - 1].a} else {}
  }

  /** Locations whose first access is a store. */
  function Defined(acts: seq<Access>): set<int> {
    if acts == [] then {}
    else
      var init, last := acts[..|acts| - 1], acts[|acts| - 1];
      Defined(init) + if last.Writes? && last.a !in Touched(init) then {last.a} else {}
  }

  /** A store is to a location stored to before anything was read from it, or logged before. */
  predicate MayFollow(acts: seq<Access>, next: Access) {
    next.Writes? ==> next.a !in Touched(acts) || next.a in Defined(acts) || next.a in Logged(acts)
  }

  predicate Disciplined(acts: seq<Access>) {
    acts == [] || (Disciplined(acts[..|acts| - 1]) && MayFollow(acts[..|acts| - 1], acts[|acts| - 1]))
  }

  ghost predicate Elides(b: Body) {
    forall env: Env, m: Mem, k: nat :: Disciplined(RunFor(b, env, m, k).acts)
  }

  lemma Extend(acts: seq<Access>, x: Access)
    ensures Touched(acts + [x]) == Touched(acts) + {x.a}
    ensures Logged(acts + [x]) == Logged(acts) + if x.Logs? then {x.a} else {}
    ensures Defined(acts + [x]) == Defined(acts) + if x.Writes? && x.a !in Touched(acts) then {x.a} else {}
    ensures Disciplined(acts + [x]) == (Disciplined(acts) && MayFollow(acts, x))
  {
    assert (acts + [x])[..|acts|] == acts;
  }

  function AccessOf(act: Action): Access
    requires !act.Return?
  {
    match act
    case Read(a) => Reads(a)
    case Do(Log(a)) => Logs(a)
    case Do(Store(a, _)) => Writes(a)
  }

  /** What one more action adds. */
  lemma OneAction(b: Body, env: Env, m: Mem, k: nat)
    requires k > 0
    ensures
      var s, t := RunFor(b, env, m, k - 1), RunFor(b, env, m, k);
      var act := b(env, s.seen);
      && t == Next(s, act, m)
      && (act.Return? || (
            && Touched(t.acts) == Touched(s.acts) + {AccessOf(act).a}
            && Logged(t.acts) == Logged(s.acts) + (if AccessOf(act).Logs? then {AccessOf(act).a} else {})
            && Defined(t.acts) == Defined(s.acts)
               + (if AccessOf(act).Writes? && AccessOf(act).a !in Touched(s.acts) then {AccessOf(act).a} else {})
            && Disciplined(t.acts) == (Disciplined(s.acts) && MayFollow(s.acts, AccessOf(act)))))
  {
    hide Touched, Logged, Defined, Disciplined, MayFollow;
    var s := RunFor(b, env, m, k - 1);
    var act := b(env, s.seen);
    if !act.Return? {
      Extend(s.acts, AccessOf(act));
    }
  }

  lemma NoAction(b: Body, env: Env, m: Mem)
    ensures RunFor(b, env, m, 0) == Progress([], [], []) && Touched([]) == Logged([]) == Defined([]) == {}
    ensures Apply([], m) == m && RolledBack([], m) == m
  {
  }

  // ---------- what rollback leaves behind ----------

  ghost predicate Agree(m: Mem, n: Mem, except: set<int>) {
    forall a :: a !in except ==> m[a] == n[a]
  }

  lemma {:induction false} LogsAreRecorded(b: Body, env: Env, m: Mem, k: nat, a: int)
    requires a in Logged(RunFor(b, env, m, k).acts)
    ensures Log(a) in RunFor(b, env, m, k).steps
  {
    hide Touched, Logged, Defined, Disciplined, RunFor;
    if k > 0 {
      OneAction(b, env, m, k);
      if a in Logged(RunFor(b, env, m, k - 1).acts) {
        LogsAreRecorded(b, env, m, k - 1, a);
      }
    } else {
      NoAction(b, env, m);
    }
  }

  /** Everything is restored except the locations whose first access was a store. */
  lemma {:induction false} RollBackRestoresRest(b: Body, env: Env, m: Mem, k: nat)
    requires Elides(b)
    ensures var s := RunFor(b, env, m, k); Agree(RolledBack(s.steps, m), m, Defined(s.acts))
  {
    hide Touched, Logged, Defined, Disciplined, RunFor, Apply, JournalOf, RolledBack, LoggedAt;
    if k > 0 {
      var s, t := RunFor(b, env, m, k - 1), RunFor(b, env, m, k);
      RollBackRestoresRest(b, env, m, k - 1);
      OneAction(b, env, m, k);
      assert Disciplined(t.acts);
      var act := b(env, s.seen);
      if act.Do? {
        assert t.steps[..|t.steps| - 1] == s.steps;
        RolledBackStep(t.steps, m);
        if act.step.addr in Logged(s.acts) {
          LogsAreRecorded(b, env, m, k - 1, act.step.addr);
          LoggedHasRecord(s.steps, m, act.step.addr);
        }
      }
    } else {
      NoAction(b, env, m);
    }
  }

  // ---------- running again ----------

  /** What was read or logged first is never counted as defined later. */
  lemma {:induction false} UndefinedStays(b: Body, env: Env, m: Mem, k: nat, n: nat, a: int)
    requires k <= n
    requires a in Touched(RunFor(b, env, m, k).acts) && a !in Defined(RunFor(b, env, m, k).acts)
    ensures a in Touched(RunFor(b, env, m, n).acts) && a !in Defined(RunFor(b, env, m, n).acts)
    decreases n - k
  {
    hide Touched, Logged, Defined, Disciplined, RunFor;
    if k < n {
      UndefinedStays(b, env, m, k, n - 1, a);
      OneAction(b, env, m, n);
    }
  }

  /** A second run, on a memory that differs only in locations the body defines, does the same actions, reads the
      same values, and has repaired the difference once all of them are defined. */
  lemma {:induction false} SameRun(b: Body, env: Env, m: Mem, m': Mem, k: nat, n: nat)
    requires k <= n && Agree(m', m, Defined(RunFor(b, env, m, n).acts))
    ensures RunFor(b, env, m', k) == RunFor(b, env, m, k)
    ensures
      var s := RunFor(b, env, m, k);
      Agree(Apply(s.steps, m'), Apply(s.steps, m), Defined(RunFor(b, env, m, n).acts) - Defined(s.acts))
  {
    hide Touched, Logged, Defined, Disciplined, RunFor, Apply;
    if k > 0 {
      var s := RunFor(b, env, m, k - 1);
      SameRun(b, env, m, m', k - 1, n);
      OneAction(b, env, m, k);
      OneAction(b, env, m', k);
      match b(env, s.seen)
      case Read(x) =>
        if x !in Defined(s.acts) {
          UndefinedStays(b, env, m, k, n, x);
        }
      case Do(step) =>
        SameStep(s, step, m, m', Defined(RunFor(b, env, m, n).acts));
      case Return(_) =>
    } else {
      NoAction(b, env, m);
      NoAction(b, env, m');
    }
  }

  lemma SameStep(s: Progress, step: Step, m: Mem, m': Mem, d: set<int>)
    requires Agree(Apply(s.steps, m'), Apply(s.steps, m), d - Defined(s.acts))
    ensures
      var t := Next(s, Do(step), m);
      Next(s, Do(step), m') == t && Agree(Apply(t.steps, m'), Apply(t.steps, m), d - Defined(t.acts))
  {
    assert (s.steps + [step])[..|s.steps|] == s.steps;
    Extend(s.acts, if step.Log? then Logs(step.addr) else Writes(step.addr));
  }

  /** Every prefix of the steps of a body is what some number of its actions has done. */
  lemma {:induction false} PrefixIsProgress(b: Body, env: Env, m: Mem, n: nat, i: nat) returns (k: nat)
    requires i <= |RunFor(b, env, m, n).steps|
    ensures k <= n && RunFor(b, env, m, k).steps == RunFor(b, env, m, n).steps[..i]
  {
    var s := RunFor(b, env, m, n);
    if i == |s.steps| {
      k := n;
      assert s.steps[..i] == s.steps;
    } else {
      assert n > 0;
      var t := RunFor(b, env, m, n - 1);
      k := PrefixIsProgress(b, env, m, n - 1, i);
      assert s.steps[..i] == t.steps[..i];
    }
  }

  lemma {:induction false} DefinedGrows(b: Body, env: Env, m: Mem, k: nat, n: nat)
    requires k <= n
    ensures Defined(RunFor(b, env, m, k).acts) <= Defined(RunFor(b, env, m, n).acts)
    decreases n - k
  {
    hide Touched, Logged, Defined, Disciplined, RunFor;
    if k < n {
      DefinedGrows(b, env, m, k, n - 1);
      OneAction(b, env, m, n);
    }
  }

  /** A body that reads only, stores before it reads, or logs before it stores, location by location, is
      restartable: it may take the place of a fully logged transaction in any program. */
  lemma ElidedIsRestartable(b: Body, n: nat, size: nat)
    requires Elides(b) && Returns(b, n, size)
    ensures IsRestartable(ClosureOf(b, n), size)
  {
    var f := ClosureOf(b, n);
    forall m: Mem, env: Env
      ensures |f(m, env).result| == size
    {
      assert b(env, RunFor(b, env, m, n).seen).Return?;
    }
    forall m: Mem, env: Env, i: nat {:trigger f(m, env).steps[..i]} | i <= |f(m, env).steps|
      ensures EvalTx(f, RolledBack(f(m, env).steps[..i], m), env) == EvalTx(f, m, env)
    {
      RunsAgain(b, env, m, n, i);
    }
  }

  /** Cut after any step, rolled back and run again: the same memory and the same result. */
  lemma RunsAgain(b: Body, env: Env, m: Mem, n: nat, i: nat)
    requires Elides(b) && i <= |RunFor(b, env, m, n).steps|
    ensures EvalTx(ClosureOf(b, n), RolledBack(RunFor(b, env, m, n).steps[..i], m), env)
            == EvalTx(ClosureOf(b, n), m, env)
  {
    hide Touched, Logged, Defined, Disciplined, RunFor, Apply, RolledBack, Agree;
    var k := PrefixIsProgress(b, env, m, n, i);
    RollBackRestoresRest(b, env, m, k);
    DefinedGrows(b, env, m, k, n);
    var steps := RunFor(b, env, m, n).steps;
    var m' := RolledBack(steps[..i], m);
    AgreeOnLess(m', m, Defined(RunFor(b, env, m, k).acts), Defined(RunFor(b, env, m, n).acts));
    SameRun(b, env, m, m', n, n);
    AgreeIsEqual(Apply(steps, m'), Apply(steps, m), Defined(RunFor(b, env, m, n).acts));
  }

  lemma AgreeOnLess(m: Mem, n: Mem, d: set<int>, e: set<int>)
    requires Agree(m, n, d) && d <= e
    ensures Agree(m, n, e)
  {
  }

  lemma AgreeIsEqual(m: Mem, n: Mem, d: set<int>)
    requires Agree(m, n, d - d)
    ensures m == n
  {
    assert d - d == {};
    assert forall a: int :: a in m && a in n && m[a] == n[a];
    assert m.Keys == n.Keys;
  }

  // ---------- without the discipline ----------

  /** Read a location, store its successor without a record, and return. */
  function Bump(): Body {
    (env: Env, seen: seq<int>) =>
      if |seen| == 0 then Read(0) else if |seen| == 1 then Do(Store(0, seen[0] + 1)) else Return([])
  }

  /** Reading before an unlogged store is the case the discipline excludes: the second run stores again. */
  lemma BumpIsNotRestartable(m: Mem)
    ensures !Elides(Bump()) && Returns(Bump(), 2, 0) && !IsRestartable(ClosureOf(Bump(), 2), 0)
  {
    BumpRuns(m, []);
    forall m: Mem, env: Env
      ensures Bump()(env, RunFor(Bump(), env, m, 2).seen) == Return([])
    {
      BumpRuns(m, env);
    }
    var f, store := ClosureOf(Bump(), 2), Store(0, m[0] + 1);
    assert f(m, []).steps[..1] == [store];
    RolledBackStep([store], m);
    assert JournalOf([store][..0], m) == [];
    BumpRuns(m[0 := m[0] + 1], []);
  }

  lemma BumpRuns(m: Mem, env: Env)
    ensures
      var s := RunFor(Bump(), env, m, 2);
      && s == Progress([m[0], 0], [Store(0, m[0] + 1)], [Reads(0), Writes(0)])
      && !Disciplined(s.acts) && Apply(s.steps, m) == m[0 := m[0] + 1]
  {
    assert RunFor(Bump(), env, m, 1) == Progress([m[0]], [], [Reads(0)]);
    Extend([], Reads(0));
    Extend([Reads(0)], Writes(0));
    assert [Reads(0)] + [Writes(0)] == [Reads(0), Writes(0)] && [] + [Reads(0)] == [Reads(0)];
  }
}
