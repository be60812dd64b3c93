/** What the crash-free meaning of a program comes to: the transactions it performs, one after the other, each on the
    memory that the ones before it left and with the results of all of them that are in scope. */
module ProgramMeaning {
  import opened TxPrograms

  /** A transaction, or the two ends of an iteration of a loop. */
  datatype Act = Tx(f: Closure) | Open(cnt: nat) | Shut

  /** Memory, the variables in scope, and how many of them each iteration under way has found. */
  datatype State = State(mem: Mem, env: Env, outer: seq<nat>)

  /** A transaction adds its result to the variables. An iteration adds the counter, and its variables end with it. */
  function Perform1(act: Act, s: State): State {
    match act
    case Tx(f) => s.(mem := Apply(f(s.mem, s.env).steps, s.mem), env := s.env + [Result(f(s.mem, s.env).result)])
    case Open(cnt) => s.(env := s.env + [Count(cnt)], outer := s.outer + [|s.env|])
    case Shut =>
      if s.outer == [] || s.outer[|s.outer| - 1] > |s.env| then s
      else s.(env := s.env[..s.outer[|s.outer| - 1]], outer := s.outer[..|s.outer| - 1])
  }

  function Perform(acts: seq<Act>, s: State): State {
    if acts == [] then s else Perform(acts[1..], Perform1(acts[0], s))
  }

  /** What `p` does, as one flat list. */
  function Acts(p: Prog, m: Mem, env: Env): seq<Act>
    requires Steps(p)
    decreases p, 0
  {
    match p
    case Skip => []
    case Run(_, f) => [Tx(f)]
    case FastRun(_, f) => [Tx(f)]
    case Seq(a, b) =>
      var first := Acts(a, m, env);
      var s := Perform(first, State(m, env, []));
      first + Acts(b, s.mem, s.env)
    case For(_, begin, end, step, body) => LoopActs(body, begin(env), end(env), step, m, env)
  }

  function LoopActs(body: Prog, cnt: nat, end: nat, step: nat, m: Mem, env: Env): seq<Act>
    requires Steps(body) && step > 0
    decreases body, 2, if cnt < end then end - cnt else 0
  {
    if cnt >= end then []
    else
      var once := Once(body, cnt, m, env);
      once + LoopActs(body, cnt + step, end, step, Perform(once, State(m, env, [])).mem, env)
  }

  /** One iteration. */
  function Once(body: Prog, cnt: nat, m: Mem, env: Env): seq<Act>
    requires Steps(body)
    decreases body, 1
  {
    [Open(cnt)] + Acts(body, m, env + [Count(cnt)]) + [Shut]
  }

  lemma {:induction false} PerformBoth(a: seq<Act>, b: seq<Act>, s: State)
    ensures Perform(a + b, s) == Perform(b, Perform(a, s))
  {
    if a == [] {
      assert a + b == b;
    } else {
      assert (a + b)[1..] == a[1..] + b;
      PerformBoth(a[1..], b, Perform1(a[0], s));
    }
  }

  lemma PerformOne(act: Act, s: State)
    ensures Perform([act], s) == Perform1(act, s)
  {
  }

  /** One iteration: the variables are what they were. */
  lemma PerformOnce(cnt: nat, acts: seq<Act>, s: State, u: State)
    requires u == Perform(acts, Perform1(Open(cnt), s)) && u.outer == s.outer + [|s.env|] && s.env <= u.env
    ensures Perform([Open(cnt)] + acts + [Shut], s) == State(u.mem, s.env, s.outer)
  {
    hide Perform, Perform1;
    PerformBoth([Open(cnt)] + acts, [Shut], s);
    PerformBoth([Open(cnt)], acts, s);
    PerformOne(Open(cnt), s);
    PerformOne(Shut, u);
    ShutRestores(u, s.env, s.outer);
  }

  lemma ShutRestores(u: State, env: Env, outer: seq<nat>)
    requires u.outer == outer + [|env|] && env <= u.env
    ensures Perform1(Shut, u) == State(u.mem, env, outer)
  {
  }

  /** A program leaves the variables that it finds, whatever it runs. */
  lemma {:induction false} VariablesPersist(p: Prog, m: Mem, env: Env)
    requires Steps(p)
    ensures env <= Eval(p, m, env).1
    decreases p
  {
    match p
    case Seq(a, b) =>
      VariablesPersist(a, m, env);
      VariablesPersist(b, Eval(a, m, env).0, Eval(a, m, env).1);
    case _ =>
  }

  /** The meaning of a program is the list of its acts performed in order, at any depth of loops. */
  lemma {:induction false} MeaningIsActs(p: Prog, m: Mem, env: Env, outer: seq<nat>)
    requires Steps(p)
    ensures Perform(Acts(p, m, env), State(m, env, outer)) == State(Eval(p, m, env).0, Eval(p, m, env).1, outer)
    decreases p, 0
  {
    match p
    case Skip =>
    case Run(_, f) => PerformOne(Tx(f), State(m, env, outer));
    case FastRun(_, f) => PerformOne(Tx(f), State(m, env, outer));
    case Seq(a, b) =>
      var (m1, env1) := Eval(a, m, env);
      MeaningIsActs(a, m, env, []);
      MeaningIsActs(a, m, env, outer);
      MeaningIsActs(b, m1, env1, outer);
      PerformBoth(Acts(a, m, env), Acts(b, m1, env1), State(m, env, outer));
    case For(_, begin, end, step, body) => LoopIsActs(body, begin(env), end(env), step, m, env, outer);
  }

  lemma {:induction false} LoopIsActs(body: Prog, cnt: nat, end: nat, step: nat, m: Mem, env: Env, outer: seq<nat>)
    requires Steps(body) && step > 0
    ensures Perform(LoopActs(body, cnt, end, step, m, env), State(m, env, outer))
            == State(EvalLoop(body, cnt, end, step, m, env), env, outer)
    decreases body, 2, if cnt < end then end - cnt else 0
  {
    hide Acts, Eval, Once;
    if cnt < end {
      var m1 := Eval(body, m, env + [Count(cnt)]).0;
      OnceIsActs(body, cnt, m, env, []);
      OnceIsActs(body, cnt, m, env, outer);
      PerformBoth(Once(body, cnt, m, env), LoopActs(body, cnt + step, end, step, m1, env), State(m, env, outer));
      LoopIsActs(body, cnt + step, end, step, m1, env, outer);
    }
  }

  lemma OnceIsActs(body: Prog, cnt: nat, m: Mem, env: Env, outer: seq<nat>)
    requires Steps(body)
    ensures Perform(Once(body, cnt, m, env), State(m, env, outer))
            == State(Eval(body, m, env + [Count(cnt)]).0, env, outer)
    decreases body, 1
  {
    hide Perform, Acts, Eval;
    var inner := env + [Count(cnt)];
    var (m1, env1) := Eval(body, m, inner);
    VariablesPersist(body, m, inner);
    assert env1[..|env|] == inner[..|env|] == env;
    MeaningIsActs(body, m, inner, outer + [|env|]);
    PerformOnce(cnt, Acts(body, m, inner), State(m, env, outer), State(m1, env1, outer + [|env|]));
  }

  // ---------- what is seen from outside ----------

  /** The transactions of `p` outside loops. */
  function Outside(p: Prog): seq<nat> {
    match p
    case Run(size, _) => [size]
    case FastRun(size, _) => [size]
    case Seq(a, b) => Outside(a) + Outside(b)
    case _ => []
  }

  /** `after` is `env` and results of these sizes. */
  predicate Adds(env: Env, after: Env, sizes: seq<nat>) {
    && |after| == |env| + |sizes| && env <= after
    && forall i :: 0 <= i < |sizes| ==> IsResult(after[|env| + i], sizes[i])
  }

  predicate IsResult(v: Local, size: nat) {
    v.Result? && |v.bytes| == size
  }

  lemma AddsBoth(env: Env, between: Env, after: Env, first: seq<nat>, second: seq<nat>)
    requires Adds(env, between, first) && Adds(between, after, second)
    ensures Adds(env, after, first + second)
  {
    var sizes := first + second;
    assert after[..|env|] == between[..|env|] == env;
    forall i | 0 <= i < |sizes|
      ensures IsResult(after[|env| + i], sizes[i])
    {
      if i < |first| {
        assert after[|env| + i] == between[|env| + i] && sizes[i] == first[i];
      } else {
        assert after[|env| + i] == after[|between| + (i - |first|)] && sizes[i] == second[i - |first|];
      }
    }
  }

  /** The variables that a program adds are the results of its transactions outside loops, in order, and no others. */
  lemma {:induction false} ResultsOutside(p: Prog, m: Mem, env: Env)
    requires Steps(p) && Wf(p)
    ensures Adds(env, Eval(p, m, env).1, Outside(p))
    decreases p
  {
    match p
    case Seq(a, b) =>
      var (m1, env1) := Eval(a, m, env);
      ResultsOutside(a, m, env);
      ResultsOutside(b, m1, env1);
      AddsBoth(env, env1, Eval(b, m1, env1).1, Outside(a), Outside(b));
    case _ =>
  }

  function CounterAt(begin: nat, step: nat, k: nat): nat {
    begin + k * step
  }

  lemma CounterNext(begin: nat, step: nat, k: nat)
    ensures CounterAt(begin, step, 0) == begin && CounterAt(begin + step, step, k) == CounterAt(begin, step, k + 1)
  {
  }

  /** `ms` are the memories at the top of the iterations and behind the last one; iteration `k` has counter
      `begin + k * step`, and there is one for each such value below `end`. */
  ghost predicate IsLoopRun(body: Prog, begin: nat, end: nat, step: nat, m: Mem, env: Env, ms: seq<Mem>)
    requires Steps(body)
  {
    && ms != [] && ms[0] == m && CounterAt(begin, step, |ms| - 1) >= end
    && forall k {:trigger CounterAt(begin, step, k)} :: 0 <= k < |ms| - 1 ==>
         CounterAt(begin, step, k) < end && IsIteration(body, CounterAt(begin, step, k), ms[k], ms[k + 1], env)
  }

  ghost predicate IsIteration(body: Prog, cnt: nat, m: Mem, after: Mem, env: Env)
    requires Steps(body)
  {
    after == Eval(body, m, env + [Count(cnt)]).0
  }

  /** A loop runs its body once for each counter value from `begin` below `end`, a step apart. */
  lemma {:induction false} LoopRuns(body: Prog, begin: nat, end: nat, step: nat, m: Mem, env: Env) returns (ms: seq<Mem>)
    requires Steps(body) && step > 0
    ensures ms != [] && EvalLoop(body, begin, end, step, m, env) == ms[|ms| - 1]
    ensures ms[0] == m && IsLoopRun(body, begin, end, step, m, env, ms)
    decreases if begin < end then end - begin else 0
  {
    hide CounterAt, IsLoopRun, Eval;
    if begin >= end {
      ms := [m];
      NoIteration(body, begin, end, step, m, env);
    } else {
      var m1 := Eval(body, m, env + [Count(begin)]).0;
      var rest := LoopRuns(body, begin + step, end, step, m1, env);
      ms := [m] + rest;
      IterationMore(body, begin, end, step, m, env, rest);
    }
  }

  lemma NoIteration(body: Prog, begin: nat, end: nat, step: nat, m: Mem, env: Env)
    requires Steps(body) && begin >= end
    ensures IsLoopRun(body, begin, end, step, m, env, [m])
  {
  }

  lemma IterationMore(body: Prog, begin: nat, end: nat, step: nat, m: Mem, env: Env, rest: seq<Mem>)
    requires Steps(body) && begin < end
    requires rest != [] && IsIteration(body, begin, m, rest[0], env)
    requires IsLoopRun(body, begin + step, end, step, rest[0], env, rest)
    ensures IsLoopRun(body, begin, end, step, m, env, [m] + rest)
  {
    hide CounterAt;
    var ms := [m] + rest;
    CounterNext(begin, step, |rest| - 1);
    forall k {:trigger CounterAt(begin, step, k)} | 0 <= k < |ms| - 1
      ensures CounterAt(begin, step, k) < end && IsIteration(body, CounterAt(begin, step, k), ms[k], ms[k + 1], env)
    {
      if k > 0 {
        CounterNext(begin, step, k - 1);
        assert CounterAt(begin + step, step, k - 1) < end;
      }
    }
  }

  /** A transaction leaves at each location what it stored there last, and its result behind the variables. */
  lemma TxLeaves(p: Prog, m: Mem, env: Env)
    requires p.Run? || p.FastRun?
    ensures var effect := p.f(m, env);
            HasStores(effect.steps, m, Eval(p, m, env).0) && Eval(p, m, env).1 == env + [Result(effect.result)]
  {
    hide HasStores;
    StoresAreThere(p.f(m, env).steps, m);
  }
}
