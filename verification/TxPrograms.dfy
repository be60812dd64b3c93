/** User programs made of transactions, sequencing and nested persistent loops, and what they
    mean when the power never fails. */
module TxPrograms {

  /** Persistent memory: every location holds a word. */
  type Mem = m: imap<int, int> | forall a: int :: a in m ghost witness imap a: int :: 0

  type Byte = x: int | 0 <= x < 256
  type Counter = nat

  /** A store to persistent memory, or the undo record taken before the first store to an object. */
  datatype Step = Log(addr: int) | Store(addr: int, val: int)

  /** What the closure of a transaction does: its steps in order, and the bytes of its result. */
  datatype Effect = Effect(steps: seq<Step>, result: seq<Byte>)

  /** Local variables: results of earlier transactions and counters of enclosing loops. They are lost at a crash. */
  datatype Local = Result(bytes: seq<Byte>) | Count(n: nat)
  type Env = seq<Local>

  type Closure = (Mem, Env) -> Effect
  type Bound = Env -> nat

  /** `Run` logs, `FastRun` does not; `For` is `nv_for_loop!` on a persistent counter. */
  datatype Prog =
    | Skip
    | Run(size: nat, f: Closure)
    | FastRun(size: nat, f: Closure)
    | Seq(first: Prog, second: Prog)
    | For(c: Counter, begin: Bound, end: Bound, step: nat, body: Prog)

  // ---------- memory ----------

  function StepOf(s: Step, m: Mem): Mem {
    match s
    case Log(_) => m
    case Store(a, v) => m[a := v]
  }

  function Apply(steps: seq<Step>, m: Mem): Mem {
    if steps == [] then m else StepOf(steps[|steps| - 1], Apply(steps[..|steps| - 1], m))
  }

  ghost predicate StoresTo(s: Step, a: int) {
    s.Store? && s.addr == a
  }

  /** Step `k` is the last one that stores to `a`. */
  ghost predicate LastStoreTo(steps: seq<Step>, k: int, a: int) {
    0 <= k < |steps| && StoresTo(steps[k], a) && forall j :: k < j < |steps| ==> !StoresTo(steps[j], a)
  }

  lemma LastStoreIs(steps: seq<Step>, k: int, a: int)
    requires LastStoreTo(steps, k, a)
    ensures 0 <= k < |steps| && steps[k].Store? && steps[k].addr == a
  {
  }

  /** The last store to a location is what it holds. */
  lemma {:induction false} LastStoreStays(steps: seq<Step>, m: Mem, k: int, a: int)
    requires LastStoreTo(steps, k, a)
    ensures Apply(steps, m)[a] == steps[k].val
  {
    var init, last := steps[..|steps| - 1], steps[|steps| - 1];
    if k < |init| {
      assert !StoresTo(last, a) && LastStoreTo(init, k, a);
      LastStoreStays(init, m, k, a);
    }
  }

  /** A location without a store holds what it held. */
  lemma {:induction false} NoStoreNoChange(steps: seq<Step>, m: Mem, a: int)
    requires NeverStored(steps, a)
    ensures Apply(steps, m)[a] == m[a]
  {
    if steps != [] {
      assert !StoresTo(steps[|steps| - 1], a);
      NoStoreNoChange(steps[..|steps| - 1], m, a);
    }
  }

  ghost predicate NeverStored(steps: seq<Step>, a: int) {
    forall k :: 0 <= k < |steps| ==> !StoresTo(steps[k], a)
  }

  ghost predicate EndsAs(steps: seq<Step>, k: int, a: int, v: int) {
    LastStoreTo(steps, k, a) ==> 0 <= k < |steps| && steps[k].Store? && v == steps[k].val
  }

  /** Every location holds what was stored to it last, or what it held. */
  ghost predicate HasStores(steps: seq<Step>, before: Mem, after: Mem) {
    && (forall k, a :: EndsAs(steps, k, a, after[a]))
    && (forall a :: NeverStored(steps, a) ==> after[a] == before[a])
  }

  /** What the steps come to, location by location. */
  lemma StoresAreThere(steps: seq<Step>, m: Mem)
    ensures HasStores(steps, m, Apply(steps, m))
  {
    hide Apply, LastStoreTo, StoresTo;
    forall k, a
      ensures EndsAs(steps, k, a, Apply(steps, m)[a])
    {
      if LastStoreTo(steps, k, a) {
        LastStoreIs(steps, k, a);
        LastStoreStays(steps, m, k, a);
      }
    }
    forall a | NeverStored(steps, a)
      ensures Apply(steps, m)[a] == m[a]
    {
      NoStoreNoChange(steps, m, a);
    }
  }

  // ---------- the undo log ----------

  /** An undo record. */
  datatype Rec = Rec(addr: int, saved: int)

  ghost function Undo(j: seq<Rec>, m: Mem): Mem {
    if j == [] then m else Undo(j[..|j| - 1], m[j[|j| - 1].addr := j[|j| - 1].saved])
  }

  ghost predicate LoggedAt(j: seq<Rec>, a: int) {
    exists i :: 0 <= i < |j| && j[i].addr == a
  }

  /** What was logged is restored whatever was stored since, and whatever was restored already. */
  lemma {:induction false} UndoForgets(j: seq<Rec>, m: Mem, a: int, v: int)
    requires LoggedAt(j, a)
    ensures Undo(j, m[a := v]) == Undo(j, m)
  {
    var last := j[|j| - 1];
    if last.addr == a {
      assert m[a := v][a := last.saved] == m[a := last.saved];
    } else {
      assert m[a := v][last.addr := last.saved] == m[last.addr := last.saved][a := v];
      var i :| 0 <= i < |j| && j[i].addr == a;
      assert j[..|j| - 1][i].addr == a;
      UndoForgets(j[..|j| - 1], m[last.addr := last.saved], a, v);
    }
  }

  /** Logging the present value restores nothing new. */
  lemma UndoOfFreshRecord(j: seq<Rec>, m: Mem, a: int)
    ensures Undo(j + [Rec(a, m[a])], m) == Undo(j, m)
  {
    assert (j + [Rec(a, m[a])])[..|j|] == j;
    assert m[a := m[a]] == m;
  }

  /** The records that the steps leave behind. */
  ghost function JournalOf(steps: seq<Step>, m: Mem): seq<Rec> {
    if steps == [] then []
    else
      var init, last := steps[..|steps| - 1], steps[|steps| - 1];
      if last.Log? then JournalOf(init, m) + [Rec(last.addr, Apply(init, m)[last.addr])] else JournalOf(init, m)
  }

  /** Memory after the steps were made and their log was rolled back. */
  ghost function RolledBack(steps: seq<Step>, m: Mem): Mem {
    Undo(JournalOf(steps, m), Apply(steps, m))
  }

  /** A byte that was not logged keeps what was stored to it. */
  lemma {:induction false} UndoPassesOver(j: seq<Rec>, m: Mem, a: int, v: int)
    requires !LoggedAt(j, a)
    ensures Undo(j, m[a := v]) == Undo(j, m)[a := v]
  {
    if j != [] {
      var last := j[|j| - 1];
      assert last.addr != a;
      assert m[a := v][last.addr := last.saved] == m[last.addr := last.saved][a := v];
      assert !LoggedAt(j[..|j| - 1], a);
      UndoPassesOver(j[..|j| - 1], m[last.addr := last.saved], a, v);
    }
  }

  /** What one more step changes after rollback: nothing, unless it stores to a location that was not logged. */
  lemma RolledBackStep(steps: seq<Step>, m: Mem)
    requires steps != []
    ensures
      var init, last := steps[..|steps| - 1], steps[|steps| - 1];
      RolledBack(steps, m) == if last.Store? && !LoggedAt(JournalOf(init, m), last.addr)
                              then RolledBack(init, m)[last.addr := last.val] else RolledBack(init, m)
  {
    hide Undo, LoggedAt;
    var init, last := steps[..|steps| - 1], steps[|steps| - 1];
    var j, mem := JournalOf(init, m), Apply(init, m);
    match last
    case Log(a) =>
      UndoOfFreshRecord(j, mem, a);
    case Store(a, v) =>
      if LoggedAt(j, a) {
        UndoForgets(j, mem, a, v);
      } else {
        UndoPassesOver(j, mem, a, v);
      }
  }

  // ---------- meaning ----------

  function EvalTx(f: Closure, m: Mem, env: Env): (Mem, Env) {
    (Apply(f(m, env).steps, m), env + [Result(f(m, env).result)])
  }

  /** The crash-free meaning: final memory and local variables. No cache, no log, no counter in memory. */
  function Eval(p: Prog, m: Mem, env: Env): (Mem, Env)
    requires Steps(p)
    decreases p, 0
  {
    match p
    case Skip => (m, env)
    case Run(_, f) => EvalTx(f, m, env)
    case FastRun(_, f) => EvalTx(f, m, env)
    case Seq(a, b) => var (m1, env1) := Eval(a, m, env); Eval(b, m1, env1)
    case For(_, begin, end, step, body) => (EvalLoop(body, begin(env), end(env), step, m, env), env)
  }

  /** The iterations from counter value `cnt` on; variables of the body do not outlive an iteration. */
  function EvalLoop(body: Prog, cnt: nat, end: nat, step: nat, m: Mem, env: Env): Mem
    requires Steps(body) && step > 0
    decreases body, 1, if cnt < end then end - cnt else 0
  {
    if cnt >= end then m
    else EvalLoop(body, cnt + step, end, step, Eval(body, m, env + [Count(cnt)]).0, env)
  }

  /** Loops advance. */
  predicate Steps(p: Prog) {
    match p
    case Seq(a, b) => Steps(a) && Steps(b)
    case For(_, _, _, step, body) => step > 0 && Steps(body)
    case _ => true
  }

  // ---------- what the protocol asks of a program ----------

  /** Every store of a logged transaction is to a location logged before it in the same transaction. */
  ghost predicate WellLogged(steps: seq<Step>) {
    forall i :: 0 <= i < |steps| && steps[i].Store? ==> Log(steps[i].addr) in steps[..i]
  }

  ghost predicate IsLogged(f: Closure, size: nat) {
    forall m: Mem, env: Env :: |f(m, env).result| == size && WellLogged(f(m, env).steps)
  }

  /** A closure with an undo log: cut after any step and rolled back, it runs again as if nothing had happened,
      even where the rollback does not restore the memory of the beginning. */
  ghost predicate IsRestartable(f: Closure, size: nat) {
    && (forall m: Mem, env: Env :: |f(m, env).result| == size)
    && (forall m: Mem, env: Env, n: nat {:trigger f(m, env).steps[..n]} ::
          n <= |f(m, env).steps| ==> EvalTx(f, RolledBack(f(m, env).steps[..n], m), env) == EvalTx(f, m, env))
  }

  /** Logging before every first store is one way to be restartable. */
  lemma LoggedIsRestartable(f: Closure, size: nat)
    requires IsLogged(f, size)
    ensures IsRestartable(f, size)
  {
    forall m: Mem, env: Env, n: nat {:trigger f(m, env).steps[..n]} | n <= |f(m, env).steps|
      ensures EvalTx(f, RolledBack(f(m, env).steps[..n], m), env) == EvalTx(f, m, env)
    {
      var steps := f(m, env).steps;
      WellLoggedPrefix(steps, n);
      RollBackRestores(steps[..n], m);
    }
  }

  lemma WellLoggedPrefix(steps: seq<Step>, n: nat)
    requires n <= |steps| && WellLogged(steps)
    ensures WellLogged(steps[..n])
  {
    forall i | 0 <= i < n && steps[..n][i].Store?
      ensures Log(steps[..n][i].addr) in steps[..n][..i]
    {
      assert steps[..n][..i] == steps[..i];
    }
  }

  /** The undo log of a transaction that logs before it stores restores the memory of its beginning. */
  lemma {:induction false} RollBackRestores(steps: seq<Step>, m: Mem)
    requires WellLogged(steps)
    ensures RolledBack(steps, m) == m
  {
    if steps != [] {
      var init, last := steps[..|steps| - 1], steps[|steps| - 1];
      WellLoggedPrefix(steps, |steps| - 1);
      RollBackRestores(init, m);
      RolledBackStep(steps, m);
      if last.Store? {
        LoggedHasRecord(init, m, last.addr);
      }
    }
  }

  lemma {:induction false} LoggedHasRecord(steps: seq<Step>, m: Mem, a: int)
    requires Log(a) in steps
    ensures LoggedAt(JournalOf(steps, m), a)
  {
    var init, j := steps[..|steps| - 1], JournalOf(steps, m);
    if steps[|steps| - 1] == Log(a) {
      assert j[|j| - 1].addr == a;
    } else {
      LoggedHasRecord(init, m, a);
      var i :| 0 <= i < |JournalOf(init, m)| && JournalOf(init, m)[i].addr == a;
      assert j[i].addr == a;
    }
  }

  /** A closure without logging may be cut after any store and run again from there. */
  ghost predicate IsIdempotent(f: Closure, size: nat) {
    && (forall m: Mem, env: Env :: |f(m, env).result| == size && forall s :: s in f(m, env).steps ==> s.Store?)
    && (forall m: Mem, env: Env, n: nat {:trigger f(m, env).steps[..n]} ::
          n <= |f(m, env).steps| ==> EvalTx(f, Apply(f(m, env).steps[..n], m), env) == EvalTx(f, m, env))
  }

  function Loops(p: Prog): set<Counter> {
    match p
    case Seq(a, b) => Loops(a) + Loops(b)
    case For(c, _, _, _, body) => {c} + Loops(body)
    case _ => {}
  }

  ghost predicate Wf(p: Prog) {
    match p
    case Skip => true
    case Run(size, f) => IsRestartable(f, size)
    case FastRun(size, f) => IsIdempotent(f, size)
    case Seq(a, b) => Wf(a) && Wf(b) && Loops(a) !! Loops(b)
    case For(c, _, _, step, body) => step > 0 && Wf(body) && c !in Loops(body)
  }

  // ---------- positions in the transaction cache ----------

  /** A position: bytes cached and transactions committed before it. */
  datatype Pos = Pos(off: nat, id: nat)

  function After(p: Prog, q: Pos): Pos {
    match p
    case Skip => q
    case Run(size, _) => Pos(q.off + size, q.id + 1)
    case FastRun(size, _) => Pos(q.off + size, q.id + 1)
    case Seq(a, b) => After(b, After(a, q))
    case For(_, _, _, _, _) => Pos(q.off, q.id + 1)  // the iterations reuse the space behind it
  }

  const MAX_ID: nat := 255

  /** The cache is large enough for `p` from `q` on, iterations reusing their space. */
  predicate Fits(p: Prog, q: Pos, space: nat) {
    match p
    case Skip => true
    case Run(size, _) => q.id < MAX_ID && q.off + size <= space
    case FastRun(size, _) => q.id < MAX_ID && q.off + size <= space
    case Seq(a, b) => Fits(a, q, space) && Fits(b, After(a, q), space)
    case For(_, _, _, _, body) => q.id < MAX_ID && Fits(body, Pos(q.off, q.id + 1), space)
  }

  /** How deeply loops are nested. */
  function Depth(p: Prog): nat {
    match p
    case Seq(a, b) => if Depth(a) < Depth(b) then Depth(b) else Depth(a)
    case For(_, _, _, _, body) => 1 + Depth(body)
    case _ => 0
  }

  lemma AfterGrows(p: Prog, q: Pos)
    ensures q.off <= After(p, q).off && q.id <= After(p, q).id
  {
  }

  /** A body that commits no transaction has no effect. */
  lemma {:induction false} NoTxNoEffect(p: Prog, q: Pos, m: Mem, env: Env)
    requires Steps(p) && After(p, q).id == q.id
    ensures Eval(p, m, env) == (m, env) && After(p, q) == q
  {
    match p
    case Seq(a, b) =>
      AfterGrows(a, q);
      AfterGrows(b, After(a, q));
      NoTxNoEffect(a, q, m, env);
      NoTxNoEffect(b, q, m, env);
    case _ =>
  }

  /** A program that fits ends inside the cache. */
  lemma {:induction false} FitsAfter(p: Prog, q: Pos, space: nat)
    requires Fits(p, q, space) && q.off <= space
    ensures After(p, q).off <= space
  {
    match p
    case Seq(a, b) =>
      FitsAfter(a, q, space);
      FitsAfter(b, After(a, q), space);
    case _ =>
  }
}
