/** What persistent memory says about how far a program has come, and why a run that starts again from the
    top can rely on it. */
module ReplaySpec {
  import opened TxPrograms

  /** Persistent state as a reboot sees it once recovery is through: memory with the open transaction rolled back,
      loop counters with a pending increment applied, cached bytes, and the committed position. */
  datatype Nv = Nv(mem: Mem, ctr: map<Counter, nat>, bytes: seq<Byte>, tail: Pos)

  ghost predicate Holds(bytes: seq<Byte>, at: nat, res: seq<Byte>) {
    at + |res| <= |bytes| && bytes[at..at + |res|] == res
  }

  /** `p`, started at position `q` in crash-free memory `m`, is complete: replaying it only passes over it. */
  ghost predicate Done(p: Prog, q: Pos, env: Env, m: Mem, v: Nv)
    requires Steps(p)
    decreases p
  {
    match p
    case Skip => true
    case Run(_, f) => Holds(v.bytes, q.off, f(m, env).result)
    case FastRun(_, f) => Holds(v.bytes, q.off, f(m, env).result)
    case Seq(a, b) => Done(a, q, env, m, v) && Done(b, After(a, q), Eval(a, m, env).1, Eval(a, m, env).0, v)
    case For(c, _, end, _, _) => c in v.ctr && v.ctr[c] >= end(env)
  }

  /** `p`, started at `q` in crash-free memory `m`, has not begun, is under way, or has just been completed. */
  ghost predicate Resume(p: Prog, q: Pos, env: Env, m: Mem, v: Nv)
    requires Steps(p)
    decreases p
  {
    match p
    case Skip => v.tail == q && v.mem == m
    case Run(_, f) => (v.tail == q && EvalTx(f, v.mem, env) == EvalTx(f, m, env)) || Completed(p, q, env, m, v)
    case FastRun(_, f) => (v.tail == q && EvalTx(f, v.mem, env) == EvalTx(f, m, env)) || Completed(p, q, env, m, v)
    case Seq(a, b) =>
      || Resume(a, q, env, m, v)
      || (Done(a, q, env, m, v) && Resume(b, After(a, q), Eval(a, m, env).1, Eval(a, m, env).0, v))
    case For(c, _, end, step, body) =>
      || (v.tail == q && v.mem == m)
      || (c in v.ctr && v.tail.id >= q.id + 1
          && exists mk: Mem {:trigger EvalLoop(body, v.ctr[c], end(env), step, mk, env)} ::
               && EvalLoop(body, v.ctr[c], end(env), step, mk, env) == Eval(p, m, env).0
               && (if v.ctr[c] >= end(env) then v.tail == Pos(q.off, q.id + 1) && v.mem == mk
                   else Resume(body, Pos(q.off, q.id + 1), env + [Count(v.ctr[c])], mk, v)))
  }

  /** The loop is at the top of the iteration that its counter says, in crash-free memory `mk`, or inside it. */
  ghost predicate InLoop(p: Prog, q: Pos, env: Env, m: Mem, v: Nv, mk: Mem)
    requires p.For? && Steps(p)
  {
    && p.c in v.ctr && v.tail.id >= q.id + 1
    && EvalLoop(p.body, v.ctr[p.c], p.end(env), p.step, mk, env) == Eval(p, m, env).0
    && (if v.ctr[p.c] >= p.end(env) then v.tail == Pos(q.off, q.id + 1) && v.mem == mk
        else Resume(p.body, Pos(q.off, q.id + 1), env + [Count(v.ctr[p.c])], mk, v))
  }

  /** Complete, and nothing behind it has begun. */
  ghost predicate Completed(p: Prog, q: Pos, env: Env, m: Mem, v: Nv)
    requires Steps(p)
  {
    v.tail == After(p, q) && v.mem == Eval(p, m, env).0 && Done(p, q, env, m, v)
  }

  /** The replay stands before `p`: it is either to be resumed or lies behind the committed position. */
  ghost predicate Ahead(p: Prog, q: Pos, env: Env, m: Mem, v: Nv)
    requires Steps(p)
  {
    Resume(p, q, env, m, v) || Passed(p, q, env, m, v)
  }

  ghost predicate Passed(p: Prog, q: Pos, env: Env, m: Mem, v: Nv)
    requires Steps(p)
  {
    Done(p, q, env, m, v) && v.tail.id >= After(p, q).id
  }

  // ---------- facts ----------

  /** Nothing of `p` has begun. */
  lemma {:induction false} FreshResumes(p: Prog, q: Pos, env: Env, m: Mem, v: Nv)
    requires Steps(p) && v.tail == q && v.mem == m
    ensures Resume(p, q, env, m, v)
  {
    match p
    case Seq(a, b) => FreshResumes(a, q, env, m, v);
    case _ =>
  }

  /** A completed program may as well be resumed: nothing is left to do. */
  lemma {:induction false} CompletedResumes(p: Prog, q: Pos, env: Env, m: Mem, v: Nv)
    requires Steps(p) && Completed(p, q, env, m, v)
    ensures Resume(p, q, env, m, v)
  {
    match p
    case Skip =>
    case Run(_, _) =>
    case FastRun(_, _) =>
    case Seq(a, b) => CompletedResumes(b, After(a, q), Eval(a, m, env).1, Eval(a, m, env).0, v);
    case For(c, begin, end, step, body) =>
      assert InLoop(p, q, env, m, v, v.mem);
  }

  /** The committed position never lies before a program under way, and at its start nothing has been committed. */
  lemma {:induction false} ResumeIsAhead(p: Prog, q: Pos, env: Env, m: Mem, v: Nv)
    requires Steps(p) && Resume(p, q, env, m, v)
    ensures q.id <= v.tail.id
    ensures v.tail.id == q.id ==> v.tail == q
    decreases p
  {
    match p
    case Seq(a, b) =>
      AfterGrows(a, q);
      if Resume(a, q, env, m, v) {
        ResumeIsAhead(a, q, env, m, v);
      } else {
        ResumeIsAhead(b, After(a, q), Eval(a, m, env).1, Eval(a, m, env).0, v);
        if v.tail.id == q.id {
          NoTxNoEffect(a, q, m, env);
        }
      }
    case _ =>
  }

  /** Completion depends on the cached bytes up to the end of `p` and on the counters of its own loops. */
  lemma {:induction false} DoneFrame(p: Prog, q: Pos, env: Env, m: Mem, v: Nv, w: Nv)
    requires Steps(p) && Wf(p) && Done(p, q, env, m, v)
    requires After(p, q).off <= |v.bytes| && After(p, q).off <= |w.bytes|
    requires w.bytes[..After(p, q).off] == v.bytes[..After(p, q).off]
    requires forall c :: c in Loops(p) && c in v.ctr ==> c in w.ctr && w.ctr[c] == v.ctr[c]
    ensures Done(p, q, env, m, w)
  {
    match p
    case Seq(a, b) =>
      AfterGrows(b, After(a, q));
      PrefixOfPrefix(v.bytes, w.bytes, After(a, q).off, After(p, q).off);
      DoneFrame(a, q, env, m, v, w);
      DoneFrame(b, After(a, q), Eval(a, m, env).1, Eval(a, m, env).0, v, w);
    case Run(size, f) => SliceOfPrefix(v.bytes, w.bytes, q.off, After(p, q).off);
    case FastRun(size, f) => SliceOfPrefix(v.bytes, w.bytes, q.off, After(p, q).off);
    case _ =>
  }

  lemma PrefixOfPrefix<T>(s: seq<T>, t: seq<T>, i: nat, j: nat)
    requires i <= j <= |s| && j <= |t| && s[..j] == t[..j]
    ensures s[..i] == t[..i]
  {
    assert s[..i] == s[..j][..i] && t[..i] == t[..j][..i];
  }

  lemma SliceOfPrefix<T>(s: seq<T>, t: seq<T>, i: nat, j: nat)
    requires i <= j <= |s| && j <= |t| && s[..j] == t[..j]
    ensures s[i..j] == t[i..j]
  {
    assert s[i..j] == s[..j][i..] && t[i..j] == t[..j][i..];
  }

  function BodyOf(p: Prog): Closure
    requires p.Run? || p.FastRun?
  {
    if p.Run? then p.f else p.f
  }

  /** Before a transaction, the committed position alone tells whether it is still to be run. */
  lemma TxStage(p: Prog, q: Pos, env: Env, m: Mem, v: Nv)
    requires p.Run? || p.FastRun?
    requires Ahead(p, q, env, m, v)
    ensures v.tail.id > q.id ==> Done(p, q, env, m, v) && (Resume(p, q, env, m, v) ==> Completed(p, q, env, m, v))
    ensures v.tail.id <= q.id ==> v.tail == q && EvalTx(BodyOf(p), v.mem, env) == EvalTx(BodyOf(p), m, env)
    ensures v.tail.id <= q.id ==> Resume(p, q, env, m, v)
  {
  }

  /** What replay reads is what the closure returned. */
  lemma ReplayedResult(p: Prog, q: Pos, env: Env, m: Mem, v: Nv)
    requires p.Run? || p.FastRun?
    requires Wf(p) && Done(p, q, env, m, v)
    ensures q.off + p.size <= |v.bytes|
    ensures Eval(p, m, env).1 == env + [Result(v.bytes[q.off..q.off + p.size])]
  {
    assert |BodyOf(p)(m, env).result| == p.size;
  }

  // ---------- what a run may do to the persistent state ----------

  /** Bytes before `q` and counters of other loops stay as they are. */
  ghost predicate Kept(p: Prog, q: Pos, v0: Nv, v1: Nv) {
    && |v1.bytes| == |v0.bytes| && q.off <= |v0.bytes| && v1.bytes[..q.off] == v0.bytes[..q.off]
    && (forall c :: c in v0.ctr && c !in Loops(p) ==> c in v1.ctr && v1.ctr[c] == v0.ctr[c])
  }

  /** Wherever it stops, a run of `p` leaves a state from which `p` can be resumed; replay has no effect at all. */
  ghost predicate Moved(p: Prog, q: Pos, env: Env, m: Mem, v0: Nv, v: Nv)
    requires Steps(p)
  {
    if Resume(p, q, env, m, v0) then Resume(p, q, env, m, v) && Kept(p, q, v0, v) else v == v0
  }

  ghost predicate Finished(p: Prog, q: Pos, env: Env, m: Mem, v0: Nv, v: Nv)
    requires Steps(p)
  {
    Resume(p, q, env, m, v0) ==> Completed(p, q, env, m, v)
  }

  // ---------- sequencing ----------

  ghost function Mid(p: Prog, q: Pos, env: Env, m: Mem): (r: (Pos, Env, Mem))
    requires p.Seq? && Steps(p)
  {
    (After(p.first, q), Eval(p.first, m, env).1, Eval(p.first, m, env).0)
  }

  lemma SeqStart(p: Prog, q: Pos, env: Env, m: Mem, v: Nv)
    requires p.Seq? && Steps(p) && Ahead(p, q, env, m, v)
    ensures Ahead(p.first, q, env, m, v)
  {
    var (q1, env1, m1) := Mid(p, q, env, m);
    AfterGrows(p.second, q1);
    if !Resume(p.first, q, env, m, v) && Resume(p, q, env, m, v) {
      ResumeIsAhead(p.second, q1, env1, m1, v);
    }
  }

  lemma SeqInFirst(p: Prog, q: Pos, env: Env, m: Mem, v0: Nv, v: Nv)
    requires p.Seq? && Steps(p) && Ahead(p, q, env, m, v0) && Moved(p.first, q, env, m, v0, v)
    requires q.off <= |v0.bytes|
    ensures Moved(p, q, env, m, v0, v)
  {
  }

  lemma SeqMiddle(p: Prog, q: Pos, env: Env, m: Mem, v0: Nv, v1: Nv)
    requires p.Seq? && Steps(p) && Ahead(p, q, env, m, v0)
    requires Moved(p.first, q, env, m, v0, v1) && Finished(p.first, q, env, m, v0, v1)
    ensures var (q1, env1, m1) := Mid(p, q, env, m); Ahead(p.second, q1, env1, m1, v1)
  {
    var (q1, env1, m1) := Mid(p, q, env, m);
    if Resume(p.first, q, env, m, v0) {
      FreshResumes(p.second, q1, env1, m1, v1);
    }
  }

  /** The first part is complete in `v1`, and the run of the second leads to `v`. */
  lemma SeqInSecond(p: Prog, q: Pos, env: Env, m: Mem, v0: Nv, v1: Nv, v: Nv)
    requires p.Seq? && Steps(p) && Wf(p) && Ahead(p, q, env, m, v0)
    requires Moved(p.first, q, env, m, v0, v1) && Finished(p.first, q, env, m, v0, v1)
    requires var (q1, env1, m1) := Mid(p, q, env, m); q1.off <= |v1.bytes| && Moved(p.second, q1, env1, m1, v1, v)
    requires q.off <= |v0.bytes|
    ensures Moved(p, q, env, m, v0, v)
    ensures Resume(p, q, env, m, v0) ==> Done(p.first, q, env, m, v)
  {
    hide After, EvalLoop, Fits;
    var (q1, env1, m1) := Mid(p, q, env, m);
    AfterGrows(p.first, q);
    if Resume(p, q, env, m, v0) {
      if Resume(p.first, q, env, m, v0) {
        FreshResumes(p.second, q1, env1, m1, v1);
      }
      assert Done(p.first, q, env, m, v1) && Resume(p.second, q1, env1, m1, v1);
      DoneFrame(p.first, q, env, m, v1, v);
      PrefixOfPrefix(v1.bytes, v.bytes, q.off, q1.off);
    }
  }

  lemma SeqEnd(p: Prog, q: Pos, env: Env, m: Mem, v0: Nv, v1: Nv, v: Nv)
    requires p.Seq? && Steps(p) && Ahead(p, q, env, m, v0)
    requires Moved(p.first, q, env, m, v0, v1) && Finished(p.first, q, env, m, v0, v1)
    requires Resume(p, q, env, m, v0) ==> Done(p.first, q, env, m, v)
    requires var (q1, env1, m1) := Mid(p, q, env, m); Finished(p.second, q1, env1, m1, v1, v)
    ensures Finished(p, q, env, m, v0, v)
  {
    var (q1, env1, m1) := Mid(p, q, env, m);
    if Resume(p.first, q, env, m, v0) {
      FreshResumes(p.second, q1, env1, m1, v1);
    }
  }

  // ---------- loops ----------

  /** The position at the top of every iteration. */
  function Top(q: Pos): Pos {
    Pos(q.off, q.id + 1)
  }

  function BodyEnv(p: Prog, env: Env, v: Nv): Env
    requires p.For? && p.c in v.ctr
  {
    env + [Count(v.ctr[p.c])]
  }

  lemma LoopStage(p: Prog, q: Pos, env: Env, m: Mem, v: Nv)
    requires p.For? && Steps(p) && Ahead(p, q, env, m, v)
    ensures v.tail.id <= q.id ==> v.tail == q && v.mem == m && Resume(p, q, env, m, v)
    ensures v.tail.id > q.id && Resume(p, q, env, m, v) ==> exists mk :: InLoop(p, q, env, m, v, mk)
    ensures v.tail.id > q.id && !Resume(p, q, env, m, v) ==> p.c in v.ctr && v.ctr[p.c] >= p.end(env)
  {
    if Resume(p, q, env, m, v) && !(v.tail == q && v.mem == m) {
      var mk :| EvalLoop(p.body, v.ctr[p.c], p.end(env), p.step, mk, env) == Eval(p, m, env).0
        && (if v.ctr[p.c] >= p.end(env) then v.tail == Pos(q.off, q.id + 1) && v.mem == mk
            else Resume(p.body, Pos(q.off, q.id + 1), env + [Count(v.ctr[p.c])], mk, v));
      assert v.ctr[p.c] < p.end(env) ==> Resume(p.body, Pos(q.off, q.id + 1), env + [Count(v.ctr[p.c])], mk, v);
      assert InLoop(p, q, env, m, v, mk);
    }
  }

  lemma LoopEntered(p: Prog, q: Pos, env: Env, m: Mem, v: Nv)
    requires p.For? && Steps(p) && v.tail == Top(q) && v.mem == m
    requires p.c in v.ctr && v.ctr[p.c] == p.begin(env)
    ensures InLoop(p, q, env, m, v, m)
  {
    FreshResumes(p.body, Top(q), BodyEnv(p, env, v), m, v);
  }

  lemma LoopResumes(p: Prog, q: Pos, env: Env, m: Mem, v: Nv, mk: Mem)
    requires p.For? && Steps(p) && InLoop(p, q, env, m, v, mk)
    ensures Resume(p, q, env, m, v)
  {
  }

  lemma LoopOver(p: Prog, q: Pos, env: Env, m: Mem, v: Nv, mk: Mem)
    requires p.For? && Steps(p) && InLoop(p, q, env, m, v, mk) && v.ctr[p.c] >= p.end(env)
    ensures Completed(p, q, env, m, v)
  {
  }

  /** Inside an iteration, or cut there. */
  lemma IterInside(p: Prog, q: Pos, env: Env, m: Mem, v0: Nv, v: Nv, mk: Mem)
    requires p.For? && Steps(p) && Wf(p) && InLoop(p, q, env, m, v0, mk) && v0.ctr[p.c] < p.end(env)
    requires Moved(p.body, Top(q), BodyEnv(p, env, v0), mk, v0, v)
    ensures p.c in v.ctr && v.ctr[p.c] == v0.ctr[p.c]
    ensures InLoop(p, q, env, m, v, mk)
    ensures Kept(p, q, v0, v)
  {
    ResumeIsAhead(p.body, Top(q), BodyEnv(p, env, v0), mk, v);
  }

  /** The end of an iteration: position and counter step together, and the rest of the loop is what it was. */
  lemma IterEnd(p: Prog, q: Pos, env: Env, m: Mem, v0: Nv, v1: Nv, v: Nv, mk: Mem)
    requires p.For? && Steps(p) && Wf(p) && InLoop(p, q, env, m, v0, mk) && v0.ctr[p.c] < p.end(env)
    requires p.c in v1.ctr && v1.ctr[p.c] == v0.ctr[p.c]
    requires Completed(p.body, Top(q), BodyEnv(p, env, v0), mk, v1)
    requires v == v1.(tail := Top(q), ctr := v1.ctr[p.c := v1.ctr[p.c] + p.step])
    ensures InLoop(p, q, env, m, v, Eval(p.body, mk, BodyEnv(p, env, v0)).0)
  {
    FreshResumes(p.body, Top(q), BodyEnv(p, env, v), v.mem, v);
  }

  /** An iteration without a transaction: the position alone is stored again, and nothing has moved. */
  lemma IterEndIdle(p: Prog, q: Pos, env: Env, m: Mem, v0: Nv, v1: Nv, v: Nv, mk: Mem)
    requires p.For? && Steps(p) && Wf(p) && InLoop(p, q, env, m, v0, mk) && v0.ctr[p.c] < p.end(env)
    requires p.c in v1.ctr && v1.ctr[p.c] == v0.ctr[p.c]
    requires Completed(p.body, Top(q), BodyEnv(p, env, v0), mk, v1) && After(p.body, Top(q)).id == Top(q).id
    requires v == v1.(tail := Top(q))
    ensures InLoop(p, q, env, m, v, mk)
  {
    NoTxNoEffect(p.body, Top(q), mk, BodyEnv(p, env, v0));
    FreshResumes(p.body, Top(q), BodyEnv(p, env, v0), mk, v);
  }

  lemma KeptTrans(p: Prog, q: Pos, v0: Nv, v1: Nv, v: Nv)
    requires Kept(p, q, v0, v1) && Kept(p, q, v1, v)
    ensures Kept(p, q, v0, v)
  {
  }

  lemma KeptRefl(p: Prog, q: Pos, v: Nv)
    requires q.off <= |v.bytes|
    ensures Kept(p, q, v, v)
  {
  }

  /** At the end of an iteration only the position and the loop's own counter have changed. */
  lemma KeptAtEnd(p: Prog, q: Pos, v0: Nv, v1: Nv, v: Nv)
    requires p.For? && Kept(p, q, v0, v1)
    requires v.bytes == v1.bytes && forall c :: c in v1.ctr && c != p.c ==> c in v.ctr && v.ctr[c] == v1.ctr[c]
    ensures Kept(p, q, v0, v)
  {
  }

  /** What the body of a loop needs is what the loop needs. */
  lemma IterStart(p: Prog, q: Pos, env: Env, m: Mem, v: Nv, mk: Mem, space: nat)
    requires p.For? && Steps(p) && Wf(p) && Fits(p, q, space)
    requires InLoop(p, q, env, m, v, mk) && v.ctr[p.c] < p.end(env)
    ensures Steps(p.body) && Wf(p.body) && Fits(p.body, Top(q), space) && p.c !in Loops(p.body)
    ensures Resume(p.body, Top(q), BodyEnv(p, env, v), mk, v)
    ensures Depth(p) == 1 + Depth(p.body)
  {
  }

  lemma ResumedToTheEnd(p: Prog, q: Pos, env: Env, m: Mem, v0: Nv, v: Nv)
    requires Steps(p) && Resume(p, q, env, m, v0) && Finished(p, q, env, m, v0, v)
    ensures Completed(p, q, env, m, v) && v.tail == After(p, q)
  {
  }
}
