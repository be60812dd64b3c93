/** Whole transactions made of handle operations: which runs keep the discipline, with lenders as the source leaves
    them and with lenders tracked. */
module HandleRuns {
  import opened TxPrograms
  import opened LogElision
  import opened HandleRules

  /** Each operation is admitted by the states the ones before it leave. */
  predicate Admitted(rule: Rule, hs: seq<Slot>, ops: seq<Op>)
    decreases |ops|
  {
    ops == [] || (Admits(hs, ops[0]) && Admitted(rule, NextHandles(rule, hs, ops[0]), ops[1..]))
  }

  function HandlesAfter(rule: Rule, hs: seq<Slot>, ops: seq<Op>): seq<Slot>
    requires Admitted(rule, hs, ops)
    decreases |ops|
  {
    if ops == [] then hs else HandlesAfter(rule, NextHandles(rule, hs, ops[0]), ops[1..])
  }

  function AllAccesses(rule: Rule, hs: seq<Slot>, ops: seq<Op>): seq<Access>
    requires Admitted(rule, hs, ops)
    decreases |ops|
  {
    if ops == [] then []
    else Accesses(hs, ops[0]) + AllAccesses(rule, NextHandles(rule, hs, ops[0]), ops[1..])
  }

  lemma OneByOne(rule: Rule, hs: seq<Slot>, ops: seq<Op>, acts: seq<Access>)
    requires ops != [] && Admitted(rule, hs, ops)
    ensures
      var now := Accesses(hs, ops[0]);
      acts + AllAccesses(rule, hs, ops)
      == (acts + now) + AllAccesses(rule, NextHandles(rule, hs, ops[0]), ops[1..])
  {
  }

  lemma {:induction false} PrefixIsDisciplined(acts: seq<Access>, n: nat)
    requires Disciplined(acts) && n <= |acts|
    ensures Disciplined(acts[..n])
    decreases |acts| - n
  {
    if n == |acts| {
      assert acts[..n] == acts;
    } else {
      PrefixIsDisciplined(acts, n + 1);
      assert acts[..n + 1][..n] == acts[..n];
    }
  }

  lemma BrokenStays(acts: seq<Access>, more: seq<Access>)
    ensures Disciplined(acts + more) ==> Disciplined(acts)
  {
    if Disciplined(acts + more) {
      PrefixIsDisciplined(acts + more, |acts|);
      assert (acts + more)[..|acts|] == acts;
    }
  }

  // ---------- exactly which runs keep the discipline ----------

  /** What a run knows about locations before each of its operations: read when they needed a record, and stored or
      logged so that they need none. */
  datatype Known = Known(dirty: set<int>, free: set<int>)

  /** The check before an operation: it does not store to a location that was read and has no record. */
  predicate IsClean(c: Known, hs: seq<Slot>, op: Op)
    requires Admits(hs, op)
  {
    KindOf(op) == Writing ==> forall a :: a in Reached(hs, op) ==> a !in c.dirty
  }

  function Learn(c: Known, hs: seq<Slot>, op: Op): Known
    requires Admits(hs, op)
  {
    var t := Reached(hs, op);
    if KindOf(op) == Reading then Known(c.dirty + (t - c.free), c.free) else Known(c.dirty - t, c.free + t)
  }

  predicate AllClean(rule: Rule, hs: seq<Slot>, ops: seq<Op>, c: Known)
    requires Admitted(rule, hs, ops)
    decreases |ops|
  {
    ops == [] || (IsClean(c, hs, ops[0]) && AllClean(rule, NextHandles(rule, hs, ops[0]), ops[1..], Learn(c, hs, ops[0])))
  }

  ghost predicate Knows(c: Known, acts: seq<Access>) {
    c.free == Defined(acts) + Logged(acts) && c.dirty == Touched(acts) - c.free
  }

  lemma OpIsClean(c: Known, hs: seq<Slot>, op: Op, acts: seq<Access>)
    requires Admits(hs, op) && Knows(c, acts) && Disciplined(acts)
    ensures IsClean(c, hs, op) <==> Disciplined(acts + Accesses(hs, op))
    ensures IsClean(c, hs, op) ==> Knows(Learn(c, hs, op), acts + Accesses(hs, op))
  {
    hide Touched, Logged, Defined, Disciplined, Accesses, Reached;
    OpDid(hs, op, acts);
    var t, acts' := Reached(hs, op), acts + Accesses(hs, op);
    assert forall a :: MayStore(acts, a) <==> a !in c.dirty;
    assert forall a :: a in t ==> (MayStore(acts, a) <==> a !in c.dirty);
    if IsClean(c, hs, op) && KindOf(op) == Writing {
      forall a | a in t
        ensures a in Defined(acts') + Logged(acts')
      {
        assert MayStore(acts, a);
      }
      assert Defined(acts') + Logged(acts') == c.free + t;
    }
  }

  /** For every run, with lenders as the source leaves them or tracked: it keeps the discipline if and only if no
      operation stores to a location that an earlier one has read and none has stored or logged before that. */
  lemma {:induction false} CleanIffDisciplined(rule: Rule, hs: seq<Slot>, ops: seq<Op>, c: Known, acts: seq<Access>)
    requires Admitted(rule, hs, ops) && Knows(c, acts) && Disciplined(acts)
    ensures Disciplined(acts + AllAccesses(rule, hs, ops)) <==> AllClean(rule, hs, ops, c)
    decreases |ops|
  {
    hide Knows, Disciplined, IsClean, Learn, Admits, NextHandles, Accesses;
    if ops == [] {
      assert acts + [] == acts;
    } else {
      var now := acts + Accesses(hs, ops[0]);
      OpIsClean(c, hs, ops[0], acts);
      OneByOne(rule, hs, ops, acts);
      if IsClean(c, hs, ops[0]) {
        CleanIffDisciplined(rule, NextHandles(rule, hs, ops[0]), ops[1..], Learn(c, hs, ops[0]), now);
      } else {
        BrokenStays(now, AllAccesses(rule, NextHandles(rule, hs, ops[0]), ops[1..]));
      }
    }
  }

  /** A transaction begins with nothing known. */
  lemma SourceRuns(hs: seq<Slot>, ops: seq<Op>)
    requires Admitted(AsSource, hs, ops)
    ensures Disciplined(AllAccesses(AsSource, hs, ops)) <==> AllClean(AsSource, hs, ops, Known({}, {}))
  {
    assert Knows(Known({}, {}), []);
    CleanIffDisciplined(AsSource, hs, ops, Known({}, {}), []);
    assert [] + AllAccesses(AsSource, hs, ops) == AllAccesses(AsSource, hs, ops);
  }

  // ---------- what logging is for ----------

  ghost predicate AreStores(ops: seq<Op>, i: nat, size: nat) {
    forall op :: op in ops ==> op.StoreField? && op.i == i && op.field < size
  }

  /** Stores through a `PtrRW` on an object that is clean are admitted, clean, and leave both so. */
  lemma {:induction false} StoresAreClean(rule: Rule, hs: seq<Slot>, i: nat, c: Known, stores: seq<Op>)
    requires i < |hs| && hs[i].h == PtrRW && AreStores(stores, i, hs[i].obj.size)
    requires forall a :: hs[i].obj.Has(a) ==> a !in c.dirty
    ensures Admitted(rule, hs, stores) && AllClean(rule, hs, stores, c)
    decreases |stores|
  {
    if stores != [] {
      assert stores[0] in stores;
      assert AreStores(stores[1..], i, hs[i].obj.size);
      StoresAreClean(rule, hs, i, Learn(c, hs, stores[0]), stores[1..]);
    }
  }

  /** Behind a log record of the whole object, read or not, every store to a field of it is admitted and clean. */
  lemma LoggedIsOpen(rule: Rule, hs: seq<Slot>, i: nat, c: Known, stores: seq<Op>)
    requires i < |hs| && hs[i].h in {Ptr, PtrWLog, PtrRW} && AreStores(stores, i, hs[i].obj.size)
    ensures var ops := [ReadAll(i), LogAll(i)] + stores; Admitted(rule, hs, ops) && AllClean(rule, hs, ops, c)
  {
    hide AllClean, Admitted, Reached;
    var ops := [ReadAll(i), LogAll(i)] + stores;
    var hs1, c1 := NextHandles(rule, hs, ReadAll(i)), Learn(c, hs, ReadAll(i));
    var hs2, c2 := NextHandles(rule, hs1, LogAll(i)), Learn(c1, hs1, LogAll(i));
    LogIsReach(hs1, i);
    StoresAreClean(rule, hs2, i, c2, stores);
    assert ops[0] == ReadAll(i) && ops[1..] == [LogAll(i)] + stores && ops[1..][1..] == stores;
    OneCleanMore(rule, hs1, ops[1..], c1);
    OneCleanMore(rule, hs, ops, c);
  }

  lemma LogIsReach(hs: seq<Slot>, i: nat)
    requires i < |hs| && Admits(hs, LogAll(i))
    ensures KindOf(LogAll(i)) == Logging && forall a :: a in Reached(hs, LogAll(i)) <==> hs[i].obj.Has(a)
  {
  }

  lemma OneCleanMore(rule: Rule, hs: seq<Slot>, ops: seq<Op>, c: Known)
    requires ops != [] && Admits(hs, ops[0]) && IsClean(c, hs, ops[0])
    requires Admitted(rule, NextHandles(rule, hs, ops[0]), ops[1..])
    requires AllClean(rule, NextHandles(rule, hs, ops[0]), ops[1..], Learn(c, hs, ops[0]))
    ensures Admitted(rule, hs, ops) && AllClean(rule, hs, ops, c)
  {
  }

  // ---------- tracked lenders ----------

  /** Whatever sequence of operations is admitted with lenders tracked, the discipline holds after it. */
  lemma {:induction false} RunKeeps(hs: seq<Slot>, ops: seq<Op>, acts: seq<Access>)
    requires BorneOut(hs, acts) && Disciplined(acts) && Admitted(Tracked, hs, ops)
    ensures Disciplined(acts + AllAccesses(Tracked, hs, ops))
    ensures BorneOut(HandlesAfter(Tracked, hs, ops), acts + AllAccesses(Tracked, hs, ops))
    decreases |ops|
  {
    hide BorneOut, Disciplined, Admits, NextHandles, Accesses;
    if ops == [] {
      assert acts + [] == acts;
    } else {
      OpKeeps(hs, ops[0], acts);
      RunKeeps(NextHandles(Tracked, hs, ops[0]), ops[1..], acts + Accesses(hs, ops[0]));
      OneByOne(Tracked, hs, ops, acts);
    }
  }

  /** The states of the handles do not matter for what is accessed. */
  ghost predicate SameObjects(hs: seq<Slot>, ht: seq<Slot>) {
    |hs| == |ht| && forall i :: 0 <= i < |hs| ==>
      hs[i].obj == ht[i].obj && hs[i].lender == ht[i].lender && hs[i].isStatic == ht[i].isStatic
  }

  /** What a step does to the objects, whatever it does to the states. */
  lemma ObjectsAfter(r: Rule, hs: seq<Slot>, op: Op)
    requires Admits(hs, op)
    ensures SameObjects(NextHandles(r, hs, op), if op.Lend? then hs + [Slot(hs[op.i].obj, Ptr, op.i, false)] else hs)
  {
  }

  lemma SameStep(r: Rule, r': Rule, hs: seq<Slot>, ht: seq<Slot>, op: Op)
    requires Admits(hs, op) && Admits(ht, op) && SameObjects(hs, ht)
    ensures Accesses(hs, op) == Accesses(ht, op) && SameObjects(NextHandles(r, hs, op), NextHandles(r', ht, op))
  {
    hide NextHandles, Cells;
    ObjectsAfter(r, hs, op);
    ObjectsAfter(r', ht, op);
  }

  lemma {:induction false} SameAccesses(r: Rule, r': Rule, hs: seq<Slot>, ht: seq<Slot>, ops: seq<Op>)
    requires Admitted(r, hs, ops) && Admitted(r', ht, ops) && SameObjects(hs, ht)
    ensures AllAccesses(r, hs, ops) == AllAccesses(r', ht, ops)
    decreases |ops|
  {
    hide SameObjects, NextHandles, Accesses, Admits;
    if ops != [] {
      SameStep(r, r', hs, ht, ops[0]);
      SameAccesses(r, r', NextHandles(r, hs, ops[0]), NextHandles(r', ht, ops[0]), ops[1..]);
    }
  }

  /** A run of the source that tracked lenders admit as well keeps the discipline. */
  lemma TrackedSourceRuns(hs: seq<Slot>, ops: seq<Op>)
    requires Fresh(hs) && Admitted(AsSource, hs, ops) && Admitted(Tracked, hs, ops)
    ensures Disciplined(AllAccesses(AsSource, hs, ops))
  {
    hide Fresh, BorneOut, Disciplined, Admitted;
    FreshIsBorneOut(hs);
    RunKeeps(hs, ops, []);
    SameAccesses(AsSource, Tracked, hs, hs, ops);
    assert [] + AllAccesses(Tracked, hs, ops) == AllAccesses(Tracked, hs, ops);
  }

  // ---------- what tracking has to know ----------

  /** The first operation, then the rest. */
  lemma FirstOp(rule: Rule, hs: seq<Slot>, op: Op, rest: seq<Op>)
    requires Admits(hs, op)
    ensures Admitted(rule, hs, [op] + rest) == Admitted(rule, NextHandles(rule, hs, op), rest)
    ensures Admitted(rule, hs, [op] + rest) ==>
              AllAccesses(rule, hs, [op] + rest) == Accesses(hs, op) + AllAccesses(rule, NextHandles(rule, hs, op), rest)
  {
    assert ([op] + rest)[0] == op && ([op] + rest)[1..] == rest;
  }

  /** A run of one operation behind `acts`. */
  lemma OneOp(rule: Rule, hs: seq<Slot>, op: Op)
    requires Admits(hs, op)
    ensures Admitted(rule, hs, [op]) && AllAccesses(rule, hs, [op]) == Accesses(hs, op)
  {
    FirstOp(rule, hs, op, []);
    assert [op] + [] == [op];
  }

  /** A store to a location that was read and needs a record leaves the discipline. */
  lemma StoreFails(rule: Rule, hs: seq<Slot>, i: nat, a: int, acts: seq<Access>) returns (op: Op)
    requires i < |hs| && hs[i].h in {Ptr, PtrRW} && hs[i].obj.Has(a) && !MayStore(acts, a)
    requires hs[i].h == Ptr ==> !hs[i].isStatic
    ensures Admits(hs, op) && !Disciplined(acts + Accesses(hs, op))
  {
    hide MayStore, Disciplined;
    op := StoreField(i, a - hs[i].obj.at, 0);
    OpDid(hs, op, acts);
  }

  /** Through an open `Ptr` or `PtrRW`, lent first if it is that of a static, such a store can be made. */
  lemma DirtyStoreFails(rule: Rule, hs: seq<Slot>, i: nat, a: int, acts: seq<Access>) returns (ops: seq<Op>)
    requires i < |hs| && hs[i].h in {Ptr, PtrRW} && hs[i].obj.Has(a) && !MayStore(acts, a)
    requires hs[i].isStatic ==> hs[i].lender < 0
    ensures Admitted(rule, hs, ops) && !Disciplined(acts + AllAccesses(rule, hs, ops))
  {
    hide MayStore, Disciplined, Admitted, AllAccesses, Accesses;
    if hs[i].h == Ptr && hs[i].isStatic {
      var lent := NextHandles(rule, hs, Lend(i));
      var store := StoreFails(rule, lent, |hs|, a, acts);
      ops := [Lend(i)] + [store];
      FirstOp(rule, hs, Lend(i), [store]);
      OneOp(rule, lent, store);
      LendDoesNothing(hs, i);
      assert [] + Accesses(lent, store) == Accesses(lent, store);
    } else {
      var store := StoreFails(rule, hs, i, a, acts);
      ops := [store];
      OneOp(rule, hs, store);
    }
  }

  lemma LendDoesNothing(hs: seq<Slot>, i: nat)
    requires Admits(hs, Lend(i))
    ensures Accesses(hs, Lend(i)) == []
  {
  }

  /** The same behind a reading operation. */
  lemma ReadThenStoreFails(hs: seq<Slot>, j: nat, i: nat, a: int, acts: seq<Access>) returns (ops: seq<Op>)
    requires i < |hs| && j < |hs| && hs[j].h != Closed && hs[j].obj.Has(a) && hs[i].obj.Has(a) && !IsFree(acts, a)
    requires if i == j then hs[i].h == PtrRW else hs[i].h == Ptr
    requires hs[i].isStatic ==> hs[i].lender < 0
    ensures Admitted(Tracked, hs, ops) && !Disciplined(acts + AllAccesses(Tracked, hs, ops))
  {
    hide Disciplined, Touched, Logged, Defined, Admitted, AllAccesses, Accesses;
    var read := ReadAll(j);
    var next, acts' := NextHandles(Tracked, hs, read), acts + Accesses(hs, read);
    OpDid(hs, read, acts);
    assert a in Reached(hs, read) && !MayStore(acts', a);
    var rest := DirtyStoreFails(Tracked, next, i, a, acts');
    ops := [read] + rest;
    FirstOp(Tracked, hs, read, rest);
    assert acts + (Accesses(hs, read) + AllAccesses(Tracked, next, rest)) == acts' + AllAccesses(Tracked, next, rest);
  }

  ghost predicate AlwaysDisciplined(hs: seq<Slot>, acts: seq<Access>) {
    forall ops :: Admitted(Tracked, hs, ops) ==> Disciplined(acts + AllAccesses(Tracked, hs, ops))
  }

  lemma UnclaimedFails(hs: seq<Slot>, i: nat, acts: seq<Access>) returns (ops: seq<Op>)
    requires LoansOk(hs) && i < |hs| && !Claim(hs, i, acts)
    ensures Admitted(Tracked, hs, ops) && !Disciplined(acts + AllAccesses(Tracked, hs, ops))
  {
    hide Admitted, AllAccesses, Disciplined, MayStore, IsFree;
    var h, o := hs[i].h, hs[i].obj;
    if h == PtrRW {
      var a :| o.Has(a) && !IsFree(acts, a);
      ops := ReadThenStoreFails(hs, i, i, a, acts);
    } else if !HandleOk(h, o, acts) {
      var a :| o.Has(a) && !MayStore(acts, a);
      ops := DirtyStoreFails(Tracked, hs, i, a, acts);
    } else {
      var j, a :| 0 <= j < |hs| && j != i && hs[j].h != Closed && hs[j].obj.Has(a) && o.Has(a) && !IsFree(acts, a);
      ops := ReadThenStoreFails(hs, j, i, a, acts);
    }
  }

  /** What tracking keeps is exactly what is needed: all admitted runs from here keep the discipline if and only if
      every open handle is borne out and no `Ptr` shares a location that still needs a record with another open
      handle. In particular a static that has lent a `Ptr` must neither lend another nor be read. */
  lemma BorneOutIffAlwaysDisciplined(hs: seq<Slot>, acts: seq<Access>)
    requires LoansOk(hs) && Disciplined(acts)
    ensures BorneOut(hs, acts) <==> AlwaysDisciplined(hs, acts)
  {
    hide Admitted, AllAccesses, Disciplined, Claim, LoansOk;
    if BorneOut(hs, acts) {
      forall ops | Admitted(Tracked, hs, ops)
        ensures Disciplined(acts + AllAccesses(Tracked, hs, ops))
      {
        RunKeeps(hs, ops, acts);
      }
    } else {
      var i :| 0 <= i < |hs| && !Claim(hs, i, acts);
      var ops := UnclaimedFails(hs, i, acts);
    }
  }
  // ---------- transactions written with handles ----------

  /** Whatever it reads, a body reaches its objects through handle operations only, of which the last may be cut. */
  ghost predicate Uses(rule: Rule, hs: seq<Slot>, b: Body) {
    forall env: Env, m: Mem, k: nat ::
      exists ops :: Admitted(rule, hs, ops) && RunFor(b, env, m, k).acts <= AllAccesses(rule, hs, ops)
  }

  /** The same with the handles of the source, each operation checked. */
  ghost predicate UsesCleanly(hs: seq<Slot>, b: Body) {
    forall env: Env, m: Mem, k: nat ::
      exists ops ::
        && Admitted(AsSource, hs, ops) && AllClean(AsSource, hs, ops, Known({}, {}))
        && RunFor(b, env, m, k).acts <= AllAccesses(AsSource, hs, ops)
  }

  lemma CutIsDisciplined(all: seq<Access>, acts: seq<Access>)
    requires Disciplined(all) && acts <= all
    ensures Disciplined(acts)
  {
    PrefixIsDisciplined(all, |acts|);
    assert all[..|acts|] == acts;
  }

  lemma CleanProgramsElide(hs: seq<Slot>, b: Body)
    requires UsesCleanly(hs, b)
    ensures Elides(b)
  {
    hide Disciplined, RunFor, Admitted, AllAccesses, AllClean;
    forall env: Env, m: Mem, k: nat
      ensures Disciplined(RunFor(b, env, m, k).acts)
    {
      var ops :| Admitted(AsSource, hs, ops) && AllClean(AsSource, hs, ops, Known({}, {}))
        && RunFor(b, env, m, k).acts <= AllAccesses(AsSource, hs, ops);
      SourceRuns(hs, ops);
      CutIsDisciplined(AllAccesses(AsSource, hs, ops), RunFor(b, env, m, k).acts);
    }
  }

  /** A transaction written with the handles of the source may be cut anywhere, rolled back and run again, if none of
      its runs stores to a location that it has read and neither stored nor logged before. */
  lemma HandleProgramsRestart(hs: seq<Slot>, b: Body, n: nat, size: nat)
    requires UsesCleanly(hs, b) && Returns(b, n, size)
    ensures IsRestartable(ClosureOf(b, n), size)
  {
    CleanProgramsElide(hs, b);
    ElidedIsRestartable(b, n, size);
  }

  lemma TrackedElide(hs: seq<Slot>, b: Body)
    requires Fresh(hs) && Uses(Tracked, hs, b)
    ensures Elides(b)
  {
    hide Disciplined, RunFor, Fresh, BorneOut, Admitted, AllAccesses;
    FreshIsBorneOut(hs);
    forall env: Env, m: Mem, k: nat
      ensures Disciplined(RunFor(b, env, m, k).acts)
    {
      var ops :| Admitted(Tracked, hs, ops) && RunFor(b, env, m, k).acts <= AllAccesses(Tracked, hs, ops);
      RunKeeps(hs, ops, []);
      assert [] + AllAccesses(Tracked, hs, ops) == AllAccesses(Tracked, hs, ops);
      CutIsDisciplined(AllAccesses(Tracked, hs, ops), RunFor(b, env, m, k).acts);
    }
  }

  /** With lenders tracked nothing has to be checked. */
  lemma TrackedProgramsRestart(hs: seq<Slot>, b: Body, n: nat, size: nat)
    requires Fresh(hs) && Uses(Tracked, hs, b) && Returns(b, n, size)
    ensures IsRestartable(ClosureOf(b, n), size)
  {
    TrackedElide(hs, b);
    ElidedIsRestartable(b, n, size);
  }

  // ---------- lenders as the source leaves them ----------

  /** How a transaction begins: with owners and statics nothing has been done through. */
  ghost predicate Starts(hs: seq<Slot>) {
    forall i :: 0 <= i < |hs| ==> hs[i].h == Ptr && hs[i].lender < 0
  }

  ghost predicate NeedNothing(hs: seq<Slot>, acts: seq<Access>) {
    forall i, a {:trigger hs[i], IsFree(acts, a)} :: 0 <= i < |hs| && hs[i].obj.Has(a) ==> IsFree(acts, a)
  }

  /** Where an object has a location that needs a record, its owner can lend it, have it read, take it back and store;
      a static can be read, and then lend. */
  lemma LoanFails(hs: seq<Slot>, i: nat, a: int, acts: seq<Access>) returns (ops: seq<Op>)
    requires Starts(hs) && i < |hs| && hs[i].obj.Has(a) && !IsFree(acts, a)
    ensures Admitted(AsSource, hs, ops) && !Disciplined(acts + AllAccesses(AsSource, hs, ops))
  {
    hide Disciplined, Touched, Logged, Defined, Admitted, AllAccesses, Accesses;
    var n := |hs|;
    if hs[i].isStatic {
      var read := ReadAll(i);
      var next, acts' := NextHandles(AsSource, hs, read), acts + Accesses(hs, read);
      OpDid(hs, read, acts);
      assert a in Reached(hs, read) && !MayStore(acts', a);
      var rest := DirtyStoreFails(AsSource, next, i, a, acts');
      ops := Then(AsSource, hs, read, rest, acts);
    } else {
      var hs1 := NextHandles(AsSource, hs, Lend(i));
      var acts1 := acts + Accesses(hs, Lend(i));
      OpDid(hs, Lend(i), acts);
      var hs2 := NextHandles(AsSource, hs1, ReadAll(n));
      var acts2 := acts1 + Accesses(hs1, ReadAll(n));
      OpDid(hs1, ReadAll(n), acts1);
      assert a in Reached(hs1, ReadAll(n)) && !MayStore(acts2, a);
      var hs3 := NextHandles(AsSource, hs2, GiveBack(n));
      var acts3 := acts2 + Accesses(hs2, GiveBack(n));
      OpDid(hs2, GiveBack(n), acts2);
      var rest := DirtyStoreFails(AsSource, hs3, i, a, acts3);
      rest := Then(AsSource, hs2, GiveBack(n), rest, acts2);
      rest := Then(AsSource, hs1, ReadAll(n), rest, acts1);
      ops := Then(AsSource, hs, Lend(i), rest, acts);
    }
  }

  lemma Then(rule: Rule, hs: seq<Slot>, op: Op, rest: seq<Op>, acts: seq<Access>) returns (ops: seq<Op>)
    requires Admits(hs, op) && Admitted(rule, NextHandles(rule, hs, op), rest)
    requires !Disciplined((acts + Accesses(hs, op)) + AllAccesses(rule, NextHandles(rule, hs, op), rest))
    ensures Admitted(rule, hs, ops) && !Disciplined(acts + AllAccesses(rule, hs, ops))
  {
    hide Disciplined, NextHandles, Admits, Accesses;
    ops := [op] + rest;
    FirstOp(rule, hs, op, rest);
    assert acts + (Accesses(hs, op) + AllAccesses(rule, NextHandles(rule, hs, op), rest))
        == (acts + Accesses(hs, op)) + AllAccesses(rule, NextHandles(rule, hs, op), rest);
  }

  /** Where no location needs a record any more, nothing can go wrong. */
  lemma {:induction false} FreeRuns(rule: Rule, hs: seq<Slot>, ops: seq<Op>, acts: seq<Access>)
    requires Admitted(rule, hs, ops) && Disciplined(acts) && NeedNothing(hs, acts)
    ensures Disciplined(acts + AllAccesses(rule, hs, ops))
    decreases |ops|
  {
    hide Disciplined, Touched, Logged, Defined, NextHandles, Accesses, SameObjects, NeedNothing;
    if ops == [] {
      assert acts + [] == acts;
    } else {
      var next, acts' := NextHandles(rule, hs, ops[0]), acts + Accesses(hs, ops[0]);
      FreeStep(rule, hs, ops[0], acts);
      FreeRuns(rule, next, ops[1..], acts');
      OneByOne(rule, hs, ops, acts);
    }
  }

  lemma FreeStep(rule: Rule, hs: seq<Slot>, op: Op, acts: seq<Access>)
    requires Admits(hs, op) && Disciplined(acts) && NeedNothing(hs, acts)
    ensures Disciplined(acts + Accesses(hs, op)) && NeedNothing(NextHandles(rule, hs, op), acts + Accesses(hs, op))
  {
    hide Disciplined, Touched, Logged, Defined, NextHandles, Accesses;
    OpDid(hs, op, acts);
    ObjectsAfter(rule, hs, op);
    var next, acts' := NextHandles(rule, hs, op), acts + Accesses(hs, op);
    assert forall a :: a in Reached(hs, op) ==> hs[op.i].obj.Has(a) && IsFree(acts, a);
    forall i, a {:trigger next[i], IsFree(acts', a)} | 0 <= i < |next| && next[i].obj.Has(a)
      ensures IsFree(acts', a)
    {
      var was := if i < |hs| then hs[i] else hs[op.i];
      assert was.obj == next[i].obj && IsFree(acts, a);
    }
  }

  /** From its beginning, all runs that the source admits keep the discipline if and only if there is nothing that
      needs a record: any object with contents can be misused. */
  lemma SourceAlwaysDisciplinedIff(hs: seq<Slot>, acts: seq<Access>)
    requires Starts(hs) && Disciplined(acts)
    ensures (forall ops :: Admitted(AsSource, hs, ops) ==> Disciplined(acts + AllAccesses(AsSource, hs, ops)))
            <==> NeedNothing(hs, acts)
  {
    hide Disciplined, Admitted, AllAccesses, IsFree, Starts;
    if NeedNothing(hs, acts) {
      forall ops | Admitted(AsSource, hs, ops)
        ensures Disciplined(acts + AllAccesses(AsSource, hs, ops))
      {
        FreeRuns(AsSource, hs, ops, acts);
      }
    } else {
      var i, a :| 0 <= i < |hs| && hs[i].obj.Has(a) && !IsFree(acts, a);
      var ops := LoanFails(hs, i, a, acts);
    }
  }

  const CELL := Obj(0, 1)

  /** Three runs that read a location and then store to it without a record: an owner lends its object, the borrower
      reads, the loan ends and the owner writes; a static lends twice, one borrower reads and the other writes;
      a static is read directly, then lent, and the borrower writes. */
  function OwnerRun(v: int): seq<Op> {
    [Lend(0), ReadAll(1), GiveBack(1), Write(0, [v])]
  }

  function TwoLoansRun(v: int): seq<Op> {
    [Lend(0), Lend(0), ReadAll(1), Write(2, [v])]
  }

  function ShownRun(v: int): seq<Op> {
    [ReadAll(0), Lend(0), Write(1, [v])]
  }

  lemma OneCell(kind: Kind)
    ensures Cells(kind, CELL, CELL.size) == [AccessAt(kind, 0)]
  {
    assert Cells(kind, CELL, 0) == [];
  }

  lemma LastWrite(rule: Rule, hs: seq<Slot>, i: nat, v: int)
    requires i < |hs| && hs[i].obj == CELL && !hs[i].isStatic
    ensures Admitted(rule, hs, [Write(i, [v])]) == (hs[i].h == Ptr)
    ensures hs[i].h == Ptr ==> AllAccesses(rule, hs, [Write(i, [v])]) == [Writes(0)]
  {
    OneCell(Writing);
    if hs[i].h == Ptr {
      FirstOp(rule, hs, Write(i, [v]), []);
      assert [Write(i, [v])] + [] == [Write(i, [v])];
    }
  }

  lemma OwnerFails(v: int)
    ensures var hs := [Slot(CELL, Ptr, -1, false)];
            && Fresh(hs) && !Admitted(Tracked, hs, OwnerRun(v))
            && Admitted(AsSource, hs, OwnerRun(v)) && AllAccesses(AsSource, hs, OwnerRun(v)) == [Reads(0), Writes(0)]
  {
    OneCell(Reading);
    var hs := [Slot(CELL, Ptr, -1, false)];
    forall rule: Rule
      ensures Admitted(rule, hs, OwnerRun(v)) == rule.AsSource?
      ensures rule.AsSource? ==> AllAccesses(rule, hs, OwnerRun(v)) == [Reads(0), Writes(0)]
    {
      FirstOp(rule, hs, Lend(0), [ReadAll(1), GiveBack(1), Write(0, [v])]);
      var hs1 := NextHandles(rule, hs, Lend(0));
      FirstOp(rule, hs1, ReadAll(1), [GiveBack(1), Write(0, [v])]);
      var hs2 := NextHandles(rule, hs1, ReadAll(1));
      FirstOp(rule, hs2, GiveBack(1), [Write(0, [v])]);
      LastWrite(rule, NextHandles(rule, hs2, GiveBack(1)), 0, v);
      assert OwnerRun(v) == [Lend(0)] + [ReadAll(1), GiveBack(1), Write(0, [v])];
      assert [ReadAll(1), GiveBack(1), Write(0, [v])] == [ReadAll(1)] + [GiveBack(1), Write(0, [v])];
      assert [GiveBack(1), Write(0, [v])] == [GiveBack(1)] + [Write(0, [v])];
    }
  }

  lemma ShownStaticFails(v: int)
    ensures var hs := [Slot(CELL, Ptr, -1, true)];
            && Fresh(hs) && !Admitted(Tracked, hs, ShownRun(v))
            && Admitted(AsSource, hs, ShownRun(v)) && AllAccesses(AsSource, hs, ShownRun(v)) == [Reads(0), Writes(0)]
  {
    OneCell(Reading);
    var hs := [Slot(CELL, Ptr, -1, true)];
    forall rule: Rule
      ensures Admitted(rule, hs, ShownRun(v)) == rule.AsSource?
      ensures rule.AsSource? ==> AllAccesses(rule, hs, ShownRun(v)) == [Reads(0), Writes(0)]
    {
      FirstOp(rule, hs, ReadAll(0), [Lend(0), Write(1, [v])]);
      var hs1 := NextHandles(rule, hs, ReadAll(0));
      FirstOp(rule, hs1, Lend(0), [Write(1, [v])]);
      LastWrite(rule, NextHandles(rule, hs1, Lend(0)), 1, v);
      assert ShownRun(v) == [ReadAll(0)] + [Lend(0), Write(1, [v])];
      assert [Lend(0), Write(1, [v])] == [Lend(0)] + [Write(1, [v])];
    }
  }

  lemma TwiceLentStaticFails(v: int)
    ensures var hs := [Slot(CELL, Ptr, -1, true)];
            && Fresh(hs) && !Admitted(Tracked, hs, TwoLoansRun(v))
            && Admitted(AsSource, hs, TwoLoansRun(v)) && AllAccesses(AsSource, hs, TwoLoansRun(v)) == [Reads(0), Writes(0)]
  {
    OneCell(Reading);
    var hs := [Slot(CELL, Ptr, -1, true)];
    forall rule: Rule
      ensures Admitted(rule, hs, TwoLoansRun(v)) == rule.AsSource?
      ensures rule.AsSource? ==> AllAccesses(rule, hs, TwoLoansRun(v)) == [Reads(0), Writes(0)]
    {
      FirstOp(rule, hs, Lend(0), [Lend(0), ReadAll(1), Write(2, [v])]);
      assert TwoLoansRun(v) == [Lend(0)] + [Lend(0), ReadAll(1), Write(2, [v])];
      var hs1 := NextHandles(rule, hs, Lend(0));
      if rule.AsSource? {
        FirstOp(rule, hs1, Lend(0), [ReadAll(1), Write(2, [v])]);
        var hs2 := NextHandles(rule, hs1, Lend(0));
        FirstOp(rule, hs2, ReadAll(1), [Write(2, [v])]);
        LastWrite(rule, NextHandles(rule, hs2, ReadAll(1)), 2, v);
        assert [Lend(0), ReadAll(1), Write(2, [v])] == [Lend(0)] + [ReadAll(1), Write(2, [v])];
        assert [ReadAll(1), Write(2, [v])] == [ReadAll(1)] + [Write(2, [v])];
      }
    }
  }

  /** A loan through which the object was stored as a whole leaves its owner a `Ptr` rightly: tracking admits it too. */
  lemma StoredLoanIsFine(v: int, w: int)
    ensures var hs := [Slot(CELL, Ptr, -1, false)];
            var ops := [Lend(0), Write(1, [v]), GiveBack(1), Write(0, [w])];
            Admitted(AsSource, hs, ops) && Admitted(Tracked, hs, ops) && Disciplined(AllAccesses(AsSource, hs, ops))
  {
    var hs := [Slot(CELL, Ptr, -1, false)];
    var ops := [Lend(0), Write(1, [v]), GiveBack(1), Write(0, [w])];
    forall rule: Rule
      ensures Admitted(rule, hs, ops)
    {
      FirstOp(rule, hs, Lend(0), [Write(1, [v]), GiveBack(1), Write(0, [w])]);
      var hs1 := NextHandles(rule, hs, Lend(0));
      FirstOp(rule, hs1, Write(1, [v]), [GiveBack(1), Write(0, [w])]);
      var hs2 := NextHandles(rule, hs1, Write(1, [v]));
      FirstOp(rule, hs2, GiveBack(1), [Write(0, [w])]);
      LastWrite(rule, NextHandles(rule, hs2, GiveBack(1)), 0, w);
      assert ops == [Lend(0)] + [Write(1, [v]), GiveBack(1), Write(0, [w])];
      assert [Write(1, [v]), GiveBack(1), Write(0, [w])] == [Write(1, [v])] + [GiveBack(1), Write(0, [w])];
      assert [GiveBack(1), Write(0, [w])] == [GiveBack(1)] + [Write(0, [w])];
    }
    TrackedSourceRuns(hs, ops);
  }

  lemma {:induction false} BumpActs(env: Env, m: Mem, k: nat)
    ensures RunFor(Bump(), env, m, k).acts <= [Reads(0), Writes(0)]
    ensures k >= 2 ==> RunFor(Bump(), env, m, k) == RunFor(Bump(), env, m, 2)
  {
    BumpRuns(m, env);
    if k > 2 {
      BumpActs(env, m, k - 1);
    } else if k == 1 {
      assert RunFor(Bump(), env, m, 0) == Progress([], [], []);
      assert RunFor(Bump(), env, m, 1).acts == [Reads(0)];
    }
  }

  /** A body that reads a location and stores its successor without a record can be written with the handles of the
      source, on an owned object and on a static, and is not restartable: a failure behind its store, rollback and
      a second run store again. With lenders tracked it cannot be written. */
  lemma LoansAsInSourceFail(isStatic: bool)
    ensures var hs := [Slot(CELL, Ptr, -1, isStatic)];
            Fresh(hs) && Uses(AsSource, hs, Bump()) && !Uses(Tracked, hs, Bump())
    ensures Returns(Bump(), 2, 0) && !IsRestartable(ClosureOf(Bump(), 2), 0)
  {
    hide Admitted, AllAccesses, RunFor, IsRestartable, Fresh;
    var hs := [Slot(CELL, Ptr, -1, isStatic)];
    forall env: Env, m: Mem, k: nat
      ensures exists ops :: Admitted(AsSource, hs, ops) && RunFor(Bump(), env, m, k).acts <= AllAccesses(AsSource, hs, ops)
    {
      BumpActs(env, m, k);
      var ops := if isStatic then TwoLoansRun(m[0] + 1) else OwnerRun(m[0] + 1);
      OwnerFails(m[0] + 1);
      TwiceLentStaticFails(m[0] + 1);
      assert Admitted(AsSource, hs, ops) && RunFor(Bump(), env, m, k).acts <= AllAccesses(AsSource, hs, ops);
    }
    OwnerFails(0);
    TwiceLentStaticFails(0);
    var m: Mem := *;
    BumpIsNotRestartable(m);
    if Uses(Tracked, hs, Bump()) {
      TrackedElide(hs, Bump());
    }
  }
}
