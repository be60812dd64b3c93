/** The operations of the handles on memory and journal, each proved against the rules of the handles. */
module PBoxHandles {
  import opened TxPrograms
  import opened LogElision
  import opened HandleRules
  import opened HandleRuns

  /** `vals` stored from `at` on. */
  function Overlay(m: Mem, at: int, vals: seq<int>): Mem {
    if vals == [] then m else Overlay(m, at, vals[..|vals| - 1])[at + |vals| - 1 := vals[|vals| - 1]]
  }

  lemma {:induction false} OverlayAt(m: Mem, at: int, vals: seq<int>, a: int)
    ensures Overlay(m, at, vals)[a] == if at <= a < at + |vals| then vals[a - at] else m[a]
  {
    if vals != [] {
      OverlayAt(m, at, vals[..|vals| - 1], a);
    }
  }

  lemma OverlayMore(m: Mem, at: int, vals: seq<int>, n: nat)
    requires n < |vals|
    ensures Overlay(m, at, vals[..n])[at + n := vals[n]] == Overlay(m, at, vals[..n + 1])
  {
    assert vals[..n + 1][..n] == vals[..n];
  }

  lemma NoCells(kind: Kind, o: Obj, m: Mem, vals: seq<int>)
    ensures Cells(kind, o, 0) == [] && Overlay(m, o.at, vals[..0]) == m
  {
  }

  lemma CellMore(kind: Kind, o: Obj, n: nat, acts: seq<Access>)
    ensures acts + Cells(kind, o, n) + [AccessAt(kind, o.at + n)] == acts + Cells(kind, o, n + 1)
    ensures AccessAt(Writing, o.at + n) == Writes(o.at + n)
  {
  }

  /** The records of the first `n` locations of an object as it is. */
  function RecordsOf(m: Mem, o: Obj, n: nat): seq<Rec> {
    seq(n, i requires 0 <= i < n => Rec(o.at + i, m[o.at + i]))
  }

  // ---------- what operations store ----------

  /** Stores of `vals` from `at` on. */
  function StoresAt(at: int, vals: seq<int>): seq<Step> {
    if vals == [] then [] else StoresAt(at, vals[..|vals| - 1]) + [Store(at + |vals| - 1, vals[|vals| - 1])]
  }

  lemma {:induction false} OverlayIsStores(m: Mem, at: int, vals: seq<int>)
    ensures Overlay(m, at, vals) == Apply(StoresAt(at, vals), m)
  {
    if vals != [] {
      OverlayIsStores(m, at, vals[..|vals| - 1]);
      var stores := StoresAt(at, vals);
      assert stores[..|stores| - 1] == StoresAt(at, vals[..|vals| - 1]);
    }
  }

  function StoresOf(hs: seq<Slot>, op: Op): seq<Step>
    requires Admits(hs, op)
  {
    match op
    case Write(i, vals) => StoresAt(hs[i].obj.at, vals)
    case StoreField(i, field, v) => [Store(hs[i].obj.at + field, v)]
    case _ => []
  }

  /** The stores of a run, in order. */
  function AllStores(hs: seq<Slot>, ops: seq<Op>): seq<Step>
    requires Admitted(AsSource, hs, ops)
    decreases |ops|
  {
    if ops == [] then [] else StoresOf(hs, ops[0]) + AllStores(NextHandles(AsSource, hs, ops[0]), ops[1..])
  }

  lemma {:induction false} ApplyBoth(a: seq<Step>, b: seq<Step>, m: Mem)
    ensures Apply(a + b, m) == Apply(b, Apply(a, m))
    decreases |b|
  {
    if b == [] {
      assert a + b == a;
    } else {
      var init, last := b[..|b| - 1], b[|b| - 1];
      assert (a + b)[..|a + b| - 1] == a + init && (a + b)[|a + b| - 1] == last;
      ApplyBoth(a, init, m);
    }
  }

  lemma OneStore(a: int, v: int, m: Mem)
    ensures Apply([Store(a, v)], m) == m[a := v] && Apply([], m) == m
  {
    assert [Store(a, v)][..0] == [];
  }

  class TxObjects {
    var mem: Mem
    var journal: seq<Rec>
    var handles: seq<Slot>
    ghost var base: Mem            // memory at the beginning of the transaction
    ghost var acts: seq<Access>    // what has been accessed since

    constructor (m: Mem, hs: seq<Slot>)
      ensures Sound() && mem == m && base == m && journal == [] && acts == [] && handles == hs
    {
      mem, journal, handles := m, [], hs;
      base, acts := m, [];
    }

    /** What rollback needs: as long as the discipline holds it restores every location but those stored to before
        anything was read from them. */
    ghost predicate Sound()
      reads this`mem, this`journal, this`base, this`acts
    {
      && (Disciplined(acts) ==> Agree(Undo(journal, mem), base, Defined(acts)))
      && (forall a :: a in Logged(acts) ==> LoggedAt(journal, a))
    }

    /** Handles and accesses are what the rules say of the operation. */
    ghost predicate Did(hs: seq<Slot>, before: seq<Access>, op: Op)
      requires Admits(hs, op)
      reads this`handles, this`acts
    {
      handles == NextHandles(AsSource, hs, op) && acts == before + Accesses(hs, op)
    }

    // ---------- accesses ----------

    method LoadCell(a: int) returns (v: int)
      requires Sound()
      modifies this`acts
      ensures Sound() && acts == old(acts) + [Reads(a)] && v == mem[a]
    {
      Extend(acts, Reads(a));
      v := mem[a];
      acts := acts + [Reads(a)];
    }

    method LogCell(a: int)
      requires Sound()
      modifies this`acts, this`journal
      ensures Sound() && acts == old(acts) + [Logs(a)] && journal == old(journal) + [Rec(a, mem[a])]
    {
      hide Undo;
      Extend(acts, Logs(a));
      UndoOfFreshRecord(journal, mem, a);
      journal := journal + [Rec(a, mem[a])];
      acts := acts + [Logs(a)];
      assert journal[|journal| - 1].addr == a;
      assert forall i :: 0 <= i < |old(journal)| ==> journal[i] == old(journal)[i];
    }

    method StoreCell(a: int, v: int)
      requires Sound()
      modifies this`acts, this`mem
      ensures Sound() && acts == old(acts) + [Writes(a)] && mem == old(mem)[a := v]
    {
      hide Undo, LoggedAt;
      Extend(acts, Writes(a));
      if LoggedAt(journal, a) {
        UndoForgets(journal, mem, a, v);
      } else {
        UndoPassesOver(journal, mem, a, v);
      }
      mem := mem[a := v];
      acts := acts + [Writes(a)];
    }

    method StoreCells(o: Obj, vals: seq<int>)
      requires Sound() && |vals| == o.size
      modifies this`mem, this`acts
      ensures Sound() && acts == old(acts) + Cells(Writing, o, o.size)
      ensures mem == Overlay(old(mem), o.at, vals)
    {
      hide Sound, Overlay, Cells;
      NoCells(Writing, o, mem, vals);
      for n := 0 to o.size
        invariant Sound() && acts == old(acts) + Cells(Writing, o, n)
        invariant mem == Overlay(old(mem), o.at, vals[..n])
      {
        StoreCell(o.at + n, vals[n]);
        CellMore(Writing, o, n, old(acts));
        OverlayMore(old(mem), o.at, vals, n);
      }
      assert vals[..o.size] == vals;
    }

    method LoadCells(o: Obj) returns (vals: seq<int>)
      requires Sound()
      modifies this`acts
      ensures Sound() && acts == old(acts) + Cells(Reading, o, o.size)
      ensures |vals| == o.size && forall n :: 0 <= n < |vals| ==> vals[n] == mem[o.at + n]
    {
      hide Sound;
      vals := [];
      for n := 0 to o.size
        invariant Sound() && acts == old(acts) + Cells(Reading, o, n)
        invariant |vals| == n && forall j :: 0 <= j < n ==> vals[j] == mem[o.at + j]
      {
        var v := LoadCell(o.at + n);
        vals := vals + [v];
      }
    }

    method LogCells(o: Obj)
      requires Sound()
      modifies this`journal, this`acts
      ensures Sound() && acts == old(acts) + Cells(Logging, o, o.size)
      ensures journal == old(journal) + RecordsOf(mem, o, o.size)
    {
      hide Sound;
      for n := 0 to o.size
        invariant Sound() && acts == old(acts) + Cells(Logging, o, n)
        invariant journal == old(journal) + RecordsOf(mem, o, n)
      {
        LogCell(o.at + n);
      }
    }

    // ---------- operations on handles, as the source has them ----------

    /** `Ptr::write`, `PRef::write`: the whole object, without a record. */
    method Write(i: nat, vals: seq<int>)
      requires Sound() && Admits(handles, Op.Write(i, vals))
      modifies this`mem, this`acts, this`handles
      ensures Sound() && Did(old(handles), old(acts), Op.Write(i, vals))
      ensures mem == Overlay(old(mem), old(handles)[i].obj.at, vals)
    {
      hide Sound, Cells;
      StoreCells(handles[i].obj, vals);
      handles := Put(handles, i, PtrRW);
    }

    /** `read`: a `Ptr` becomes a `PtrWLog`. `PStatic::as_ref` leaves the static as it is. */
    method Read(i: nat) returns (vals: seq<int>)
      requires Sound() && Admits(handles, ReadAll(i))
      modifies this`acts, this`handles
      ensures Sound() && Did(old(handles), old(acts), ReadAll(i))
      ensures |vals| == old(handles)[i].obj.size
      ensures forall n :: 0 <= n < |vals| ==> vals[n] == mem[old(handles)[i].obj.at + n]
    {
      hide Sound, Cells;
      vals := LoadCells(handles[i].obj);
      if handles[i].h == Ptr && !handles[i].isStatic {
        handles := Put(handles, i, PtrWLog);
      }
    }

    /** `PtrWLog::write`, `read_wr`, `into_pref_rw`: a record of the object is taken, then it is open for stores. */
    method LogObject(i: nat)
      requires Sound() && Admits(handles, LogAll(i))
      modifies this`journal, this`acts, this`handles
      ensures Sound() && Did(old(handles), old(acts), LogAll(i))
      ensures journal == old(journal) + RecordsOf(mem, old(handles)[i].obj, old(handles)[i].obj.size)
    {
      hide Sound, Cells;
      LogCells(handles[i].obj);
      handles := Put(handles, i, PtrRW);
    }

    /** A store to one field: through a `PtrRW`, or `partial_write` through a handle nothing was read from. */
    method StoreField(i: nat, field: nat, v: int)
      requires Sound() && Admits(handles, Op.StoreField(i, field, v))
      modifies this`mem, this`acts
      ensures Sound() && Did(handles, old(acts), Op.StoreField(i, field, v))
      ensures mem == old(mem)[handles[i].obj.at + field := v]
    {
      hide Sound;
      StoreCell(handles[i].obj.at + field, v);
    }

    /** The handle is exchanged for one that claims no more. */
    method Convert(i: nat, to: Handle)
      requires Admits(handles, Op.Convert(i, to))
      modifies this`handles
      ensures Did(old(handles), acts, Op.Convert(i, to))
    {
      handles := Put(handles, i, to);
    }

    /** `Ptr::as_pref` borrows the owner; `PStatic::as_pref` hands out one more handle. */
    method Lend(i: nat)
      requires Admits(handles, Op.Lend(i))
      modifies this`handles
      ensures Did(old(handles), acts, Op.Lend(i))
    {
      var s := handles[i];
      if s.h == Ptr && !s.isStatic {
        handles := Put(handles, i, Closed);
      }
      handles := handles + [Slot(s.obj, s.h, i, false)];
    }

    /** The borrow ends, and the owner is what it was. */
    method GiveBack(i: nat)
      requires Admits(handles, Op.GiveBack(i))
      modifies this`handles
      ensures Did(old(handles), acts, Op.GiveBack(i))
    {
      var lender := handles[i].lender;
      handles := Put(handles, i, Closed);
      if handles[lender].h == Closed {
        handles := Put(handles, lender, Ptr);
      }
    }

    method Perform(op: Op)
      requires Sound() && Admits(handles, op)
      modifies this`mem, this`journal, this`acts, this`handles
      ensures Sound() && Did(old(handles), old(acts), op) && mem == Apply(StoresOf(old(handles), op), old(mem))
    {
      hide Sound, NextHandles, Accesses, Apply, Overlay, StoresAt;
      OneStore(0, 0, mem);
      match op {
        case Write(i, vals) =>
          OverlayIsStores(mem, handles[i].obj.at, vals);
          Write(i, vals);
        case ReadAll(i) => var _ := Read(i);
        case LogAll(i) => LogObject(i);
        case StoreField(i, field, v) =>
          OneStore(handles[i].obj.at + field, v, mem);
          StoreField(i, field, v);
        case Convert(i, to) =>
          Convert(i, to);
          NoAccess(old(handles), op, acts);
        case Lend(i) =>
          Lend(i);
          NoAccess(old(handles), op, acts);
        case GiveBack(i) =>
          GiveBack(i);
          NoAccess(old(handles), op, acts);
      }
    }

    lemma NoAccess(hs: seq<Slot>, op: Op, before: seq<Access>)
      requires Admits(hs, op) && (op.Convert? || op.Lend? || op.GiveBack?)
      ensures before + Accesses(hs, op) == before
    {
      assert before + [] == before;
    }

    /** Any sequence of operations that the source admits: memory is that after its stores in order, and the accesses are
        those of the rules, so that `SourceRuns` says whether the discipline holds, and as long as it does rollback
        restores what it should. */
    method Run(ops: seq<Op>)
      requires Sound() && Admitted(AsSource, handles, ops)
      modifies this`mem, this`journal, this`acts, this`handles
      ensures Sound()
      ensures handles == HandlesAfter(AsSource, old(handles), ops)
      ensures acts == old(acts) + AllAccesses(AsSource, old(handles), ops)
      ensures mem == Apply(AllStores(old(handles), ops), old(mem))
      decreases |ops|
    {
      hide Sound, NextHandles, Accesses, Admits, StoresOf, Apply;
      OneStore(0, 0, mem);
      if ops == [] {
        assert acts + [] == acts;
      } else {
        ghost var hs, before := handles, acts;
        ApplyBoth(StoresOf(hs, ops[0]), AllStores(NextHandles(AsSource, hs, ops[0]), ops[1..]), mem);
        Perform(ops[0]);
        OneByOne(AsSource, hs, ops, before);
        Run(ops[1..]);
      }
    }

    /** A whole transaction: what it stored is there, and if it is rolled back at its end memory is what it was but for
        locations whose first access was a store, provided that no operation stored to a location it had read and neither
        stored nor logged. */
    method Transaction(ops: seq<Op>)
      requires journal == [] && acts == [] && base == mem && Admitted(AsSource, handles, ops)
      modifies this`mem, this`journal, this`acts, this`handles
      ensures acts == AllAccesses(AsSource, old(handles), ops)
      ensures HasStores(AllStores(old(handles), ops), old(mem), mem)
      ensures AllClean(AsSource, old(handles), ops, Known({}, {})) ==> Agree(Undo(journal, mem), old(mem), Defined(acts))
    {
      hide Undo, AllClean, Admitted, Apply, HasStores;
      StoresAreThere(AllStores(handles, ops), mem);
      NothingYet();
      SourceRuns(handles, ops);
      Run(ops);
      assert [] + AllAccesses(AsSource, old(handles), ops) == AllAccesses(AsSource, old(handles), ops);
    }

    lemma NothingYet()
      requires journal == [] && acts == [] && base == mem
      ensures Sound()
    {
    }
  }
}
