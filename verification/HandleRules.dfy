/** The handles through which a transaction reaches its persistent objects: what the states of all handles admit,
    what each operation accesses, and the discipline that every admitted run keeps. Several handles may reach one
    object, because owners and statics lend theirs. */
module HandleRules {
  import opened TxPrograms
  import opened LogElision

  /** `Ptr`: nothing read yet. `PtrRO`: never written. `PtrWLog`: may have been read. `PtrRW`: stored or logged as a
      whole. `Closed`: dropped, or lent and not yet given back. */
  datatype Handle = Ptr | PtrRO | PtrWLog | PtrRW | Closed

  /** An object: the locations from `at` on. */
  datatype Obj = Obj(at: int, size: nat) {
    predicate Has(a: int) {
      at <= a < at + size
    }
  }

  /** A handle on an object, `lender` the position of the handle it was lent by (-1 if it owns its object), `isStatic`
      for a static, which hands out handles by a shared reference. */
  datatype Slot = Slot(obj: Obj, h: Handle, lender: int, isStatic: bool)

  /** `Write` a whole object without a record, `ReadAll` of it, `LogAll` of it and open it for stores, `StoreField`
      one location, `Convert` the handle, `Lend` the object (`as_pref`), `GiveBack` what was lent. */
  datatype Op =
    | Write(i: nat, vals: seq<int>)
    | ReadAll(i: nat)
    | LogAll(i: nat)
    | StoreField(i: nat, field: nat, v: int)
    | Convert(i: nat, to: Handle)
    | Lend(i: nat)
    | GiveBack(i: nat)

  /** What happens to a lender. `AsSource`: an owner is as before once the loan has ended, and a static is not
      affected by what it has handed out or shown. `Tracked`: a lender is closed during the loan and gets back what the
      borrower has left of the claim, and a static is treated like an owner. */
  datatype Rule = AsSource | Tracked

  function Rank(h: Handle): nat {
    match h
    case PtrRW => 2
    case Ptr => 1
    case _ => 0
  }

  predicate Admits(hs: seq<Slot>, op: Op) {
    && op.i < |hs| && hs[op.i].h != Closed
    && match op {
         case Write(i, vals) => hs[i].h == Ptr && !hs[i].isStatic && |vals| == hs[i].obj.size
         case ReadAll(_) => true
         case LogAll(i) => hs[i].h != PtrRO
         case StoreField(i, field, _) =>
           field < hs[i].obj.size && (hs[i].h == PtrRW || (hs[i].h == Ptr && !hs[i].isStatic))
         case Convert(i, to) => Rank(to) <= Rank(hs[i].h)
         case Lend(i) => hs[i].h in {Ptr, PtrWLog} && hs[i].lender < 0
         case GiveBack(i) => 0 <= hs[i].lender < |hs| && hs[i].lender != i
       }
  }

  function Put(hs: seq<Slot>, i: nat, h: Handle): seq<Slot>
    requires i < |hs|
  {
    hs[i := hs[i].(h := h)]
  }

  function NextHandles(rule: Rule, hs: seq<Slot>, op: Op): seq<Slot>
    requires Admits(hs, op)
  {
    var s := hs[op.i];
    match op
    case Write(i, _) => Put(hs, i, PtrRW)
    case ReadAll(i) => if s.h == Ptr && !(rule.AsSource? && s.isStatic) then Put(hs, i, PtrWLog) else hs
    case LogAll(i) => Put(hs, i, PtrRW)
    case StoreField(_, _, _) => hs
    case Convert(i, to) => Put(hs, i, to)
    case Lend(i) =>
      (if s.h == PtrWLog || (rule.AsSource? && s.isStatic) then hs else Put(hs, i, Closed))
        + [Slot(s.obj, s.h, i, false)]
    case GiveBack(i) =>
      var closed := Put(hs, i, Closed);
      if hs[s.lender].h != Closed then closed
      else Put(closed, s.lender, if rule.AsSource? || Rank(s.h) >= 1 then Ptr else PtrWLog)
  }

  // ---------- what an operation accesses ----------

  datatype Kind = Reading | Logging | Writing

  function AccessAt(kind: Kind, a: int): Access {
    match kind
    case Reading => Reads(a)
    case Logging => Logs(a)
    case Writing => Writes(a)
  }

  /** The first `n` locations of an object. */
  function Cells(kind: Kind, o: Obj, n: nat): seq<Access> {
    if n == 0 then [] else Cells(kind, o, n - 1) + [AccessAt(kind, o.at + n - 1)]
  }

  function Accesses(hs: seq<Slot>, op: Op): seq<Access>
    requires Admits(hs, op)
  {
    var o := hs[op.i].obj;
    match op
    case Write(_, _) => Cells(Writing, o, o.size)
    case ReadAll(_) => Cells(Reading, o, o.size)
    case LogAll(_) => Cells(Logging, o, o.size)
    case StoreField(_, field, _) => [Writes(o.at + field)]
    case _ => []
  }

  /** The locations that an operation accesses, all in the same way. */
  function Reached(hs: seq<Slot>, op: Op): set<int>
    requires Admits(hs, op)
  {
    var o := hs[op.i].obj;
    if op.Write? || op.ReadAll? || op.LogAll? then FirstOf(o, o.size)
    else if op.StoreField? then {o.at + op.field}
    else {}
  }

  function KindOf(op: Op): Kind {
    if op.Write? || op.StoreField? then Writing else if op.LogAll? then Logging else Reading
  }

  function FirstOf(o: Obj, n: nat): (t: set<int>)
    ensures forall a :: a in t <==> o.at <= a < o.at + n
  {
    if n == 0 then {} else FirstOf(o, n - 1) + {o.at + n - 1}
  }

  // ---------- what accesses leave behind ----------

  /** A store to `a` needs no record now. */
  predicate MayStore(acts: seq<Access>, a: int) {
    a !in Touched(acts) || a in Defined(acts) || a in Logged(acts)
  }

  /** Nor ever again. */
  predicate IsFree(acts: seq<Access>, a: int) {
    a in Defined(acts) || a in Logged(acts)
  }

  /** What accesses of one kind to the locations `t` do. */
  ghost predicate Did(acts: seq<Access>, acts': seq<Access>, kind: Kind, t: set<int>) {
    && Touched(acts') == Touched(acts) + t
    && Logged(acts') == Logged(acts) + (if kind == Logging then t else {})
    && Defined(acts') == Defined(acts) + (if kind == Writing then t - Touched(acts) else {})
    && (Disciplined(acts') <==> Disciplined(acts) && (kind == Writing ==> forall a :: a in t ==> MayStore(acts, a)))
  }

  lemma OneAccess(acts: seq<Access>, kind: Kind, a: int)
    ensures Did(acts, acts + [AccessAt(kind, a)], kind, {a})
  {
    Extend(acts, AccessAt(kind, a));
  }

  lemma DidMore(acts: seq<Access>, acts1: seq<Access>, acts2: seq<Access>, kind: Kind, t: set<int>, a: int)
    requires Did(acts, acts1, kind, t) && Did(acts1, acts2, kind, {a}) && a !in t
    ensures Did(acts, acts2, kind, t + {a})
  {
    hide Touched, Logged, Defined, Disciplined;
    assert MayStore(acts1, a) <==> MayStore(acts, a);
  }

  lemma {:induction false} CellsDid(kind: Kind, o: Obj, n: nat, acts: seq<Access>)
    ensures Did(acts, acts + Cells(kind, o, n), kind, FirstOf(o, n))
  {
    hide Did;
    if n == 0 {
      assert acts + [] == acts && FirstOf(o, 0) == {};
      NothingDid(acts, kind);
    } else {
      var a, before := o.at + n - 1, acts + Cells(kind, o, n - 1);
      CellsDid(kind, o, n - 1, acts);
      OneAccess(before, kind, a);
      DidMore(acts, before, before + [AccessAt(kind, a)], kind, FirstOf(o, n - 1), a);
      assert acts + (Cells(kind, o, n - 1) + [AccessAt(kind, a)]) == before + [AccessAt(kind, a)];
      assert FirstOf(o, n) == FirstOf(o, n - 1) + {a};
    }
  }

  lemma NothingDid(acts: seq<Access>, kind: Kind)
    ensures Did(acts, acts, kind, {})
  {
  }

  /** What an operation leaves behind, in terms of the locations it reaches. */
  lemma OpDid(hs: seq<Slot>, op: Op, acts: seq<Access>)
    requires Admits(hs, op)
    ensures Did(acts, acts + Accesses(hs, op), KindOf(op), Reached(hs, op))
  {
    hide Did, Cells, FirstOf;
    var o := hs[op.i].obj;
    if op.Write? || op.ReadAll? || op.LogAll? {
      CellsDid(KindOf(op), o, o.size, acts);
    } else if op.StoreField? {
      OneAccess(acts, Writing, o.at + op.field);
    } else {
      assert acts + [] == acts;
      NothingDid(acts, KindOf(op));
    }
  }

  // ---------- what the state of a handle claims ----------

  /** What the state of a handle says about its object. */
  ghost predicate HandleOk(h: Handle, o: Obj, acts: seq<Access>) {
    && (h == Ptr ==> forall a :: o.Has(a) ==> MayStore(acts, a))
    && (h == PtrRW ==> forall a :: o.Has(a) ==> IsFree(acts, a))
  }

  /** The conversions that keep the discipline whatever has been accessed are exactly those that claim no more:
      `down_cast`, `into_ptr` of a `PtrRW`, `into_readable`, `into_ptr_ro`. The ones that claim more, `into_ptr` of a
      `PtrRO` or of a `PtrWLog` and `into_pref_rw` of a `PRef`, are the ones the source marks unsafe. */
  lemma SafeConversions(h: Handle, h': Handle)
    ensures (forall acts, o :: HandleOk(h, o, acts) ==> HandleOk(h', o, acts)) <==> Rank(h) >= Rank(h')
  {
    if Rank(h) >= Rank(h') {
      forall acts, o | HandleOk(h, o, acts)
        ensures HandleOk(h', o, acts)
      {
        if h == PtrRW && h' == Ptr {
          assert forall a :: o.Has(a) ==> IsFree(acts, a);
        }
      }
    } else {
      var o := Obj(0, 1);
      var acts := if h == Ptr then [] else [Reads(0)];
      Extend([], Reads(0));
      assert [] + [Reads(0)] == [Reads(0)];
      assert o.Has(0) && !IsFree(acts, 0);
      assert HandleOk(h, o, acts) && !HandleOk(h', o, acts);
    }
  }

  /** The end of a loan leaves the owner a `Ptr`. In every situation that is as much as the returned handle bears out,
      if and only if nothing was read through it, or the object was stored or logged as a whole after that. */
  lemma SoundReturns(h: Handle)
    ensures (forall acts, o :: HandleOk(h, o, acts) ==> HandleOk(Ptr, o, acts)) <==> Rank(h) >= 1
  {
    SafeConversions(h, Ptr);
  }

  // ---------- all handles together ----------

  /** What an open handle shares with another open one needs no record any more. */
  ghost predicate SharesFreely(hs: seq<Slot>, i: nat, acts: seq<Access>)
    requires i < |hs|
  {
    forall j, a {:trigger hs[j], IsFree(acts, a)} ::
      0 <= j < |hs| && j != i && hs[j].h != Closed && hs[j].obj.Has(a) && hs[i].obj.Has(a) ==> IsFree(acts, a)
  }

  /** The state of a handle is borne out, and what a `Ptr` has not stored is its own. */
  ghost predicate Claim(hs: seq<Slot>, i: nat, acts: seq<Access>)
    requires i < |hs|
  {
    HandleOk(hs[i].h, hs[i].obj, acts) && (hs[i].h == Ptr ==> SharesFreely(hs, i, acts))
  }

  /** What was lent is what the lender has. */
  ghost predicate LoansOk(hs: seq<Slot>) {
    forall i :: 0 <= i < |hs| && 0 <= hs[i].lender ==>
      hs[i].lender < |hs| && hs[hs[i].lender].obj == hs[i].obj && !hs[i].isStatic
  }

  ghost predicate BorneOut(hs: seq<Slot>, acts: seq<Access>) {
    LoansOk(hs) && forall i :: 0 <= i < |hs| ==> Claim(hs, i, acts)
  }

  /** How a transaction may begin: nothing is claimed to be stored or logged, and no `Ptr` is shared. */
  ghost predicate Fresh(hs: seq<Slot>) {
    && LoansOk(hs)
    && forall i :: 0 <= i < |hs| ==>
         hs[i].h != PtrRW && (hs[i].h == Ptr ==>
           forall j, a :: 0 <= j < |hs| && j != i && hs[j].h != Closed && hs[i].obj.Has(a) ==> !hs[j].obj.Has(a))
  }

  lemma FreshIsBorneOut(hs: seq<Slot>)
    requires Fresh(hs)
    ensures BorneOut(hs, []) && Disciplined([])
  {
    forall i | 0 <= i < |hs|
      ensures Claim(hs, i, [])
    {
    }
  }

  // ---------- each operation keeps the claims ----------

  /** An operation through one open handle keeps the claim of another. */
  lemma OthersKeep(hs: seq<Slot>, op: Op, acts: seq<Access>, j: nat)
    requires BorneOut(hs, acts) && Admits(hs, op) && j < |hs| && j != op.i
    ensures HandleOk(hs[j].h, hs[j].obj, acts + Accesses(hs, op))
  {
    hide Accesses, Touched, Logged, Defined, Disciplined, FirstOf;
    OpDid(hs, op, acts);
    assert Claim(hs, j, acts) && hs[op.i].h != Closed;
    var acts' := acts + Accesses(hs, op);
    forall a | hs[j].obj.Has(a) && hs[j].h == Ptr
      ensures MayStore(acts', a)
    {
      assert a in Reached(hs, op) ==> hs[op.i].obj.Has(a);
      assert a in Reached(hs, op) ==> IsFree(acts, a);
    }
  }

  /** An access keeps the discipline if the handle admits it, and leaves the handle what it claims afterwards. */
  lemma OwnKeeps(hs: seq<Slot>, op: Op, acts: seq<Access>)
    requires BorneOut(hs, acts) && Disciplined(acts) && Admits(hs, op)
    ensures Disciplined(acts + Accesses(hs, op))
    ensures !op.ReadAll? || hs[op.i].h != Ptr ==> HandleOk(hs[op.i].h, hs[op.i].obj, acts + Accesses(hs, op))
    ensures op.Write? || op.LogAll? ==> HandleOk(PtrRW, hs[op.i].obj, acts + Accesses(hs, op))
  {
    hide Accesses, Touched, Logged, Defined, Disciplined, FirstOf;
    OpDid(hs, op, acts);
    assert Claim(hs, op.i, acts);
    assert forall a :: a in Reached(hs, op) ==> hs[op.i].obj.Has(a);
    assert op.Write? || op.LogAll? ==> forall a :: hs[op.i].obj.Has(a) ==> a in Reached(hs, op);
  }

  lemma FreeStays(hs: seq<Slot>, op: Op, acts: seq<Access>, a: int)
    requires Admits(hs, op) && IsFree(acts, a)
    ensures IsFree(acts + Accesses(hs, op), a)
  {
    hide Accesses, Touched, Logged, Defined, Disciplined, Reached;
    OpDid(hs, op, acts);
  }

  /** Handles that only lost claims or were closed share no more than before. */
  lemma SharingStays(hs: seq<Slot>, hs': seq<Slot>, i: nat, acts: seq<Access>)
    requires i < |hs| == |hs'| && SharesFreely(hs, i, acts)
    requires forall j :: 0 <= j < |hs| ==> hs'[j].obj == hs[j].obj && (hs[j].h == Closed ==> hs'[j].h == Closed)
    ensures SharesFreely(hs', i, acts)
  {
  }

  lemma SharingGrows(hs: seq<Slot>, op: Op, i: nat, acts: seq<Access>)
    requires i < |hs| && SharesFreely(hs, i, acts) && Admits(hs, op)
    ensures SharesFreely(hs, i, acts + Accesses(hs, op))
  {
    hide Accesses, IsFree, Obj.Has;
    forall j, a {:trigger hs[j], IsFree(acts + Accesses(hs, op), a)}
      | 0 <= j < |hs| && j != i && hs[j].h != Closed && hs[j].obj.Has(a) && hs[i].obj.Has(a)
      ensures IsFree(acts + Accesses(hs, op), a)
    {
      assert IsFree(acts, a);
      FreeStays(hs, op, acts, a);
    }
  }

  lemma AllFreeShares(hs: seq<Slot>, i: nat, acts: seq<Access>)
    requires i < |hs| && HandleOk(PtrRW, hs[i].obj, acts)
    ensures SharesFreely(hs, i, acts)
  {
  }

  /** One open handle gets a state that the object bears out, the others keep theirs. */
  lemma Reassigned(hs: seq<Slot>, i: nat, h: Handle, acts: seq<Access>)
    requires i < |hs| && LoansOk(hs) && HandleOk(h, hs[i].obj, acts) && (h == Closed || hs[i].h != Closed)
    requires h == Ptr ==> SharesFreely(hs, i, acts)
    requires forall j :: 0 <= j < |hs| && j != i ==> Claim(hs, j, acts)
    ensures BorneOut(Put(hs, i, h), acts)
  {
    hide HandleOk, SharesFreely;
    var t := Put(hs, i, h);
    forall j | 0 <= j < |t|
      ensures Claim(t, j, acts)
    {
      assert j != i ==> Claim(hs, j, acts);
      if t[j].h == Ptr {
        SharingStays(hs, t, j, acts);
      }
    }
  }

  lemma AccessKeeps(hs: seq<Slot>, op: Op, acts: seq<Access>)
    requires BorneOut(hs, acts) && Disciplined(acts) && Admits(hs, op)
    requires op.Write? || op.ReadAll? || op.LogAll? || op.StoreField?
    ensures Disciplined(acts + Accesses(hs, op)) && BorneOut(NextHandles(Tracked, hs, op), acts + Accesses(hs, op))
  {
    hide Accesses, HandleOk, SharesFreely, Disciplined;
    var i, acts' := op.i, acts + Accesses(hs, op);
    OwnKeeps(hs, op, acts);
    assert Claim(hs, i, acts);
    forall j | 0 <= j < |hs| && (j != i || hs[i].h != Ptr || op.StoreField?)
      ensures Claim(hs, j, acts')
    {
      assert Claim(hs, j, acts);
      if j != i {
        OthersKeep(hs, op, acts, j);
      }
      if hs[j].h == Ptr {
        SharingGrows(hs, op, j, acts);
      }
    }
    var h := if op.Write? || op.LogAll? then PtrRW
             else if op.ReadAll? && hs[i].h == Ptr then PtrWLog else hs[i].h;
    NothingClaimed(PtrWLog, hs[i].obj, acts');
    if hs[i].h == Ptr && op.StoreField? {
      SharingGrows(hs, op, i, acts);
    }
    Reassigned(hs, i, h, acts');
    assert Put(hs, i, hs[i].h) == hs;
  }

  lemma NothingClaimed(h: Handle, o: Obj, acts: seq<Access>)
    ensures h != Ptr && h != PtrRW ==> HandleOk(h, o, acts)
  {
  }

  lemma Converted(hs: seq<Slot>, i: nat, to: Handle, acts: seq<Access>)
    requires i < |hs| && hs[i].h != Closed && Rank(to) <= Rank(hs[i].h) && BorneOut(hs, acts)
    ensures BorneOut(Put(hs, i, to), acts)
  {
    hide HandleOk, SharesFreely;
    assert Claim(hs, i, acts);
    SafeConversions(hs[i].h, to);
    if hs[i].h == PtrRW {
      AllFreeShares(hs, i, acts);
    }
    Reassigned(hs, i, to, acts);
  }

  lemma Lent(hs: seq<Slot>, i: nat, acts: seq<Access>)
    requires BorneOut(hs, acts) && Admits(hs, Lend(i))
    ensures BorneOut(NextHandles(Tracked, hs, Lend(i)), acts)
  {
    hide HandleOk, IsFree, Obj.Has;
    var t := NextHandles(Tracked, hs, Lend(i));
    assert Claim(hs, i, acts);
    forall j | 0 <= j < |t|
      ensures Claim(t, j, acts)
    {
      if j < |hs| {
        assert Claim(hs, j, acts);
        NothingClaimed(Closed, hs[j].obj, acts);
      }
    }
  }

  lemma GivenBack(hs: seq<Slot>, i: nat, acts: seq<Access>)
    requires BorneOut(hs, acts) && Admits(hs, GiveBack(i))
    ensures BorneOut(NextHandles(Tracked, hs, GiveBack(i)), acts)
  {
    hide HandleOk, IsFree, Obj.Has;
    var t, l := NextHandles(Tracked, hs, GiveBack(i)), hs[i].lender;
    assert hs[l].obj == hs[i].obj && Claim(hs, i, acts);
    SoundReturns(hs[i].h);
    if hs[i].h == PtrRW {
      AllFreeShares(hs, i, acts);
    }
    forall j | 0 <= j < |t|
      ensures Claim(t, j, acts)
    {
      assert Claim(hs, j, acts);
      NothingClaimed(t[j].h, t[j].obj, acts);
    }
  }

  /** Every admitted operation keeps the discipline and what all handles claim, when lenders are tracked. */
  lemma OpKeeps(hs: seq<Slot>, op: Op, acts: seq<Access>)
    requires BorneOut(hs, acts) && Disciplined(acts) && Admits(hs, op)
    ensures Disciplined(acts + Accesses(hs, op)) && BorneOut(NextHandles(Tracked, hs, op), acts + Accesses(hs, op))
  {
    hide BorneOut, Disciplined, Cells;
    assert acts + [] == acts;
    match op
    case Convert(i, to) => Converted(hs, i, to, acts);
    case Lend(i) => Lent(hs, i, acts);
    case GiveBack(i) => GivenBack(hs, i, acts);
    case _ => AccessKeeps(hs, op, acts);
  }
}
