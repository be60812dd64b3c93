/** Setting the bits of an event group: walk the wait list and take out, while walking, every task whose condition holds. */
module EventGroups {
  import opened PowerSupply
  import opened PLists
  import opened ListLog
  import opened ListRemove

  type Bits = bv16

  const CLEAR_EVENTS_ON_EXIT: Bits := 0x0100
  const UNBLOCKED_DUE_TO_BIT_SET: Bits := 0x0200
  const WAIT_FOR_ALL: Bits := 0x0400
  const CONTROL: Bits := 0xFF00

  function Wanted(value: Bits): Bits {
    value & !CONTROL
  }

  function Plus(bits: Bits, more: Bits): Bits {
    bits | (more & !CONTROL)
  }

  function Minus(bits: Bits, less: Bits): Bits {
    bits & !less
  }

  function Union(x: Bits, y: Bits): Bits {
    x | y
  }

  function Mark(bits: Bits): Bits {
    bits | UNBLOCKED_DUE_TO_BIT_SET
  }

  /** The test of `set_event_group_bits` on the value stored in a waiting task. */
  predicate Wakes(value: Bits, bits: Bits) {
    if value & WAIT_FOR_ALL != 0 then Wanted(value) & bits == Wanted(value) else Wanted(value) & bits != 0
  }

  /** `wait_condition_ok`, asked by the waiting task itself. */
  predicate ConditionOk(eventBits: Bits, bits: Bits, all: bool) {
    if all then eventBits & bits == bits else eventBits & bits != 0
  }

  /** The value a task stores before it waits. */
  function WaitValue(bits: Bits, clearOnExit: bool, all: bool): Bits {
    bits | (if clearOnExit then CLEAR_EVENTS_ON_EXIT else 0) | (if all then WAIT_FOR_ALL else 0)
  }

  /** The setter wakes a task exactly if the condition it waits for holds, for every request and all event bits. */
  lemma WakesWhenConditionOk(bits: Bits, clearOnExit: bool, all: bool, eventBits: Bits)
    requires bits & CONTROL == 0 && eventBits & CONTROL == 0
    ensures Wakes(WaitValue(bits, clearOnExit, all), eventBits) <==> ConditionOk(eventBits, bits, all)
    ensures Wanted(WaitValue(bits, clearOnExit, all)) == bits
    ensures WaitValue(bits, clearOnExit, all) & CLEAR_EVENTS_ON_EXIT != 0 <==> clearOnExit
    ensures WaitValue(bits, clearOnExit, all) & UNBLOCKED_DUE_TO_BIT_SET == 0
  {
  }

  // ---------- what the walk has to find ----------

  ghost function Woken(s: seq<Node>, value: map<Node, Bits>, bits: Bits): seq<Node>
    requires forall n :: n in s ==> n in value
  {
    if s == [] then []
    else
      var last := s[|s| - 1];
      if Wakes(value[last], bits) then Woken(s[..|s| - 1], value, bits) + [last] else Woken(s[..|s| - 1], value, bits)
  }

  ghost function Left(s: seq<Node>, value: map<Node, Bits>, bits: Bits): seq<Node>
    requires forall n :: n in s ==> n in value
  {
    if s == [] then []
    else
      var last := s[|s| - 1];
      if Wakes(value[last], bits) then Left(s[..|s| - 1], value, bits) else Left(s[..|s| - 1], value, bits) + [last]
  }

  function ClearOf(value: Bits, bits: Bits): Bits {
    if Wakes(value, bits) && value & CLEAR_EVENTS_ON_EXIT != 0 then Wanted(value) else 0
  }

  /** Bits awaited by woken tasks that asked for them to be cleared. */
  ghost function ToClear(s: seq<Node>, value: map<Node, Bits>, bits: Bits): Bits
    requires forall n :: n in s ==> n in value
  {
    if s == [] then 0
    else
      Union(ToClear(s[..|s| - 1], value, bits), ClearOf(value[s[|s| - 1]], bits))
  }

  /** Every waiter is either woken or left, according to its condition. */
  lemma {:induction false} WokenOrLeft(s: seq<Node>, value: map<Node, Bits>, bits: Bits, n: Node)
    requires forall n :: n in s ==> n in value
    ensures n in Woken(s, value, bits) <==> n in s && Wakes(value[n], bits)
    ensures n in Left(s, value, bits) <==> n in s && !Wakes(value[n], bits)
  {
    if s != [] {
      WokenOrLeft(s[..|s| - 1], value, bits, n);
    }
  }

  function Common(x: Bits, b: Bits): Bits {
    x & b
  }

  predicate Meets(x: Bits, b: Bits) {
    Common(x, b) != 0
  }

  /** A woken task that waited for one of the bits `b` and asked for its bits to be cleared. */
  predicate Clears(value: Bits, bits: Bits, b: Bits) {
    Wakes(value, bits) && value & CLEAR_EVENTS_ON_EXIT != 0 && Meets(Wanted(value), b)
  }

  lemma OrMeets(x: Bits, y: Bits, b: Bits)
    ensures Meets(Union(x, y), b) <==> Meets(x, b) || Meets(y, b)
  {
    hide Union, Common;
    CommonOfUnion(x, y, b);
    UnionIsZero(Common(x, b), Common(y, b));
  }

  lemma CommonOfUnion(x: Bits, y: Bits, b: Bits)
    ensures Common(Union(x, y), b) == Union(Common(x, b), Common(y, b))
  {
  }

  lemma UnionIsZero(x: Bits, y: Bits)
    ensures Union(x, y) == 0 <==> x == 0 && y == 0
  {
  }

  ghost predicate AnyClears(s: seq<Node>, value: map<Node, Bits>, bits: Bits, b: Bits)
    requires forall n :: n in s ==> n in value
  {
    exists i :: 0 <= i < |s| && Clears(value[s[i]], bits, b)
  }

  lemma AnyClearsLast(s: seq<Node>, value: map<Node, Bits>, bits: Bits, b: Bits)
    requires s != [] && forall n :: n in s ==> n in value
    ensures AnyClears(s, value, bits, b)
            <==> AnyClears(s[..|s| - 1], value, bits, b) || Clears(value[s[|s| - 1]], bits, b)
  {
    hide Clears;
    var init := s[..|s| - 1];
    if AnyClears(init, value, bits, b) {
      var i :| 0 <= i < |init| && Clears(value[init[i]], bits, b);
      assert Clears(value[s[i]], bits, b);
    }
    if AnyClears(s, value, bits, b) && !Clears(value[s[|s| - 1]], bits, b) {
      var i :| 0 <= i < |s| && Clears(value[s[i]], bits, b);
      assert Clears(value[init[i]], bits, b);
    }
  }

  /** A bit is cleared exactly if a woken task waited for it and asked for that. */
  lemma {:induction false} ClearedBits(s: seq<Node>, value: map<Node, Bits>, bits: Bits, b: Bits)
    requires forall n :: n in s ==> n in value
    ensures Meets(ToClear(s, value, bits), b) <==> AnyClears(s, value, bits, b)
  {
    hide Clears, ClearOf, AnyClears, Meets, Union;
    if s == [] {
      NoBits(b);
      assert !AnyClears(s, value, bits, b) by {
        NoneClears(value, bits, b);
      }
    } else {
      var init, last := s[..|s| - 1], value[s[|s| - 1]];
      ClearedBits(init, value, bits, b);
      OrMeets(ToClear(init, value, bits), ClearOf(last, bits), b);
      ClearOfMeets(last, bits, b);
      AnyClearsLast(s, value, bits, b);
    }
  }

  lemma NoneClears(value: map<Node, Bits>, bits: Bits, b: Bits)
    ensures !AnyClears([], value, bits, b)
  {
  }

  lemma NoBits(b: Bits)
    ensures !Meets(0, b)
  {
  }

  lemma ClearOfMeets(value: Bits, bits: Bits, b: Bits)
    ensures Meets(ClearOf(value, bits), b) <==> Clears(value, bits, b)
  {
    hide Meets, Wakes, Wanted;
    NoBits(b);
  }

  /** `mark` stored in every node of `ws`. */
  ghost function Marked(value: map<Node, Bits>, ws: seq<Node>, mark: Bits): map<Node, Bits> {
    if ws == [] then value else Marked(value, ws[..|ws| - 1], mark)[ws[|ws| - 1] := mark]
  }

  lemma {:induction false} MarkedAt(value: map<Node, Bits>, ws: seq<Node>, mark: Bits, n: Node)
    requires n in value
    ensures n in Marked(value, ws, mark) && Marked(value, ws, mark)[n] == if n in ws then mark else value[n]
  {
    if ws != [] {
      MarkedAt(value, ws[..|ws| - 1], mark, n);
    }
  }

  // ---------- bit by bit ----------

  predicate OneBit(b: Bits) {
    || b == 0x0001 || b == 0x0002 || b == 0x0004 || b == 0x0008 || b == 0x0010 || b == 0x0020 || b == 0x0040 || b == 0x0080
    || b == 0x0100 || b == 0x0200 || b == 0x0400 || b == 0x0800 || b == 0x1000 || b == 0x2000 || b == 0x4000 || b == 0x8000
  }

  /** A value waits for the event bit `b`: the control bits are not event bits. */
  predicate Awaits(value: Bits, b: Bits) {
    Meets(value, b) && !Meets(CONTROL, b)
  }

  /** Bit `b` is set once `more` has been set. */
  predicate IsUp(bits: Bits, more: Bits, b: Bits) {
    Meets(bits, b) || Awaits(more, b)
  }

  /** What a task with this value waits for holds once `more` has been set: all of its bits, or one of them. */
  ghost predicate Satisfied(value: Bits, bits: Bits, more: Bits) {
    if Meets(value, WAIT_FOR_ALL) then forall b :: OneBit(b) && Awaits(value, b) ==> IsUp(bits, more, b)
    else exists b :: OneBit(b) && Awaits(value, b) && IsUp(bits, more, b)
  }

  lemma AllOrNone(x: Bits, b: Bits)
    requires OneBit(b)
    ensures Common(x, b) == 0 || Common(x, b) == b
  {
  }

  lemma MaskOfCommon(x: Bits, y: Bits, b: Bits)
    ensures Common(Common(x, y), b) == Common(Common(x, b), Common(y, b))
  {
  }

  lemma MaskOfMinus(x: Bits, y: Bits, b: Bits)
    ensures Common(Minus(x, y), b) == Minus(Common(x, b), Common(y, b))
  {
  }

  lemma NoneOrBoth(x: Bits, y: Bits, b: Bits)
    requires (x == 0 || x == b) && (y == 0 || y == b)
    ensures Common(x, y) != 0 <==> x != 0 && y != 0
    ensures Minus(x, y) != 0 <==> x != 0 && y == 0
  {
    OwnMask(b);
  }

  lemma OwnMask(b: Bits)
    ensures Common(b, b) == b && Minus(b, 0) == b && Minus(b, b) == 0
    ensures Common(0, b) == Common(b, 0) == Common(0, 0) == Minus(0, b) == Minus(0, 0) == 0
  {
  }

  lemma BitOfBoth(x: Bits, y: Bits, b: Bits)
    requires OneBit(b)
    ensures Meets(Common(x, y), b) <==> Meets(x, b) && Meets(y, b)
  {
    hide Common, OneBit;
    AllOrNone(x, b);
    AllOrNone(y, b);
    MaskOfCommon(x, y, b);
    NoneOrBoth(Common(x, b), Common(y, b), b);
  }

  lemma MinusBit(bits: Bits, less: Bits, b: Bits)
    requires OneBit(b)
    ensures Meets(Minus(bits, less), b) <==> Meets(bits, b) && !Meets(less, b)
  {
    hide Common, Minus, OneBit;
    AllOrNone(bits, b);
    AllOrNone(less, b);
    MaskOfMinus(bits, less, b);
    NoneOrBoth(Common(bits, b), Common(less, b), b);
  }

  lemma WantedBit(value: Bits, b: Bits)
    requires OneBit(b)
    ensures Meets(Wanted(value), b) <==> Awaits(value, b)
  {
    hide Meets, OneBit;
    MinusBit(value, CONTROL, b);
  }

  lemma PlusBit(bits: Bits, more: Bits, b: Bits)
    requires OneBit(b)
    ensures Meets(Plus(bits, more), b) <==> IsUp(bits, more, b)
  {
    hide Meets, OneBit;
    WantedBit(more, b);
    OrMeets(bits, Wanted(more), b);
  }

  lemma MarkBit(bits: Bits, b: Bits)
    requires OneBit(b)
    ensures Meets(Mark(bits), b) <==> Meets(bits, b) || b == UNBLOCKED_DUE_TO_BIT_SET
  {
    hide Meets, OneBit;
    OrMeets(bits, UNBLOCKED_DUE_TO_BIT_SET, b);
    OnlyItself(b);
  }

  lemma OnlyItself(b: Bits)
    requires OneBit(b)
    ensures Meets(UNBLOCKED_DUE_TO_BIT_SET, b) <==> b == UNBLOCKED_DUE_TO_BIT_SET
  {
  }

  /** A word that is not zero has a lowest bit. */
  lemma LowestBit(x: Bits) returns (b: Bits)
    requires x != 0
    ensures OneBit(b) && Meets(x, b)
  {
    b := x & (!x + 1);
  }

  lemma SomeBitMissing(x: Bits, y: Bits) returns (b: Bits)
    requires Common(x, y) != x
    ensures OneBit(b) && Meets(x, b) && !Meets(y, b)
  {
    hide Common, Minus, OneBit;
    MinusIsNotEmpty(x, y);
    b := LowestBit(Minus(x, y));
    MinusBit(x, y, b);
  }

  lemma MinusIsNotEmpty(x: Bits, y: Bits)
    ensures Minus(x, y) == 0 <==> Common(x, y) == x
  {
  }

  /** The test of the setter, bit by bit. */
  lemma WakesIsSatisfied(value: Bits, bits: Bits, more: Bits)
    ensures Wakes(value, Wanted(Plus(bits, more))) <==> Satisfied(value, bits, more)
  {
    hide Plus, Wanted, Meets, Common, OneBit, IsUp, Awaits;
    var w, now := Wanted(value), Wanted(Plus(bits, more));
    forall b | OneBit(b)
      ensures Meets(w, b) <==> Awaits(value, b)
      ensures Meets(w, b) ==> (Meets(now, b) <==> IsUp(bits, more, b))
    {
      NowBit(value, bits, more, b);
    }
    WakesBits(value, bits, more);
    if Common(w, now) != w {
      var b := SomeBitMissing(w, now);
    }
    if Common(w, now) != 0 {
      var b := LowestBit(Common(w, now));
      BitOfBoth(w, now, b);
    }
    forall b | OneBit(b) && Meets(w, b) && Meets(now, b)
      ensures Common(w, now) != 0
    {
      BitOfBoth(w, now, b);
      NoBits(b);
    }
    forall b | OneBit(b) && Meets(w, b) && !Meets(now, b)
      ensures Common(w, now) != w
    {
      BitOfBoth(w, now, b);
    }
  }

  lemma NowBit(value: Bits, bits: Bits, more: Bits, b: Bits)
    requires OneBit(b)
    ensures Meets(Wanted(value), b) <==> Awaits(value, b)
    ensures Meets(Wanted(value), b) ==> (Meets(Wanted(Plus(bits, more)), b) <==> IsUp(bits, more, b))
    ensures Meets(Wanted(Plus(bits, more)), b) <==> !Meets(CONTROL, b) && IsUp(bits, more, b)
  {
    hide Plus, Wanted, Meets, OneBit, IsUp;
    WantedBit(value, b);
    WantedBit(Plus(bits, more), b);
    PlusBit(bits, more, b);
  }

  lemma WakesBits(value: Bits, bits: Bits, more: Bits)
    ensures Wakes(value, Wanted(Plus(bits, more)))
            <==> var w := Wanted(value);
                 var both := Common(w, Wanted(Plus(bits, more)));
                 if Meets(value, WAIT_FOR_ALL) then both == w else both != 0
  {
    hide Plus, Wanted;
  }

  // ---------- who is woken and who is left ----------

  ghost predicate Before(s: seq<Node>, x: Node, y: Node) {
    exists i, j :: 0 <= i < j < |s| && s[i] == x && s[j] == y
  }

  /** `t` is some of the nodes of `s`, in their order. */
  ghost predicate InOrder(t: seq<Node>, s: seq<Node>) {
    (forall n :: n in t ==> n in s) && forall i, j :: 0 <= i < j < |t| ==> Before(s, t[i], t[j])
  }

  lemma BeforeInLonger(s: seq<Node>, last: Node, x: Node, y: Node)
    requires Before(s, x, y)
    ensures Before(s + [last], x, y)
  {
    var i, j :| 0 <= i < j < |s| && s[i] == x && s[j] == y;
    assert (s + [last])[i] == x && (s + [last])[j] == y;
  }

  lemma OrderSkips(t: seq<Node>, s: seq<Node>, last: Node)
    requires InOrder(t, s)
    ensures InOrder(t, s + [last])
  {
    hide Before;
    forall i, j | 0 <= i < j < |t|
      ensures Before(s + [last], t[i], t[j])
    {
      BeforeInLonger(s, last, t[i], t[j]);
    }
  }

  lemma OrderTakes(t: seq<Node>, s: seq<Node>, last: Node)
    requires InOrder(t, s)
    ensures InOrder(t + [last], s + [last])
  {
    hide Before;
    OrderSkips(t, s, last);
    forall i | 0 <= i < |t|
      ensures Before(s + [last], t[i], last)
    {
      LastIsBehind(s, last, t[i]);
    }
  }

  lemma LastIsBehind(s: seq<Node>, last: Node, x: Node)
    requires x in s
    ensures Before(s + [last], x, last)
  {
    var i :| 0 <= i < |s| && s[i] == x;
    assert (s + [last])[i] == x && (s + [last])[|s|] == last;
  }

  /** Both keep the order of the wait list. */
  lemma {:induction false} OrderKept(s: seq<Node>, value: map<Node, Bits>, bits: Bits)
    requires forall n :: n in s ==> n in value
    ensures InOrder(Woken(s, value, bits), s) && InOrder(Left(s, value, bits), s)
  {
    hide InOrder, Wakes;
    if s == [] {
      NothingInOrder();
    } else {
      var init, last := s[..|s| - 1], s[|s| - 1];
      OrderKept(init, value, bits);
      var woken, left := Woken(init, value, bits), Left(init, value, bits);
      OrderSkips(woken, init, last);
      OrderSkips(left, init, last);
      OrderTakes(woken, init, last);
      OrderTakes(left, init, last);
      assert init + [last] == s;
    }
  }

  lemma NothingInOrder()
    ensures InOrder([], [])
  {
  }

  /** `left` and `woken` are the nodes of `s`, both in its order, and the woken ones are those whose value is satisfied. */
  ghost predicate IsSplit(s: seq<Node>, woken: seq<Node>, left: seq<Node>, value: map<Node, Bits>, bits: Bits, more: Bits) {
    && InOrder(woken, s) && InOrder(left, s)
    && (forall n :: n in s ==> n in value)
    && (forall n :: n in s ==> (n in woken <==> Satisfied(value[n], bits, more)))
    && (forall n :: n in s ==> (n in left <==> !Satisfied(value[n], bits, more)))
  }

  lemma SplitIsWokenAndLeft(s: seq<Node>, value: map<Node, Bits>, bits: Bits, more: Bits)
    requires forall n :: n in s ==> n in value
    ensures var now := Wanted(Plus(bits, more));
            IsSplit(s, Woken(s, value, now), Left(s, value, now), value, bits, more)
  {
    hide InOrder, Satisfied, Plus, Wanted, Wakes, Woken, Left;
    var now := Wanted(Plus(bits, more));
    OrderKept(s, value, now);
    forall n | n in s
      ensures n in Woken(s, value, now) <==> Satisfied(value[n], bits, more)
      ensures n in Left(s, value, now) <==> !Satisfied(value[n], bits, more)
    {
      WokenOrLeft(s, value, now, n);
      WakesIsSatisfied(value[n], bits, more);
    }
  }

  /** A woken task waited for bit `b` and asked for its bits to be cleared. */
  ghost predicate IsConsumed(woken: seq<Node>, value: map<Node, Bits>, b: Bits) {
    exists n :: n in woken && n in value && Meets(value[n], CLEAR_EVENTS_ON_EXIT) && Awaits(value[n], b)
  }

  lemma ConsumedIsCleared(s: seq<Node>, value: map<Node, Bits>, now: Bits, b: Bits)
    requires OneBit(b) && forall n :: n in s ==> n in value
    ensures Meets(ToClear(s, value, now), b) <==> IsConsumed(Woken(s, value, now), value, b)
  {
    hide ToClear, Woken, Wakes, Wanted, OneBit, Awaits;
    ClearedBits(s, value, now, b);
    forall n | n in s
      ensures Clears(value[n], now, b)
              <==> n in Woken(s, value, now) && Meets(value[n], CLEAR_EVENTS_ON_EXIT) && Awaits(value[n], b)
    {
      WokenOrLeft(s, value, now, n);
      WantedBit(value[n], b);
    }
    forall n | n in Woken(s, value, now)
      ensures n in s
    {
      WokenOrLeft(s, value, now, n);
    }
    if AnyClears(s, value, now, b) {
      var i :| 0 <= i < |s| && Clears(value[s[i]], now, b);
      assert s[i] in Woken(s, value, now);
    }
    if IsConsumed(Woken(s, value, now), value, b) {
      var n :| n in Woken(s, value, now) && n in value && Meets(value[n], CLEAR_EVENTS_ON_EXIT) && Awaits(value[n], b);
      var i :| 0 <= i < |s| && s[i] == n;
      assert Clears(value[s[i]], now, b);
    }
  }

  /** The event bits afterwards, bit by bit. */
  ghost predicate HasBits(after: Bits, before: Bits, more: Bits, woken: seq<Node>, value: map<Node, Bits>) {
    forall b :: OneBit(b) ==> (Meets(after, b) <==> IsUp(before, more, b) && !IsConsumed(woken, value, b))
  }

  lemma BitsAfter(s: seq<Node>, value: map<Node, Bits>, bits: Bits, more: Bits)
    requires forall n :: n in s ==> n in value
    ensures var now := Wanted(Plus(bits, more));
            HasBits(Minus(Plus(bits, more), ToClear(s, value, now)), bits, more, Woken(s, value, now), value)
  {
    hide Plus, Minus, ToClear, Woken, Wanted, Meets, OneBit, IsUp, IsConsumed;
    var now := Wanted(Plus(bits, more));
    forall b | OneBit(b)
      ensures Meets(Minus(Plus(bits, more), ToClear(s, value, now)), b)
              <==> IsUp(bits, more, b) && !IsConsumed(Woken(s, value, now), value, b)
    {
      MinusBit(Plus(bits, more), ToClear(s, value, now), b);
      PlusBit(bits, more, b);
      ConsumedIsCleared(s, value, now, b);
    }
  }

  /** What a woken task finds: the event bits as they were when it was woken, and the mark that it did not time out. */
  ghost predicate IsMarked(v: Bits, bits: Bits, more: Bits) {
    forall b :: OneBit(b) ==>
      (Meets(v, b) <==> b == UNBLOCKED_DUE_TO_BIT_SET || (IsUp(bits, more, b) && !Meets(CONTROL, b)))
  }

  lemma MarkIs(bits: Bits, more: Bits)
    ensures IsMarked(Mark(Wanted(Plus(bits, more))), bits, more)
  {
    hide Plus, Wanted, Mark, Meets, OneBit, IsUp;
    forall b | OneBit(b)
      ensures Meets(Mark(Wanted(Plus(bits, more))), b)
              <==> b == UNBLOCKED_DUE_TO_BIT_SET || (IsUp(bits, more, b) && !Meets(CONTROL, b))
    {
      MarkBit(Wanted(Plus(bits, more)), b);
      NowBit(0, bits, more, b);
    }
  }

  /** The values afterwards. */
  ghost predicate HasValues(after: map<Node, Bits>, before: map<Node, Bits>, woken: seq<Node>, bits: Bits, more: Bits) {
    && after.Keys == before.Keys
    && forall n :: n in before ==> if n in woken then IsMarked(after[n], bits, more) else after[n] == before[n]
  }

  lemma ValuesAfter(value: map<Node, Bits>, woken: seq<Node>, bits: Bits, more: Bits)
    requires forall n :: n in woken ==> n in value
    ensures HasValues(Marked(value, woken, Mark(Wanted(Plus(bits, more)))), value, woken, bits, more)
  {
    hide Plus, Wanted, Mark, Marked, IsMarked;
    var mark := Mark(Wanted(Plus(bits, more)));
    MarkIs(bits, more);
    MarkedKeys(value, woken, mark);
    forall n | n in value
      ensures n in Marked(value, woken, mark) && Marked(value, woken, mark)[n] == if n in woken then mark else value[n]
    {
      MarkedAt(value, woken, mark, n);
    }
  }

  lemma {:induction false} MarkedKeys(value: map<Node, Bits>, ws: seq<Node>, mark: Bits)
    requires forall n :: n in ws ==> n in value
    ensures Marked(value, ws, mark).Keys == value.Keys
  {
    if ws != [] {
      MarkedKeys(value, ws[..|ws| - 1], mark);
    }
  }

  ghost predicate Released(ws: seq<Node>)
    reads ws`list
  {
    forall n :: n in ws ==> n.list == null
  }

  class EventGroup {
    var bits: Bits
    const waiting: PList
    var value: map<Node, Bits>   // the value stored in each waiting task

    constructor (waiting: PList)
      ensures this.waiting == waiting && bits == 0 && value == map[]
    {
      this.waiting := waiting;
      bits, value := 0, map[];
    }

    /** `set_event_group_bits`. An event bit is set afterwards if it was or is to be, unless a woken task consumes it.
        Exactly the tasks that are satisfied by all these bits are woken, each with the bits and the mark in its value;
        the list keeps the others in their order. */
    method SetBits(toSet: Bits, log: OpLog, ghost s: seq<Node>) returns (woken: seq<Node>, ghost left: seq<Node>)
      requires IsChain(waiting, s) && |s| < MAX_LEN && forall n :: n in s ==> n in value
      modifies this`bits, this`value, waiting, log`word, s`prev, s`next, s`list
      ensures
        var now := Wanted(Plus(old(bits), toSet));
        && woken == Woken(s, old(value), now) && IsChain(waiting, Left(s, old(value), now))
        && bits == Minus(Plus(old(bits), toSet), ToClear(s, old(value), now))
        && value == Marked(old(value), woken, Mark(now))
      ensures IsSplit(s, woken, left, old(value), old(bits), toSet) && IsChain(waiting, left) && Released(woken)
      ensures HasBits(bits, old(bits), toSet, woken, old(value))
      ensures HasValues(value, old(value), woken, old(bits), toSet)
    {
      hide IsChain, Wakes, ClearOf, Woken, Left, ToClear, Marked, Plus, Minus, Wanted, Mark, IsSplit, HasBits, HasValues;
      SplitIsWokenAndLeft(s, value, bits, toSet);
      BitsAfter(s, value, bits, toSet);
      left := Left(s, value, Wanted(Plus(bits, toSet)));
      WokenAreKnown(s, value, Wanted(Plus(bits, toSet)));
      ValuesAfter(value, Woken(s, value, Wanted(Plus(bits, toSet))), bits, toSet);
      bits := Plus(bits, toSet);
      var now := Wanted(bits);
      var clear;
      woken, clear := Walk(now, Mark(now), log, s);
      bits := Minus(bits, clear);
    }

    lemma WokenAreKnown(s: seq<Node>, value: map<Node, Bits>, now: Bits)
      requires forall n :: n in s ==> n in value
      ensures forall n :: n in Woken(s, value, now) ==> n in value
    {
      hide Woken, Wakes;
      forall n | n in Woken(s, value, now)
        ensures n in value
      {
        WokenOrLeft(s, value, now, n);
      }
    }

    /** The walk over the wait list. */
    method Walk(now: Bits, mark: Bits, log: OpLog, ghost s: seq<Node>) returns (woken: seq<Node>, clear: Bits)
      requires IsChain(waiting, s) && |s| < MAX_LEN && forall n :: n in s ==> n in value
      modifies this`value, waiting, log`word, s`prev, s`next, s`list
      ensures woken == Woken(s, old(value), now) && IsChain(waiting, Left(s, old(value), now))
      ensures clear == ToClear(s, old(value), now) && value == Marked(old(value), woken, mark)
      ensures Released(woken)
    {
      hide IsChain, Wakes, Wanted, ClearOf, Woken, Left, ToClear, Marked, Union, Apart, Released, First;
      clear, woken := 0, [];
      ghost var v0 := value;
      ghost var done: seq<Node>, rest := [], s;
      var next := waiting.head;
      WalkBegins(waiting, s, v0, now, mark);
      while next != null
        invariant next == First(rest) && done + rest == s && Apart(done, rest)
        invariant woken == Woken(done, v0, now) && clear == ToClear(done, v0, now)
        invariant IsChain(waiting, Left(done, v0, now) + rest)
        invariant value == Marked(v0, woken, mark) && Released(woken)
        decreases |rest|
      {
        FirstIs(rest);
        var node: Node := next;
        OneMore(done, rest, v0, now, mark);
        var item := value[node];
        var woke;
        next, woke := Visit(node, now, mark, log, done, rest, v0, woken);
        if woke {
          clear := Union(clear, ClearOf(item, now));
          woken := woken + [node];
        } else {
          ClearStays(clear, item, now);
        }
        done, rest := done + [node], rest[1..];
      }
      WalkEnds(s, done, rest, v0, now);
    }

    /** The nodes seen and the nodes to come are all different. */
    ghost predicate Apart(done: seq<Node>, rest: seq<Node>) {
      Distinct(done + rest)
    }

    lemma WalkBegins(l: PList, s: seq<Node>, value: map<Node, Bits>, bits: Bits, mark: Bits)
      requires IsChain(l, s) && forall n :: n in s ==> n in value
      ensures l.head == First(s) && Apart([], s) && [] + s == s && Released([])
      ensures Left([], value, bits) + s == s && Woken([], value, bits) == [] && ToClear([], value, bits) == 0
      ensures Marked(value, [], mark) == value
    {
      assert [] + s == s;
    }

    lemma WalkEnds(s: seq<Node>, done: seq<Node>, rest: seq<Node>, value: map<Node, Bits>, bits: Bits)
      requires First(rest) == null && done + rest == s && forall n :: n in done ==> n in value
      ensures rest == [] && done == s && Left(done, value, bits) + rest == Left(done, value, bits)
    {
    }

    lemma FirstIs(rest: seq<Node>)
      requires First(rest) != null
      ensures rest != [] && First(rest) == rest[0]
    {
    }

    /** Look at one waiter. Its successor is fetched before it is taken out. */
    method Visit(node: Node, now: Bits, mark: Bits, log: OpLog,
                 ghost done: seq<Node>, ghost rest: seq<Node>, ghost v0: map<Node, Bits>, ghost woken: seq<Node>)
      returns (next: Node?, woke: bool)
      requires rest != [] && node == rest[0] && (forall n :: n in done ==> n in v0)
      requires node in v0 && |Left(done, v0, now) + rest| < MAX_LEN
      requires node in value && value[node] == v0[node] && IsChain(waiting, Left(done, v0, now) + rest)
      requires forall n :: n in Left(done, v0, now) ==> n in done
      requires Released(woken) && node !in woken
      modifies this`value, waiting, log`word, node`list, (done + rest)`prev, (done + rest)`next
      ensures woke == Wakes(v0[node], now) && next == First(rest[1..])
      ensures IsChain(waiting, (if woke then Left(done, v0, now) else Left(done, v0, now) + [node]) + rest[1..])
      ensures value == if woke then old(value)[node := mark] else old(value)
      ensures Released(if woke then woken + [node] else woken)
    {
      hide IsChain, Wakes, Wanted, Left, Without;
      ghost var kept := Left(done, v0, now);
      AtWaiter(waiting, kept, rest);
      next := node.next;
      woke := Wakes(value[node], now);
      if woke {
        value := value[node := mark];
        NeighboursSeen(node, kept, done, rest);
        TakeOut(node, log, kept + rest, |kept|);
      }
    }

    lemma NeighboursSeen(node: Node, kept: seq<Node>, done: seq<Node>, rest: seq<Node>)
      requires forall n :: n in kept ==> n in done
      ensures node.prev in kept + rest ==> node.prev in done + rest
      ensures node.next in kept + rest ==> node.next in done + rest
    {
    }

    method TakeOut(node: Node, log: OpLog, ghost t: seq<Node>, ghost k: int)
      requires 0 <= k < |t| < MAX_LEN && t[k] == node && IsChain(waiting, t)
      modifies waiting, log`word, node`list, Opt(node.prev)`next, Opt(node.next)`prev
      ensures IsChain(waiting, Without(t, k)) && node.list == null
    {
      hide RemoveCut, CursorWithout, IsList;
      CursorStaysUnset(t, k);
      var pw := OptimizedRemove(waiting, node, log, Mains, t, k, false);
    }

    /** One waiter more. */
    lemma OneMore(done: seq<Node>, rest: seq<Node>, value: map<Node, Bits>, bits: Bits, mark: Bits)
      requires rest != [] && Apart(done, rest) && forall n :: n in done + rest ==> n in value
      ensures
        var node, more, woken := rest[0], done + [rest[0]], Woken(done, value, bits);
        && Apart(more, rest[1..]) && more + rest[1..] == done + rest && node in value && node in done + rest
        && node !in woken && node in Marked(value, woken, mark) && Marked(value, woken, mark)[node] == value[node]
        && |Left(done, value, bits)| <= |done| && (forall n :: n in Left(done, value, bits) ==> n in done)
        && Left(more, value, bits)
           == (if Wakes(value[node], bits) then Left(done, value, bits) else Left(done, value, bits) + [node])
        && Woken(more, value, bits) == (if Wakes(value[node], bits) then woken + [node] else woken)
        && ToClear(more, value, bits) == Union(ToClear(done, value, bits), ClearOf(value[node], bits))
        && Marked(value, woken + [node], mark) == Marked(value, woken, mark)[node := mark]
    {
      hide Wakes, Wanted, Left, Woken, ToClear, ClearOf, Marked, Union;
      var node, more, woken := rest[0], done + [rest[0]], Woken(done, value, bits);
      assert more + rest[1..] == done + rest;
      assert more[..|done|] == done && (done + rest)[|done|] == node;
      forall k | 0 <= k < |done|
        ensures done[k] != node
      {
        assert (done + rest)[k] == done[k];
      }
      LastWaiter(more, value, bits);
      LeftIsShorter(done, value, bits);
      WokenOrLeft(done, value, bits, node);
      MarkedAt(value, woken, mark, node);
      assert (woken + [node])[..|woken|] == woken;
      MarkedMore(value, woken + [node], mark);
    }

    lemma MarkedMore(value: map<Node, Bits>, ws: seq<Node>, mark: Bits)
      requires ws != []
      ensures Marked(value, ws, mark) == Marked(value, ws[..|ws| - 1], mark)[ws[|ws| - 1] := mark]
    {
    }

    lemma LastWaiter(s: seq<Node>, value: map<Node, Bits>, bits: Bits)
      requires s != [] && forall n :: n in s ==> n in value
      ensures
        var init, last := s[..|s| - 1], s[|s| - 1];
        && Left(s, value, bits)
           == (if Wakes(value[last], bits) then Left(init, value, bits) else Left(init, value, bits) + [last])
        && Woken(s, value, bits)
           == (if Wakes(value[last], bits) then Woken(init, value, bits) + [last] else Woken(init, value, bits))
        && ToClear(s, value, bits) == Union(ToClear(init, value, bits), ClearOf(value[last], bits))
    {
      hide Wakes, ClearOf;
    }

    lemma ClearStays(x: Bits, value: Bits, bits: Bits)
      requires !Wakes(value, bits)
      ensures Union(x, ClearOf(value, bits)) == x
    {
    }

    /** The walk has kept `kept` and stands before `rest`. */
    lemma AtWaiter(l: PList, kept: seq<Node>, rest: seq<Node>)
      requires rest != [] && IsChain(l, kept + rest)
      ensures
        var t, node := kept + rest, rest[0];
        && t[|kept|] == node && node.next == First(rest[1..])
        && (node.next == null || node.next in t) && (node.prev == null || node.prev in t)
        && Without(t, |kept|) == kept + rest[1..] && t == (kept + [node]) + rest[1..]
    {
      hide IsList;
      var t := kept + rest;
      assert t[|kept|] == rest[0];
      NeighboursAreIn(l, t, |kept|, false);
      NextInChain(l, t, |kept|);
      assert |t| > |kept| + 1 ==> t[|kept| + 1] == rest[1];
    }

    lemma NextInChain(l: PList, t: seq<Node>, k: int)
      requires 0 <= k < |t| && IsChain(l, t)
      ensures t[k].next == if k + 1 < |t| then t[k + 1] else null
    {
      hide Distinct, PrevOf;
    }

    lemma {:induction false} LeftIsShorter(s: seq<Node>, value: map<Node, Bits>, bits: Bits)
      requires forall n :: n in s ==> n in value
      ensures |Left(s, value, bits)| <= |s| && forall n :: n in Left(s, value, bits) ==> n in s
    {
      if s != [] {
        LeftIsShorter(s[..|s| - 1], value, bits);
      }
    }
  }
}
