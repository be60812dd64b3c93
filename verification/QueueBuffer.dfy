/** The ring buffer of a queue: indices are logged, the bytes of the items are not. */
module QueueBuffer {
  import opened PowerSupply
  import TxPrograms

  type Byte = TxPrograms.Byte
  type Item = seq<Byte>

  // ---------- a bounded deque ----------

  datatype QueueErr = QueueFull | QueueEmpty
  datatype Op = PushBack(item: Item) | PushFront(item: Item) | Dequeue
  datatype Reply = Done | Got(item: Item) | Failed(err: QueueErr)

  function Deque(op: Op, items: seq<Item>, length: nat): (seq<Item>, Reply) {
    match op
    case PushBack(x) => if |items| >= length then (items, Failed(QueueFull)) else (items + [x], Done)
    case PushFront(x) => if |items| >= length then (items, Failed(QueueFull)) else ([x] + items, Done)
    case Dequeue => if items == [] then (items, Failed(QueueEmpty)) else (items[1..], Got(items[0]))
  }

  function Deques(ops: seq<Op>, items: seq<Item>, length: nat): (seq<Item>, seq<Reply>) {
    if ops == [] then (items, [])
    else
      var (before, replies) := Deques(ops[..|ops| - 1], items, length);
      var (after, reply) := Deque(ops[|ops| - 1], before, length);
      (after, replies + [reply])
  }

  // ---------- what a bounded deque promises ----------

  lemma DequesStep(ops: seq<Op>, op: Op, items: seq<Item>, length: nat)
    ensures
      var (before, replies) := Deques(ops, items, length);
      var (after, reply) := Deque(op, before, length);
      Deques(ops + [op], items, length) == (after, replies + [reply])
  {
    assert (ops + [op])[..|ops|] == ops;
  }

  lemma {:induction false} OneReplyEach(ops: seq<Op>, items: seq<Item>, length: nat)
    ensures |Deques(ops, items, length).1| == |ops|
  {
    if ops != [] {
      OneReplyEach(ops[..|ops| - 1], items, length);
    }
  }

  /** The queue never holds more than it has room for. */
  lemma {:induction false} NeverTooLong(ops: seq<Op>, items: seq<Item>, length: nat)
    requires |items| <= length
    ensures |Deques(ops, items, length).0| <= length
  {
    if ops != [] {
      NeverTooLong(ops[..|ops| - 1], items, length);
    }
  }

  /** The items that were pushed back and taken in. */
  function Accepted(ops: seq<Op>, replies: seq<Reply>): seq<Item>
    requires |replies| == |ops|
  {
    if ops == [] then []
    else
      var n := |ops| - 1;
      Accepted(ops[..n], replies[..n]) + if ops[n].PushBack? && replies[n].Done? then [ops[n].item] else []
  }

  /** The items that were handed out. */
  function Taken(replies: seq<Reply>): seq<Item> {
    if replies == [] then []
    else
      var n := |replies| - 1;
      Taken(replies[..n]) + if replies[n].Got? then [replies[n].item] else []
  }

  lemma Assoc<T>(a: seq<T>, b: seq<T>, c: seq<T>)
    ensures a + (b + c) == (a + b) + c
  {
  }

  /** First in, first out: without pushes to the front, what was there and what came in is what went out and what is
      left, in this order. */
  lemma {:induction false} FirstInFirstOut(ops: seq<Op>, items: seq<Item>, length: nat)
    requires forall op :: op in ops ==> !op.PushFront?
    ensures
      var (after, replies) := Deques(ops, items, length);
      |replies| == |ops| && items + Accepted(ops, replies) == Taken(replies) + after
  {
    OneReplyEach(ops, items, length);
    if ops != [] {
      var n := |ops| - 1;
      var (before, rs) := Deques(ops[..n], items, length);
      var (after, reply) := Deque(ops[n], before, length);
      FirstInFirstOut(ops[..n], items, length);
      var replies, came, went := rs + [reply], Accepted(ops[..n], rs), Taken(rs);
      assert replies[..n] == rs && ops[n] in ops && items + came == went + before;
      match ops[n] {
        case PushBack(x) =>
          Assoc(items, came, [x]);
          Assoc(went, before, [x]);
          assert went + [] == went && came + [] == came;
        case Dequeue =>
          if reply.Got? { Assoc(went, [reply.item], after); }
          assert reply.Got? ==> before == [reply.item] + after;
          assert went + [] == went && came + [] == came;
      }
    }
  }

  function Pushes(xs: seq<Item>): seq<Op> {
    if xs == [] then [] else Pushes(xs[..|xs| - 1]) + [PushBack(xs[|xs| - 1])]
  }

  function Dequeues(n: nat): seq<Op> {
    if n == 0 then [] else Dequeues(n - 1) + [Dequeue]
  }

  function Dones(n: nat): seq<Reply> {
    if n == 0 then [] else Dones(n - 1) + [Done]
  }

  function Gots(xs: seq<Item>): seq<Reply> {
    if xs == [] then [] else Gots(xs[..|xs| - 1]) + [Got(xs[|xs| - 1])]
  }

  /** As many items as there is room for are all taken. */
  lemma {:induction false} AllTaken(xs: seq<Item>, items: seq<Item>, length: nat)
    requires |items| + |xs| <= length
    ensures Deques(Pushes(xs), items, length) == (items + xs, Dones(|xs|))
  {
    if xs == [] {
      assert items + xs == items;
    } else {
      var init := xs[..|xs| - 1];
      AllTaken(init, items, length);
      DequesStep(Pushes(init), PushBack(xs[|xs| - 1]), items, length);
      assert items + init + [xs[|xs| - 1]] == items + xs;
    }
  }

  lemma {:induction false} DequesBoth(a: seq<Op>, b: seq<Op>, items: seq<Item>, length: nat)
    ensures
      var (between, first) := Deques(a, items, length);
      var (after, second) := Deques(b, between, length);
      Deques(a + b, items, length) == (after, first + second)
    decreases |b|
  {
    if b == [] {
      assert a + b == a && Deques(a, items, length).1 + [] == Deques(a, items, length).1;
    } else {
      var init, last := b[..|b| - 1], b[|b| - 1];
      DequesBoth(a, init, items, length);
      DequesStep(a + init, last, items, length);
      assert a + init + [last] == a + b;
      var (between, first) := Deques(a, items, length);
      var (before, replies) := Deques(init, between, length);
      var (after, reply) := Deque(last, before, length);
      Assoc(first, replies, [reply]);
    }
  }

  lemma GotsStep(items: seq<Item>, n: nat)
    requires n < |items|
    ensures Gots(items[..n + 1]) == Gots(items[..n]) + [Got(items[n])]
    ensures items[n..] != [] && items[n..][0] == items[n] && items[n..][1..] == items[n + 1..]
  {
    assert items[..n + 1][..n] == items[..n];
  }

  /** They come out in the order in which they went in. */
  lemma {:induction false} OutInOrder(n: nat, items: seq<Item>, length: nat)
    requires n <= |items|
    ensures Deques(Dequeues(n), items, length) == (items[n..], Gots(items[..n]))
  {
    if n > 0 {
      hide Deques;
      OutInOrder(n - 1, items, length);
      DequesStep(Dequeues(n - 1), Dequeue, items, length);
      GotsStep(items, n - 1);
    } else {
      assert items[0..] == items;
    }
  }

  /** Up to `length` items into an empty queue, as many out of it, and one more: all are taken, they come out in order,
      and then the queue is empty. A queue that is full refuses. */
  lemma FillAndDrain(xs: seq<Item>, x: Item, length: nat)
    requires |xs| <= length
    ensures Deques(Pushes(xs) + Dequeues(|xs|) + [Dequeue], [], length)
            == ([], Dones(|xs|) + Gots(xs) + [Failed(QueueEmpty)])
    ensures |xs| == length ==>
      Deques(Pushes(xs) + [PushBack(x)], [], length) == (xs, Dones(|xs|) + [Failed(QueueFull)])
      && Deques(Pushes(xs) + [PushFront(x)], [], length) == (xs, Dones(|xs|) + [Failed(QueueFull)])
  {
    AllTaken(xs, [], length);
    assert [] + xs == xs && xs[..|xs|] == xs && xs[|xs|..] == [];
    OutInOrder(|xs|, xs, length);
    DequesBoth(Pushes(xs), Dequeues(|xs|), [], length);
    DequesStep(Pushes(xs) + Dequeues(|xs|), Dequeue, [], length);
    DequesStep(Pushes(xs), PushBack(x), [], length);
    DequesStep(Pushes(xs), PushFront(x), [], length);
  }

  // ---------- positions ----------

  /** Where slot `k` begins. */
  function Offset(k: nat, size: nat): nat {
    k * size
  }

  lemma OffsetNext(k: nat, size: nat)
    ensures Offset(k + 1, size) == Offset(k, size) + size
  {
  }

  lemma {:induction false} OffsetsApart(i: nat, j: nat, size: nat)
    requires i < j
    ensures Offset(i, size) + size <= Offset(j, size)
    decreases j
  {
    OffsetNext(j - 1, size);
    if i < j - 1 {
      OffsetsApart(i, j - 1, size);
    }
  }

  /** The slot of item `i` when the first one is in slot `r`. */
  function SlotOf(r: nat, i: nat, length: nat): (k: nat)
    requires r < length && i <= length
    ensures k < length
  {
    if r + i < length then r + i else r + i - length
  }

  // ---------- what the buffer holds ----------

  datatype Indices = Indices(readPos: nat, writePos: nat, items: nat)

  /** The indices point at slots, and the write slot is where the items end. */
  ghost predicate AtSlots(ix: Indices, r: nat, length: nat, size: nat) {
    && r < length && ix.items <= length
    && ix.readPos == Offset(r, size) && ix.writePos == Offset(SlotOf(r, ix.items, length), size)
  }

  function Slot(buf: seq<Byte>, k: nat, size: nat): Item
    requires Offset(k, size) + size <= |buf|
  {
    buf[Offset(k, size)..Offset(k, size) + size]
  }

  ghost predicate SlotsFit(buf: seq<Byte>, length: nat, size: nat) {
    forall k: nat :: k < length ==> Offset(k, size) + size <= |buf|
  }

  /** The items from slot `r` on, around the end of the buffer. */
  ghost function ItemsFrom(buf: seq<Byte>, r: nat, n: nat, length: nat, size: nat): (items: seq<Item>)
    requires r < length && n <= length && SlotsFit(buf, length, size)
    ensures |items| == n
    ensures forall i :: 0 <= i < n ==> items[i] == Slot(buf, SlotOf(r, i, length), size)
  {
    if n == 0 then [] else ItemsFrom(buf, r, n - 1, length, size) + [Slot(buf, SlotOf(r, n - 1, length), size)]
  }

  ghost predicate SameBut(b: seq<Byte>, c: seq<Byte>, free: nat, length: nat, size: nat)
    requires SlotsFit(b, length, size) && SlotsFit(c, length, size)
  {
    forall k: nat :: k < length && k != free ==> Slot(b, k, size) == Slot(c, k, size)
  }

  /** Bytes of a free slot do not matter. */
  lemma {:induction false} FreeSlotsDoNotMatter(b: seq<Byte>, c: seq<Byte>, r: nat, n: nat, length: nat, size: nat, free: nat)
    requires r < length && n <= length && SlotsFit(b, length, size) && SlotsFit(c, length, size) && free < length
    requires forall i :: 0 <= i < n ==> SlotOf(r, i, length) != free
    requires SameBut(b, c, free, length, size)
    ensures ItemsFrom(b, r, n, length, size) == ItemsFrom(c, r, n, length, size)
    decreases n
  {
    hide Slot, Offset;
    if n > 0 {
      FreeSlotsDoNotMatter(b, c, r, n - 1, length, size, free);
      assert SlotOf(r, n - 1, length) != free;
    }
  }

  /** Moving the first slot back by one puts an item in front. */
  lemma OneInFront(b: seq<Byte>, r: nat, n: nat, length: nat, size: nat)
    requires r < length && n < length && SlotsFit(b, length, size)
    ensures
      var r' := if r == 0 then length - 1 else r - 1;
      ItemsFrom(b, r', n + 1, length, size) == [Slot(b, r', size)] + ItemsFrom(b, r, n, length, size)
  {
    hide Slot, Offset;
    var r' := if r == 0 then length - 1 else r - 1;
    var whole, rest := ItemsFrom(b, r', n + 1, length, size), ItemsFrom(b, r, n, length, size);
    forall i | 0 <= i < n + 1
      ensures whole[i] == ([Slot(b, r', size)] + rest)[i]
    {
      assert SlotOf(r', i, length) == if i == 0 then r' else SlotOf(r, i - 1, length);
    }
  }

  /** One slot on, in positions and in slots: the end of the buffer is its beginning. */
  lemma AdvancePos(k: nat, length: nat, size: nat)
    requires k < length
    ensures (if Offset(k, size) + size == Offset(length, size) then 0 else Offset(k, size) + size)
            == Offset(SlotOf(k, 1, length), size)
  {
    OffsetNext(k, size);
    if k + 1 < length {
      OffsetsApart(k + 1, length, size);
    }
  }

  lemma RetreatPos(k: nat, length: nat, size: nat)
    requires k < length
    ensures size <= Offset(length, size) && (Offset(k, size) > 0 ==> size <= Offset(k, size))
    ensures (if Offset(k, size) == 0 then Offset(length, size) - size else Offset(k, size) - size)
            == Offset(if k == 0 then length - 1 else k - 1, size)
  {
    OffsetNext(length - 1, size);
    if k > 0 {
      OffsetNext(k - 1, size);
    }
  }

  lemma SlotsAreInside(buf: seq<Byte>, length: nat, size: nat)
    requires |buf| == Offset(length, size)
    ensures SlotsFit(buf, length, size)
  {
    forall k: nat | k < length
      ensures Offset(k, size) + size <= |buf|
    {
      OffsetsApart(k, length, size);
    }
  }

  /** Bytes written inside one slot leave the other slots alone. */
  lemma OnlyOneSlot(b: seq<Byte>, c: seq<Byte>, free: nat, length: nat, size: nat)
    requires free < length && |b| == |c| && SlotsFit(b, length, size) && SlotsFit(c, length, size)
    requires forall i :: 0 <= i < |b| && !(Offset(free, size) <= i < Offset(free, size) + size) ==> c[i] == b[i]
    ensures SameBut(b, c, free, length, size)
  {
    forall k: nat | k < length && k != free
      ensures Slot(b, k, size) == Slot(c, k, size)
    {
      if k < free {
        OffsetsApart(k, free, size);
      } else {
        OffsetsApart(free, k, size);
      }
    }
  }

  // ---------- the queue ----------

  datatype Index = ReadPos | WritePos | Count

  class Queue {
    const length: nat
    const itemSize: nat
    const tail: nat
    const buffer: array<Byte>
    var readPos: nat
    var writePos: nat
    var items: nat
    var saved: map<Index, nat>   // oldest undo record of each index logged by the open transaction
    ghost var first: nat         // slot of the first item when it began

    constructor (length: nat, itemSize: nat)
      requires length > 0
      ensures Valid() && Quiet() && Contents() == [] && this.length == length && this.itemSize == itemSize
      ensures fresh(buffer)
    {
      this.length, this.itemSize, tail := length, itemSize, Offset(length, itemSize);
      buffer := new Byte[Offset(length, itemSize)](_ => 0);
      readPos, writePos, items, saved, first := 0, 0, 0, map[], 0;
      new;
      SlotsAreInside(buffer[..], length, itemSize);
    }

    /** The indices as rollback leaves them. */
    ghost function Before(): Indices
      reads this`readPos, this`writePos, this`items, this`saved
    {
      Indices(if ReadPos in saved then saved[ReadPos] else readPos,
              if WritePos in saved then saved[WritePos] else writePos,
              if Count in saved then saved[Count] else items)
    }

    ghost predicate Valid()
      reads this`readPos, this`writePos, this`items, this`saved, this`first, buffer
    {
      && tail == buffer.Length == Offset(length, itemSize) && SlotsFit(buffer[..], length, itemSize)
      && AtSlots(Before(), first, length, itemSize)
    }

    predicate Quiet()
      reads this`saved
    {
      saved == map[]
    }

    /** The items, the open transaction rolled back. */
    ghost function Contents(): seq<Item>
      requires Valid()
      reads this`readPos, this`writePos, this`items, this`saved, this`first, buffer
    {
      ItemsFrom(buffer[..], first, Before().items, length, itemSize)
    }

    /** Copy an item into a free slot, byte by byte. */
    method CopyIn(pos: nat, item: Item, pw0: Power, ghost free: nat) returns (pw: Power)
      requires !pw0.Off? && Valid() && |item| == itemSize && free < length && pos == Offset(free, itemSize)
      requires forall i :: 0 <= i < Before().items ==> SlotOf(first, i, length) != free
      modifies buffer
      ensures pw0.Mains? ==> pw.Mains?
      ensures Valid() && Contents() == old(Contents())
      ensures !pw.Off? ==> Slot(buffer[..], free, itemSize) == item
    {
      hide ItemsFrom, Offset, SlotOf, Slot;
      ghost var b := buffer[..];
      SlotsAreInside(b, length, itemSize);
      assert Offset(free, itemSize) + itemSize <= |b|;
      pw := pw0;
      for i := 0 to itemSize
        invariant !pw.Off? && (pw0.Mains? ==> pw.Mains?)
        invariant buffer[pos..pos + i] == item[..i]
        invariant forall j :: 0 <= j < |b| && !(pos <= j < pos + itemSize) ==> buffer[j] == b[j]
      {
        pw := pw.Tick();
        if pw.Off? {
          FreeSlotWritten(b, buffer[..], free);
          return;
        }
        buffer[pos + i] := item[i];
      }
      FreeSlotWritten(b, buffer[..], free);
      assert item[..itemSize] == item;
      SlotIs(buffer[..], free, item);
    }

    lemma SlotIs(c: seq<Byte>, free: nat, item: Item)
      requires Offset(free, itemSize) + itemSize <= |c|
      requires c[Offset(free, itemSize)..Offset(free, itemSize) + itemSize] == item
      ensures Slot(c, free, itemSize) == item
    {
    }

    lemma FreeSlotWritten(b: seq<Byte>, c: seq<Byte>, free: nat)
      requires first < length && Before().items <= length && free < length
      requires |b| == |c| == Offset(length, itemSize) && SlotsFit(b, length, itemSize)
      requires forall i :: 0 <= i < Before().items ==> SlotOf(first, i, length) != free
      requires var pos := Offset(free, itemSize);
        forall j :: 0 <= j < |b| && !(pos <= j < pos + itemSize) ==> c[j] == b[j]
      ensures SlotsFit(c, length, itemSize)
      ensures ItemsFrom(b, first, Before().items, length, itemSize) == ItemsFrom(c, first, Before().items, length, itemSize)
    {
      hide ItemsFrom, Offset, SlotOf, Slot;
      SlotsAreInside(c, length, itemSize);
      OnlyOneSlot(b, c, free, length, itemSize);
      FreeSlotsDoNotMatter(b, c, first, Before().items, length, itemSize, free);
    }

    /** `borrow_mut`: record an index. */
    method LogIndex(f: Index, pw0: Power) returns (pw: Power)
      requires !pw0.Off? && Valid()
      modifies this`saved
      ensures pw0.Mains? ==> pw.Mains?
      ensures Valid() && Before() == old(Before()) && Contents() == old(Contents())
      ensures !pw.Off? ==> forall g :: g in saved <==> g in old(saved) || g == f
    {
      pw := pw0.Tick();
      if pw.Off? || f in saved { return; }
      saved := saved[f := match f case ReadPos => readPos case WritePos => writePos case Count => items];
    }

    /** Commit: the undo records are dropped and the indices are what they are. */
    method Commit(ghost newFirst: nat, pw0: Power) returns (pw: Power)
      requires !pw0.Off? && Valid() && AtSlots(Indices(readPos, writePos, items), newFirst, length, itemSize)
      modifies this`saved, this`first
      ensures pw0.Mains? ==> pw.Mains?
      ensures Valid()
      ensures pw.Off? ==> Contents() == old(Contents())
      ensures !pw.Off? ==> Quiet() && Contents() == ItemsFrom(buffer[..], newFirst, items, length, itemSize)
    {
      pw := pw0.Tick();
      if pw.Off? { return; }
      saved := map[];
      first := newFirst;
    }

    /** Count the new item and commit. */
    method OneMoreItem(pw0: Power, ghost newFirst: nat) returns (pw: Power)
      requires !pw0.Off? && Valid() && Count !in saved && items < length
      requires AtSlots(Indices(readPos, writePos, items + 1), newFirst, length, itemSize)
      modifies this`items, this`saved, this`first
      ensures pw0.Mains? ==> pw.Mains?
      ensures Valid()
      ensures pw.Off? ==> Contents() == old(Contents())
      ensures !pw.Off? ==> Quiet() && Contents() == ItemsFrom(buffer[..], newFirst, old(items) + 1, length, itemSize)
    {
      hide ItemsFrom, Offset, SlotOf, SlotsFit;
      pw := LogIndex(Count, pw0);
      if pw.Off? { return; }
      pw := pw.Tick();
      if pw.Off? { return; }
      items := items + 1;
      pw := Commit(newFirst, pw);
    }

    /** `push_back`, inside its transaction. */
    method DoPushBack(item: Item, pw0: Power) returns (pw: Power, reply: Reply)
      requires !pw0.Off? && Valid() && Quiet() && |item| == itemSize
      modifies this`writePos, this`items, this`saved, this`first, buffer
      ensures pw0.Mains? ==> pw.Mains?
      ensures Valid()
      ensures pw.Off? ==> Contents() == old(Contents())
      ensures !pw.Off? ==> Quiet() && (Contents(), reply) == Deque(PushBack(item), old(Contents()), length)
      ensures !pw.Off? ==>
        if |old(Contents())| < length then reply == Done && Contents() == old(Contents()) + [item]
        else reply == Failed(QueueFull) && Contents() == old(Contents())
    {
      hide ItemsFrom, Offset, SlotOf, Slot, SlotsFit;
      if items == length {
        reply := Failed(QueueFull);
        pw := Commit(first, pw0);
        return;
      }
      reply := Done;
      ghost var free := SlotOf(first, items, length);
      FreeBehind(first, items);
      pw := CopyIn(writePos, item, pw0, free);
      if pw.Off? { return; }
      pw := LogIndex(WritePos, pw);
      if pw.Off? { return; }
      pw := pw.Tick();
      if pw.Off? { return; }
      writePos := writePos + itemSize;
      if writePos == tail {
        pw := pw.Tick();
        if pw.Off? { return; }
        writePos := 0;
      }
      OneBehind(buffer[..], first, items);
      pw := OneMoreItem(pw, first);
    }

    /** The slot behind the items is free, and the next one is one position on. */
    lemma FreeBehind(r: nat, n: nat)
      requires r < length && n < length
      ensures forall i :: 0 <= i < n ==> SlotOf(r, i, length) != SlotOf(r, n, length)
      ensures
        var pos := Offset(SlotOf(r, n, length), itemSize);
        (if pos + itemSize == Offset(length, itemSize) then 0 else pos + itemSize)
        == Offset(SlotOf(r, n + 1, length), itemSize)
    {
      hide Offset;
      AdvancePos(SlotOf(r, n, length), length, itemSize);
    }

    lemma OneBehind(b: seq<Byte>, r: nat, n: nat)
      requires r < length && n < length && SlotsFit(b, length, itemSize)
      ensures ItemsFrom(b, r, n + 1, length, itemSize)
              == ItemsFrom(b, r, n, length, itemSize) + [Slot(b, SlotOf(r, n, length), itemSize)]
    {
    }

    /** Move the read position to the slot before it. */
    method StepBack(pw0: Power, ghost free: nat) returns (pw: Power)
      requires !pw0.Off? && Valid() && Quiet() && free == if first == 0 then length - 1 else first - 1
      modifies this`readPos, this`saved
      ensures pw0.Mains? ==> pw.Mains?
      ensures Valid() && Before() == old(Before()) && Contents() == old(Contents())
      ensures !pw.Off? ==> readPos == Offset(free, itemSize) && saved.Keys == {ReadPos}
    {
      hide ItemsFrom, Offset, SlotOf, SlotsFit;
      RetreatPos(first, length, itemSize);
      pw := LogIndex(ReadPos, pw0);
      if pw.Off? { return; }
      pw := pw.Tick();
      if pw.Off? { return; }
      readPos := if readPos == 0 then tail - itemSize else readPos - itemSize;
    }

    /** `push_front`, inside its transaction: the read position moves before the item is there. */
    method DoPushFront(item: Item, pw0: Power) returns (pw: Power, reply: Reply)
      requires !pw0.Off? && Valid() && Quiet() && |item| == itemSize
      modifies this`readPos, this`items, this`saved, this`first, buffer
      ensures pw0.Mains? ==> pw.Mains?
      ensures Valid()
      ensures pw.Off? ==> Contents() == old(Contents())
      ensures !pw.Off? ==> Quiet() && (Contents(), reply) == Deque(PushFront(item), old(Contents()), length)
      ensures !pw.Off? ==>
        if |old(Contents())| < length then reply == Done && Contents() == [item] + old(Contents())
        else reply == Failed(QueueFull) && Contents() == old(Contents())
    {
      hide ItemsFrom, Offset, SlotOf, Slot, SlotsFit;
      if items == length {
        reply := Failed(QueueFull);
        pw := Commit(first, pw0);
        return;
      }
      reply := Done;
      ghost var free := if first == 0 then length - 1 else first - 1;
      FreeBefore(first, items);
      pw := StepBack(pw0, free);
      if pw.Off? { return; }
      pw := CopyIn(readPos, item, pw, free);
      if pw.Off? { return; }
      OneInFront(buffer[..], first, items, length, itemSize);
      pw := OneMoreItem(pw, free);
    }

    /** The slot before the items is free, and the items still end where they ended. */
    lemma FreeBefore(r: nat, n: nat)
      requires r < length && n < length
      ensures
        var free := if r == 0 then length - 1 else r - 1;
        && (forall i :: 0 <= i < n ==> SlotOf(r, i, length) != free)
        && SlotOf(free, n + 1, length) == SlotOf(r, n, length)
        && itemSize <= Offset(length, itemSize) && (Offset(r, itemSize) > 0 ==> itemSize <= Offset(r, itemSize))
        && (if Offset(r, itemSize) == 0 then Offset(length, itemSize) - itemSize else Offset(r, itemSize) - itemSize)
           == Offset(free, itemSize)
    {
      hide Offset;
      RetreatPos(r, length, itemSize);
    }

    /** `dequeue`, inside its transaction. */
    method DoDequeue(pw0: Power) returns (pw: Power, reply: Reply)
      requires !pw0.Off? && Valid() && Quiet()
      modifies this`readPos, this`items, this`saved, this`first
      ensures pw0.Mains? ==> pw.Mains?
      ensures Valid()
      ensures pw.Off? ==> Contents() == old(Contents())
      ensures !pw.Off? ==> Quiet() && (Contents(), reply) == Deque(Dequeue, old(Contents()), length)
      ensures !pw.Off? ==>
        if old(Contents()) == [] then reply == Failed(QueueEmpty) && Contents() == []
        else reply.Got? && [reply.item] + Contents() == old(Contents())
    {
      hide ItemsFrom, Offset, SlotOf, Slot;
      if items == 0 {
        reply := Failed(QueueEmpty);
        pw := Commit(first, pw0);
        return;
      }
      ghost var next := SlotOf(first, 1, length);
      AdvancePos(first, length, itemSize);
      OneLess(buffer[..], first, items);
      SlotOfPos(buffer[..], first);
      reply := Got(buffer[readPos..readPos + itemSize]);
      pw := LogIndex(ReadPos, pw0);
      if pw.Off? { return; }
      pw := pw.Tick();
      if pw.Off? { return; }
      readPos := readPos + itemSize;
      if readPos == tail {
        pw := pw.Tick();
        if pw.Off? { return; }
        readPos := 0;
      }
      pw := LogIndex(Count, pw);
      if pw.Off? { return; }
      pw := pw.Tick();
      if pw.Off? { return; }
      items := items - 1;
      pw := Commit(next, pw);
    }

    lemma SlotOfPos(b: seq<Byte>, r: nat)
      requires r < length && b == buffer[..] && SlotsFit(b, length, itemSize)
      ensures Offset(r, itemSize) + itemSize <= |b|
      ensures Slot(b, r, itemSize) == buffer[Offset(r, itemSize)..Offset(r, itemSize) + itemSize]
    {
    }

    /** Without the first slot, the items are the rest. */
    lemma OneLess(b: seq<Byte>, r: nat, n: nat)
      requires r < length && 0 < n <= length && SlotsFit(b, length, itemSize)
      ensures
        var r' := SlotOf(r, 1, length);
        && SlotOf(r', n - 1, length) == SlotOf(r, n, length) && SlotOf(r, 0, length) == r
        && ItemsFrom(b, r, n, length, itemSize) == [Slot(b, r, itemSize)] + ItemsFrom(b, r', n - 1, length, itemSize)
    {
      hide Offset, Slot;
      var r' := SlotOf(r, 1, length);
      OneInFront(b, r', n - 1, length, itemSize);
    }

    /** Roll the open transaction back: only indices are restored, and the bytes of a cut copy stay behind. */
    method Recover(pw0: Power) returns (pw: Power)
      requires !pw0.Off? && Valid()
      modifies this`readPos, this`writePos, this`items, this`saved
      ensures pw0.Mains? ==> pw.Mains?
      ensures Valid() && Contents() == old(Contents())
      ensures !pw.Off? ==> Quiet()
    {
      pw := pw0.Tick();
      if pw.Off? { return; }
      if Count in saved { items := saved[Count]; }
      pw := pw.Tick();
      if pw.Off? { return; }
      if WritePos in saved { writePos := saved[WritePos]; }
      pw := pw.Tick();
      if pw.Off? { return; }
      if ReadPos in saved { readPos := saved[ReadPos]; }
      pw := pw.Tick();
      if pw.Off? { return; }
      saved := map[];
    }

    method DoOp(op: Op, pw0: Power) returns (pw: Power, reply: Reply)
      requires !pw0.Off? && Valid() && Quiet() && (!op.Dequeue? ==> |op.item| == itemSize)
      modifies this`readPos, this`writePos, this`items, this`saved, this`first, buffer
      ensures pw0.Mains? ==> pw.Mains?
      ensures Valid()
      ensures pw.Off? ==> Contents() == old(Contents())
      ensures !pw.Off? ==> Quiet() && (Contents(), reply) == Deque(op, old(Contents()), length)
    {
      match op
      case PushBack(x) => pw, reply := DoPushBack(x, pw0);
      case PushFront(x) => pw, reply := DoPushFront(x, pw0);
      case Dequeue => pw, reply := DoDequeue(pw0);
    }

    /** One operation, cut, rolled back and begun again any number of times. */
    method OpUnderFailures(op: Op, supplies: seq<Power>) returns (reply: Reply)
      requires Valid() && Quiet() && (!op.Dequeue? ==> |op.item| == itemSize)
      requires forall r :: 0 <= r < |supplies| ==> !supplies[r].Off?
      modifies this`readPos, this`writePos, this`items, this`saved, this`first, buffer
      ensures Valid() && Quiet() && (Contents(), reply) == Deque(op, old(Contents()), length)
    {
      hide ItemsFrom, AtSlots, SlotsFit;
      var r := 0;
      var pw := Mains;
      var done := false;
      reply := Done;
      while !done
        invariant 0 <= r && Valid() && (r > |supplies| ==> done)
        invariant done ==> Quiet() && (Contents(), reply) == Deque(op, old(Contents()), length)
        invariant !done ==> Contents() == old(Contents())
        decreases |supplies| + 1 - r, !done
      {
        pw := Recover(if r < |supplies| then supplies[r] else Mains);
        if !pw.Off? {
          pw, reply := DoOp(op, pw);
        }
        done := !pw.Off?;
        r := r + 1;
      }
    }

    /** Any run of operations is the run of a bounded deque, whatever the power does. */
    method RunUnderFailures(ops: seq<Op>, supplies: seq<seq<Power>>) returns (replies: seq<Reply>)
      requires Valid() && Quiet() && |supplies| == |ops|
      requires forall op :: op in ops && !op.Dequeue? ==> |op.item| == itemSize
      requires forall i, r :: 0 <= i < |supplies| && 0 <= r < |supplies[i]| ==> !supplies[i][r].Off?
      modifies this`readPos, this`writePos, this`items, this`saved, this`first, buffer
      ensures Valid() && Quiet() && (Contents(), replies) == Deques(ops, old(Contents()), length)
      ensures |replies| == |ops| && |Contents()| <= length
      ensures (forall op :: op in ops ==> !op.PushFront?) ==>
        old(Contents()) + Accepted(ops, replies) == Taken(replies) + Contents()
    {
      hide ItemsFrom, AtSlots, SlotsFit, Deque, Accepted, Taken;
      RoomForAll();
      replies := [];
      for i := 0 to |ops|
        invariant Valid() && Quiet() && (Contents(), replies) == Deques(ops[..i], old(Contents()), length)
      {
        assert ops[..i + 1][..i] == ops[..i];
        var reply := OpUnderFailures(ops[i], supplies[i]);
        replies := replies + [reply];
      }
      assert ops[..|ops|] == ops;
      OneReplyEach(ops, old(Contents()), length);
      NeverTooLong(ops, old(Contents()), length);
      if forall op :: op in ops ==> !op.PushFront? {
        FirstInFirstOut(ops, old(Contents()), length);
      }
    }

    lemma RoomForAll()
      requires Valid()
      ensures |Contents()| <= length
    {
    }
  }
}
