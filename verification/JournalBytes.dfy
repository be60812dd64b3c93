/** The undo journal byte by byte: variable-size aligned records, parsed backwards at recovery. */
module JournalBytes {
  import opened PowerSupply
  import TxPrograms

  type Byte = TxPrograms.Byte

  /** Size of a machine word, and its alignment: of any target. */
  type WordSize = n: nat | n == 2 || n == 4 || n == 8 witness 4
  const WORD: WordSize

  // ---------- machine words as bytes ----------

  /** `n` bytes of `v`, the lowest first. */
  function BytesOf(v: nat, n: nat): (b: seq<Byte>)
    ensures |b| == n
  {
    if n == 0 then [] else [v % 256] + BytesOf(v / 256, n - 1)
  }

  function ValueOf(b: seq<Byte>): nat {
    if b == [] then 0 else b[0] + 256 * ValueOf(b[1..])
  }

  function Power256(n: nat): nat {
    if n == 0 then 1 else 256 * Power256(n - 1)
  }

  lemma {:induction false} WordRoundTrip(v: nat, n: nat)
    requires v < Power256(n)
    ensures ValueOf(BytesOf(v, n)) == v
  {
    if n > 0 {
      WordRoundTrip(v / 256, n - 1);
    }
  }

  function AlignUp(n: nat): nat {
    (n + WORD - 1) / WORD * WORD
  }

  /** The mask expression of the source is this quotient, for each size of a word. */
  lemma AlignMaskIsQuotient(n: bv16)
    requires n < 0xFFF0
    ensures (n + 1) & !1 == (n + 1) / 2 * 2
    ensures (n + 3) & !3 == (n + 3) / 4 * 4
    ensures (n + 7) & !7 == (n + 7) / 8 * 8
  {
    MaskOfMultiples(n + 1);
    MaskOfMultiples(n + 3);
    MaskOfMultiples(n + 7);
  }

  lemma MaskOfMultiples(n: bv16)
    ensures n & !1 == n / 2 * 2
    ensures n & !3 == n / 4 * 4
    ensures n & !7 == n / 8 * 8
  {
  }

  // ---------- records ----------

  /** Bytes `data` that stood at `addr` when the record was taken. */
  datatype Rec = Rec(addr: nat, data: seq<Byte>)

  function SizeOf(r: Rec): nat {
    AlignUp(|r.data|) + 2 * WORD
  }

  /** `at` is the start of a slice of `n` bytes that equals `s`. */
  ghost predicate Slice(b: seq<Byte>, at: int, s: seq<Byte>) {
    0 <= at <= at + |s| <= |b| && b[at..at + |s|] == s
  }

  /** The last record of the log bytes `b` is `r`: object, gap up to the alignment, address, size. */
  ghost predicate EndsWith(b: seq<Byte>, r: Rec) {
    && |b| >= SizeOf(r)
    && Slice(b, |b| - SizeOf(r), r.data)
    && Slice(b, |b| - 2 * WORD, BytesOf(r.addr, WORD))
    && Slice(b, |b| - WORD, BytesOf(|r.data|, WORD))
  }

  /** `b` is the log of `recs`, oldest first; the gaps may hold anything. */
  ghost predicate IsLogOf(b: seq<Byte>, recs: seq<Rec>)
    decreases |recs|
  {
    if recs == [] then b == []
    else
      var r := recs[|recs| - 1];
      EndsWith(b, r) && IsLogOf(b[..|b| - SizeOf(r)], recs[..|recs| - 1])
  }

  ghost predicate WordsFit(recs: seq<Rec>) {
    forall r :: r in recs ==> r.addr < Power256(WORD) && |r.data| < Power256(WORD)
  }

  /** The words at the end of a log give back the address and the size of its last record. */
  lemma LastRecordReads(b: seq<Byte>, r: Rec)
    requires EndsWith(b, r) && r.addr < Power256(WORD) && |r.data| < Power256(WORD)
    ensures ValueOf(b[|b| - WORD..]) == |r.data|
    ensures ValueOf(b[|b| - 2 * WORD..|b| - WORD]) == r.addr
  {
    hide BytesOf, ValueOf, Power256;
    WordRoundTrip(r.addr, WORD);
    WordRoundTrip(|r.data|, WORD);
    assert b[|b| - WORD..] == b[|b| - WORD..|b| - WORD + WORD];
  }

  /** The end of a log, and the shorter log before it. */
  lemma LogEnds(b: seq<Byte>, recs: seq<Rec>, k: nat)
    requires b != [] && k <= |recs| && IsLogOf(b, recs[..k]) && WordsFit(recs)
    ensures k > 0 && 2 * WORD <= SizeOf(recs[k - 1]) <= |b| && |recs[k - 1].data| <= SizeOf(recs[k - 1])
    ensures ValueOf(b[|b| - WORD..]) == |recs[k - 1].data|
    ensures ValueOf(b[|b| - 2 * WORD..|b| - WORD]) == recs[k - 1].addr
    ensures b[|b| - SizeOf(recs[k - 1])..|b| - SizeOf(recs[k - 1]) + |recs[k - 1].data|] == recs[k - 1].data
    ensures IsLogOf(b[..|b| - SizeOf(recs[k - 1])], recs[..k - 1])
  {
    hide AlignUp, BytesOf, ValueOf, IsLogOf;
    LogSplits(b, recs, k);
    AlignLeavesRoom(|recs[k - 1].data|);
    LastRecordReads(b, recs[k - 1]);
  }

  lemma LogSplits(b: seq<Byte>, recs: seq<Rec>, k: nat)
    requires b != [] && k <= |recs| && IsLogOf(b, recs[..k])
    ensures k > 0 && EndsWith(b, recs[k - 1]) && IsLogOf(b[..|b| - SizeOf(recs[k - 1])], recs[..k - 1])
  {
    hide EndsWith, AlignUp;
    assert k > 0 ==> recs[..k][..k - 1] == recs[..k - 1];
  }

  /** A log has one reading only: what was logged is determined by the bytes. */
  lemma {:induction false} OneReading(b: seq<Byte>, recs: seq<Rec>, others: seq<Rec>)
    requires IsLogOf(b, recs) && IsLogOf(b, others) && WordsFit(recs) && WordsFit(others)
    ensures recs == others
    decreases |recs|
  {
    hide AlignUp, ValueOf, IsLogOf;
    if b == [] {
      RecordsTakeSpace(recs, b);
      RecordsTakeSpace(others, b);
    } else {
      assert recs[..|recs|] == recs && others[..|others|] == others;
      LogEnds(b, recs, |recs|);
      LogEnds(b, others, |others|);
      var r, o := recs[|recs| - 1], others[|others| - 1];
      assert r == o;
      OneReading(b[..|b| - SizeOf(r)], recs[..|recs| - 1], others[..|others| - 1]);
      assert recs == recs[..|recs| - 1] + [r] && others == others[..|others| - 1] + [o];
    }
  }

  lemma RecordsTakeSpace(recs: seq<Rec>, b: seq<Byte>)
    requires IsLogOf(b, recs)
    ensures |b| == 0 <==> recs == []
  {
  }

  lemma AlignLeavesRoom(n: nat)
    ensures n <= AlignUp(n) < n + WORD
  {
  }

  ghost predicate SameBefore(b: seq<Byte>, c: seq<Byte>, at: int) {
    |b| == |c| && 0 <= at <= |b| && c[..at] == b[..at]
  }

  /** Three writes, one behind the other, make a record behind the log that was there. */
  lemma RecordBuilt(b0: seq<Byte>, b1: seq<Byte>, b2: seq<Byte>, b3: seq<Byte>, t: nat, recs: seq<Rec>, r: Rec)
    requires t + SizeOf(r) <= |b0| && IsLogOf(b0[..t], recs)
    requires SameBefore(b0, b1, t) && Slice(b1, t, r.data)
    requires var a := t + AlignUp(|r.data|); SameBefore(b1, b2, a) && Slice(b2, a, BytesOf(r.addr, WORD))
    requires var a := t + AlignUp(|r.data|) + WORD; SameBefore(b2, b3, a) && Slice(b3, a, BytesOf(|r.data|, WORD))
    ensures IsLogOf(b3[..t + SizeOf(r)], recs + [r])
  {
    hide AlignUp, BytesOf, Slice, SameBefore;
    AlignLeavesRoom(|r.data|);
    var a, n := t + AlignUp(|r.data|), t + SizeOf(r);
    SliceSurvives(b1, b2, t, r.data, a);
    SliceSurvives(b2, b3, t, r.data, a + WORD);
    SliceSurvives(b2, b3, a, BytesOf(r.addr, WORD), a + WORD);
    ShorterPrefix(b0, b1, t, t);
    ShorterPrefix(b1, b2, t, a);
    ShorterPrefix(b2, b3, t, a + WORD);
    RecordEnds(b3, t, r);
    assert (recs + [r])[..|recs|] == recs;
    assert b3[..n][..n - SizeOf(r)] == b3[..t];
  }

  lemma RecordEnds(b: seq<Byte>, t: nat, r: Rec)
    requires t + SizeOf(r) <= |b| && Slice(b, t, r.data)
    requires Slice(b, t + AlignUp(|r.data|), BytesOf(r.addr, WORD))
    requires Slice(b, t + AlignUp(|r.data|) + WORD, BytesOf(|r.data|, WORD))
    ensures EndsWith(b[..t + SizeOf(r)], r)
  {
    hide AlignUp, BytesOf, SameBefore;
    AlignLeavesRoom(|r.data|);
    var c := b[..t + SizeOf(r)];
    SliceSurvives(b, c, t, r.data, |c|);
    SliceSurvives(b, c, t + AlignUp(|r.data|), BytesOf(r.addr, WORD), |c|);
    SliceSurvives(b, c, t + AlignUp(|r.data|) + WORD, BytesOf(|r.data|, WORD), |c|);
  }

  lemma ShorterPrefix(b: seq<Byte>, c: seq<Byte>, t: nat, a: nat)
    requires t <= a && SameBefore(b, c, a)
    ensures t <= |b| == |c| && c[..t] == b[..t]
  {
    assert c[..t] == c[..a][..t] && b[..t] == b[..a][..t];
  }

  lemma SliceSurvives(b: seq<Byte>, c: seq<Byte>, at: nat, s: seq<Byte>, n: nat)
    requires Slice(b, at, s) && at + |s| <= n && (SameBefore(b, c, n) || (n <= |b| && c == b[..n]))
    ensures Slice(c, at, s)
  {
    assert b[at..at + |s|] == b[..n][at..at + |s|];
    assert c[at..at + |s|] == c[..n][at..at + |s|];
  }

  // ---------- what the journal restores ----------

  function Overwrite(m: seq<Byte>, at: nat, data: seq<Byte>): (r: seq<Byte>)
    requires at + |data| <= |m|
    ensures |r| == |m|
  {
    m[..at] + data + m[at + |data|..]
  }

  ghost predicate InRange(recs: seq<Rec>, size: nat) {
    forall r :: r in recs ==> r.addr + |r.data| <= size
  }

  /** Newest record first: an object logged twice ends with its oldest bytes. */
  ghost function Undo(recs: seq<Rec>, m: seq<Byte>): (r: seq<Byte>)
    requires InRange(recs, |m|)
    ensures |r| == |m|
    decreases |recs|
  {
    if recs == [] then m
    else var last := recs[|recs| - 1]; Undo(recs[..|recs| - 1], Overwrite(m, last.addr, last.data))
  }

  ghost predicate Covers(r: Rec, i: int) {
    r.addr <= i < r.addr + |r.data|
  }

  ghost predicate Covered(recs: seq<Rec>, i: int) {
    exists k :: 0 <= k < |recs| && Covers(recs[k], i)
  }

  /** A logged byte is restored, whatever has been stored to it since. */
  lemma {:induction false} UndoForgets(recs: seq<Rec>, m: seq<Byte>, i: nat, b: Byte)
    requires InRange(recs, |m|) && i < |m| && Covered(recs, i)
    ensures Undo(recs, m[i := b]) == Undo(recs, m)
    decreases |recs|
  {
    var last := recs[|recs| - 1];
    if Covers(last, i) {
      assert Overwrite(m[i := b], last.addr, last.data) == Overwrite(m, last.addr, last.data);
    } else {
      assert Overwrite(m[i := b], last.addr, last.data) == Overwrite(m, last.addr, last.data)[i := b];
      var k :| 0 <= k < |recs| && Covers(recs[k], i);
      assert recs[..|recs| - 1][k] == recs[k];
      UndoForgets(recs[..|recs| - 1], Overwrite(m, last.addr, last.data), i, b);
    }
  }

  /** A byte that no record covers is left as it is. */
  lemma {:induction false} UndoFrame(recs: seq<Rec>, m: seq<Byte>, i: nat)
    requires InRange(recs, |m|) && i < |m| && !Covered(recs, i)
    ensures Undo(recs, m)[i] == m[i]
    decreases |recs|
  {
    if recs != [] {
      var last := recs[|recs| - 1];
      assert !Covers(last, i);
      assert !Covered(recs[..|recs| - 1], i);
      UndoFrame(recs[..|recs| - 1], Overwrite(m, last.addr, last.data), i);
    }
  }

  lemma OverwriteNothing(m: seq<Byte>, at: nat, data: seq<Byte>)
    requires at <= |m|
    ensures Overwrite(m, at, data[..0]) == m
  {
  }

  lemma OverwriteStep(m: seq<Byte>, at: nat, data: seq<Byte>, i: nat)
    requires at + |data| <= |m| && i < |data|
    ensures Overwrite(m, at, data[..i])[at + i := data[i]] == Overwrite(m, at, data[..i + 1])
  {
  }

  lemma OverwriteAt(m: seq<Byte>, at: nat, data: seq<Byte>, i: nat)
    requires at + |data| <= |m| && i < |m|
    ensures Overwrite(m, at, data)[i] == if at <= i < at + |data| then data[i - at] else m[i]
  {
  }

  lemma OverwriteWithSame(m: seq<Byte>, at: nat, data: seq<Byte>)
    requires at + |data| <= |m| && m[at..at + |data|] == data
    ensures Overwrite(m, at, data) == m
  {
  }

  /** Logging the present bytes restores nothing new. */
  lemma UndoOfFreshRecord(recs: seq<Rec>, m: seq<Byte>, r: Rec)
    requires InRange(recs, |m|) && r.addr + |r.data| <= |m| && m[r.addr..r.addr + |r.data|] == r.data
    ensures InRange(recs + [r], |m|) && Undo(recs + [r], m) == Undo(recs, m)
  {
    hide Overwrite;
    var all := recs + [r];
    assert all[..|all| - 1] == recs && all[|all| - 1] == r;
    OverwriteWithSame(m, r.addr, r.data);
    assert InRange(all, |m|);
  }

  // ---------- a transaction as it uses the journal ----------

  datatype Op =
    | LogObject(addr: nat, size: nat)
    | StoreBytes(addr: nat, data: seq<Byte>)

  function Effect(op: Op, m: seq<Byte>): (r: seq<Byte>)
    requires op.StoreBytes? ==> op.addr + |op.data| <= |m|
    ensures |r| == |m|
  {
    if op.StoreBytes? then Overwrite(m, op.addr, op.data) else m
  }

  ghost predicate OpsFit(ops: seq<Op>, size: nat) {
    forall op :: op in ops ==> op.addr + (if op.StoreBytes? then |op.data| else op.size) <= size
  }

  function Effects(ops: seq<Op>, m: seq<Byte>): (r: seq<Byte>)
    requires OpsFit(ops, |m|)
    ensures |r| == |m|
    decreases |ops|
  {
    if ops == [] then m else Effect(ops[|ops| - 1], Effects(ops[..|ops| - 1], m))
  }

  ghost predicate StoresTo(op: Op, i: int) {
    op.StoreBytes? && op.addr <= i < op.addr + |op.data|
  }

  /** Operation `k` is the last one that stores to byte `i`. */
  ghost predicate LastStoreTo(ops: seq<Op>, k: int, i: int) {
    0 <= k < |ops| && StoresTo(ops[k], i) && forall j :: k < j < |ops| ==> !StoresTo(ops[j], i)
  }

  ghost predicate NeverStored(ops: seq<Op>, i: int) {
    forall k :: 0 <= k < |ops| ==> !StoresTo(ops[k], i)
  }

  /** Every byte is what was stored to it last, or what it was. */
  ghost predicate HasStores(ops: seq<Op>, before: seq<Byte>, after: seq<Byte>) {
    && |after| == |before|
    && (forall k, i :: 0 <= i < |after| && LastStoreTo(ops, k, i) ==> after[i] == ops[k].data[i - ops[k].addr])
    && (forall i :: 0 <= i < |after| && NeverStored(ops, i) ==> after[i] == before[i])
  }

  lemma {:induction false} LastStoreStays(ops: seq<Op>, m: seq<Byte>, k: int, i: nat)
    requires OpsFit(ops, |m|) && i < |m| && LastStoreTo(ops, k, i)
    ensures Effects(ops, m)[i] == ops[k].data[i - ops[k].addr]
    decreases |ops|
  {
    hide Overwrite;
    var init, last := ops[..|ops| - 1], ops[|ops| - 1];
    assert last in ops;
    if last.StoreBytes? {
      OverwriteAt(Effects(init, m), last.addr, last.data, i);
    }
    if k < |init| {
      assert !StoresTo(last, i) && LastStoreTo(init, k, i);
      LastStoreStays(init, m, k, i);
    }
  }

  lemma {:induction false} NoStoreNoChange(ops: seq<Op>, m: seq<Byte>, i: nat)
    requires OpsFit(ops, |m|) && i < |m| && NeverStored(ops, i)
    ensures Effects(ops, m)[i] == m[i]
    decreases |ops|
  {
    hide Overwrite;
    if ops != [] {
      var init, last := ops[..|ops| - 1], ops[|ops| - 1];
      assert last in ops && !StoresTo(last, i) && NeverStored(init, i);
      if last.StoreBytes? {
        OverwriteAt(Effects(init, m), last.addr, last.data, i);
      }
      NoStoreNoChange(init, m, i);
    }
  }

  /** What the operations come to, byte by byte. */
  lemma StoresAreThere(ops: seq<Op>, m: seq<Byte>)
    requires OpsFit(ops, |m|)
    ensures HasStores(ops, m, Effects(ops, m))
  {
    hide Effects, LastStoreTo, NeverStored;
    forall k, i | 0 <= i < |m| && LastStoreTo(ops, k, i)
      ensures 0 <= k < |ops| && ops[k].StoreBytes? && 0 <= i - ops[k].addr < |ops[k].data|
      ensures Effects(ops, m)[i] == ops[k].data[i - ops[k].addr]
    {
      LastStoreIs(ops, k, i);
      LastStoreStays(ops, m, k, i);
    }
    forall i | 0 <= i < |m| && NeverStored(ops, i)
      ensures Effects(ops, m)[i] == m[i]
    {
      NoStoreNoChange(ops, m, i);
    }
  }

  lemma LastStoreIs(ops: seq<Op>, k: int, i: int)
    requires LastStoreTo(ops, k, i)
    ensures 0 <= k < |ops| && ops[k].StoreBytes? && 0 <= i - ops[k].addr < |ops[k].data|
  {
  }

  ghost predicate LoggedIn(ops: seq<Op>, i: int) {
    exists k :: 0 <= k < |ops| && ops[k].LogObject? && ops[k].addr <= i < ops[k].addr + ops[k].size
  }

  /** Every byte stored was logged before, possibly as part of several overlapping objects. */
  ghost predicate WellLogged(ops: seq<Op>) {
    forall k, i :: 0 <= k < |ops| && ops[k].StoreBytes? && ops[k].addr <= i < ops[k].addr + |ops[k].data| ==>
      LoggedIn(ops[..k], i)
  }

  function LogSize(ops: seq<Op>): nat {
    if ops == [] then 0
    else LogSize(ops[..|ops| - 1])
         + (if ops[|ops| - 1].LogObject? then AlignUp(ops[|ops| - 1].size) + 2 * WORD else 0)
  }

  class Journal {
    const logs: array<Byte>
    const pm: array<Byte>     // the persistent objects
    var tail: nat
    ghost var recs: seq<Rec>

    constructor (journalSize: nat, memory: seq<Byte>)
      requires |memory| < Power256(WORD)
      ensures Valid() && tail == 0 && pm[..] == memory && logs.Length == journalSize
      ensures fresh(logs) && fresh(pm)
    {
      logs := new Byte[journalSize](_ => 0);
      pm := new Byte[|memory|](i requires 0 <= i < |memory| => memory[i]);
      tail, recs := 0, [];
    }

    ghost predicate Valid()
      reads this, logs
    {
      && logs != pm && pm.Length < Power256(WORD)
      && tail <= logs.Length && IsLogOf(logs[..tail], recs)
      && InRange(recs, pm.Length) && WordsFit(recs)
    }

    /** The memory of the beginning of the transaction. */
    ghost function Base(): seq<Byte>
      requires Valid()
      reads this, logs, pm
    {
      Undo(recs, pm[..])
    }

    /** Copy into the log behind the tail. The supply may fail between any two bytes. */
    method WriteLog(at: nat, bytes: seq<Byte>, pw0: Power) returns (pw: Power)
      requires !pw0.Off? && at + |bytes| <= logs.Length
      modifies logs
      ensures pw == pw0.After(|bytes|)
      ensures SameBefore(old(logs[..]), logs[..], at)
      ensures !pw.Off? ==> Slice(logs[..], at, bytes)
    {
      pw := pw0;
      for i := 0 to |bytes|
        invariant !pw.Off? && pw == pw0.After(i)
        invariant logs[..at] == old(logs[..at])
        invariant logs[at..at + i] == bytes[..i]
      {
        pw := pw.Tick();
        if pw.Off? { return; }
        logs[at + i] := bytes[i];
      }
    }

    /** Two words, one behind the other; `between` is the log with the first one written. */
    method WriteWords(at: nat, v: nat, w: nat, pw0: Power) returns (pw: Power, ghost between: seq<Byte>)
      requires !pw0.Off? && at + 2 * WORD <= logs.Length
      modifies logs
      ensures pw == pw0.After(2 * WORD)
      ensures SameBefore(old(logs[..]), logs[..], at)
      ensures !pw.Off? ==> SameBefore(old(logs[..]), between, at) && Slice(between, at, BytesOf(v, WORD))
      ensures !pw.Off? ==> SameBefore(between, logs[..], at + WORD) && Slice(logs[..], at + WORD, BytesOf(w, WORD))
    {
      hide BytesOf, Slice, SameBefore;
      ghost var before := logs[..];
      pw := WriteLog(at, BytesOf(v, WORD), pw0);
      between := logs[..];
      if pw.Off? { return; }
      pw := WriteLog(at + WORD, BytesOf(w, WORD), pw);
      SameThrough(before, between, logs[..], at, at + WORD);
    }

    lemma SameThrough(a: seq<Byte>, b: seq<Byte>, c: seq<Byte>, at: nat, later: nat)
      requires at <= later && SameBefore(a, b, at) && SameBefore(b, c, later)
      ensures SameBefore(a, c, at)
    {
      ShorterPrefix(b, c, at, later);
    }

    /** Object, address and size, behind the log. */
    method WriteRecord(addr: nat, size: nat, pw0: Power) returns (pw: Power)
      requires !pw0.Off? && addr + size <= pm.Length && logs != pm && tail <= logs.Length && IsLogOf(logs[..tail], recs)
      requires tail + AlignUp(size) + 2 * WORD <= logs.Length
      modifies logs
      ensures pw == pw0.After(size + 2 * WORD)
      ensures logs[..tail] == old(logs[..tail])
      ensures !pw.Off? ==>
        IsLogOf(logs[..tail + AlignUp(size) + 2 * WORD], recs + [Rec(addr, pm[addr..addr + size])])
    {
      hide BytesOf, AlignUp, IsLogOf, EndsWith, Slice, SameBefore;
      ghost var b0 := logs[..];
      ghost var r := Rec(addr, pm[addr..addr + size]);
      var aligned := AlignUp(size);
      AlignLeavesRoom(size);
      assert logs[..tail] == b0[..tail];
      pw := WriteLog(tail, pm[addr..addr + size], pw0);
      ghost var b1 := logs[..];
      LogBelow(b0, b1, tail, tail);
      if pw.Off? { return; }
      ghost var b2;
      pw, b2 := WriteWords(tail + aligned, addr, size, pw);
      LogBelow(b1, logs[..], tail, tail + aligned);
      if pw.Off? { return; }
      RecordBuilt(b0, b1, b2, logs[..], tail, recs, r);
      assert logs[..tail + aligned + 2 * WORD] == logs[..][..tail + SizeOf(r)];
    }

    /** `append_log_of`: the store to the tail makes what was written behind the log a record. */
    method AppendLogOf(addr: nat, size: nat, pw0: Power) returns (pw: Power)
      requires !pw0.Off? && Valid() && addr + size <= pm.Length
      requires tail + AlignUp(size) + 2 * WORD <= logs.Length
      modifies this`tail, this`recs, logs
      ensures pw == pw0.After(size + 2 * WORD + 1)
      ensures Valid() && Base() == old(Base())
      ensures pw.Off? ==> tail == old(tail) && recs == old(recs)
      ensures !pw.Off? ==> recs == old(recs) + [Rec(addr, pm[addr..addr + size])]
      ensures !pw.Off? ==> tail == old(tail) + AlignUp(size) + 2 * WORD
    {
      hide Undo, AlignUp, IsLogOf, Power256;
      pw := WriteRecord(addr, size, pw0);
      if pw.Off? { return; }
      pw := pw.Tick();
      if pw.Off? { return; }
      UndoOfFreshRecord(recs, pm[..], Rec(addr, pm[addr..addr + size]));
      tail := tail + AlignUp(size) + 2 * WORD;
      recs := recs + [Rec(addr, pm[addr..addr + size])];
    }

    lemma LogBelow(b: seq<Byte>, c: seq<Byte>, t: nat, a: nat)
      requires t <= a && SameBefore(b, c, a) && c == logs[..]
      ensures t <= |b| && logs[..t] == b[..t]
    {
      ShorterPrefix(b, c, t, a);
      assert logs[..t] == c[..t];
    }

    ghost predicate CoversAll(at: nat, n: nat)
      reads this`recs
    {
      forall i {:trigger Covered(recs, i)} :: at <= i < at + n ==> Covered(recs, i)
    }

    /** Store to logged bytes, one after the other. */
    method Store(addr: nat, data: seq<Byte>, pw0: Power) returns (pw: Power)
      requires !pw0.Off? && Valid() && addr + |data| <= pm.Length && CoversAll(addr, |data|)
      modifies pm
      ensures pw == pw0.After(|data|)
      ensures Valid() && Base() == old(Base())
      ensures !pw.Off? ==> pm[..] == Overwrite(old(pm[..]), addr, data)
    {
      hide Undo, IsLogOf, Overwrite, InRange, WordsFit;
      pw := pw0;
      ghost var m := pm[..];
      OverwriteNothing(m, addr, data);
      for i := 0 to |data|
        invariant !pw.Off? && pw == pw0.After(i)
        invariant Valid() && Base() == old(Base())
        invariant pm[..] == Overwrite(m, addr, data[..i])
      {
        pw := pw.Tick();
        if pw.Off? { return; }
        StoreOne(addr + i, data[i]);
        OverwriteStep(m, addr, data, i);
      }
      assert data[..|data|] == data;
    }

    method StoreOne(at: nat, b: Byte)
      requires Valid() && at < pm.Length && Covered(recs, at)
      modifies pm
      ensures Valid() && Base() == old(Base())
      ensures pm[..] == old(pm[..])[at := b]
    {
      hide Undo, IsLogOf;
      UndoForgets(recs, pm[..], at, b);
      pm[at] := b;
    }

    /** `recover`: newest record first, byte by byte, reading address and size back from the log. The walk ends
        exactly at offset 0; the log is dropped only then, so a cut leaves everything to be done again. */
    method Recover(pw0: Power) returns (pw: Power)
      requires !pw0.Off? && Valid()
      modifies this`tail, this`recs, pm
      ensures pw0.Mains? ==> pw.Mains?
      ensures Valid() && Base() == old(Base())
      ensures !pw.Off? ==> tail == 0 && recs == [] && pm[..] == Base()
    {
      hide Undo, IsLogOf, AlignUp;
      pw := pw0;
      var ptr := tail;
      ghost var k := |recs|;
      assert recs[..k] == recs;
      while ptr > 0
        invariant !pw.Off? && (pw0.Mains? ==> pw.Mains?)
        invariant Valid() && Base() == old(Base()) && tail == old(tail) && recs == old(recs)
        invariant 0 <= k <= |recs| && 0 <= ptr <= tail && IsLogOf(logs[..ptr], recs[..k])
        invariant InRange(recs[..k], pm.Length) && Undo(recs[..k], pm[..]) == Base()
      {
        ghost var m := pm[..];
        var size, addr := LastRecord(ptr, k);
        var aligned := AlignUp(size);
        AlignLeavesRoom(size);
        pw := Store(addr, logs[ptr - 2 * WORD - aligned..ptr - 2 * WORD - aligned + size], pw);
        if pw.Off? { return; }
        StepBack(recs, k, m);
        ptr := ptr - (2 * WORD + aligned);
        k := k - 1;
      }
      EmptyLog(logs[..ptr], recs[..k], pm[..]);
      pw := pw.Tick();
      if pw.Off? { return; }
      tail, recs := 0, [];
      EmptyLog(logs[..0], [], pm[..]);
    }

    /** Read the words at the end of the log. */
    method LastRecord(ptr: nat, ghost k: nat) returns (size: nat, addr: nat)
      requires Valid() && 0 < ptr <= tail && k <= |recs| && IsLogOf(logs[..ptr], recs[..k])
      ensures k > 0 && size == |recs[k - 1].data| && addr == recs[k - 1].addr
      ensures SizeOf(recs[k - 1]) <= ptr && SizeOf(recs[k - 1]) == AlignUp(size) + 2 * WORD
      ensures logs[ptr - SizeOf(recs[k - 1])..ptr - SizeOf(recs[k - 1]) + size] == recs[k - 1].data
      ensures IsLogOf(logs[..ptr - SizeOf(recs[k - 1])], recs[..k - 1])
      ensures addr + size <= pm.Length && CoversAll(addr, size)
    {
      hide AlignUp, BytesOf, ValueOf, IsLogOf, EndsWith, Slice;
      LogEnds(logs[..ptr], recs, k);
      assert logs[..ptr][ptr - WORD..] == logs[ptr - WORD..ptr];
      assert logs[..ptr][ptr - 2 * WORD..ptr - WORD] == logs[ptr - 2 * WORD..ptr - WORD];
      size := ValueOf(logs[ptr - WORD..ptr]);
      addr := ValueOf(logs[ptr - 2 * WORD..ptr - WORD]);
      ghost var at := ptr - SizeOf(recs[k - 1]);
      assert logs[..ptr][..at] == logs[..at];
      assert logs[..ptr][at..at + size] == logs[at..at + size];
      assert recs[k - 1] in recs;
      forall i | addr <= i < addr + size
        ensures Covered(recs, i)
      {
        assert Covers(recs[k - 1], i);
      }
    }

    /** The journal is empty and the memory is that of a new transaction. */
    method Clear()
      requires Valid()
      modifies this`tail, this`recs
      ensures Valid() && tail == 0 && recs == [] && Base() == pm[..]
    {
      tail, recs := 0, [];
      EmptyLog(logs[..0], [], pm[..]);
    }

    /** Recovery, cut and restarted any number of times. */
    method RecoverUnderFailures(supplies: seq<Power>)
      requires Valid() && forall r :: 0 <= r < |supplies| ==> !supplies[r].Off?
      modifies this`tail, this`recs, pm
      ensures Valid() && tail == 0 && pm[..] == old(Base()) && Base() == old(Base())
    {
      hide Undo, IsLogOf;
      var pw := Recover(if supplies == [] then Mains else supplies[0]);
      var r := 1;
      while pw.Off?
        invariant 1 <= r && (r > |supplies| ==> !pw.Off?)
        invariant Valid() && Base() == old(Base())
        invariant !pw.Off? ==> tail == 0 && pm[..] == Base()
        decreases |supplies| + 1 - r
      {
        pw := Recover(if r < |supplies| then supplies[r] else Mains);
        r := r + 1;
      }
    }

    /** The stores of a transaction in their order, cut between any two bytes. */
    method RunOps(ops: seq<Op>, pw0: Power) returns (pw: Power)
      requires !pw0.Off? && Valid() && tail == 0 && recs == []
      requires OpsFit(ops, pm.Length) && WellLogged(ops) && LogSize(ops) <= logs.Length
      modifies this`tail, this`recs, logs, pm
      ensures pw == pw0.After(StoresOf(ops))
      ensures Valid() && Base() == old(pm[..])
      ensures !pw.Off? ==> pm[..] == Effects(ops, old(pm[..]))
    {
      hide Undo, IsLogOf, AlignUp, Covered, LoggedIn, WellLogged, Effects;
      pw := pw0;
      ghost var m := pm[..];
      NoStores(ops);
      EmptyLog(logs[..tail], recs, m);
      NothingYet(ops, m);
      for i := 0 to |ops|
        invariant !pw.Off? && pw == pw0.After(StoresOf(ops[..i]))
        invariant Valid() && Base() == m && tail == LogSize(ops[..i])
        invariant forall a :: LoggedIn(ops[..i], a) ==> Covered(recs, a)
        invariant OpsFit(ops[..i], pm.Length) && pm[..] == Effects(ops[..i], m)
      {
        LogSizeStep(ops, i);
        StoresStep(ops, i);
        ghost var recs0 := recs;
        assert ops[i] in ops;
        match ops[i] {
          case LogObject(addr, size) =>
            pw := AppendLogOf(addr, size, pw);
            if pw.Off? { return; }
          case StoreBytes(addr, data) =>
            StoreIsLogged(ops, i, recs);
            pw := Store(addr, data, pw);
            if pw.Off? { return; }
        }
        OneMoreEffect(ops, i, m);
        forall a | LoggedIn(ops[..i + 1], a)
          ensures Covered(recs, a)
        {
          OneMoreLogged(ops, i, recs0, recs, a);
        }
      }
      assert ops[..|ops|] == ops;
    }

    /** A transaction and, if it is cut, its recovery, itself cut any number of times: all of the stores or none. */
    method Transact(ops: seq<Op>, pw0: Power, supplies: seq<Power>) returns (done: bool)
      requires !pw0.Off? && Valid() && tail == 0 && recs == []
      requires OpsFit(ops, pm.Length) && WellLogged(ops) && LogSize(ops) <= logs.Length
      requires forall r :: 0 <= r < |supplies| ==> !supplies[r].Off?
      modifies this`tail, this`recs, logs, pm
      ensures Valid() && tail == 0
      ensures done <==> pw0.Mains? || pw0.stores >= StoresOf(ops)
      ensures if done then HasStores(ops, old(pm[..]), pm[..]) else pm[..] == old(pm[..])
    {
      hide Undo, IsLogOf, WellLogged, Effects, HasStores;
      StoresAreThere(ops, pm[..]);
      var pw := RunOps(ops, pw0);
      done := !pw.Off?;
      if done {
        Clear();
      } else {
        RecoverUnderFailures(supplies);
      }
    }
  }

  /** Stores of a transaction: a record is its object, two words and the tail. */
  function StoresOf(ops: seq<Op>): nat {
    if ops == [] then 0
    else
      var last := ops[|ops| - 1];
      StoresOf(ops[..|ops| - 1]) + if last.LogObject? then last.size + 2 * WORD + 1 else |last.data|
  }

  lemma NoStores(ops: seq<Op>)
    ensures StoresOf(ops[..0]) == 0
  {
  }

  lemma {:induction false} StoresGrow(ops: seq<Op>, i: nat)
    requires i <= |ops|
    ensures StoresOf(ops[..i]) <= StoresOf(ops)
    decreases |ops|
  {
    if i < |ops| {
      assert ops[..|ops| - 1][..i] == ops[..i];
      StoresGrow(ops[..|ops| - 1], i);
    } else {
      assert ops[..i] == ops;
    }
  }

  lemma StoresStep(ops: seq<Op>, i: nat)
    requires i < |ops|
    ensures StoresOf(ops[..i + 1]) <= StoresOf(ops)
    ensures StoresOf(ops[..i + 1])
            == StoresOf(ops[..i]) + if ops[i].LogObject? then ops[i].size + 2 * WORD + 1 else |ops[i].data|
  {
    StoresGrow(ops, i + 1);
    assert ops[..i + 1][..i] == ops[..i];
  }

  lemma NothingYet(ops: seq<Op>, m: seq<Byte>)
    ensures LogSize(ops[..0]) == 0 && OpsFit(ops[..0], |m|) && Effects(ops[..0], m) == m
    ensures forall a :: !LoggedIn(ops[..0], a)
  {
  }

  lemma {:induction false} LogSizeGrows(ops: seq<Op>, i: nat)
    requires i <= |ops|
    ensures LogSize(ops[..i]) <= LogSize(ops)
    decreases |ops|
  {
    if i < |ops| {
      assert ops[..|ops| - 1][..i] == ops[..i];
      LogSizeGrows(ops[..|ops| - 1], i);
    } else {
      assert ops[..i] == ops;
    }
  }

  lemma LogSizeStep(ops: seq<Op>, i: nat)
    requires i < |ops|
    ensures LogSize(ops[..i + 1]) <= LogSize(ops)
    ensures LogSize(ops[..i + 1])
            == LogSize(ops[..i]) + if ops[i].LogObject? then AlignUp(ops[i].size) + 2 * WORD else 0
  {
    LogSizeGrows(ops, i + 1);
    assert ops[..i + 1][..i] == ops[..i];
  }

  lemma StoreIsLogged(ops: seq<Op>, i: nat, recs: seq<Rec>)
    requires i < |ops| && ops[i].StoreBytes? && WellLogged(ops)
    requires forall a :: LoggedIn(ops[..i], a) ==> Covered(recs, a)
    ensures forall a {:trigger Covered(recs, a)} ::
      ops[i].addr <= a < ops[i].addr + |ops[i].data| ==> Covered(recs, a)
  {
    hide Covered, LoggedIn;
  }

  lemma OneMoreEffect(ops: seq<Op>, i: nat, m: seq<Byte>)
    requires i < |ops| && OpsFit(ops, |m|) && OpsFit(ops[..i], |m|)
    ensures OpsFit(ops[..i + 1], |m|) && Effects(ops[..i + 1], m) == Effect(ops[i], Effects(ops[..i], m))
  {
    hide Effect;
    var longer := ops[..i + 1];
    assert longer[..|longer| - 1] == ops[..i] && longer[|longer| - 1] == ops[i];
    assert OpsFit(longer, |m|);
  }

  /** What was logged stays covered, and a new record covers its object. */
  lemma OneMoreLogged(ops: seq<Op>, i: nat, recs0: seq<Rec>, recs: seq<Rec>, a: int)
    requires i < |ops| && LoggedIn(ops[..i + 1], a)
    requires LoggedIn(ops[..i], a) ==> Covered(recs0, a)
    requires if ops[i].StoreBytes? then recs == recs0 else Extends(recs0, recs, ops[i].addr, ops[i].size)
    ensures Covered(recs, a)
  {
    var k :| 0 <= k < i + 1 && ops[..i + 1][k].LogObject? && ops[k].addr <= a < ops[k].addr + ops[k].size;
    if k < i {
      assert ops[..i][k] == ops[k];
      var j :| 0 <= j < |recs0| && Covers(recs0[j], a);
      assert Covers(recs[j], a);
    } else {
      assert Covers(recs[|recs0|], a);
    }
  }

  ghost predicate Extends(recs0: seq<Rec>, recs: seq<Rec>, addr: nat, size: nat) {
    |recs| == |recs0| + 1 && recs[..|recs0|] == recs0
    && recs[|recs0|].addr == addr && |recs[|recs0|].data| == size
  }

  lemma StepBack(recs: seq<Rec>, k: nat, m: seq<Byte>)
    requires 0 < k <= |recs| && InRange(recs[..k], |m|)
    ensures InRange(recs[..k - 1], |m|) && recs[k - 1].addr + |recs[k - 1].data| <= |m|
    ensures Undo(recs[..k - 1], Overwrite(m, recs[k - 1].addr, recs[k - 1].data)) == Undo(recs[..k], m)
  {
    assert recs[..k][..k - 1] == recs[..k - 1];
    assert recs[..k][k - 1] == recs[k - 1];
    assert recs[k - 1] in recs[..k];
    assert forall r :: r in recs[..k - 1] ==> r in recs[..k];
  }

  lemma EmptyLog(b: seq<Byte>, recs: seq<Rec>, m: seq<Byte>)
    requires |b| == 0 && InRange(recs, |m|) && (IsLogOf(b, recs) || recs == [])
    ensures recs == [] && IsLogOf(b, recs) && Undo(recs, m) == m
  {
  }
}
