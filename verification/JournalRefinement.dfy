/** The byte journal does what the undo log of the transaction model does: locations are bytes, and a record of an
    object stands for a record of each of its bytes. */
module JournalRefinement {
  import opened PowerSupply
  import opened TxPrograms
  import J = JournalBytes

  /** Memory location by location, of memory byte by byte. */
  ghost predicate Sees(m: Mem, b: seq<Byte>) {
    forall i :: 0 <= i < |b| ==> m[i] == b[i]
  }

  /** The first `n` bytes of a record, one record each. */
  function ByteRecs(r: J.Rec, n: nat): seq<Rec>
    requires n <= |r.data|
  {
    if n == 0 then [] else ByteRecs(r, n - 1) + [Rec(r.addr + n - 1, r.data[n - 1])]
  }

  function AllByteRecs(recs: seq<J.Rec>): seq<Rec> {
    if recs == [] then []
    else var last := recs[|recs| - 1]; AllByteRecs(recs[..|recs| - 1]) + ByteRecs(last, |last.data|)
  }

  /** The records behind `j` are undone first. */
  lemma {:induction false} UndoBehind(j: seq<Rec>, k: seq<Rec>, m: Mem)
    ensures Undo(j + k, m) == Undo(j, Undo(k, m))
    decreases |k|
  {
    if k == [] {
      assert j + k == j;
    } else {
      var init, last := k[..|k| - 1], k[|k| - 1];
      assert (j + k)[..|j + k| - 1] == j + init && (j + k)[|j + k| - 1] == last;
      UndoBehind(j, init, m[last.addr := last.saved]);
    }
  }

  lemma {:induction false} UndoOneRecord(r: J.Rec, n: nat, m: Mem, a: int)
    requires n <= |r.data|
    ensures Undo(ByteRecs(r, n), m)[a] == if r.addr <= a < r.addr + n then r.data[a - r.addr] else m[a]
  {
    if n > 0 {
      var j := ByteRecs(r, n);
      assert j[..|j| - 1] == ByteRecs(r, n - 1);
      UndoOneRecord(r, n - 1, m[r.addr + n - 1 := r.data[n - 1]], a);
    }
  }

  lemma RecordIsOverwrite(r: J.Rec, m: Mem, b: seq<Byte>)
    requires Sees(m, b) && r.addr + |r.data| <= |b|
    ensures Sees(Undo(ByteRecs(r, |r.data|), m), J.Overwrite(b, r.addr, r.data))
  {
    hide J.Overwrite, ByteRecs, Undo;
    forall i | 0 <= i < |b|
      ensures Undo(ByteRecs(r, |r.data|), m)[i] == J.Overwrite(b, r.addr, r.data)[i]
    {
      UndoOneRecord(r, |r.data|, m, i);
      J.OverwriteAt(b, r.addr, r.data, i);
    }
  }

  /** Rolling back the byte journal is rolling back the undo log of the model, for records of any sizes, overlapping and
      repeated. */
  lemma {:induction false} JournalIsUndoLog(recs: seq<J.Rec>, m: Mem, b: seq<Byte>)
    requires Sees(m, b) && J.InRange(recs, |b|)
    ensures Sees(Undo(AllByteRecs(recs), m), J.Undo(recs, b))
    decreases |recs|
  {
    hide J.Overwrite, Sees;
    if recs != [] {
      var init, last := recs[..|recs| - 1], recs[|recs| - 1];
      var k := ByteRecs(last, |last.data|);
      assert J.InRange(init, |b|);
      RecordIsOverwrite(last, m, b);
      JournalIsUndoLog(init, Undo(k, m), J.Overwrite(b, last.addr, last.data));
      UndoBehind(AllByteRecs(init), k, m);
    }
  }

  /** Recovery of the byte journal, cut and restarted any number of times, rolls back the undo log of the model. */
  method RecoverAsModel(jr: J.Journal, supplies: seq<Power>, ghost m: Mem)
    requires jr.Valid() && Sees(m, jr.pm[..]) && forall r :: 0 <= r < |supplies| ==> !supplies[r].Off?
    modifies jr`tail, jr`recs, jr.pm
    ensures jr.Valid() && jr.tail == 0
    ensures Sees(Undo(AllByteRecs(old(jr.recs)), m), jr.pm[..])
  {
    hide J.Undo, J.IsLogOf, Undo, AllByteRecs, Sees;
    JournalIsUndoLog(jr.recs, m, jr.pm[..]);
    jr.RecoverUnderFailures(supplies);
  }
}
