/** The transaction cache: results of committed transactions, replayed in order after a reboot. */
module TxCaching {
  import opened PowerSupply
  import opened TxPrograms
  import opened TxWord

  class TxCache {
    const cache: array<Byte>
    var ptr: Word   // where replay stands
    var tail: Word  // what is committed

    constructor (space: nat)
      requires space < CACHE_LIMIT
      ensures Valid() && fresh(cache) && cache.Length == space
      ensures PtrPos() == Pos(0, 0) && TailPos() == Pos(0, 0) && !Committed()
    {
      cache := new Byte[space](_ => 0);
      ptr, tail := 0, 0;
    }

    ghost predicate Valid() {
      cache.Length < CACHE_LIMIT
    }

    ghost function PtrPos(): Pos
      reads this`ptr
    {
      PosOf(ptr)
    }

    ghost function TailPos(): Pos
      reads this`tail
    {
      PosOf(tail)
    }

    predicate Committed()
      reads this`tail
    {
      IsCommitted(tail)
    }

    /** `clear_commit_flag`. */
    method ClearCommitFlag()
      modifies this`tail
      ensures !Committed() && TailPos() == old(TailPos())
    {
      CommitKeepsPos(tail);
      tail := ClearCommitted(tail);
    }

    method ResetPtr()
      modifies this`ptr
      ensures PtrPos() == Pos(0, 0)
    {
      ptr := 0;
    }

    /** `commit_reset_tail`: committed, and the cache is empty. */
    method CommitResetTail()
      modifies this`tail
      ensures Committed() && TailPos() == Pos(0, 0)
    {
      tail := TX_COMMITTED;
    }

    /** `commit_no_replay`: committed, without a result. */
    method CommitNoReplay()
      modifies this`tail
      ensures Committed() && TailPos() == old(TailPos())
    {
      CommitKeepsPos(tail);
      tail := SetCommitted(tail);
    }

    /** Copy a result behind the committed ones, byte by byte. */
    method CopyResult(at: nat, res: seq<Byte>, pw0: Power) returns (pw: Power)
      requires !pw0.Off? && at + |res| <= cache.Length
      modifies cache
      ensures pw0.Mains? ==> pw.Mains?
      ensures cache[..at] == old(cache[..at])
      ensures !pw.Off? ==> cache[at..at + |res|] == res
    {
      pw := pw0;
      for i := 0 to |res|
        invariant !pw.Off? && (pw0.Mains? ==> pw.Mains?)
        invariant cache[..at] == old(cache[..at])
        invariant cache[at..at + i] == res[..i]
      {
        pw := pw.Tick();
        if pw.Off? { return; }
        cache[at + i] := res[i];
      }
    }

    /** Commit a transaction with its result: the store to `tail` is the commit. */
    method CacheResult(res: seq<Byte>, pw0: Power) returns (pw: Power)
      requires !pw0.Off? && Valid() && TailPos().id < MAX_ID && TailPos().off + |res| <= cache.Length
      requires TailPos() == PtrPos()
      modifies this`ptr, this`tail, cache
      ensures pw0.Mains? ==> pw.Mains?
      ensures cache[..old(TailPos().off)] == old(cache[..TailPos().off])
      ensures
        var t := old(TailPos());
        || (pw.Off? && tail == old(tail) && ptr == old(ptr))
        || (Committed() && TailPos() == Pos(t.off + |res|, t.id + 1) && cache[t.off..t.off + |res|] == res
            && (if pw.Off? then ptr == old(ptr) else PtrPos() == TailPos()))
      ensures !pw.Off? ==> PtrPos() == TailPos() && Committed()
    {
      if |res| > 0 {
        var at := CachePtr(tail);
        pw := CopyResult(at, res, pw0);
        if pw.Off? { return; }
        AdvanceMovesPos(tail, |res|);
        var advanced := Advance(TxId(tail), at, |res|);
        CommitKeepsPos(advanced);
        pw := CommitAt(SetCommitted(advanced), advanced, pw);
      } else {
        IncrementMovesPos(tail);
        IncrementMovesPos(ptr);
        CommitKeepsPos(tail + 1);
        pw := CommitAt(SetCommitted(tail + 1), ptr + 1, pw0);
      }
    }

    /** First the tail, then the pointer. */
    method CommitAt(newTail: Word, newPtr: Word, pw0: Power) returns (pw: Power)
      requires !pw0.Off?
      modifies this`ptr, this`tail
      ensures pw0.Mains? ==> pw.Mains?
      ensures tail == newTail || (pw.Off? && tail == old(tail))
      ensures ptr == if pw.Off? then old(ptr) else newPtr
      ensures !pw.Off? ==> tail == newTail
    {
      pw := pw0.Tick();
      if pw.Off? { return; }
      tail := newTail;
      pw := pw.Tick();
      if pw.Off? { return; }
      ptr := newPtr;
    }

    /** Replay one result if the pointer has not caught up with the tail. */
    method TryRetrieveResult(size: nat, pw0: Power) returns (pw: Power, hit: bool, res: seq<Byte>)
      requires !pw0.Off? && Valid()
      requires PtrPos().id < TailPos().id ==> PtrPos().off + size <= cache.Length
      modifies this`ptr
      ensures pw0.Mains? ==> pw.Mains?
      ensures hit <==> old(PtrPos().id) < TailPos().id
      ensures !hit ==> pw == pw0 && ptr == old(ptr)
      ensures hit ==> res == cache[old(PtrPos().off)..old(PtrPos().off) + size]
      ensures hit ==> if pw.Off? then ptr == old(ptr) else PtrPos() == Pos(old(PtrPos().off) + size, old(PtrPos().id) + 1)
    {
      hit := TxId(ptr) < TxId(tail);
      pw, res := pw0, [];
      if hit {
        var at := CachePtr(ptr);
        res := cache[at..at + size];
        AdvanceMovesPos(ptr, size);
        IncrementMovesPos(ptr);
        var advanced := if size > 0 then Advance(TxId(ptr), at, size) else ptr + 1;
        pw := pw.Tick();
        if pw.Off? { return; }
        ptr := advanced;
      }
    }
  }
}
