/** The transaction cache with plain byte offsets instead of packed words: fifteen bits of offset and the commit bit.
    A result of no bytes takes a word, so that the pointer falls behind the tail for it too. */
module TxCacheBytes {
  import opened PowerSupply
  import opened TxPrograms
  import opened TxWord
  import opened ReplaySpec
  import opened TxCacheFifo
  import opened JournalBytes

  /** Offset in a word, whatever its commit bit. */
  function Offset(w: Word): nat {
    ClearCommitted(w)
  }

  class ByteCache {
    const cache: array<Byte>
    var ptr: Word   // where replay stands
    var tail: Word  // what is committed

    constructor (space: nat)
      ensures fresh(cache) && cache.Length == space && ptr == tail == 0
    {
      cache := new Byte[space](_ => 0);
      ptr, tail := 0, 0;
    }

    /** Copy a result behind the committed ones, byte by byte. */
    method CopyResult(at: nat, res: Bytes, pw0: Power) returns (pw: Power)
      requires !pw0.Off? && at + |res| <= cache.Length
      modifies cache
      ensures pw == pw0.After(|res|)
      ensures cache[..at] == old(cache[..at])
      ensures !pw.Off? ==> cache[at..at + |res|] == res
    {
      pw := pw0;
      for i := 0 to |res|
        invariant !pw.Off? && pw == pw0.After(i)
        invariant cache[..at] == old(cache[..at])
        invariant cache[at..at + i] == res[..i]
      {
        pw := pw.Tick();
        if pw.Off? { return; }
        cache[at + i] := res[i];
      }
    }

    /** Commit a transaction with its result; the store to `tail` is the commit, then the pointer follows. */
    method CacheResult(res: Bytes, pw0: Power) returns (pw: Power)
      requires !pw0.Off? && Offset(tail) + Slot(res, WORD) < TX_COMMITTED
      requires res != [] ==> Offset(tail) + |res| <= cache.Length
      modifies this`ptr, this`tail, cache
      ensures pw == pw0.After(|res| + 2)
      ensures tail == old(tail) <==> pw0.Failing? && pw0.stores <= |res|
      ensures Offset(old(tail)) <= cache.Length ==> cache[..Offset(old(tail))] == old(cache[..Offset(tail)])
      ensures res == [] ==> cache[..] == old(cache[..])
      ensures tail == old(tail) || (IsCommitted(tail) && Offset(tail) == Offset(old(tail)) + Slot(res, WORD))
      ensures tail != old(tail) && res != [] ==> cache[Offset(old(tail))..Offset(old(tail)) + |res|] == res
      ensures !pw.Off? ==> tail != old(tail) && ptr == Offset(tail)
      ensures pw.Off? ==> ptr == old(ptr)
    {
      var at := Offset(tail);
      pw := pw0;
      if |res| > 0 {
        pw := CopyResult(at, res, pw);
        if pw.Off? { return; }
      }
      pw := pw.Tick();
      if pw.Off? { return; }
      tail := SetCommitted(at + Slot(res, WORD));
      pw := pw.Tick();
      if pw.Off? { return; }
      ptr := at + Slot(res, WORD);
    }

    /** Replay one result if the pointer has not caught up with the tail. */
    method TryRetrieveResult(size: nat) returns (hit: bool, res: Bytes)
      requires ptr < Offset(tail) && size > 0 ==> ptr + size <= cache.Length
      requires ptr < Offset(tail) ==> ptr + size + WORD < 0x10000
      modifies this`ptr
      ensures hit <==> old(ptr) < Offset(tail)
      ensures ptr == if hit then old(ptr) + (if size > 0 then size else WORD) else old(ptr)
      ensures hit ==> res == if size > 0 then cache[old(ptr)..old(ptr) + size] else []
    {
      hit, res := ptr < Offset(tail), [];
      if hit {
        if size > 0 {
          res := cache[ptr..ptr + size];
          ptr := ptr + size;
        } else {
          ptr := ptr + WORD;
        }
      }
    }
  }

  /** Each result has room, and the last offset leaves the commit bit alone. Results of no bytes need no room. */
  ghost predicate Fit(rs: seq<Bytes>, space: nat) {
    && Total(rs, WORD) < TX_COMMITTED
    && forall i :: 0 <= i < |rs| && rs[i] != [] ==> Total(rs[..i], WORD) + |rs[i]| <= space
  }

  /** Stores of the commits of these results: their bytes, tail and pointer. */
  function StoresOf(rs: seq<Bytes>): nat {
    if rs == [] then 0 else StoresOf(rs[..|rs| - 1]) + |rs[|rs| - 1]| + 2
  }

  lemma StoresStep(rs: seq<Bytes>, i: nat)
    requires i < |rs|
    ensures StoresOf(rs[..0]) == 0 && StoresOf(rs[..i + 1]) == StoresOf(rs[..i]) + |rs[i]| + 2
  {
    assert rs[..i + 1][..i] == rs[..i];
  }

  lemma NoStores()
    ensures StoresOf([]) == 0
  {
  }

  /** The supply carries the commits of `n` results and not that of the next one: the last store but one of a commit
      decides. */
  ghost predicate Reaches(rs: seq<Bytes>, pw: Power, n: nat) {
    && n <= |rs| && (pw.Mains? ==> n == |rs|)
    && (pw.Failing? && n > 0 ==> StoresOf(rs[..n]) <= pw.stores + 1)
    && (pw.Failing? && n < |rs| ==> pw.stores + 1 < StoresOf(rs[..n + 1]))
  }

  lemma CutIn(rs: seq<Bytes>, i: nat, pw: Power)
    requires i < |rs| && pw.Failing? && StoresOf(rs[..i]) <= pw.stores < StoresOf(rs[..i]) + |rs[i]| + 2
    ensures Reaches(rs, pw, if pw.stores - StoresOf(rs[..i]) <= |rs[i]| then i else i + 1)
  {
    hide StoresOf;
    StoresStep(rs, i);
    if i + 1 < |rs| {
      StoresStep(rs, i + 1);
    }
  }

  /** Commit results one after the other until the supply fails; the committed ones are a prefix. */
  method CommitAll(tc: ByteCache, rs: seq<Bytes>, pw0: Power) returns (ghost n: nat)
    requires !pw0.Off? && tc.ptr == tc.tail == 0 && Fit(rs, tc.cache.Length)
    modifies tc`ptr, tc`tail, tc.cache
    ensures Reaches(rs, pw0, n)
    ensures Laid(tc.cache[..], rs[..n], WORD) && Offset(tc.tail) == Total(rs[..n], WORD)
  {
    hide Total, Laid, StoresOf;
    NoResults(tc.cache[..], WORD);
    n := 0;
    if rs == [] { NoStores(); } else { StoresStep(rs, 0); }
    assert rs[..0] == [];
    var pw := pw0;
    for i := 0 to |rs|
      invariant !pw.Off? && pw == pw0.After(StoresOf(rs[..i])) && n == i
      invariant Offset(tc.tail) == Total(rs[..i], WORD) && Laid(tc.cache[..], rs[..i], WORD)
    {
      TotalStep(rs, i, WORD);
      StoresStep(rs, i);
      ghost var b, t, at := tc.cache[..], tc.tail, Total(rs[..i], WORD);
      pw := tc.CacheResult(rs[i], pw);
      if rs[i] != [] {
        assert tc.cache[..][..at] == tc.cache[..at] == b[..at];
        LaidStays(b, tc.cache[..], rs[..i], WORD);
        assert tc.cache[..][at..at + |rs[i]|] == tc.cache[at..at + |rs[i]|];
      }
      if tc.tail != t {
        OneMoreLaid(tc.cache[..], rs, i, WORD);
        n := i + 1;
      }
      if pw.Off? {
        CutIn(rs, i, pw0);
        return;
      }
    }
  }

  /** Commit until the supply fails, reboot, replay: the committed results in their order, and then nothing more. */
  method RoundTrip(tc: ByteCache, rs: seq<Bytes>, pw0: Power) returns (replayed: seq<Bytes>)
    requires !pw0.Off? && tc.ptr == tc.tail == 0 && Fit(rs, tc.cache.Length)
    modifies tc`ptr, tc`tail, tc.cache
    ensures replayed <= rs && tc.ptr == Offset(tc.tail) == Total(replayed, WORD)
    ensures Reaches(rs, pw0, |replayed|)
  {
    hide Total, Laid, StoresOf;
    ghost var n := CommitAll(tc, rs, pw0);
    ghost var done := rs[..n];
    NoResults(tc.cache[..], WORD);
    tc.ptr, replayed := 0, [];
    assert done[..0] == [];
    for i := 0 to |rs|
      invariant i <= n && replayed == done[..i] && tc.ptr == Total(done[..i], WORD)
      invariant Laid(tc.cache[..], done, WORD) && Offset(tc.tail) == Total(done, WORD)
    {
      if i < n {
        TotalStep(done, i, WORD);
        if rs[i] != [] { LaidAt(tc.cache[..], done, i, WORD); }
      } else {
        assert done[..i] == done;
      }
      var hit, res := tc.TryRetrieveResult(|rs[i]|);
      if !hit { return; }
      replayed := replayed + [res];
    }
    assert done[..n] == done && rs[..|rs|] == rs;
  }
}
