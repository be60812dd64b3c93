/** The transaction cache is a queue: after a reboot results come back in the order in which they were committed.
    Here with the packed position words; `gap` is the room that a result of no bytes takes, none with these words. */
module TxCacheFifo {
  import opened PowerSupply
  import opened TxPrograms
  import opened TxWord
  import opened TxCaching
  import opened ReplaySpec

  type Bytes = seq<Byte>

  function Slot(res: Bytes, gap: nat): nat {
    if res == [] then gap else |res|
  }

  function Total(rs: seq<Bytes>, gap: nat): nat {
    if rs == [] then 0 else Total(rs[..|rs| - 1], gap) + Slot(rs[|rs| - 1], gap)
  }

  /** The results stand one behind the other. */
  ghost predicate Laid(bytes: Bytes, rs: seq<Bytes>, gap: nat) {
    rs == [] ||
    var init, last := rs[..|rs| - 1], rs[|rs| - 1];
    Laid(bytes, init, gap) && (last == [] || Holds(bytes, Total(init, gap), last))
  }

  lemma {:induction false} LaidStays(b: Bytes, c: Bytes, rs: seq<Bytes>, gap: nat)
    requires Laid(b, rs, gap) && Total(rs, gap) <= |b| && Total(rs, gap) <= |c|
    requires b[..Total(rs, gap)] == c[..Total(rs, gap)]
    ensures Laid(c, rs, gap)
  {
    if rs != [] {
      var init, last := rs[..|rs| - 1], rs[|rs| - 1];
      PrefixOfPrefix(b, c, Total(init, gap), Total(rs, gap));
      SliceOfPrefix(b, c, Total(init, gap), Total(rs, gap));
      LaidStays(b, c, init, gap);
    }
  }

  lemma {:induction false} TotalGrows(rs: seq<Bytes>, i: nat, gap: nat)
    requires i <= |rs|
    ensures Total(rs[..i], gap) <= Total(rs, gap)
    decreases |rs|
  {
    if i < |rs| {
      assert rs[..|rs| - 1][..i] == rs[..i];
      TotalGrows(rs[..|rs| - 1], i, gap);
    } else {
      assert rs[..i] == rs;
    }
  }

  lemma {:induction false} LaidAt(bytes: Bytes, rs: seq<Bytes>, i: nat, gap: nat)
    requires Laid(bytes, rs, gap) && i < |rs| && rs[i] != []
    ensures Holds(bytes, Total(rs[..i], gap), rs[i])
    decreases |rs|
  {
    if i < |rs| - 1 {
      assert rs[..|rs| - 1][..i] == rs[..i];
      LaidAt(bytes, rs[..|rs| - 1], i, gap);
    }
  }

  lemma TotalStep(rs: seq<Bytes>, i: nat, gap: nat)
    requires i < |rs|
    ensures Total(rs[..i + 1], gap) == Total(rs[..i], gap) + Slot(rs[i], gap) <= Total(rs, gap)
  {
    assert rs[..i + 1][..i] == rs[..i];
    TotalGrows(rs, i + 1, gap);
  }

  lemma OneMoreLaid(bytes: Bytes, rs: seq<Bytes>, i: nat, gap: nat)
    requires i < |rs| && Laid(bytes, rs[..i], gap)
    requires rs[i] == [] || Holds(bytes, Total(rs[..i], gap), rs[i])
    ensures Laid(bytes, rs[..i + 1], gap)
  {
    hide Total;
    assert rs[..i + 1][..i] == rs[..i];
  }

  lemma NoResults(b: Bytes, gap: nat)
    ensures Laid(b, [], gap) && Total([], gap) == 0
  {
  }

  /** Commit results of any sizes, none included, one after the other. */
  method CommitAll(tc: TxCache, rs: seq<Bytes>)
    requires tc.Valid() && tc.PtrPos() == tc.TailPos() == Pos(0, 0)
    requires |rs| <= MAX_ID && Total(rs, 0) <= tc.cache.Length
    modifies tc`ptr, tc`tail, tc.cache
    ensures Laid(tc.cache[..], rs, 0) && tc.TailPos() == Pos(Total(rs, 0), |rs|) && (rs != [] ==> tc.Committed())
  {
    hide PosOf, IsCommitted, Total;
    NoResults(tc.cache[..], 0);
    assert rs[..0] == [];
    for i := 0 to |rs|
      invariant tc.PtrPos() == tc.TailPos() == Pos(Total(rs[..i], 0), i)
      invariant Laid(tc.cache[..], rs[..i], 0) && (i > 0 ==> tc.Committed())
    {
      TotalStep(rs, i, 0);
      ghost var b, at := tc.cache[..], Total(rs[..i], 0);
      var pw := tc.CacheResult(rs[i], Mains);
      assert tc.cache[..][..at] == tc.cache[..at] == b[..at];
      assert tc.cache[..][at..at + |rs[i]|] == tc.cache[at..at + |rs[i]|];
      LaidStays(b, tc.cache[..], rs[..i], 0);
      OneMoreLaid(tc.cache[..], rs, i, 0);
    }
    assert rs[..|rs|] == rs;
  }

  /** Commit, reboot, replay: the same results in the same order, and then nothing more to replay. */
  method RoundTrip(tc: TxCache, rs: seq<Bytes>) returns (replayed: seq<Bytes>, more: bool)
    requires tc.Valid() && tc.PtrPos() == tc.TailPos() == Pos(0, 0)
    requires |rs| <= MAX_ID && Total(rs, 0) <= tc.cache.Length
    modifies tc`ptr, tc`tail, tc.cache
    ensures replayed == rs && !more
  {
    hide PosOf, IsCommitted, Total, Laid;
    CommitAll(tc, rs);
    tc.ResetPtr();
    replayed := [];
    NoResults(tc.cache[..], 0);
    assert rs[..0] == [];
    for i := 0 to |rs|
      invariant replayed == rs[..i] && tc.PtrPos() == Pos(Total(rs[..i], 0), i)
      invariant Laid(tc.cache[..], rs, 0) && tc.TailPos() == Pos(Total(rs, 0), |rs|)
    {
      TotalStep(rs, i, 0);
      if rs[i] != [] { LaidAt(tc.cache[..], rs, i, 0); }
      ghost var at := Total(rs[..i], 0);
      var pw, hit, res := tc.TryRetrieveResult(|rs[i]|, Mains);
      assert tc.cache[..][at..at + |rs[i]|] == tc.cache[at..at + |rs[i]|];
      replayed := replayed + [res];
    }
    assert rs[..|rs|] == rs;
    var pw, res;
    pw, more, res := tc.TryRetrieveResult(0, Mains);
  }
}
