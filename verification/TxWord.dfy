/** The packed position words of the transaction cache on 16-bit targets: commit bit 0x8000,
    seven bits of cache offset, eight bits of transaction id. */
module TxWord {
  import opened TxPrograms

  type Word = w: nat | w < 0x10000

  const TX_COMMITTED := 0x8000
  const CACHE_UNIT := 0x100    // 1 << TX_CACHE_PTR_SHIFT
  const CACHE_LIMIT := 0x80    // offsets that fit into the seven bits
  const ID_LIMIT := 0x100

  function TxId(w: Word): nat {
    w % ID_LIMIT
  }

  function CachePtr(w: Word): nat {
    w / CACHE_UNIT % CACHE_LIMIT
  }

  predicate IsCommitted(w: Word) {
    w >= TX_COMMITTED
  }

  function SetCommitted(w: Word): Word {
    if IsCommitted(w) then w else w + TX_COMMITTED
  }

  function ClearCommitted(w: Word): Word {
    w % TX_COMMITTED
  }

  /** `advance_composite_id`. */
  function Advance(txId: nat, cachePtr: nat, size: nat): Word
    requires txId + 1 < ID_LIMIT && cachePtr + size < CACHE_LIMIT
  {
    txId + 1 + (cachePtr + size) * CACHE_UNIT
  }

  /** The position that a word stands for, whatever its commit bit. */
  function PosOf(w: Word): Pos {
    Pos(CachePtr(w), TxId(w))
  }

  // ---------- each word operation is the operation on positions ----------

  /** The commit bit does not touch the position. */
  lemma CommitBitIsAside(w: Word)
    requires w + TX_COMMITTED < 0x10000
    ensures PosOf(w + TX_COMMITTED) == PosOf(w) && IsCommitted(w + TX_COMMITTED)
  {
    assert (w + TX_COMMITTED) / CACHE_UNIT == w / CACHE_UNIT + CACHE_LIMIT;
  }

  lemma CommitKeepsPos(w: Word)
    ensures IsCommitted(SetCommitted(w)) && PosOf(SetCommitted(w)) == PosOf(w)
    ensures !IsCommitted(ClearCommitted(w)) && PosOf(ClearCommitted(w)) == PosOf(w)
  {
    hide PosOf;
    if IsCommitted(w) {
      CommitBitIsAside(w - TX_COMMITTED);
    } else {
      CommitBitIsAside(w);
    }
  }

  /** A transaction with a result: one more id, and its bytes. */
  lemma AdvanceMovesPos(w: Word, size: nat)
    requires TxId(w) < MAX_ID && CachePtr(w) + size < CACHE_LIMIT
    ensures PosOf(Advance(TxId(w), CachePtr(w), size)) == Pos(PosOf(w).off + size, PosOf(w).id + 1)
    ensures !IsCommitted(Advance(TxId(w), CachePtr(w), size))
  {
  }

  /** A transaction without a result: plus one on the whole word. */
  lemma IncrementMovesPos(w: Word)
    requires TxId(w) < MAX_ID
    ensures w + 1 < 0x10000 && PosOf(w + 1) == Pos(PosOf(w).off, PosOf(w).id + 1)
    ensures IsCommitted(w + 1) == IsCommitted(w)
  {
  }

  /** Beyond the bounds the fields run into each other: a 256th transaction eats a byte of cache. */
  lemma OverflowSpillsIntoOffset(w: Word)
    requires TxId(w) == MAX_ID && w + 1 < 0x10000 && CachePtr(w) + 1 < CACHE_LIMIT
    ensures PosOf(w + 1) == Pos(PosOf(w).off + 1, 0)
  {
  }
}
