/** The bit expressions of the source, on the bits of a 16-bit word, are the sums and quotients that the model of the
    transaction cache computes with. */
module TxBits {
  import opened TxWord

  const ID_MASK: bv16 := 0x00FF
  const PTR_MASK: bv16 := 0x7F00
  const COMMITTED: bv16 := 0x8000

  function Bit(w: bv16, i: bv16, value: nat): (v: nat)
    ensures v == 0 || v == value
  {
    if w & i != 0 then value else 0
  }

  /** The eight low bits of a word as a number. */
  function Low(w: bv16): (v: nat)
    ensures v < 0x100
  {
    Bit(w, 0x01, 0x01) + Bit(w, 0x02, 0x02) + Bit(w, 0x04, 0x04) + Bit(w, 0x08, 0x08)
    + Bit(w, 0x10, 0x10) + Bit(w, 0x20, 0x20) + Bit(w, 0x40, 0x40) + Bit(w, 0x80, 0x80)
  }

  /** The seven bits above them. */
  function Middle(w: bv16): (v: nat)
    ensures v < 0x80
  {
    Bit(w, 0x0100, 0x01) + Bit(w, 0x0200, 0x02) + Bit(w, 0x0400, 0x04) + Bit(w, 0x0800, 0x08)
    + Bit(w, 0x1000, 0x10) + Bit(w, 0x2000, 0x20) + Bit(w, 0x4000, 0x40)
  }

  /** The number that the sixteen bits stand for. */
  function Value(w: bv16): Word {
    Low(w) + 0x100 * Middle(w) + Bit(w, COMMITTED, 0x8000)
  }

  lemma FieldsOf(w: bv16)
    ensures TxId(Value(w)) == Low(w) && CachePtr(Value(w)) == Middle(w)
    ensures IsCommitted(Value(w)) <==> w & COMMITTED != 0
  {
    hide Low, Middle;
  }

  lemma ValueOfFields(w: bv16)
    ensures Value(w) == Low(w) + 0x100 * Middle(w) + if w & COMMITTED != 0 then 0x8000 else 0
  {
  }

  // ---------- single bits ----------

  lemma MaskedLow(w: bv16)
    ensures Value(w & ID_MASK) == Low(w)
  {
  }

  lemma MaskedMiddle(w: bv16)
    ensures Value((w & PTR_MASK) >> 8) == Middle(w)
  {
  }

  lemma BitSet(w: bv16)
    ensures Low(w | COMMITTED) == Low(w) && Middle(w | COMMITTED) == Middle(w) && (w | COMMITTED) & COMMITTED != 0
  {
  }

  lemma BitCleared(w: bv16)
    ensures Low(w & !COMMITTED) == Low(w) && Middle(w & !COMMITTED) == Middle(w) && (w & !COMMITTED) & COMMITTED == 0
  {
  }

  lemma SmallHasNoHighBits(id: bv16, ptr: bv16)
    requires id < 0x100 && ptr < 0x80
    ensures id & 0xFF00 == 0 && ptr & 0xFF80 == 0 && ptr & 0xFF00 == 0
  {
  }

  lemma LowOfOr(id: bv16, ptr: bv16)
    ensures Low(id | (ptr << 8)) == Low(id)
  {
  }

  lemma MiddleOfOr(id: bv16, ptr: bv16)
    requires id & 0xFF00 == 0 && ptr & 0xFF80 == 0
    ensures Middle(id | (ptr << 8)) == Low(ptr) && (id | (ptr << 8)) & COMMITTED == 0
  {
  }

  lemma OnlyLow(w: bv16)
    requires w & 0xFF00 == 0
    ensures Value(w) == Low(w)
  {
    assert w & COMMITTED == 0 && Middle(w) == 0;
  }

  // ---------- the expressions of the source ----------

  /** `tail & TX_ID_PTR_MASK`. */
  lemma IdMaskReadsTxId(w: bv16)
    ensures Value(w & ID_MASK) == TxId(Value(w))
  {
    hide Value;
    FieldsOf(w);
    MaskedLow(w);
  }

  /** `(tail & TX_CACHE_PTR_MASK) >> TX_CACHE_PTR_SHIFT`. */
  lemma PtrMaskReadsCachePtr(w: bv16)
    ensures Value((w & PTR_MASK) >> 8) == CachePtr(Value(w))
  {
    hide Value;
    FieldsOf(w);
    MaskedMiddle(w);
  }

  /** `(tail & TX_COMMITTED) == TX_COMMITTED`. */
  lemma CommitMaskTestsCommitted(w: bv16)
    ensures (w & COMMITTED) == COMMITTED <==> IsCommitted(Value(w))
  {
    hide Value;
    FieldsOf(w);
    assert (w & COMMITTED) == COMMITTED <==> w & COMMITTED != 0;
  }

  /** `tail | TX_COMMITTED`. */
  lemma CommitMaskSets(w: bv16)
    ensures Value(w | COMMITTED) == SetCommitted(Value(w))
  {
    hide Low, Middle, Value, Bit;
    BitSet(w);
    ValueOfFields(w);
    ValueOfFields(w | COMMITTED);
  }

  /** `tail & !TX_COMMITTED`. */
  lemma CommitMaskClears(w: bv16)
    ensures Value(w & !COMMITTED) == ClearCommitted(Value(w))
  {
    hide Low, Middle, Value, Bit;
    BitCleared(w);
    ValueOfFields(w);
    ValueOfFields(w & !COMMITTED);
  }

  /** `new_id | (new_cache_ptr << TX_CACHE_PTR_SHIFT)`, within the bounds. */
  lemma OrIsAdvance(id: bv16, ptr: bv16, txId: nat, cachePtr: nat, size: nat)
    requires id < 0x100 && ptr < 0x80
    requires Value(id) == txId + 1 && Value(ptr) == cachePtr + size
    requires txId + 1 < ID_LIMIT && cachePtr + size < CACHE_LIMIT
    ensures Value(id | (ptr << 8)) == Advance(txId, cachePtr, size)
  {
    hide Low, Middle;
    SmallHasNoHighBits(id, ptr);
    LowOfOr(id, ptr);
    MiddleOfOr(id, ptr);
    OnlyLow(id);
    OnlyLow(ptr);
  }
}
