/*
 * Tagged persistent pointers: the 64-bit word behind PAtomic, POwned and
 * PShared. From the most significant bit down, the word holds an aux bit, a
 * descriptor bit, a 9-bit thread id, an 11-bit high tag, the pool-relative
 * offset, and a low tag in the alignment bits of the offset.
 */
module TaggedPtr {

  type Word = bv64

  datatype Option<T> = None | Some(value: T)

  /** The memory orderings a caller passes to the atomic operations. */
  datatype MemOrdering = Relaxed | Release | Acquire | AcqRel | SeqCst

  /** Given the ordering for the success case of a compare-exchange, the strongest ordering allowed
      for the failure case. */
  function StrongestFailureOrdering(ord: MemOrdering): (r: MemOrdering)
    ensures r != Release && r != AcqRel
    ensures r == SeqCst <==> ord == SeqCst
    ensures r == Acquire <==> ord == Acquire || ord == AcqRel
    ensures r == Relaxed <==> ord == Relaxed || ord == Release
  {
    match ord
    case Relaxed | Release => Relaxed
    case Acquire | AcqRel => Acquire
    case SeqCst => SeqCst
  }

  // Field positions, counted in bits from the most significant bit.
  const POS_AUX_BITS: nat := 0
  const NR_AUX_BITS: nat := 1
  const POS_DESC_BITS: nat := POS_AUX_BITS + NR_AUX_BITS
  const NR_DESC_BITS: nat := 1
  const POS_TID_BITS: nat := POS_DESC_BITS + NR_DESC_BITS
  const NR_TID_BITS: nat := 9
  const POS_HIGH_BITS: nat := POS_TID_BITS + NR_TID_BITS
  const NR_HIGH_BITS: nat := 11

  /** The mask of `nr` one bits that start `pos` bits below the most significant bit. */
  function LeftBits(pos: nat, nr: nat): Word
    requires 0 < nr && pos + nr <= 64
  {
    (((1 as Word) << nr) - 1) << (64 - pos - nr)
  }

  // The four left masks, written out.
  const AUX_BITS: Word := 0x8000_0000_0000_0000
  const DESC_BITS: Word := 0x4000_0000_0000_0000
  const TID_BITS: Word := 0x3FE0_0000_0000_0000
  const HIGH_BITS: Word := 0x001F_FC00_0000_0000

  /** The masks are the left bits at the field positions: the aux bit is bit 63, the descriptor
      bit is bit 62, the thread id bits 53 to 61 and the high tag bits 42 to 52; no two share a
      bit, and together they cover the top 22 bits. */
  lemma LeftFieldLayout()
    ensures AUX_BITS == LeftBits(POS_AUX_BITS, NR_AUX_BITS)
    ensures DESC_BITS == LeftBits(POS_DESC_BITS, NR_DESC_BITS)
    ensures TID_BITS == LeftBits(POS_TID_BITS, NR_TID_BITS)
    ensures HIGH_BITS == LeftBits(POS_HIGH_BITS, NR_HIGH_BITS)
    ensures AUX_BITS & DESC_BITS == 0 && AUX_BITS & TID_BITS == 0 && AUX_BITS & HIGH_BITS == 0
    ensures DESC_BITS & TID_BITS == 0 && DESC_BITS & HIGH_BITS == 0 && TID_BITS & HIGH_BITS == 0
    ensures AUX_BITS | DESC_BITS | TID_BITS | HIGH_BITS == 0xFFFF_FC00_0000_0000
  {
  }

  /** Alignments are powers of two, and `lgAlign` is the number of trailing zero bits of the
      alignment of the pointee. The low tag lives in those bits; below 43 it stays clear of the
      high tag. */
  type AlignLog = k: nat | k <= 42

  /** `low_bits::<T>()`: the unused least significant bits of an offset aligned for `T`. The
      pointee type enters the operations below only through this mask, so they take the mask
      itself as the parameter `low`. */
  function LowBits(lgAlign: AlignLog): (r: Word)
    ensures LowMask(r)
    ensures r & 1 == (if lgAlign == 0 then 0 else 1)
  {
    LowBitsBelowHigh(lgAlign);
    ((1 as Word) << lgAlign) - 1
  }

  lemma LowBitsBelowHigh(lgAlign: AlignLog)
    ensures (((1 as Word) << lgAlign) - 1) & 0xFFFF_FC00_0000_0000 == 0
    ensures (((1 as Word) << lgAlign) - 1) & 1 == (if lgAlign == 0 then 0 else 1)
  {
    var m: Word := ((1 as Word) << lgAlign) - 1;
    assert m <= 0x0000_03FF_FFFF_FFFF by {
      assert (1 as Word) << lgAlign <= (1 as Word) << 42;
    }
  }

  /** A low-bit mask stays clear of the four left fields. */
  predicate LowMask(low: Word)
  {
    low & 0xFFFF_FC00_0000_0000 == 0
  }

  /** Keeps only the low eleven bits: the length of the high tag. */
  function CutAsHighTagLen(raw: Word): (r: Word)
    ensures r <= 0x7FF
    ensures r & 0x7FF == raw & 0x7FF
  {
    raw & !(0xFFFF_FFFF_FFFF_FFFF << NR_HIGH_BITS)
  }

  /** The check behind `ensure_aligned`: it panics exactly when this is false. */
  predicate IsAligned(offset: Word, low: Word)
  {
    offset & low == 0
  }

  /** `ensure_aligned` followed by taking the offset as a tagged word (`PShared::from(PPtr)`,
      `POwned::from_ptr`): an unaligned offset is the panic "unaligned pointer". */
  function FromPtr(offset: Word, low: Word): Option<Word>
  {
    if IsAligned(offset, low) then Some(offset) else None
  }

  function ComposeTag(data: Word, ltag: Word, low: Word): Word
  {
    (data & !low) | (ltag & low)
  }

  /** The bits of `x` under mask `f`, and the bits of `data` elsewhere. */
  function Replace(f: Word, x: Word, data: Word): Word
  {
    (f & x) | (!f & data)
  }

  // Each left composer rotates the value right by the end position of its field
  // (POS + NR: 11, 22, 2 and 1) and keeps the bits that fall in the field.

  function ComposeTid(tid: Word, data: Word): Word
  {
    Replace(TID_BITS, tid.RotateRight(11), data)
  }

  function ComposeHighTag(htag: Word, data: Word): Word
  {
    Replace(HIGH_BITS, htag.RotateRight(22), data)
  }

  function ComposeDescBit(descBit: Word, data: Word): Word
  {
    Replace(DESC_BITS, descBit.RotateRight(2), data)
  }

  function ComposeAuxBit(auxBit: Word, data: Word): Word
  {
    Replace(AUX_BITS, auxBit.RotateRight(1), data)
  }

  /** The six fields of a tagged word, each shifted down to bit 0 (except the offset, which
      keeps its position). */
  datatype Fields = Fields(aux: Word, desc: Word, tid: Word, highTag: Word, offset: Word, lowTag: Word)

  // The six components of `decompose_tag`, one function each.
  function AuxOf(data: Word): Word { (data & AUX_BITS).RotateLeft(1) }
  function DescOf(data: Word): Word { (data & DESC_BITS).RotateLeft(2) }
  function TidOf(data: Word): Word { (data & TID_BITS).RotateLeft(11) }
  function HighTagOf(data: Word): Word { (data & HIGH_BITS).RotateLeft(22) }
  function OffsetOf(data: Word, low: Word): Word
  {
    data & !AUX_BITS & !DESC_BITS & !TID_BITS & !HIGH_BITS & !low
  }
  function LowTagOf(data: Word, low: Word): Word { data & low }

  function DecomposeTag(data: Word, low: Word): Fields
  {
    Fields(AuxOf(data), DescOf(data), TidOf(data), HighTagOf(data), OffsetOf(data, low), LowTagOf(data, low))
  }

  // The getters of PShared and POwned each take one component of `decompose_tag`.
  function Tag(data: Word, low: Word): Word { LowTagOf(data, low) }
  function AuxBit(data: Word): Word { AuxOf(data) }
  function DescBit(data: Word): Word { DescOf(data) }
  function Tid(data: Word): Word { TidOf(data) }
  function HighTag(data: Word): Word { HighTagOf(data) }
  function AsPtr(data: Word, low: Word): Word { OffsetOf(data, low) }

  /** `is_null` compares only the offset field with that of the null pointer, whose raw offset
      (`PPtr::null()`, defined outside this file) is a parameter. */
  predicate IsNull(data: Word, nullRaw: Word, low: Word)
  {
    AsPtr(data, low) == AsPtr(nullRaw, low)
  }

  /** `PShared::null()` and `PAtomic::null()`: the offset field of the null pointer, all tags 0. */
  function Null(nullRaw: Word, low: Word): Word
  {
    AsPtr(nullRaw, low)
  }

  // Bit facts the round trips are assembled from. The bit-vector solver handles one field of one
  // word at a time cheaply, so each lemma below states a single field.

  /** The top 22 bits, where the four left fields live. */
  const LEFT_BITS: Word := 0xFFFF_FC00_0000_0000

  // Bit identities about one unfolded definition each: the solver proves these cheaply, and the
  // field lemmas below only have to match them against one more definition.

  lemma BitsKeepOutside(f: Word, x: Word, data: Word, g: Word)
    requires f & g == 0
    ensures Replace(f, x, data) & g == data & g
  {
  }

  lemma BitsKeepOffset(f: Word, x: Word, data: Word, low: Word)
    requires f & !LEFT_BITS == 0
    ensures Replace(f, x, data) & !AUX_BITS & !DESC_BITS & !TID_BITS & !HIGH_BITS & !low
         == data & !AUX_BITS & !DESC_BITS & !TID_BITS & !HIGH_BITS & !low
  {
  }

  lemma BitsKeepLow(f: Word, x: Word, data: Word, low: Word)
    requires low & LEFT_BITS == 0 && f & !LEFT_BITS == 0
    ensures Replace(f, x, data) & low == data & low
  {
  }

  lemma BitsTagKeeps(data: Word, ltag: Word, low: Word, g: Word)
    requires low & g == 0
    ensures ComposeTag(data, ltag, low) & g == data & g
  {
  }

  lemma BitsTagKeepsOffset(data: Word, ltag: Word, low: Word)
    ensures ComposeTag(data, ltag, low) & !AUX_BITS & !DESC_BITS & !TID_BITS & !HIGH_BITS & !low
         == data & !AUX_BITS & !DESC_BITS & !TID_BITS & !HIGH_BITS & !low
  {
  }

  lemma BitsTagReadsBack(data: Word, ltag: Word, low: Word)
    ensures ComposeTag(data, ltag, low) & low == ltag & low
  {
  }

  /** A word with no bits in the left fields has none in any one of them. */
  lemma SubMaskZero(w: Word, g: Word)
    requires w & LEFT_BITS == 0 && g & !LEFT_BITS == 0
    ensures w & g == 0
  {
  }

  // One field at a time: writing a left field leaves the others as they were.

  lemma ReplaceKeepsAux(f: Word, x: Word, data: Word, low: Word)
    requires f & AUX_BITS == 0
    ensures AuxOf(Replace(f, x, data)) == AuxOf(data)
  {
    BitsKeepOutside(f, x, data, AUX_BITS);
  }

  lemma ReplaceKeepsDesc(f: Word, x: Word, data: Word, low: Word)
    requires f & DESC_BITS == 0
    ensures DescOf(Replace(f, x, data)) == DescOf(data)
  {
    BitsKeepOutside(f, x, data, DESC_BITS);
  }

  lemma ReplaceKeepsTid(f: Word, x: Word, data: Word, low: Word)
    requires f & TID_BITS == 0
    ensures TidOf(Replace(f, x, data)) == TidOf(data)
  {
    BitsKeepOutside(f, x, data, TID_BITS);
  }

  lemma ReplaceKeepsHighTag(f: Word, x: Word, data: Word, low: Word)
    requires f & HIGH_BITS == 0
    ensures HighTagOf(Replace(f, x, data)) == HighTagOf(data)
  {
    BitsKeepOutside(f, x, data, HIGH_BITS);
  }

  lemma ReplaceKeepsOffset(f: Word, x: Word, data: Word, low: Word)
    requires f & !LEFT_BITS == 0
    ensures OffsetOf(Replace(f, x, data), low) == OffsetOf(data, low)
  {
    BitsKeepOffset(f, x, data, low);
  }

  lemma ReplaceKeepsLowTag(f: Word, x: Word, data: Word, low: Word)
    requires LowMask(low) && f & !LEFT_BITS == 0
    ensures LowTagOf(Replace(f, x, data), low) == LowTagOf(data, low)
  {
    BitsKeepLow(f, x, data, low);
  }

  // Writing the low tag leaves every other field as it was.

  lemma TagKeepsAux(data: Word, ltag: Word, low: Word)
    requires LowMask(low)
    ensures AuxOf(ComposeTag(data, ltag, low)) == AuxOf(data)
  {
    SubMaskZero(low, AUX_BITS);
    BitsTagKeeps(data, ltag, low, AUX_BITS);
  }

  lemma TagKeepsDesc(data: Word, ltag: Word, low: Word)
    requires LowMask(low)
    ensures DescOf(ComposeTag(data, ltag, low)) == DescOf(data)
  {
    SubMaskZero(low, DESC_BITS);
    BitsTagKeeps(data, ltag, low, DESC_BITS);
  }

  lemma TagKeepsTid(data: Word, ltag: Word, low: Word)
    requires LowMask(low)
    ensures TidOf(ComposeTag(data, ltag, low)) == TidOf(data)
  {
    SubMaskZero(low, TID_BITS);
    BitsTagKeeps(data, ltag, low, TID_BITS);
  }

  lemma TagKeepsHighTag(data: Word, ltag: Word, low: Word)
    requires LowMask(low)
    ensures HighTagOf(ComposeTag(data, ltag, low)) == HighTagOf(data)
  {
    SubMaskZero(low, HIGH_BITS);
    BitsTagKeeps(data, ltag, low, HIGH_BITS);
  }

  lemma TagKeepsOffset(data: Word, ltag: Word, low: Word)
    ensures OffsetOf(ComposeTag(data, ltag, low), low) == OffsetOf(data, low)
  {
    BitsTagKeepsOffset(data, ltag, low);
  }

  // The field written reads back as the value truncated to the field width.

  lemma TagReadsBack(data: Word, ltag: Word, low: Word)
    ensures LowTagOf(ComposeTag(data, ltag, low), low) == ltag & low
  {
    BitsTagReadsBack(data, ltag, low);
  }

  lemma TidReadsBack(tid: Word, data: Word, low: Word)
    ensures TidOf(ComposeTid(tid, data)) == tid & 0x1FF
  {
  }

  lemma HighTagReadsBack(htag: Word, data: Word, low: Word)
    ensures HighTagOf(ComposeHighTag(htag, data)) == htag & 0x7FF
  {
  }

  lemma DescBitReadsBack(descBit: Word, data: Word, low: Word)
    ensures DescOf(ComposeDescBit(descBit, data)) == descBit & 1
  {
  }

  lemma AuxBitReadsBack(auxBit: Word, data: Word, low: Word)
    ensures AuxOf(ComposeAuxBit(auxBit, data)) == auxBit & 1
  {
  }

  // Round trips of the composers (`with_tag`, `with_tid`, `with_high_tag`, `with_desc_bit`,
  // `with_aux_bit`): the field written becomes the value truncated to the field width, and no
  // other field changes.

  lemma ComposeTagFields(data: Word, ltag: Word, low: Word)
    requires LowMask(low)
    ensures DecomposeTag(ComposeTag(data, ltag, low), low)
         == DecomposeTag(data, low).(lowTag := ltag & low)
  {
    TagKeepsAux(data, ltag, low);
    TagKeepsDesc(data, ltag, low);
    TagKeepsTid(data, ltag, low);
    TagKeepsHighTag(data, ltag, low);
    TagKeepsOffset(data, ltag, low);
    TagReadsBack(data, ltag, low);
  }

  lemma ComposeTidFields(tid: Word, data: Word, low: Word)
    requires LowMask(low)
    ensures DecomposeTag(ComposeTid(tid, data), low)
         == DecomposeTag(data, low).(tid := tid & 0x1FF)
  {
    var x := tid.RotateRight(11);
    ReplaceKeepsAux(TID_BITS, x, data, low);
    ReplaceKeepsDesc(TID_BITS, x, data, low);
    ReplaceKeepsHighTag(TID_BITS, x, data, low);
    ReplaceKeepsOffset(TID_BITS, x, data, low);
    ReplaceKeepsLowTag(TID_BITS, x, data, low);
    TidReadsBack(tid, data, low);
  }

  lemma ComposeHighTagFields(htag: Word, data: Word, low: Word)
    requires LowMask(low)
    ensures DecomposeTag(ComposeHighTag(htag, data), low)
         == DecomposeTag(data, low).(highTag := htag & 0x7FF)
  {
    var x := htag.RotateRight(22);
    ReplaceKeepsAux(HIGH_BITS, x, data, low);
    ReplaceKeepsDesc(HIGH_BITS, x, data, low);
    ReplaceKeepsTid(HIGH_BITS, x, data, low);
    ReplaceKeepsOffset(HIGH_BITS, x, data, low);
    ReplaceKeepsLowTag(HIGH_BITS, x, data, low);
    HighTagReadsBack(htag, data, low);
  }

  lemma ComposeDescBitFields(descBit: Word, data: Word, low: Word)
    requires LowMask(low)
    ensures DecomposeTag(ComposeDescBit(descBit, data), low)
         == DecomposeTag(data, low).(desc := descBit & 1)
  {
    var x := descBit.RotateRight(2);
    ReplaceKeepsAux(DESC_BITS, x, data, low);
    ReplaceKeepsTid(DESC_BITS, x, data, low);
    ReplaceKeepsHighTag(DESC_BITS, x, data, low);
    ReplaceKeepsOffset(DESC_BITS, x, data, low);
    ReplaceKeepsLowTag(DESC_BITS, x, data, low);
    DescBitReadsBack(descBit, data, low);
  }

  lemma ComposeAuxBitFields(auxBit: Word, data: Word, low: Word)
    requires LowMask(low)
    ensures DecomposeTag(ComposeAuxBit(auxBit, data), low)
         == DecomposeTag(data, low).(aux := auxBit & 1)
  {
    var x := auxBit.RotateRight(1);
    ReplaceKeepsDesc(AUX_BITS, x, data, low);
    ReplaceKeepsTid(AUX_BITS, x, data, low);
    ReplaceKeepsHighTag(AUX_BITS, x, data, low);
    ReplaceKeepsOffset(AUX_BITS, x, data, low);
    ReplaceKeepsLowTag(AUX_BITS, x, data, low);
    AuxBitReadsBack(auxBit, data, low);
  }

  // Writing the fields back, innermost first, rebuilds the word from its low end up.

  lemma OffsetJoinsLowTag(data: Word, low: Word)
    requires LowMask(low)
    ensures DecomposeTag(data, low).offset | DecomposeTag(data, low).lowTag
         == data & 0x0000_03FF_FFFF_FFFF
  {
  }

  lemma HighTagRestores(data: Word)
    ensures ComposeHighTag((data & HIGH_BITS).RotateLeft(22), data & 0x0000_03FF_FFFF_FFFF)
         == data & 0x001F_FFFF_FFFF_FFFF
  {
  }

  lemma TidRestores(data: Word)
    ensures ComposeTid((data & TID_BITS).RotateLeft(11), data & 0x001F_FFFF_FFFF_FFFF)
         == data & 0x3FFF_FFFF_FFFF_FFFF
  {
  }

  lemma DescBitRestores(data: Word)
    ensures ComposeDescBit((data & DESC_BITS).RotateLeft(2), data & 0x3FFF_FFFF_FFFF_FFFF)
         == data & 0x7FFF_FFFF_FFFF_FFFF
  {
  }

  lemma AuxBitRestores(data: Word)
    ensures ComposeAuxBit((data & AUX_BITS).RotateLeft(1), data & 0x7FFF_FFFF_FFFF_FFFF) == data
  {
  }

  /** The six fields partition the word: composing them back gives the word itself. */
  lemma DecomposeTagPartitions(data: Word, low: Word)
    requires LowMask(low)
    ensures var f := DecomposeTag(data, low);
      data == ComposeAuxBit(f.aux, ComposeDescBit(f.desc, ComposeTid(f.tid,
                ComposeHighTag(f.highTag, f.offset | f.lowTag))))
  {
    OffsetJoinsLowTag(data, low);
    HighTagRestores(data);
    TidRestores(data);
    DescBitRestores(data);
    AuxBitRestores(data);
  }

  /** `with_tag` keeps the pointer (`as_ptr`), so it leaves `is_null` as it was; the round trips
      above say the same of the other composers. */
  lemma WithTagKeepsNull(data: Word, t: Word, nullRaw: Word, low: Word)
    ensures AsPtr(ComposeTag(data, t, low), low) == AsPtr(data, low)
    ensures IsNull(ComposeTag(data, t, low), nullRaw, low) == IsNull(data, nullRaw, low)
  {
    TagKeepsOffset(data, t, low);
  }

  /** A word with no bits in the left fields or the low tag is its own offset. */
  lemma OffsetOfUntagged(w: Word, low: Word)
    requires w & LEFT_BITS == 0 && w & low == 0
    ensures w & !AUX_BITS & !DESC_BITS & !TID_BITS & !HIGH_BITS & !low == w
  {
  }

  /** The offset field has no bits in the left fields... */
  lemma OffsetHasNoLeftBits(data: Word, low: Word)
    ensures AsPtr(data, low) & LEFT_BITS == 0
  {
  }

  /** ... and none in the low tag. */
  lemma OffsetHasNoLowBits(data: Word, low: Word)
    ensures AsPtr(data, low) & low == 0
  {
  }

  /** A word with no bits in the left fields or the low tag decomposes into its offset alone. */
  lemma UntaggedFields(w: Word, low: Word)
    requires w & LEFT_BITS == 0 && w & low == 0
    ensures DecomposeTag(w, low) == Fields(0, 0, 0, 0, w, 0)
  {
    SubMaskZero(w, AUX_BITS);
    SubMaskZero(w, DESC_BITS);
    SubMaskZero(w, TID_BITS);
    SubMaskZero(w, HIGH_BITS);
    OffsetOfUntagged(w, low);
  }

  /** An offset that passes `ensure_aligned` and lies below the high tag becomes a word whose
      tags are all zero and whose pointer is the offset. */
  lemma FromPtrUntagged(offset: Word, low: Word)
    requires offset & LEFT_BITS == 0
    ensures FromPtr(offset, low).Some? ==>
      DecomposeTag(FromPtr(offset, low).value, low) == Fields(0, 0, 0, 0, offset, 0)
  {
    if IsAligned(offset, low) {
      UntaggedFields(offset, low);
    }
  }

  // Equality and ordering of PShared use the whole raw word, tags included.

  datatype Cmp = Less | Equal | Greater

  function SharedCmp(a: Word, b: Word): (r: Cmp)
    ensures r == Equal <==> a == b
    ensures r == Less <==> a < b
  {
    if a < b then Less else if a == b then Equal else Greater
  }

  /** Two words with the same pointer but different low tags are different PShared values. */
  lemma TagsDistinguishShared(data: Word, t1: Word, t2: Word, low: Word)
    requires LowMask(low)
    requires t1 & low != t2 & low
    ensures SharedCmp(ComposeTag(data, t1, low), ComposeTag(data, t2, low)) != Equal
    ensures AsPtr(ComposeTag(data, t1, low), low) == AsPtr(ComposeTag(data, t2, low), low)
  {
    ComposeTagFields(data, t1, low);
    ComposeTagFields(data, t2, low);
  }

  /** The null word has the null pointer and no tag bits. */
  lemma NullIsUntagged(nullRaw: Word, low: Word)
    ensures DecomposeTag(Null(nullRaw, low), low) == Fields(0, 0, 0, 0, AsPtr(nullRaw, low), 0)
  {
    OffsetHasNoLeftBits(nullRaw, low);
    OffsetHasNoLowBits(nullRaw, low);
    UntaggedFields(Null(nullRaw, low), low);
  }

  // The read-modify-write operations of PAtomic, as functions of the old word.

  function FetchAndWord(data: Word, val: Word, low: Word): Word
  {
    data & (val | !low)
  }

  function FetchOrWord(data: Word, val: Word, low: Word): Word
  {
    data | (val & low)
  }

  function FetchXorWord(data: Word, val: Word, low: Word): Word
  {
    data ^ (val & low)
  }

  // `fetch_and`, `fetch_or` and `fetch_xor` are `with_tag` of the old word combined with `val`:
  // by `ComposeTagFields` they change the low tag and nothing else, and the new tag is the old
  // one combined with `val`.

  lemma BitsFetchAnd(d: Word, v: Word, l: Word)
    ensures d & (v | !l) == (d & !l) | ((d & v) & l)
  {
  }

  lemma BitsFetchAndTag(d: Word, v: Word, l: Word)
    ensures (d & (v | !l)) & l == (d & l) & v
  {
  }

  lemma FetchAndIsWithTag(data: Word, val: Word, low: Word)
    ensures FetchAndWord(data, val, low) == ComposeTag(data, data & val, low)
  {
    BitsFetchAnd(data, val, low);
  }

  lemma BitsFetchOr(d: Word, v: Word, l: Word)
    ensures d | (v & l) == (d & !l) | ((d | v) & l)
  {
  }

  lemma BitsFetchOrTag(d: Word, v: Word, l: Word)
    ensures (d | (v & l)) & l == (d & l) | (v & l)
  {
  }

  lemma FetchOrIsWithTag(data: Word, val: Word, low: Word)
    ensures FetchOrWord(data, val, low) == ComposeTag(data, data | val, low)
  {
    BitsFetchOr(data, val, low);
  }

  lemma BitsFetchXor(d: Word, v: Word, l: Word)
    ensures d ^ (v & l) == (d & !l) | ((d ^ v) & l)
  {
  }

  lemma BitsFetchXorTag(d: Word, v: Word, l: Word)
    ensures (d ^ (v & l)) & l == (d & l) ^ (v & l)
  {
  }

  lemma FetchXorIsWithTag(data: Word, val: Word, low: Word)
    ensures FetchXorWord(data, val, low) == ComposeTag(data, data ^ val, low)
  {
    BitsFetchXor(data, val, low);
  }

  lemma FetchAndTag(data: Word, val: Word, low: Word)
    ensures Tag(FetchAndWord(data, val, low), low) == Tag(data, low) & val
  {
    BitsFetchAndTag(data, val, low);
  }

  lemma FetchOrTag(data: Word, val: Word, low: Word)
    ensures Tag(FetchOrWord(data, val, low), low) == Tag(data, low) | (val & low)
  {
    BitsFetchOrTag(data, val, low);
  }

  lemma FetchXorTag(data: Word, val: Word, low: Word)
    ensures Tag(FetchXorWord(data, val, low), low) == Tag(data, low) ^ (val & low)
  {
    BitsFetchXorTag(data, val, low);
  }

  /** The documented examples, on a null pointer to `i32` (alignment 4, two tag bits):
      tag 3 and 2 is 2, tag 1 or 2 is 3, tag 1 xor 3 is 2. */
  lemma FetchOpsDocExamples()
    ensures LowBits(2) == 3
    ensures Tag(FetchAndWord(ComposeTag(0, 3, 3), 2, 3), 3) == 2
    ensures Tag(FetchOrWord(ComposeTag(0, 1, 3), 2, 3), 3) == 3
    ensures Tag(FetchXorWord(ComposeTag(0, 1, 3), 3, 3), 3) == 2
  {
  }

  datatype Result<T, E> = Ok(value: T) | Err(error: E)

  /** A failed compare-exchange: the value found, and the new value handed back. */
  datatype CasError = CasError(current: Word, proposed: Word)

  /** `fetch_update` as written: the loop returns the `Ok` of the compare-exchange that installed
      the update, and that `Ok` carries the NEW word. */
  function FetchUpdateAsWritten(data: Word, func: Word -> Option<Word>): (r: Result<Word, Word>)
    ensures r.Ok? <==> func(data).Some?
    ensures r.Ok? ==> func(data) == Some(r.value)
    ensures r.Err? ==> r.error == data
  {
    match func(data)
    case Some(next) => Ok(next)
    case None => Err(data)
  }

  /** `fetch_update` as documented: `Ok(previous_value)` when `func` returns `Some`. */
  function FetchUpdateDocumented(data: Word, func: Word -> Option<Word>): (r: Result<Word, Word>)
    ensures r.Ok? <==> func(data).Some?
    ensures r == Ok(data) || r == Err(data)
  {
    match func(data)
    case Some(_) => Ok(data)
    case None => Err(data)
  }

  /** Whenever `func` changes the word, the code's result is not the documented one. */
  lemma FetchUpdateDiffersFromDoc(data: Word, func: Word -> Option<Word>)
    requires func(data).Some? && func(data).value != data
    ensures FetchUpdateAsWritten(data, func) != FetchUpdateDocumented(data, func)
  {
  }

  /** Incrementing a null word: the code hands back 1, the documentation promises 0. */
  lemma FetchUpdateReturnsNewNotPrevious()
    ensures FetchUpdateAsWritten(0, w => Some(w + 1)) == Ok(1)
    ensures FetchUpdateDocumented(0, w => Some(w + 1)) == Ok(0)
  {
  }

  /** `PAtomic<T>`: one atomic word. Its operations are modelled single-threaded, as updates of
      that word; memory orderings only constrain concurrent observers and are left out. */
  class PAtomic {
    var data: Word

    constructor FromWord(w: Word)
      ensures data == w
    {
      data := w;
    }

    /** `PAtomic::null()`. */
    constructor Null(nullRaw: Word, low: Word)
      ensures IsNull(data, nullRaw, low) && Tag(data, low) == 0
    {
      data := AsPtr(nullRaw, low);
      new;
      NullIsUntagged(nullRaw, low);
    }

    method Load() returns (w: Word)
      ensures w == data
    {
      w := data;
    }

    method Store(new': Word)
      modifies this
      ensures data == new'
    {
      data := new';
    }

    method Swap(new': Word) returns (prev: Word)
      modifies this
      ensures prev == old(data) && data == new'
    {
      prev := data;
      data := new';
    }

    /** Stores `new'` exactly when the whole word, tags included, equals `current`; otherwise the
        word is unchanged and the value found is returned with `new'`. */
    method CompareExchange(current: Word, new': Word) returns (r: Result<Word, CasError>)
      modifies this
      ensures r.Ok? <==> old(data) == current
      ensures r.Ok? ==> data == new' && r.value == new'
      ensures r.Err? ==> data == old(data) && r.error == CasError(old(data), new')
    {
      if data == current {
        data := new';
        r := Ok(new');
      } else {
        r := Err(CasError(data, new'));
      }
    }

    method FetchAnd(val: Word, low: Word) returns (prev: Word)
      modifies this
      ensures prev == old(data) && data == FetchAndWord(old(data), val, low)
    {
      prev := data;
      data := FetchAndWord(data, val, low);
    }

    method FetchOr(val: Word, low: Word) returns (prev: Word)
      modifies this
      ensures prev == old(data) && data == FetchOrWord(old(data), val, low)
    {
      prev := data;
      data := FetchOrWord(data, val, low);
    }

    method FetchXor(val: Word, low: Word) returns (prev: Word)
      modifies this
      ensures prev == old(data) && data == FetchXorWord(old(data), val, low)
    {
      prev := data;
      data := FetchXorWord(data, val, low);
    }

    /** `fetch_update`: applies `func` to the current word and installs its result with a
        compare-exchange. Single-threaded, the compare-exchange finds the word it just read, so
        the retry loop of the source runs once. The result is the documented one, the previous
        word; the source hands back the new word (`FetchUpdateAsWritten`). */
    method FetchUpdate(func: Word -> Option<Word>) returns (r: Result<Word, Word>)
      modifies this
      ensures r == FetchUpdateDocumented(old(data), func)
      ensures data == if func(old(data)).Some? then func(old(data)).value else old(data)
    {
      var prev := data;
      var next := func(prev);
      if next.Some? {
        var cas := CompareExchange(prev, next.value);
        r := Ok(prev);
      } else {
        r := Err(prev);
      }
    }
  }
}
