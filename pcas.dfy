/*
 * Persistent compare-and-swap with a dirty flag, and the flag and status logic
 * of a persistent multi-word CAS (evaluation/cas/src/pcas.rs). A word written
 * by `persistent_cas` carries DIRTY in its low tag until someone persists it
 * and clears the flag; readers go through `pcas_read`, which does that first.
 * The multi-word CAS marks words in the high tag: RDCSS for a half-installed
 * descriptor, PMWCAS for an installed one, DIRTY for one not yet persisted.
 * The model runs one thread at a time; flushes to persistent memory are no-ops.
 */
module PCas {
  import TaggedPtr

  type Word = bv64
  type PAtomic = TaggedPtr.PAtomic

  const DIRTY_FLAG: Word := 1
  const PMWCAS_FLAG: Word := 2
  const RDCSS_FLAG: Word := 4

  const UNDECIDED: Word := 0
  const SUCCEEDED: Word := 2
  const FAILED: Word := 4

  /** The three flags are single distinct bits, and no status value has the dirty bit, so a
      status with the dirty bit added can be told apart and cleaned. */
  lemma FlagsAndStatuses()
    ensures DIRTY_FLAG & PMWCAS_FLAG == 0 && DIRTY_FLAG & RDCSS_FLAG == 0
    ensures PMWCAS_FLAG & RDCSS_FLAG == 0
    ensures UNDECIDED & DIRTY_FLAG == 0 && SUCCEEDED & DIRTY_FLAG == 0 && FAILED & DIRTY_FLAG == 0
    ensures (SUCCEEDED | DIRTY_FLAG) & !DIRTY_FLAG == SUCCEEDED
    ensures (FAILED | DIRTY_FLAG) & !DIRTY_FLAG == FAILED
    ensures UNDECIDED != SUCCEEDED && UNDECIDED != FAILED && SUCCEEDED != FAILED
  {
  }

  // ---------------------------------------------------------------------------------------------
  // The low-tag dirty flag of a single word. `low` is the low-bit mask of the pointee (Node).

  /** The word `persist(address, value)` leaves behind when the address holds `current`: the
      compare-exchange clears the low tag only if the word still equals `value`. */
  function PersistedWord(current: Word, value: Word, low: Word): Word
  {
    if current == value then TaggedPtr.ComposeTag(value, 0, low) else current
  }

  /** The word `pcas_read` leaves behind: a word whose low tag is dirty is persisted. */
  function AfterRead(current: Word, low: Word): Word
  {
    if TaggedPtr.Tag(current, low) & DIRTY_FLAG != 0 then PersistedWord(current, current, low)
    else current
  }

  method Persist(address: PAtomic, value: Word, low: Word)
    modifies address
    ensures address.data == PersistedWord(old(address.data), value, low)
  {
    var _ := address.CompareExchange(value, TaggedPtr.ComposeTag(value, 0, low));
  }

  /** Reads a word, persisting and cleaning it first if it is dirty; the value returned has no
      low tag. */
  method PcasRead(address: PAtomic, low: Word) returns (r: Word)
    modifies address
    ensures r == TaggedPtr.ComposeTag(old(address.data), 0, low)
    ensures address.data == AfterRead(old(address.data), low)
  {
    var word := address.Load();
    if TaggedPtr.Tag(word, low) & DIRTY_FLAG != 0 {
      Persist(address, word, low);
    }
    r := TaggedPtr.ComposeTag(word, 0, low);
  }

  /** Cleans the word as `pcas_read` does, then swaps in `newValue` marked dirty if the word
      equals `oldValue`. */
  method PersistentCas(address: PAtomic, oldValue: Word, newValue: Word, low: Word)
    returns (r: TaggedPtr.Result<Word, TaggedPtr.CasError>)
    modifies address
    ensures r.Ok? <==> AfterRead(old(address.data), low) == oldValue
    ensures r.Ok? ==> address.data == TaggedPtr.ComposeTag(newValue, DIRTY_FLAG, low)
    ensures r.Err? ==> address.data == AfterRead(old(address.data), low)
  {
    var _ := PcasRead(address, low);
    r := address.CompareExchange(oldValue, TaggedPtr.ComposeTag(newValue, DIRTY_FLAG, low));
  }

  lemma BitsClearTwice(w: Word, t: Word, low: Word)
    ensures TaggedPtr.ComposeTag(TaggedPtr.ComposeTag(w, t, low), 0, low)
            == TaggedPtr.ComposeTag(w, 0, low)
  {
  }

  lemma BitsClearedTag(w: Word, low: Word)
    ensures TaggedPtr.ComposeTag(w, 0, low) & low == 0
  {
  }

  /** After `pcas_read` the stored word is never dirty in its low tag, a second read changes
      nothing, and both reads return the same clean value. */
  lemma ReadCleans(w: Word, low: Word)
    ensures TaggedPtr.Tag(AfterRead(w, low), low) & DIRTY_FLAG == 0
    ensures AfterRead(AfterRead(w, low), low) == AfterRead(w, low)
    ensures TaggedPtr.ComposeTag(AfterRead(w, low), 0, low) == TaggedPtr.ComposeTag(w, 0, low)
  {
    BitsClearedTag(w, low);
    BitsClearTwice(w, 0, low);
  }

  /** A successful persistent CAS stores the new value marked dirty; the next read returns the new
      value untagged and leaves it stored clean. */
  lemma PersistentCasThenRead(newValue: Word, low: Word)
    requires low & DIRTY_FLAG != 0
    ensures TaggedPtr.Tag(TaggedPtr.ComposeTag(newValue, DIRTY_FLAG, low), low) & DIRTY_FLAG != 0
    ensures AfterRead(TaggedPtr.ComposeTag(newValue, DIRTY_FLAG, low), low)
            == TaggedPtr.ComposeTag(newValue, 0, low)
  {
    TaggedPtr.BitsTagReadsBack(newValue, DIRTY_FLAG, low);
    BitsClearTwice(newValue, DIRTY_FLAG, low);
  }

  // ---------------------------------------------------------------------------------------------
  // The benchmark operation `pcas`: swap in the thread id.

  /** As written: the expected value is the word as loaded, dirty flag and all, while
      `persistent_cas` compares against the cleaned word. Gives the outcome and the word left. */
  function PcasAsWritten(current: Word, tid: Word, low: Word): (r: (bool, Word))
  {
    if AfterRead(current, low) == current then (true, TaggedPtr.ComposeTag(tid, DIRTY_FLAG, low))
    else (false, AfterRead(current, low))
  }

  method PcasAsWrittenOp(loc: PAtomic, tid: Word, low: Word) returns (ok: bool)
    modifies loc
    ensures (ok, loc.data) == PcasAsWritten(old(loc.data), tid, low)
  {
    var expected := loc.Load();
    var r := PersistentCas(loc, expected, tid, low);
    ok := r.Ok?;
  }

  /** As written, a `pcas` on a dirty word always fails, so after one that succeeds the next one
      fails: with nothing else running, every other call fails. */
  lemma PcasAsWrittenFailsAfterSuccess(current: Word, tid: Word, tid2: Word, low: Word)
    requires low & DIRTY_FLAG != 0
    requires PcasAsWritten(current, tid, low).0
    ensures !PcasAsWritten(PcasAsWritten(current, tid, low).1, tid2, low).0
  {
    var w := TaggedPtr.ComposeTag(tid, DIRTY_FLAG, low);
    PersistentCasThenRead(tid, low);
    TaggedPtr.BitsTagReadsBack(tid, 0, low);
    assert TaggedPtr.Tag(AfterRead(w, low), low) & DIRTY_FLAG == 0;
  }

  /** Corrected: the expected value is the one `pcas_read` returns. */
  method Pcas(loc: PAtomic, tid: Word, low: Word) returns (ok: bool)
    modifies loc
    ensures ok <==> AfterRead(old(loc.data), low) == TaggedPtr.ComposeTag(old(loc.data), 0, low)
    ensures ok ==> loc.data == TaggedPtr.ComposeTag(tid, DIRTY_FLAG, low)
    ensures !ok ==> loc.data == AfterRead(old(loc.data), low)
  {
    var expected := PcasRead(loc, low);
    ReadCleans(old(loc.data), low);
    var r := PersistentCas(loc, expected, tid, low);
    ok := r.Ok?;
  }

  /** Corrected, a `pcas` succeeds whenever the word carries no low tag but the dirty flag, and in
      particular right after another `pcas`. */
  lemma PcasSucceedsOnDirtyOrClean(current: Word, low: Word)
    requires TaggedPtr.Tag(current, low) & !DIRTY_FLAG == 0
    ensures AfterRead(current, low) == TaggedPtr.ComposeTag(current, 0, low)
  {
    BitsOnlyDirty(current, low);
  }

  /** A low tag other than the dirty flag survives `pcas_read`, so even the corrected `pcas`
      fails on it: 0x102 on a node aligned to 8 keeps its tag 2 and is left as it is. */
  lemma PcasFailsOnForeignTag()
    ensures AfterRead(0x102, 7) == 0x102
    ensures AfterRead(0x102, 7) != TaggedPtr.ComposeTag(0x102, 0, 7)
  {
    TaggedPtr.BitsTagReadsBack(0x102, 0, 7);
  }

  lemma BitsOnlyDirty(w: Word, low: Word)
    requires w & low & !DIRTY_FLAG == 0
    ensures w & low & DIRTY_FLAG == 0 ==> w == TaggedPtr.ComposeTag(w, 0, low)
  {
  }

  // ---------------------------------------------------------------------------------------------
  // High-tag flags of the multi-word CAS. Offsets into the pool, descriptor addresses and the
  // values swapped carry nothing in the high tag.

  predicate NoHighTag(w: Word)
  {
    w & TaggedPtr.HIGH_BITS == 0
  }

  /** Whether the high tag of `w` has flag `f`. */
  predicate HasFlag(w: Word, f: Word)
  {
    TaggedPtr.HighTag(w) & f != 0
  }

  /** `PShared::from_usize(a).with_high_tag(flags)`. */
  function Flagged(a: Word, flags: Word): Word
  {
    TaggedPtr.ComposeHighTag(flags, a)
  }

  /** What the corrected persist stores for a word flagged in the high tag: the same word with
      the dirty bit of its high tag cleared. */
  function ClearHighDirty(w: Word): Word
  {
    TaggedPtr.ComposeHighTag(TaggedPtr.HighTag(w) & !DIRTY_FLAG, w)
  }

  lemma FlaggedReadsBack(a: Word, flags: Word)
    ensures TaggedPtr.HighTag(Flagged(a, flags)) == flags & 0x7FF
  {
    TaggedPtr.HighTagReadsBack(flags, a, 0);
  }

  lemma BitsFlaggedOffset(a: Word, flags: Word)
    ensures Flagged(a, flags) & !TaggedPtr.HIGH_BITS == a & !TaggedPtr.HIGH_BITS
  {
  }

  lemma BitsPlainHighTag(a: Word)
    requires NoHighTag(a)
    ensures TaggedPtr.HighTag(a) == 0
  {
  }

  lemma BitsFlaggedZero(a: Word)
    requires NoHighTag(a)
    ensures Flagged(a, 0) == a
  {
  }

  /** Two flagged words are equal only when their offsets and their flags are. */
  lemma FlaggedInjective(a: Word, b: Word, f: Word, g: Word)
    requires NoHighTag(a) && NoHighTag(b)
    ensures Flagged(a, f) == Flagged(b, g) <==> a == b && f & 0x7FF == g & 0x7FF
  {
    FlaggedReadsBack(a, f);
    FlaggedReadsBack(b, g);
    BitsFlaggedOffset(a, f);
    BitsFlaggedOffset(b, g);
    if a == b && f & 0x7FF == g & 0x7FF {
      BitsSameHighTag(a, f, g);
    }
  }

  lemma BitsSameHighTag(a: Word, f: Word, g: Word)
    requires f & 0x7FF == g & 0x7FF
    ensures Flagged(a, f) == Flagged(a, g)
  {
  }

  /** A word with a flag in its high tag is never a plain offset. */
  lemma FlaggedNotPlain(a: Word, f: Word, b: Word)
    requires NoHighTag(b) && f & 0x7FF != 0
    ensures Flagged(a, f) != b
  {
    FlaggedReadsBack(a, f);
    BitsPlainHighTag(b);
  }

  lemma BitsReflag(a: Word, f: Word, g: Word)
    ensures TaggedPtr.ComposeHighTag(g, Flagged(a, f)) == Flagged(a, g)
  {
  }

  /** The corrected persist turns a flagged word into the same word without the dirty flag. */
  lemma ClearHighDirtyFlagged(a: Word, f: Word)
    ensures ClearHighDirty(Flagged(a, f)) == Flagged(a, f & !DIRTY_FLAG)
  {
    FlaggedReadsBack(a, f);
    BitsReflag(a, f, (f & 0x7FF) & !DIRTY_FLAG);
    BitsSameHighTag(a, (f & 0x7FF) & !DIRTY_FLAG, f & !DIRTY_FLAG);
  }

  /** Clearing the low tag leaves a flagged descriptor word alone when its address is aligned:
      `persist` as written cannot clear a dirty flag held in the high tag. */
  lemma BitsLowClearKeepsFlagged(a: Word, f: Word, low: Word)
    requires TaggedPtr.LowMask(low) && a & low == 0
    ensures TaggedPtr.ComposeTag(Flagged(a, f), 0, low) == Flagged(a, f)
  {
  }

  // ---------------------------------------------------------------------------------------------
  // The persist used by the multi-word CAS, whose dirty flag sits in the high tag.

  /** Corrected persist for a word flagged in the high tag: if the address still holds `value`,
      store it with the dirty bit of its high tag cleared. */
  function PersistedHighWord(current: Word, value: Word): Word
  {
    if current == value then ClearHighDirty(value) else current
  }

  method PersistHigh(address: PAtomic, value: Word)
    modifies address
    ensures address.data == PersistedHighWord(old(address.data), value)
  {
    var _ := address.CompareExchange(value, ClearHighDirty(value));
  }

  /** Persisting a dirty flagged word leaves it flagged as before, but clean. */
  lemma PersistHighCleans(a: Word, f: Word)
    requires f & DIRTY_FLAG != 0
    ensures TaggedPtr.HighTag(PersistedHighWord(Flagged(a, f), Flagged(a, f))) & DIRTY_FLAG == 0
    ensures TaggedPtr.HighTag(PersistedHighWord(Flagged(a, f), Flagged(a, f))) == f & 0x7FF & !DIRTY_FLAG
  {
    ClearHighDirtyFlagged(a, f);
    FlaggedReadsBack(a, f & !DIRTY_FLAG);
  }

  /** As written, `persist` clears only the low tag, so on a descriptor word whose dirty flag is
      in the high tag it stores the same word again and the flag stays. */
  lemma PersistAsWrittenKeepsHighDirty(a: Word, low: Word)
    requires TaggedPtr.LowMask(low) && a & low == 0
    ensures PersistedWord(Flagged(a, PMWCAS_FLAG | DIRTY_FLAG), Flagged(a, PMWCAS_FLAG | DIRTY_FLAG), low)
            == Flagged(a, PMWCAS_FLAG | DIRTY_FLAG)
    ensures TaggedPtr.HighTag(Flagged(a, PMWCAS_FLAG | DIRTY_FLAG)) & DIRTY_FLAG != 0
  {
    BitsLowClearKeepsFlagged(a, PMWCAS_FLAG | DIRTY_FLAG, low);
    FlaggedReadsBack(a, PMWCAS_FLAG | DIRTY_FLAG);
  }

  // ---------------------------------------------------------------------------------------------
  // Descriptors.

  /** One entry of a multi-word CAS: the target word, the value expected there, the value to
      install, and the entry's own pool offset, which a half-installed target points at. */
  datatype WordDescriptor = WordDescriptor(address: PAtomic, oldValue: Word, newValue: Word, entry: Word)

  predicate WordValid(wd: WordDescriptor)
  {
    NoHighTag(wd.oldValue) && NoHighTag(wd.newValue) && NoHighTag(wd.entry)
  }

  /** The targets are visited in sorted order of address, so no two entries share one. */
  predicate DistinctTargets(ws: seq<WordDescriptor>)
  {
    forall i, j :: 0 <= i < j < |ws| ==> ws[i].address != ws[j].address
  }

  /** A `usize` atomic cell. Its compare-exchange returns, on success as on failure, the value
      the cell held before. */
  class AtomicUsize {
    var value: Word

    constructor (v: Word)
      ensures value == v
    {
      value := v;
    }

    method Load() returns (v: Word)
      ensures v == value
    {
      v := value;
    }

    method Store(v: Word)
      modifies this
      ensures value == v
    {
      value := v;
    }

    method CompareExchange(current: Word, new': Word) returns (r: TaggedPtr.Result<Word, Word>)
      modifies this
      ensures r.Ok? <==> old(value) == current
      ensures r.Ok? ==> value == new' && r.value == old(value)
      ensures r.Err? ==> value == old(value) && r.error == old(value)
    {
      if value == current {
        r := TaggedPtr.Ok(value);
        value := new';
      } else {
        r := TaggedPtr.Err(value);
      }
    }
  }

  class PMwCasDescriptor {
    const addr: Word
    const status: AtomicUsize
    const words: seq<WordDescriptor>

    predicate Valid()
    {
      NoHighTag(addr) && DistinctTargets(words) && forall k :: 0 <= k < |words| ==> WordValid(words[k])
    }

    constructor (addr: Word, words: seq<WordDescriptor>)
      ensures this.addr == addr && this.words == words && status.value == UNDECIDED
      ensures fresh(status)
    {
      this.addr := addr;
      this.words := words;
      status := new AtomicUsize(UNDECIDED);
    }
  }

  // ---------------------------------------------------------------------------------------------
  // Phase 1: install the descriptor in every target word, through an RDCSS-flagged pointer to
  // the entry.

  /** The word `complete_install` leaves: the RDCSS pointer to this entry is replaced by the
      descriptor flagged PMWCAS and dirty while the descriptor is undecided, and by the expected
      value once it is decided. */
  function CompletedWord(current: Word, wd: WordDescriptor, mdAddr: Word, status: Word): Word
  {
    if current == Flagged(wd.entry, RDCSS_FLAG) then
      (if status == UNDECIDED then Flagged(mdAddr, PMWCAS_FLAG | DIRTY_FLAG) else wd.oldValue)
    else current
  }

  /** As written, `complete_install` expects the RDCSS pointer to hold the entry's virtual
      address (`base` plus its offset), while `install_mwcas_descriptor` stored its offset. */
  function CompletedWordAsWritten(current: Word, wd: WordDescriptor, mdAddr: Word, status: Word, base: Word): Word
  {
    if current == Flagged(base + wd.entry, RDCSS_FLAG) then
      (if status == UNDECIDED then Flagged(mdAddr, PMWCAS_FLAG | DIRTY_FLAG) else wd.oldValue)
    else current
  }

  lemma BitsConcreteRdcss()
    ensures Flagged(0x1000_0040, RDCSS_FLAG) != Flagged(0x40, RDCSS_FLAG)
  {
  }

  /** With the pool mapped at any address but zero the two disagree: here the RDCSS pointer to
      an entry at offset 0x40 of a pool mapped at 0x1000_0000 is left in the target word, which
      the corrected step replaces by the descriptor. */
  lemma CompleteInstallAsWrittenLeavesRdcss(target: PAtomic, mdAddr: Word)
    ensures var wd := WordDescriptor(target, 0, 1, 0x40);
            CompletedWordAsWritten(Flagged(0x40, RDCSS_FLAG), wd, mdAddr, UNDECIDED, 0x1000_0000)
              == Flagged(0x40, RDCSS_FLAG)
            && CompletedWord(Flagged(0x40, RDCSS_FLAG), wd, mdAddr, UNDECIDED)
              == Flagged(mdAddr, PMWCAS_FLAG | DIRTY_FLAG)
  {
    BitsConcreteRdcss();
  }

  /** Corrected: expects the entry's pool offset, as the install stored it. */
  method CompleteInstall(md: PMwCasDescriptor, wd: WordDescriptor)
    modifies wd.address
    ensures wd.address.data == CompletedWord(old(wd.address.data), wd, md.addr, md.status.value)
  {
    var ptr := Flagged(md.addr, PMWCAS_FLAG | DIRTY_FLAG);
    var status := md.status.Load();
    var u := status == UNDECIDED;
    var expected := Flagged(wd.entry, RDCSS_FLAG);
    var next := if u then ptr else wd.oldValue;
    var _ := wd.address.CompareExchange(expected, next);
  }

  /** What a target holding the expected value holds once the install phase has visited it: the
      descriptor, flagged PMWCAS and dirty, while the descriptor is undecided, and the expected
      value again once it is decided. */
  function InstalledValue(wd: WordDescriptor, mdAddr: Word, status: Word): Word
  {
    if status == UNDECIDED then Flagged(mdAddr, PMWCAS_FLAG | DIRTY_FLAG) else wd.oldValue
  }

  /** Returns the word found in the target. `rdcss` reports a target held by another operation's
      half-installed descriptor, which the source helps finish and retries. */
  method InstallMwcasDescriptor(md: PMwCasDescriptor, wd: WordDescriptor) returns (val: Word, rdcss: bool)
    requires WordValid(wd)
    modifies wd.address
    ensures val == old(wd.address.data)
    ensures rdcss <==> HasFlag(val, RDCSS_FLAG)
    ensures val == wd.oldValue ==> !rdcss
    ensures val == wd.oldValue ==> wd.address.data == InstalledValue(wd, md.addr, md.status.value)
    ensures val != wd.oldValue ==> wd.address.data == val
  {
    var ptr := Flagged(wd.entry, RDCSS_FLAG);
    var r := wd.address.CompareExchange(wd.oldValue, ptr);
    val := if r.Ok? then wd.oldValue else r.error.current;
    BitsPlainHighTag(wd.oldValue);
    if HasFlag(val, RDCSS_FLAG) {
      return val, true;
    }
    rdcss := false;
    if val == wd.oldValue {
      CompleteInstall(md, wd);
    }
  }

  /** Phase 1 over the entries in order. It stops at the first target holding neither the
      expected value nor a descriptor (`st` becomes FAILED), or at one held by another
      operation (`helping`). The ghost `n` counts the entries it installed. */
  method InstallPhase(md: PMwCasDescriptor) returns (st: Word, helping: bool, ghost n: nat)
    requires md.Valid()
    modifies set w | w in md.words :: w.address
    ensures n <= |md.words|
    ensures forall k :: 0 <= k < n ==>
      old(md.words[k].address.data) == md.words[k].oldValue
      && md.words[k].address.data == InstalledValue(md.words[k], md.addr, md.status.value)
    ensures forall k :: n <= k < |md.words| ==> md.words[k].address.data == old(md.words[k].address.data)
    ensures n == |md.words| <==> !helping && st == SUCCEEDED
    ensures n < |md.words| ==> old(md.words[n].address.data) != md.words[n].oldValue
    ensures n < |md.words| ==>
      (helping <==> HasFlag(old(md.words[n].address.data), RDCSS_FLAG) || HasFlag(old(md.words[n].address.data), PMWCAS_FLAG))
    ensures !helping ==> st == SUCCEEDED || st == FAILED
  {
    st := SUCCEEDED;
    helping := false;
    var i := 0;
    while i < |md.words|
      invariant 0 <= i <= |md.words|
      invariant forall k :: 0 <= k < i ==>
        old(md.words[k].address.data) == md.words[k].oldValue
        && md.words[k].address.data == InstalledValue(md.words[k], md.addr, md.status.value)
      invariant forall k :: i <= k < |md.words| ==> md.words[k].address.data == old(md.words[k].address.data)
    {
      var wd := md.words[i];
      var rval, rdcss := InstallMwcasDescriptor(md, wd);
      if rdcss {
        helping, n := true, i;
        return;
      }
      if rval == wd.oldValue {
        i := i + 1;
      } else if HasFlag(rval, PMWCAS_FLAG) {
        helping, n := true, i;
        return;
      } else {
        st, n := FAILED, i;
        return;
      }
    }
    n := i;
  }


  /** After a successful phase 1 every target is persisted, which clears the dirty flag of the
      descriptor word installed there. */
  method PersistTargets(md: PMwCasDescriptor)
    requires md.Valid()
    modifies set w | w in md.words :: w.address
    ensures forall k :: 0 <= k < |md.words| && old(md.words[k].address.data) == Flagged(md.addr, PMWCAS_FLAG | DIRTY_FLAG) ==>
      md.words[k].address.data == Flagged(md.addr, PMWCAS_FLAG)
    ensures forall k :: 0 <= k < |md.words| && old(md.words[k].address.data) != Flagged(md.addr, PMWCAS_FLAG | DIRTY_FLAG) ==>
      md.words[k].address.data == old(md.words[k].address.data)
  {
    var dirty := Flagged(md.addr, PMWCAS_FLAG | DIRTY_FLAG);
    ClearHighDirtyFlagged(md.addr, PMWCAS_FLAG | DIRTY_FLAG);
    assert (PMWCAS_FLAG | DIRTY_FLAG) & !DIRTY_FLAG == PMWCAS_FLAG;
    var i := 0;
    while i < |md.words|
      invariant 0 <= i <= |md.words|
      invariant forall k :: 0 <= k < i && old(md.words[k].address.data) == dirty ==>
        md.words[k].address.data == Flagged(md.addr, PMWCAS_FLAG)
      invariant forall k :: 0 <= k < i && old(md.words[k].address.data) != dirty ==>
        md.words[k].address.data == old(md.words[k].address.data)
      invariant forall k :: i <= k < |md.words| ==> md.words[k].address.data == old(md.words[k].address.data)
    {
      PersistHigh(md.words[i].address, dirty);
      i := i + 1;
    }
  }

  // ---------------------------------------------------------------------------------------------
  // Status finalisation: UNDECIDED becomes `st` marked dirty, which is persisted and cleared.

  /** The status stored and the decision `cur_st` taken, when the compare-exchange of UNDECIDED
      to `st | DIRTY_FLAG` yields the status now in place. */
  function FinalizedStatus(status: Word, st: Word): (Word, Word)
  {
    var cur := if status == UNDECIDED then st | DIRTY_FLAG else status;
    if cur & DIRTY_FLAG != 0 then (cur & !DIRTY_FLAG, cur & !DIRTY_FLAG) else (cur, cur)
  }

  /** As written: `cur_st` is the compare-exchange's Ok value, the status it replaced, so a
      successful exchange yields UNDECIDED rather than the status just stored. */
  function FinalizedStatusAsWritten(status: Word, st: Word): (Word, Word)
  {
    var stored := if status == UNDECIDED then st | DIRTY_FLAG else status;
    var cur := status;
    if cur & DIRTY_FLAG != 0 then (cur & !DIRTY_FLAG, cur & !DIRTY_FLAG) else (stored, cur)
  }

  predicate IsStatus(s: Word)
  {
    s == UNDECIDED || s == SUCCEEDED || s == FAILED
      || s == SUCCEEDED | DIRTY_FLAG || s == FAILED | DIRTY_FLAG
  }

  /** Finalisation settles the descriptor: the stored status and the decision agree, neither is
      dirty, an undecided descriptor takes this phase's outcome, a decided one keeps its own, and
      finalising again changes nothing. */
  lemma FinalizedStatusSettles(status: Word, st: Word, st2: Word)
    requires IsStatus(status) && (st == SUCCEEDED || st == FAILED)
    ensures var (stored, cur) := FinalizedStatus(status, st);
            stored == cur && cur & DIRTY_FLAG == 0
            && cur == (if status == UNDECIDED then st else status & !DIRTY_FLAG)
            && FinalizedStatus(stored, st2) == (stored, cur)
  {
  }

  /** As written, finalising an undecided descriptor reports UNDECIDED, which is not SUCCEEDED, so
      the operation installs the old values and returns false even when phase 1 succeeded; the
      stored status also keeps its dirty bit. */
  lemma FinalizedStatusAsWrittenNeverSucceeds()
    ensures FinalizedStatusAsWritten(UNDECIDED, SUCCEEDED) == (SUCCEEDED | DIRTY_FLAG, UNDECIDED)
    ensures FinalizedStatus(UNDECIDED, SUCCEEDED) == (SUCCEEDED, SUCCEEDED)
  {
  }

  /** Corrected: the decision is the status now in place, `st` marked dirty after a successful
      exchange. */
  method FinalizeStatus(md: PMwCasDescriptor, st: Word) returns (curSt: Word)
    requires st == SUCCEEDED || st == FAILED
    modifies md.status
    ensures (md.status.value, curSt) == FinalizedStatus(old(md.status.value), st)
  {
    var r := md.status.CompareExchange(UNDECIDED, st | DIRTY_FLAG);
    curSt := if r.Ok? then st | DIRTY_FLAG else r.error;
    if curSt & DIRTY_FLAG != 0 {
      curSt := curSt & !DIRTY_FLAG;
      md.status.Store(curSt);
    }
  }

  method FinalizeStatusAsWritten(md: PMwCasDescriptor, st: Word) returns (curSt: Word)
    requires st == SUCCEEDED || st == FAILED
    modifies md.status
    ensures (md.status.value, curSt) == FinalizedStatusAsWritten(old(md.status.value), st)
  {
    var r := md.status.CompareExchange(UNDECIDED, st | DIRTY_FLAG);
    curSt := if r.Ok? then r.value else r.error;
    if curSt & DIRTY_FLAG != 0 {
      curSt := curSt & !DIRTY_FLAG;
      md.status.Store(curSt);
    }
  }

  // ---------------------------------------------------------------------------------------------
  // Final install: every target gets the new value if the descriptor succeeded, the old one
  // otherwise.

  /** One target after the final install of `v`: a dirty descriptor word is swapped for `v` marked
      dirty, a persisted one for `v` itself, and the target is then persisted. */
  function FinalWord(current: Word, mdAddr: Word, v: Word): Word
  {
    var expected := Flagged(mdAddr, PMWCAS_FLAG | DIRTY_FLAG);
    var afterSwap := if current == expected then Flagged(v, DIRTY_FLAG) else current;
    var afterClean :=
      if current == Flagged(mdAddr, PMWCAS_FLAG) && afterSwap == current then v else afterSwap;
    PersistedHighWord(afterClean, Flagged(v, DIRTY_FLAG))
  }

  /** As written, the closing `persist(target, v)` expects `v` while the target holds `v` marked
      dirty in the high tag, and clears only the low tag anyway. */
  function FinalWordAsWritten(current: Word, mdAddr: Word, v: Word, low: Word): Word
  {
    var expected := Flagged(mdAddr, PMWCAS_FLAG | DIRTY_FLAG);
    var afterSwap := if current == expected then Flagged(v, DIRTY_FLAG) else current;
    var afterClean :=
      if current == Flagged(mdAddr, PMWCAS_FLAG) && afterSwap == current then v else afterSwap;
    PersistedWord(afterClean, v, low)
  }

  /** The final install puts `v` in every target holding the descriptor, dirty or persisted, and
      leaves a target holding a plain value alone. */
  lemma FinalWordCases(current: Word, a: Word, v: Word)
    requires NoHighTag(a) && NoHighTag(v)
    ensures current == Flagged(a, PMWCAS_FLAG | DIRTY_FLAG) ==> FinalWord(current, a, v) == v
    ensures current == Flagged(a, PMWCAS_FLAG) ==> FinalWord(current, a, v) == v
    ensures NoHighTag(current) ==> FinalWord(current, a, v) == current
  {
    FlaggedInjective(a, a, PMWCAS_FLAG | DIRTY_FLAG, PMWCAS_FLAG);
    FlaggedNotPlain(v, DIRTY_FLAG, v);
    if current == Flagged(a, PMWCAS_FLAG | DIRTY_FLAG) {
      ClearHighDirtyFlagged(v, DIRTY_FLAG);
      BitsFlaggedZero(v);
    }
    if NoHighTag(current) {
      FlaggedNotPlain(a, PMWCAS_FLAG | DIRTY_FLAG, current);
      FlaggedNotPlain(a, PMWCAS_FLAG, current);
      FlaggedNotPlain(v, DIRTY_FLAG, current);
    }
  }

  /** As written, a target that phase 1 left holding the descriptor (its dirty flag never cleared
      by `persist`) ends up holding `v` still marked dirty in the high tag, not `v`. */
  lemma FinalWordAsWrittenLeavesDirty(a: Word, v: Word, low: Word)
    requires NoHighTag(a) && NoHighTag(v)
    ensures FinalWordAsWritten(Flagged(a, PMWCAS_FLAG | DIRTY_FLAG), a, v, low) == Flagged(v, DIRTY_FLAG)
    ensures TaggedPtr.HighTag(Flagged(v, DIRTY_FLAG)) == DIRTY_FLAG && Flagged(v, DIRTY_FLAG) != v
  {
    FlaggedInjective(a, a, PMWCAS_FLAG | DIRTY_FLAG, PMWCAS_FLAG);
    FlaggedNotPlain(v, DIRTY_FLAG, v);
    FlaggedReadsBack(v, DIRTY_FLAG);
  }

  /** A word left dirty that way makes the next multi-word CAS expecting `v` there fail: phase 1
      finds neither `v` nor a descriptor flag. */
  lemma LeftoverDirtyFailsNextInstall(wd: WordDescriptor)
    requires WordValid(wd)
    ensures Flagged(wd.oldValue, DIRTY_FLAG) != wd.oldValue
    ensures !HasFlag(Flagged(wd.oldValue, DIRTY_FLAG), RDCSS_FLAG)
    ensures !HasFlag(Flagged(wd.oldValue, DIRTY_FLAG), PMWCAS_FLAG)
  {
    FlaggedNotPlain(wd.oldValue, DIRTY_FLAG, wd.oldValue);
    FlaggedReadsBack(wd.oldValue, DIRTY_FLAG);
  }

  /** Corrected: the closing persist expects the dirty word the swap may have stored. */
  method InstallFinalWord(md: PMwCasDescriptor, wd: WordDescriptor, v: Word)
    requires NoHighTag(md.addr) && NoHighTag(v)
    modifies wd.address
    ensures wd.address.data == FinalWord(old(wd.address.data), md.addr, v)
    ensures Marked(old(wd.address.data), md.addr) ==> wd.address.data == v
    ensures NoHighTag(old(wd.address.data)) ==> wd.address.data == old(wd.address.data)
  {
    FinalWordCases(wd.address.data, md.addr, v);
    var expected := Flagged(md.addr, PMWCAS_FLAG | DIRTY_FLAG);
    var r := wd.address.CompareExchange(expected, Flagged(v, DIRTY_FLAG));
    var rval := if r.Ok? then expected else r.error.current;
    if rval == Flagged(md.addr, PMWCAS_FLAG) {
      var _ := wd.address.CompareExchange(rval, v);
    }
    PersistHigh(wd.address, Flagged(v, DIRTY_FLAG));
  }

  function FinalValue(wd: WordDescriptor, curSt: Word): Word
  {
    if curSt == SUCCEEDED then wd.newValue else wd.oldValue
  }

  /** A target holding the descriptor, dirty or persisted. */
  predicate Marked(current: Word, a: Word)
  {
    current == Flagged(a, PMWCAS_FLAG | DIRTY_FLAG) || current == Flagged(a, PMWCAS_FLAG)
  }

  /** Every target holding the descriptor gets its final value; a target holding a plain value
      keeps it. */
  method InstallFinalValues(md: PMwCasDescriptor, curSt: Word)
    requires md.Valid()
    modifies set w | w in md.words :: w.address
    ensures forall k :: 0 <= k < |md.words| && Marked(old(md.words[k].address.data), md.addr) ==>
      md.words[k].address.data == FinalValue(md.words[k], curSt)
    ensures forall k :: 0 <= k < |md.words| && NoHighTag(old(md.words[k].address.data)) ==>
      md.words[k].address.data == old(md.words[k].address.data)
  {
    var i := 0;
    while i < |md.words|
      invariant 0 <= i <= |md.words|
      invariant forall k :: i <= k < |md.words| ==> md.words[k].address.data == old(md.words[k].address.data)
      invariant forall k :: 0 <= k < i && Marked(old(md.words[k].address.data), md.addr) ==>
        md.words[k].address.data == FinalValue(md.words[k], curSt)
      invariant forall k :: 0 <= k < i && NoHighTag(old(md.words[k].address.data)) ==>
        md.words[k].address.data == old(md.words[k].address.data)
    {
      var wd := md.words[i];
      InstallFinalWord(md, wd, FinalValue(wd, curSt));
      i := i + 1;
    }
  }

  // ---------------------------------------------------------------------------------------------
  // The whole operation.

  /** `Decided` carries the value returned; `Helping` is where the source would help another
      operation found in a target and retry. */
  datatype MwCasOutcome = Decided(succeeded: bool) | Helping

  /** An undecided descriptor over targets holding plain values completes atomically: it
      succeeds exactly when every target holds its expected value, and then every target holds
      its new value; otherwise every target is as before. The status ends SUCCEEDED or FAILED,
      clean. */
  method PmwcasInner(md: PMwCasDescriptor) returns (r: MwCasOutcome)
    requires md.Valid()
    modifies md.status, set w | w in md.words :: w.address
    ensures old(md.status.value) == UNDECIDED
            && (forall k :: 0 <= k < |md.words| ==> NoHighTag(old(md.words[k].address.data)))
      ==> r.Decided?
          && (r.succeeded <==> forall k :: 0 <= k < |md.words| ==> old(md.words[k].address.data) == md.words[k].oldValue)
          && md.status.value == (if r.succeeded then SUCCEEDED else FAILED)
          && (r.succeeded ==> forall k :: 0 <= k < |md.words| ==> md.words[k].address.data == md.words[k].newValue)
          && (!r.succeeded ==> forall k :: 0 <= k < |md.words| ==> md.words[k].address.data == old(md.words[k].address.data))
  {
    var st, helping;
    ghost var n;
    st, helping, n := InstallPhase(md);
    if helping {
      return Helping;
    }
    if st == SUCCEEDED {
      PersistTargets(md);
    }
    var curSt := FinalizeStatus(md, st);
    InstallFinalValues(md, curSt);
    r := Decided(curSt == SUCCEEDED);
  }
}
