/*
 * The Clobber-NVM runtime of the persistent skiplist
 * (`evaluation/performance/queue/src/clobber-nvm/apps/skiplist/wrap/clobber.c`): the
 * per-transaction log buffer `funcPtr` with its cursor `pertx_counter`, the volatile buffer
 * `v_Buffer` that `tx_open` persists into it, and the handling of the pool's single root object.
 *
 * Byte 0 of the log is the validity flag and byte 1 the function index; records start at byte 2.
 * A pointer record is `'$'` followed by the first `size` bytes of the pool-relative offset; a
 * parameter record is the low four bytes of its length followed by the parameter's bytes.
 * Multi-byte values are stored little-endian, as on the x86-64 machines the runtime targets.
 * Addresses are natural numbers, with 0 for `NULL`.
 */
module Clobber {
  /** A `uint8_t`. */
  newtype Byte = b: int | 0 <= b < 256

  /** `'$'`, the tag of a pointer record. */
  const DOLLAR: Byte := 0x24

  /** `sizeof(int)`: the width of a parameter record's length prefix. */
  const INT_SIZE: nat := 4

  /** `sizeof(uint64_t)`: `nvm_ptr_record` copies at most this many bytes of the offset. */
  const OFFSET_SIZE: nat := 8

  /** The value of the byte string `b`, least significant byte first. */
  function LeValue(b: seq<Byte>): nat
  {
    if b == [] then 0 else b[0] as nat + 256 * LeValue(b[1..])
  }

  function Pow256(n: nat): (r: nat)
    ensures r >= 1
  {
    if n == 0 then 1 else 256 * Pow256(n - 1)
  }

  /** The first `n` bytes of `x` in memory, least significant first. */
  function LeBytes(x: nat, n: nat): (r: seq<Byte>)
    ensures |r| == n
  {
    if n == 0 then [] else [(x % 256) as Byte] + LeBytes(x / 256, n - 1)
  }

  lemma MulPositive(m: int, k: int)
    requires m > 0 && k >= 1
    ensures m * k >= m
  {
  }

  lemma DivModUnique(x: int, m: int, a: int, b: int)
    requires m > 0 && 0 <= b < m && x == m * a + b
    ensures x / m == a && x % m == b
  {
    var a', b' := x / m, x % m;
    assert x == m * a' + b';
    if a > a' {
      assert m * (a - a') == m * a - m * a';
      MulPositive(m, a - a');
    } else if a < a' {
      assert m * (a' - a) == m * a' - m * a;
      MulPositive(m, a' - a);
    }
  }

  lemma ModOfDiv(x: nat, p: nat)
    requires p >= 1
    ensures x % (256 * p) == x % 256 + 256 * ((x / 256) % p)
  {
    var q, r := x / 256, x % 256;
    var q2, r2 := q / p, q % p;
    assert q == p * q2 + r2;
    assert x == 256 * q + r;
    assert x == (256 * p) * q2 + (256 * r2 + r) by {
      assert 256 * q == 256 * (p * q2) + 256 * r2;
      assert 256 * (p * q2) == (256 * p) * q2;
    }
    assert 256 * r2 + r < 256 * p by {
      assert r2 <= p - 1;
      assert 256 * r2 <= 256 * (p - 1);
    }
    DivModUnique(x, 256 * p, q2, 256 * r2 + r);
  }

  /** Copying the first `n` bytes of `x` keeps `x` modulo `256^n`: reading the bytes back gives
      the value truncated to `n` bytes. */
  lemma {:induction false} LeBytesRoundTrip(x: nat, n: nat)
    ensures LeValue(LeBytes(x, n)) == x % Pow256(n)
  {
    if n > 0 {
      var b := LeBytes(x, n);
      var rest := LeBytes(x / 256, n - 1);
      assert b == [(x % 256) as Byte] + rest;
      assert b[1..] == rest;
      assert LeValue(b) == x % 256 + 256 * LeValue(rest);
      LeBytesRoundTrip(x / 256, n - 1);
      ModOfDiv(x, Pow256(n - 1));
    }
  }

  /** `buf` with `data` copied over it from position `at` on, as `memcpy` leaves it. */
  function Overwrite(buf: seq<Byte>, at: nat, data: seq<Byte>): (r: seq<Byte>)
    requires at + |data| <= |buf|
    ensures |r| == |buf|
  {
    buf[..at] + data + buf[at + |data|..]
  }

  /** After the copy the destination range holds `data` and every other byte is unchanged. */
  lemma OverwriteReadsBack(buf: seq<Byte>, at: nat, data: seq<Byte>)
    requires at + |data| <= |buf|
    ensures Overwrite(buf, at, data)[at..at + |data|] == data
    ensures forall i :: 0 <= i < |buf| && !(at <= i < at + |data|) ==> Overwrite(buf, at, data)[i] == buf[i]
  {
    var r := Overwrite(buf, at, data);
    assert r[at..at + |data|] == data;
  }

  /** `memcpy(dst + at, src, |src|)`. */
  method Memcpy(dst: array<Byte>, at: nat, src: seq<Byte>)
    requires at + |src| <= dst.Length
    modifies dst
    ensures dst[..] == Overwrite(old(dst[..]), at, src)
  {
    forall i | at <= i < at + |src| {
      dst[i] := src[i - at];
    }
    assert dst[..] == old(dst[..])[..at] + src + old(dst[..])[at + |src|..];
  }

  /** `pointer - pop` as a `uint64_t`. */
  function PoolOffset(ptr: nat, pop: nat): nat
  {
    (ptr - pop) % 0x1_0000_0000_0000_0000
  }

  /** The bytes of a pointer record. */
  function PtrRecord(offset: nat, size: nat): seq<Byte>
  {
    [DOLLAR] + LeBytes(offset, size)
  }

  /** The bytes of a parameter record. */
  function ParaRecord(data: seq<Byte>): seq<Byte>
  {
    LeBytes(|data|, INT_SIZE) + data
  }

  /** A pointer record starts with `'$'` and carries the offset truncated to `size` bytes. */
  lemma PtrRecordReadsBack(offset: nat, size: nat)
    ensures |PtrRecord(offset, size)| == size + 1 && PtrRecord(offset, size)[0] == DOLLAR
    ensures LeValue(PtrRecord(offset, size)[1..]) == offset % Pow256(size)
  {
    assert PtrRecord(offset, size)[1..] == LeBytes(offset, size);
    LeBytesRoundTrip(offset, size);
  }

  /** A parameter record carries its length modulo `2^32` and then the parameter unchanged. */
  lemma ParaRecordReadsBack(data: seq<Byte>)
    ensures |ParaRecord(data)| == INT_SIZE + |data|
    ensures LeValue(ParaRecord(data)[..INT_SIZE]) == |data| % 0x1_0000_0000
    ensures ParaRecord(data)[INT_SIZE..] == data
  {
    assert ParaRecord(data)[..INT_SIZE] == LeBytes(|data|, INT_SIZE);
    LeBytesRoundTrip(|data|, INT_SIZE);
    assert Pow256(4) == 0x1_0000_0000;
  }

  /** The runtime's globals (`pop`, `popRoot`, `pertx_counter`) with one thread's context
      (`funcPtr`, `v_Buffer`). */
  class Runtime {
    var funcPtr: array<Byte>
    var vBuffer: array<Byte>
    var pertxCounter: nat
    var pop: nat
    var popRoot: nat

    /** The cursor never reaches below byte 2 or past the end of the log. */
    predicate Valid()
      reads this
    {
      funcPtr != vBuffer && 2 <= pertxCounter <= funcPtr.Length
    }

    /** The globals at program start: no pool, no root, the cursor at 2. */
    constructor (logSize: nat)
      requires logSize >= 2
      ensures Valid() && fresh(funcPtr) && fresh(vBuffer)
      ensures funcPtr.Length == logSize && vBuffer.Length == logSize
      ensures pertxCounter == 2 && pop == 0 && popRoot == 0
    {
      funcPtr := new Byte[logSize];
      vBuffer := new Byte[logSize];
      pertxCounter := 2;
      pop := 0;
      popRoot := 0;
    }

    /** `init_runtime`: opens or creates the pool at `poolAddr`, which is never null, and
        returns it; an existing pool's root object, at `existingRoot`, becomes the recovered
        root. The root of an open pool is an allocated object, so never at address 0. */
    method InitRuntime(poolAddr: nat, existingRoot: Option<nat>) returns (pool: nat)
      requires poolAddr != 0
      requires existingRoot.Some? ==> existingRoot.value != 0
      modifies this`pop, this`popRoot
      ensures pool == poolAddr && pop == pool
      ensures popRoot == if existingRoot.Some? then existingRoot.value else old(popRoot)
      ensures existingRoot.Some? ==> popRoot != 0
    {
      pop := poolAddr;
      if existingRoot.Some? {
        popRoot := existingRoot.value;
      }
      pool := pop;
    }

    /** `add_func_index`: writes the index into byte 1 of the log and nowhere else. */
    method AddFuncIndex(index: Byte)
      requires Valid()
      modifies funcPtr
      ensures funcPtr[..] == old(funcPtr[..])[1 := index]
    {
      funcPtr[1] := index;
    }

    /** `nvm_ptr_record`: unless `ptr` is the root, appends `'$'` and the first `size` bytes of
        the pool-relative offset at the cursor and moves the cursor past them. */
    method NvmPtrRecord(ptr: nat, size: nat)
      requires Valid() && size <= OFFSET_SIZE
      requires pertxCounter + 1 + size <= funcPtr.Length
      modifies this`pertxCounter, funcPtr
      ensures Valid()
      ensures ptr == popRoot ==> funcPtr[..] == old(funcPtr[..]) && pertxCounter == old(pertxCounter)
      ensures ptr != popRoot ==>
        && funcPtr[..] == Overwrite(old(funcPtr[..]), old(pertxCounter), PtrRecord(PoolOffset(ptr, pop), size))
        && pertxCounter == old(pertxCounter) + size + 1
    {
      if ptr != popRoot {
        Memcpy(funcPtr, pertxCounter, [DOLLAR]);
        ghost var mid := funcPtr[..];
        var offset := PoolOffset(ptr, pop);
        Memcpy(funcPtr, pertxCounter + 1, LeBytes(offset, size));
        OverwriteTwice(old(funcPtr[..]), pertxCounter, [DOLLAR], LeBytes(offset, size));
        pertxCounter := pertxCounter + size + 1;
      }
    }

    /** `ptr_para_record`: appends the length as an `int` and then the parameter's bytes at the
        cursor and moves the cursor past them. */
    method PtrParaRecord(data: seq<Byte>)
      requires Valid()
      requires pertxCounter + INT_SIZE + |data| <= funcPtr.Length
      modifies this`pertxCounter, funcPtr
      ensures Valid()
      ensures funcPtr[..] == Overwrite(old(funcPtr[..]), old(pertxCounter), ParaRecord(data))
      ensures pertxCounter == old(pertxCounter) + |data| + INT_SIZE
    {
      Memcpy(funcPtr, pertxCounter, LeBytes(|data|, INT_SIZE));
      Memcpy(funcPtr, pertxCounter + INT_SIZE, data);
      OverwriteTwice(old(funcPtr[..]), pertxCounter, LeBytes(|data|, INT_SIZE), data);
      pertxCounter := pertxCounter + |data| + INT_SIZE;
    }

    /** `tx_open`: sets the validity flag in `v_Buffer` and persists the first `pertx_counter`
        bytes of `v_Buffer` into the log. */
    method TxOpen()
      requires Valid() && pertxCounter <= vBuffer.Length
      modifies funcPtr, vBuffer
      ensures vBuffer[..] == old(vBuffer[..])[0 := 1]
      ensures funcPtr[..] == Overwrite(old(funcPtr[..]), 0, vBuffer[..pertxCounter])
      ensures funcPtr[0] == 1
    {
      vBuffer[0] := 1;
      Memcpy(funcPtr, 0, vBuffer[..pertxCounter]);
    }

    /** `tx_commit`: clears the validity flag of the log and rewinds the cursor to 2. */
    method TxCommit()
      requires Valid()
      modifies this`pertxCounter, funcPtr
      ensures Valid() && pertxCounter == 2
      ensures funcPtr[..] == old(funcPtr[..])[0 := 0]
    {
      funcPtr[0] := 0;
      pertxCounter := 2;
    }

    /** `pmem_alloc`: the first request of `rootSize` bytes (`sizeof(skiplist)`) while there is
        no root installs the pool's root object `rootAddr` as the root (by a compare-and-swap from
        `NULL`, which single-threaded always succeeds) and returns it; every other request is
        served by the transactional allocator, whose answer is `txBlock`. */
    method PmemAlloc(size: nat, rootSize: nat, rootAddr: nat, txBlock: nat) returns (ptr: nat)
      modifies this`popRoot
      ensures old(popRoot) == 0 && size == rootSize ==> popRoot == rootAddr && ptr == rootAddr
      ensures !(old(popRoot) == 0 && size == rootSize) ==> popRoot == old(popRoot) && ptr == txBlock
    {
      if popRoot == 0 && size == rootSize {
        var swapped := CasRoot(rootAddr);
        if swapped {
          return rootAddr;
        }
      }
      ptr := txBlock;
    }

    /** `__sync_bool_compare_and_swap(&popRoot, NULL, root)`. */
    method CasRoot(root: nat) returns (swapped: bool)
      modifies this`popRoot
      ensures swapped <==> old(popRoot) == 0
      ensures popRoot == if swapped then root else old(popRoot)
    {
      swapped := popRoot == 0;
      if swapped {
        popRoot := root;
      }
    }

    /** `PersistentSkiplistCreate`: the recovered root when there is one, otherwise the list that
        `listCreate` builds (`created`). */
    method PersistentSkiplistCreate(created: nat) returns (list: nat)
      ensures list == if popRoot != 0 then popRoot else created
    {
      if popRoot == 0 {
        list := created;
      } else {
        list := popRoot;
      }
    }
  }

  /** Two adjacent copies are one copy of the concatenation. */
  lemma OverwriteTwice(buf: seq<Byte>, at: nat, a: seq<Byte>, b: seq<Byte>)
    requires at + |a| + |b| <= |buf|
    ensures Overwrite(Overwrite(buf, at, a), at + |a|, b) == Overwrite(buf, at, a + b)
  {
    var mid := Overwrite(buf, at, a);
    var lhs := Overwrite(mid, at + |a|, b);
    var rhs := Overwrite(buf, at, a + b);
    forall i | 0 <= i < |buf|
      ensures lhs[i] == rhs[i]
    {
      if i < at {
      } else if i < at + |a| {
        assert lhs[i] == mid[i] == a[i - at];
      } else if i < at + |a| + |b| {
        assert lhs[i] == b[i - at - |a|];
      } else {
        assert lhs[i] == mid[i];
      }
    }
  }

  /** Records go at the cursor, which never drops below 2: they never touch the validity flag or
      the function index. */
  lemma RecordsKeepHeader(buf: seq<Byte>, at: nat, rec: seq<Byte>)
    requires 2 <= at && at + |rec| <= |buf|
    ensures Overwrite(buf, at, rec)[..2] == buf[..2]
  {
    OverwriteReadsBack(buf, at, rec);
  }

  datatype Option<T> = None | Some(value: T)
}
