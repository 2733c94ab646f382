/*
 * Detectable combining (src/ds/comb.rs). Threads post requests; whoever takes
 * the combining lock copies the central state record into its spare per-thread
 * record, serves every pending request there, commits the record as the new
 * central state, flips its per-thread index and releases the lock with the
 * address of the committed record. The model runs one thread at a time.
 */
module Combining {
  import TaggedPtr

  type Word = bv64
  type Option<T> = TaggedPtr.Option<T>
  type Result<T, E> = TaggedPtr.Result<T, E>

  const MAX_THREADS: nat := 64
  const COMBINING_ROUNDS: nat := 20

  // ---------------------------------------------------------------------------------------------
  // The lock word: a 55-bit state pointer above a 9-bit thread id.

  const POS_AUX_BITS: nat := 0
  const NR_AUX_BITS: nat := 55

  /** The 55 most significant bits. */
  const AUX_BITS: Word := 0xFFFF_FFFF_FFFF_FE00
  /** The pointer field's value range, and the thread id field. */
  const PTR_BITS: Word := 0x007F_FFFF_FFFF_FFFF
  const TID_BITS: Word := 0x1FF

  const PTR_NULL: Word := 0
  const RELEASED: Word := 0

  lemma AuxBitsLayout()
    ensures AUX_BITS == TaggedPtr.LeftBits(POS_AUX_BITS, NR_AUX_BITS)
    ensures AUX_BITS == !TID_BITS && PTR_BITS == AUX_BITS >> 9
    ensures POS_AUX_BITS + NR_AUX_BITS == 55
  {
  }

  /** Puts the low 55 bits of `aux` in the aux bits and keeps the low 9 bits of `data`: a rotation
      by 55 (the end of the aux field, POS_AUX_BITS + NR_AUX_BITS) to the right is a rotation by 9
      to the left. */
  function ComposeAuxBit(aux: Word, data: Word): (r: Word)
    ensures r == ((aux << 9) & AUX_BITS) | (data & TID_BITS)
  {
    (AUX_BITS & aux.RotateRight(55)) | (!AUX_BITS & data)
  }

  /** Splits a lock word into the pointer (the aux bits rotated back down) and the thread id. */
  function DecomposeAuxBit(data: Word): (r: (Word, Word))
    ensures r == (data >> 9, data & TID_BITS)
  {
    ((data & AUX_BITS).RotateLeft(55), !AUX_BITS & data)
  }

  function PtrOf(w: Word): Word { DecomposeAuxBit(w).0 }
  function TidOf(w: Word): Word { DecomposeAuxBit(w).1 }

  /** Decomposing a composed word gives back both inputs, cut to their field widths. */
  lemma DecomposeCompose(ptr: Word, tid: Word)
    ensures DecomposeAuxBit(ComposeAuxBit(ptr, tid)) == (ptr & PTR_BITS, tid & TID_BITS)
  {
  }

  /** Every word is the composition of its two fields. */
  lemma ComposeDecompose(w: Word)
    ensures ComposeAuxBit(PtrOf(w), TidOf(w)) == w
  {
  }

  // ---------------------------------------------------------------------------------------------
  // The combining lock.

  /** A spin lock that remembers which thread holds it, so that the holder can recognise its own
      lock after a crash, and that carries the address of the last committed state when free. */
  class CombiningLock {
    var inner: Word

    constructor ()
      ensures inner == 0
    {
      inner := 0;
    }

    predicate IsOwner(tid: Word)
      reads this
    {
      tid == TidOf(inner)
    }

    /** The pointer and the thread id the word holds. */
    method Peek() returns (ptr: Word, tid: Word)
      ensures ptr == PtrOf(inner) && tid == TidOf(inner)
      ensures ComposeAuxBit(ptr, tid) == inner
    {
      ptr, tid := DecomposeAuxBit(inner).0, DecomposeAuxBit(inner).1;
      ComposeDecompose(inner);
    }

    /** Succeeds without a change when `tid` already holds the lock, fails with the word's fields
        when another thread holds it, and otherwise takes it with a null pointer. The
        compare-exchange cannot fail here: no other thread runs between the load and it. */
    method TryLock(tid: Word) returns (r: Result<(), (Word, Word)>)
      modifies this
      ensures old(IsOwner(tid)) ==> r.Ok? && inner == old(inner)
      ensures !old(IsOwner(tid)) && TidOf(old(inner)) != RELEASED ==>
                r == TaggedPtr.Err((PtrOf(old(inner)), TidOf(old(inner)))) && inner == old(inner)
      ensures !old(IsOwner(tid)) && TidOf(old(inner)) == RELEASED ==>
                r.Ok? && inner == ComposeAuxBit(PTR_NULL, tid)
      ensures r.Ok? && tid & TID_BITS == tid ==> IsOwner(tid)
    {
      var current := inner;
      var ptr, owner := PtrOf(current), TidOf(current);
      if IsOwner(tid) {
        return TaggedPtr.Ok(());
      }
      if owner != RELEASED {
        return TaggedPtr.Err((ptr, owner));
      }
      inner := ComposeAuxBit(PTR_NULL, tid);
      DecomposeCompose(PTR_NULL, tid);
      r := TaggedPtr.Ok(());
    }

    /** Releases the lock, publishing `ptr` as the committed state. */
    method Unlock(ptr: Word)
      modifies this
      ensures inner == ComposeAuxBit(ptr, RELEASED)
      ensures PtrOf(inner) == ptr & PTR_BITS && TidOf(inner) == RELEASED
    {
      inner := ComposeAuxBit(ptr, RELEASED);
      DecomposeCompose(ptr, RELEASED);
    }
  }

  /** Once released, the lock belongs to no thread: only the id 0, which no thread uses, matches. */
  lemma ReleasedHasNoOwner(ptr: Word, tid: Word)
    requires tid != RELEASED
    ensures TidOf(ComposeAuxBit(ptr, RELEASED)) != tid
  {
    DecomposeCompose(ptr, RELEASED);
  }

  /** A lock taken by one thread id refuses every other one. */
  lemma LockedHasOneOwner(tid: Word, other: Word)
    requires 0 < tid <= TID_BITS && other != tid
    ensures TidOf(ComposeAuxBit(PTR_NULL, tid)) == tid
    ensures TidOf(ComposeAuxBit(PTR_NULL, tid)) != other
    ensures TidOf(ComposeAuxBit(PTR_NULL, tid)) != RELEASED
  {
    DecomposeCompose(PTR_NULL, tid);
  }

  // ---------------------------------------------------------------------------------------------
  // State records and their value.

  /** What a state record holds: the combined structure's own data word (for example the tail of
      a queue), and per thread the return value and the last activate number served. */
  datatype CombState = CombState(data: nat, returnValue: seq<nat>, deactivate: seq<nat>)

  predicate StateShaped(st: CombState) {
    |st.returnValue| == MAX_THREADS + 1 && |st.deactivate| == MAX_THREADS + 1
  }

  /** A state record of persistent memory, at address `addr`. */
  class StateRec {
    const addr: Word
    var data: nat
    const returnValue: array<nat>
    const deactivate: array<nat>

    predicate Valid()
      reads this
    {
      returnValue.Length == MAX_THREADS + 1 && deactivate.Length == MAX_THREADS + 1
      && returnValue != deactivate
    }

    function Snapshot(): (r: CombState)
      reads this, returnValue, deactivate
      ensures Valid() ==> StateShaped(r)
    {
      CombState(data, returnValue[..], deactivate[..])
    }

    /** A fresh record: every return value and every deactivate number is 0. */
    constructor (addr: Word, data: nat)
      ensures Valid() && fresh(returnValue) && fresh(deactivate)
      ensures this.addr == addr
      ensures Snapshot() == CombState(data, seq(MAX_THREADS + 1, _ => 0), seq(MAX_THREADS + 1, _ => 0))
    {
      this.addr := addr;
      this.data := data;
      returnValue := new nat[MAX_THREADS + 1](_ => 0);
      deactivate := new nat[MAX_THREADS + 1](_ => 0);
    }

    /** Overwrites this record with a copy of `other`. */
    method CopyFrom(other: StateRec)
      requires Valid() && other.Valid() && Disjoint(this, other)
      modifies this, returnValue, deactivate
      ensures Snapshot() == old(other.Snapshot())
    {
      data := other.data;
      forall i | 0 <= i < returnValue.Length {
        returnValue[i] := other.returnValue[i];
      }
      forall i | 0 <= i < deactivate.Length {
        deactivate[i] := other.deactivate[i];
      }
    }
  }

  /** Two records that share no array. */
  predicate Disjoint(a: StateRec, b: StateRec)
    reads a, b
  {
    a.returnValue != b.returnValue && a.returnValue != b.deactivate
    && a.deactivate != b.returnValue && a.deactivate != b.deactivate
  }

  /** One thread's request: its argument and its activate number, which grows by one per
      operation. */
  datatype CombRequest = CombRequest(arg: nat, activate: nat)

  function Activates(reqs: seq<CombRequest>): (r: seq<nat>)
    ensures |r| == |reqs| && forall t :: 0 <= t < |reqs| ==> r[t] == reqs[t].activate
  {
    seq(|reqs|, t requires 0 <= t < |reqs| => reqs[t].activate)
  }

  function Args(reqs: seq<CombRequest>): (r: seq<nat>)
    ensures |r| == |reqs| && forall t :: 0 <= t < |reqs| ==> r[t] == reqs[t].arg
  {
    seq(|reqs|, t requires 0 <= t < |reqs| => reqs[t].arg)
  }

  // ---------------------------------------------------------------------------------------------
  // The specification of a combining pass.

  /** The operation being combined: from the data word and a request's argument, the new data word
      and the request's return value. */
  type SeqFunc = (nat, nat) -> (nat, nat)

  /** Serves thread `t` if its activate number is above the one last served for it. */
  function ServeThread(st: CombState, t: nat, activate: nat, arg: nat, sfunc: SeqFunc)
    : (r: (CombState, bool))
    requires t < |st.returnValue| && t < |st.deactivate|
    ensures |r.0.returnValue| == |st.returnValue| && |r.0.deactivate| == |st.deactivate|
  {
    if activate > st.deactivate[t] then
      var (data, ret) := sfunc(st.data, arg);
      (CombState(data, st.returnValue[t := ret], st.deactivate[t := activate]), true)
    else
      (st, false)
  }

  /** One round: threads 1 to `n` in turn, with the number of requests served. */
  function Round(st: CombState, act: seq<nat>, args: seq<nat>, n: nat, sfunc: SeqFunc)
    : (r: (CombState, nat))
    requires n < |act| && n < |args| && n < |st.returnValue| && n < |st.deactivate|
    ensures |r.0.returnValue| == |st.returnValue| && |r.0.deactivate| == |st.deactivate|
    ensures r.1 <= n
  {
    if n == 0 then
      (st, 0)
    else
      var (mid, count) := Round(st, act, args, n - 1, sfunc);
      var (next, served) := ServeThread(mid, n, act[n], args[n], sfunc);
      (next, if served then count + 1 else count)
  }

  /** Rounds repeat until one serves nobody, at most `rounds` times. */
  function Pass(st: CombState, act: seq<nat>, args: seq<nat>, n: nat, sfunc: SeqFunc, rounds: nat)
    : (r: CombState)
    requires n < |act| && n < |args| && n < |st.returnValue| && n < |st.deactivate|
    ensures |r.returnValue| == |st.returnValue| && |r.deactivate| == |st.deactivate|
    decreases rounds
  {
    if rounds == 0 then
      st
    else
      var (next, served) := Round(st, act, args, n, sfunc);
      if served == 0 then next else Pass(next, act, args, n, sfunc, rounds - 1)
  }

  /** A thread is pending when its activate number is above the one last served. */
  predicate Pending(st: CombState, act: seq<nat>, t: nat)
    requires t < |act| && t < |st.deactivate|
  {
    act[t] > st.deactivate[t]
  }

  /** After a round, each thread in 1..n has been served exactly when it was pending: its
      deactivate number is then its activate number; other entries keep their values. */
  lemma {:induction false} RoundDeactivate(st: CombState, act: seq<nat>, args: seq<nat>, n: nat,
                                           sfunc: SeqFunc, t: nat)
    requires n < |act| && n < |args| && n < |st.returnValue| && n < |st.deactivate|
    requires t < |act| && t < |st.deactivate|
    ensures Round(st, act, args, n, sfunc).0.deactivate[t]
            == if 1 <= t <= n && Pending(st, act, t) then act[t] else st.deactivate[t]
  {
    if n > 0 {
      RoundDeactivate(st, act, args, n - 1, sfunc, t);
    }
  }

  /** A round leaves the return value of a thread it did not serve as it was. */
  lemma {:induction false} RoundKeepsUnserved(st: CombState, act: seq<nat>, args: seq<nat>, n: nat,
                                              sfunc: SeqFunc, t: nat)
    requires n < |act| && n < |args| && n < |st.returnValue| && n < |st.deactivate|
    requires t < |act| && t < |st.deactivate| && t < |st.returnValue|
    requires !(1 <= t <= n && Pending(st, act, t))
    ensures Round(st, act, args, n, sfunc).0.returnValue[t] == st.returnValue[t]
  {
    if n > 0 {
      RoundDeactivate(st, act, args, n - 1, sfunc, t);
      RoundKeepsUnserved(st, act, args, n - 1, sfunc, t);
    }
  }

  /** A round serves nobody exactly when no thread in 1..n is pending, and then changes nothing. */
  lemma {:induction false} RoundServesNone(st: CombState, act: seq<nat>, args: seq<nat>, n: nat,
                                           sfunc: SeqFunc)
    requires n < |act| && n < |args| && n < |st.returnValue| && n < |st.deactivate|
    ensures Round(st, act, args, n, sfunc).1 == 0
            <==> forall t :: 1 <= t <= n ==> !Pending(st, act, t)
    ensures Round(st, act, args, n, sfunc).1 == 0 ==> Round(st, act, args, n, sfunc).0 == st
  {
    if n > 0 {
      RoundServesNone(st, act, args, n - 1, sfunc);
      var mid := Round(st, act, args, n - 1, sfunc).0;
      RoundDeactivate(st, act, args, n - 1, sfunc, n);
      assert mid.deactivate[n] == st.deactivate[n];
      if Round(st, act, args, n, sfunc).1 == 0 {
        assert Round(st, act, args, n - 1, sfunc).1 == 0 && !Pending(mid, act, n);
      } else if forall t :: 1 <= t <= n - 1 ==> !Pending(st, act, t) {
        assert Pending(st, act, n);
      }
    }
  }

  /** No thread in 1..n is pending after a round. */
  lemma RoundLeavesNonePending(st: CombState, act: seq<nat>, args: seq<nat>, n: nat, sfunc: SeqFunc)
    requires n < |act| && n < |args| && n < |st.returnValue| && n < |st.deactivate|
    ensures forall t :: 1 <= t <= n ==> !Pending(Round(st, act, args, n, sfunc).0, act, t)
  {
    forall t | 1 <= t <= n
      ensures !Pending(Round(st, act, args, n, sfunc).0, act, t)
    {
      RoundDeactivate(st, act, args, n, sfunc, t);
    }
  }

  /** With requests that do not change while it runs, a pass of one round or more is exactly one
      round: the second round finds nobody pending. */
  lemma PassIsOneRound(st: CombState, act: seq<nat>, args: seq<nat>, n: nat, sfunc: SeqFunc,
                       rounds: nat)
    requires n < |act| && n < |args| && n < |st.returnValue| && n < |st.deactivate|
    requires rounds >= 1
    ensures Pass(st, act, args, n, sfunc, rounds) == Round(st, act, args, n, sfunc).0
  {
    var next := Round(st, act, args, n, sfunc).0;
    RoundLeavesNonePending(st, act, args, n, sfunc);
    RoundServesNone(next, act, args, n, sfunc);
  }

  /** After a pass every thread in 1..n has its request served, and the others are untouched. */
  lemma PassServesEveryRequest(st: CombState, act: seq<nat>, args: seq<nat>, n: nat,
                               sfunc: SeqFunc, t: nat)
    requires n < |act| && n < |args| && n < |st.returnValue| && n < |st.deactivate|
    requires t < |act| && t < |st.deactivate| && t < |st.returnValue|
    ensures 1 <= t <= n ==> act[t] <= Pass(st, act, args, n, sfunc, COMBINING_ROUNDS).deactivate[t]
    ensures !(1 <= t <= n && Pending(st, act, t)) ==>
              Pass(st, act, args, n, sfunc, COMBINING_ROUNDS).deactivate[t] == st.deactivate[t]
              && Pass(st, act, args, n, sfunc, COMBINING_ROUNDS).returnValue[t] == st.returnValue[t]
  {
    PassIsOneRound(st, act, args, n, sfunc, COMBINING_ROUNDS);
    RoundDeactivate(st, act, args, n, sfunc, t);
    if !(1 <= t <= n && Pending(st, act, t)) {
      RoundKeepsUnserved(st, act, args, n, sfunc, t);
    }
  }

  // ---------------------------------------------------------------------------------------------
  // The combining pass on a record.

  /** One round over the record's arrays. */
  method ServeRound(rec: StateRec, act: seq<nat>, args: seq<nat>, nrThreads: nat, sfunc: SeqFunc)
    returns (served: nat)
    requires rec.Valid() && |act| == MAX_THREADS + 1 && |args| == MAX_THREADS + 1
    requires nrThreads <= MAX_THREADS
    modifies rec, rec.returnValue, rec.deactivate
    ensures (rec.Snapshot(), served) == Round(old(rec.Snapshot()), act, args, nrThreads, sfunc)
  {
    ghost var st0 := rec.Snapshot();
    served := 0;
    var t := 1;
    while t < nrThreads + 1
      invariant 1 <= t <= nrThreads + 1
      invariant (rec.Snapshot(), served) == Round(st0, act, args, t - 1, sfunc)
    {
      var tActivate := act[t];
      if tActivate > rec.deactivate[t] {
        var (data, ret) := sfunc(rec.data, args[t]);
        rec.returnValue[t] := ret;
        rec.data := data;
        rec.deactivate[t] := tActivate;
        served := served + 1;
      }
      t := t + 1;
    }
  }

  /** Up to COMBINING_ROUNDS rounds, stopping after a round that serves nobody. */
  method PerformRequests(rec: StateRec, act: seq<nat>, args: seq<nat>, nrThreads: nat,
                         sfunc: SeqFunc)
    requires rec.Valid() && |act| == MAX_THREADS + 1 && |args| == MAX_THREADS + 1
    requires nrThreads <= MAX_THREADS
    modifies rec, rec.returnValue, rec.deactivate
    ensures rec.Snapshot()
            == Pass(old(rec.Snapshot()), act, args, nrThreads, sfunc, COMBINING_ROUNDS)
  {
    ghost var st0 := rec.Snapshot();
    var round := 0;
    while round < COMBINING_ROUNDS
      invariant 0 <= round <= COMBINING_ROUNDS
      invariant StateShaped(rec.Snapshot())
      invariant Pass(rec.Snapshot(), act, args, nrThreads, sfunc, COMBINING_ROUNDS - round)
                == Pass(st0, act, args, nrThreads, sfunc, COMBINING_ROUNDS)
    {
      var served := ServeRound(rec, act, args, nrThreads, sfunc);
      if served == 0 {
        break;
      }
      round := round + 1;
    }
  }

  // ---------------------------------------------------------------------------------------------
  // The central structure and the per-thread state.

  /** The requests of threads 0 to MAX_THREADS, the combining lock and the committed state. */
  class CombStruct {
    const lock: CombiningLock
    const request: array<CombRequest>
    var pstate: StateRec

    predicate Valid()
      reads this, pstate
    {
      request.Length == MAX_THREADS + 1 && pstate.Valid()
    }

    /** `new`: the caller's requests, one per thread id, become the structure's own array. */
    constructor (lock: CombiningLock, requests: seq<CombRequest>, pstate: StateRec)
      requires pstate.Valid() && |requests| == MAX_THREADS + 1
      ensures Valid() && fresh(request)
      ensures this.lock == lock && this.pstate == pstate
      ensures request[..] == requests
    {
      this.lock := lock;
      this.pstate := pstate;
      request := new CombRequest[MAX_THREADS + 1](
        i requires 0 <= i < MAX_THREADS + 1 => requests[i]);
    }
  }

  /** A thread's two state records and the index of the one it combines into next. */
  class CombThreadState {
    var index: nat
    const state0: StateRec
    const state1: StateRec

    predicate Valid()
      reads this, state0, state1
    {
      index < 2 && state0.Valid() && state1.Valid() && Disjoint(state0, state1)
    }

    function Current(): StateRec
      reads this
    {
      if index == 0 then state0 else state1
    }

    constructor (state0: StateRec, state1: StateRec)
      requires state0.Valid() && state1.Valid() && Disjoint(state0, state1)
      ensures Valid() && index == 0
      ensures this.state0 == state0 && this.state1 == state1
    {
      index := 0;
      this.state0 := state0;
      this.state1 := state1;
    }
  }

  /** The combiner's work: copy the committed state into its spare record, serve the requests
      there, commit that record, flip the per-thread index and release the lock with the
      record's address. The record the thread combines into next is never the committed one. */
  method DoCombine(s: CombStruct, th: CombThreadState, tid: nat, nrThreads: nat, sfunc: SeqFunc)
    returns (retval: nat)
    requires s.Valid() && th.Valid() && tid <= MAX_THREADS && nrThreads <= MAX_THREADS
    requires Disjoint(th.Current(), s.pstate)
    modifies s, s.lock, th, th.Current(), th.Current().returnValue, th.Current().deactivate
    ensures s.Valid() && th.Valid()
    ensures th.index == 1 - old(th.index)
    ensures s.pstate == old(th.Current())
    ensures s.pstate.Snapshot()
            == Pass(old(s.pstate.Snapshot()), Activates(s.request[..]), Args(s.request[..]),
                    nrThreads, sfunc, COMBINING_ROUNDS)
    ensures Disjoint(th.Current(), s.pstate)
    ensures s.lock.inner == ComposeAuxBit(s.pstate.addr, RELEASED)
    ensures retval == s.pstate.returnValue[tid]
  {
    var ind := th.index;
    var newState := th.Current();
    newState.CopyFrom(s.pstate);
    PerformRequests(newState, Activates(s.request[..]), Args(s.request[..]), nrThreads, sfunc);
    s.pstate := newState;
    th.index := 1 - ind;
    s.lock.Unlock(newState.addr);
    retval := newState.returnValue[tid];
  }

  /** What a thread that did not get the lock finds out. */
  datatype NonCombine = Waiting(ptr: Word, owner: Word) | Performed(retval: nat) | NotPerformed

  /** Once the lock is free, its pointer designates `latest`, the last committed record; the
      request of `tid` was performed exactly when its activate number is at most the one `latest`
      served, and the answer is the return value `latest` holds for it. While the lock is held the
      thread keeps waiting. */
  method DoNonCombine(s: CombStruct, latest: StateRec, tid: nat) returns (r: NonCombine)
    requires s.Valid() && latest.Valid() && tid <= MAX_THREADS
    requires TidOf(s.lock.inner) == RELEASED ==> PtrOf(s.lock.inner) == latest.addr & PTR_BITS
    ensures TidOf(s.lock.inner) != RELEASED <==> r.Waiting?
    ensures r.Waiting? ==> r.owner == TidOf(s.lock.inner)
    ensures r.Performed? <==>
              TidOf(s.lock.inner) == RELEASED && s.request[tid].activate <= latest.deactivate[tid]
    ensures r.Performed? ==> r.retval == latest.returnValue[tid]
  {
    var combinedPtr, combinedTid := s.lock.Peek();
    if combinedTid != RELEASED {
      return Waiting(combinedPtr, combinedTid);
    }
    if s.request[tid].activate <= latest.deactivate[tid] {
      return Performed(latest.returnValue[tid]);
    }
    r := NotPerformed;
  }

  /** After the combiner's pass, a waiting thread whose request was pending finds it performed,
      with the return value the pass recorded for it. */
  lemma NonCombinerSeesItsRequest(st: CombState, reqs: seq<CombRequest>, n: nat, sfunc: SeqFunc,
                                  t: nat)
    requires StateShaped(st) && |reqs| == MAX_THREADS + 1 && n <= MAX_THREADS && 1 <= t <= n
    ensures reqs[t].activate
            <= Pass(st, Activates(reqs), Args(reqs), n, sfunc, COMBINING_ROUNDS).deactivate[t]
  {
    PassServesEveryRequest(st, Activates(reqs), Args(reqs), n, sfunc, t);
  }

  // ---------------------------------------------------------------------------------------------
  // Recovery and the whole operation.

  /** What a recovering thread does, from its checkpointed activate number, the deactivate number
      the committed state holds for it, whether it still holds the lock, and its posted activate
      number. */
  datatype Recovery = PeekBackup | ReadCommitted | Resubmit

  function Recover(activate: nat, deactivate: nat, isOwner: bool, requested: nat): (r: Recovery)
  {
    if activate < deactivate then PeekBackup
    else if activate == deactivate && !isOwner then ReadCommitted
    else if activate < requested then PeekBackup
    else Resubmit
  }

  /** A recovering thread submits its request again only when it is not yet served and was not
      superseded: the committed state has not served it, unless it was the combiner that served
      it and still holds the lock, and its posted number is not above it. It reads the committed
      return value only when the committed state served exactly this request and no combiner
      that could still change it is itself. Together these say that recovery neither runs an
      operation twice (a request the committed state served, with the lock not held by this
      thread, is never resubmitted) nor loses one (a request posted but not yet served is always
      resubmitted). */
  lemma RecoverDecisions(activate: nat, deactivate: nat, isOwner: bool, requested: nat)
    ensures Recover(activate, deactivate, isOwner, requested) == Resubmit <==>
              requested <= activate
              && (deactivate < activate || (deactivate == activate && isOwner))
    ensures Recover(activate, deactivate, isOwner, requested) == ReadCommitted <==>
              activate == deactivate && !isOwner
    ensures Recover(activate, deactivate, isOwner, requested) == PeekBackup <==>
              activate < deactivate || (activate >= deactivate && activate < requested
                                        && !(activate == deactivate && !isOwner))
    ensures activate <= deactivate && !isOwner ==>
              Recover(activate, deactivate, isOwner, requested) != Resubmit
    ensures requested <= activate && deactivate < activate ==>
              Recover(activate, deactivate, isOwner, requested) == Resubmit
  {
  }

  /** What apply_op gives back: a return value, or the lock's fields when another thread holds
      the lock and this one would wait for it. */
  datatype ApplyOutcome = Returned(retval: nat) | Blocked(ptr: Word, owner: Word)

  /** The checks of a thread that restarts after a crash with the checkpointed activate number
      `activate`: the value to return when its request needs no new submission. */
  method RecoveryCheck(s: CombStruct, tid: nat, activate: nat, peeked: nat) returns (r: Option<nat>)
    requires s.Valid() && tid <= MAX_THREADS
    ensures var decision := Recover(activate, s.pstate.deactivate[tid], s.lock.IsOwner(tid as Word),
                                    s.request[tid].activate);
            && (r.None? <==> decision == Resubmit)
            && (decision == PeekBackup ==> r == TaggedPtr.Some(peeked))
            && (decision == ReadCommitted ==> r == TaggedPtr.Some(s.pstate.returnValue[tid]))
  {
    var latest := s.pstate;
    var deactivate := latest.deactivate[tid];
    if activate < deactivate {
      return TaggedPtr.Some(peeked);
    }
    if activate == deactivate && !s.lock.IsOwner(tid as Word) {
      return TaggedPtr.Some(latest.returnValue[tid]);
    }
    if activate < s.request[tid].activate {
      return TaggedPtr.Some(peeked);
    }
    r := TaggedPtr.None;
  }

  /** Posts the request and tries the lock: the winner combines, and a thread that finds the
      lock held by another one is blocked on it. */
  method Submit(s: CombStruct, th: CombThreadState, tid: nat, arg: nat, activate: nat,
                nrThreads: nat, sfunc: SeqFunc)
    returns (r: ApplyOutcome)
    requires s.Valid() && th.Valid() && 1 <= tid <= MAX_THREADS && nrThreads <= MAX_THREADS
    requires Disjoint(th.Current(), s.pstate)
    modifies s, s.request, s.lock, th, th.Current(), th.Current().returnValue,
             th.Current().deactivate
    ensures s.Valid() && th.Valid() && Disjoint(th.Current(), s.pstate)
    ensures s.request[..] == old(s.request[..])[tid := CombRequest(arg, activate)]
    ensures r.Blocked? <==> TidOf(old(s.lock.inner)) != RELEASED && !old(s.lock.IsOwner(tid as Word))
    ensures r.Blocked? ==> r == Blocked(PtrOf(old(s.lock.inner)), TidOf(old(s.lock.inner)))
                           && s.pstate == old(s.pstate) && s.lock.inner == old(s.lock.inner)
    ensures r.Returned? ==> s.pstate == old(th.Current()) && r.retval == s.pstate.returnValue[tid]
    ensures r.Returned? && tid <= nrThreads ==> activate <= s.pstate.deactivate[tid]
    ensures r.Returned? ==>
              && th.index == 1 - old(th.index)
              && s.pstate.Snapshot()
                 == Pass(old(s.pstate.Snapshot()), Activates(s.request[..]), Args(s.request[..]),
                         nrThreads, sfunc, COMBINING_ROUNDS)
              && s.lock.inner == ComposeAuxBit(s.pstate.addr, RELEASED)
    ensures r.Blocked? ==> th.index == old(th.index)
  {
    s.request[tid] := CombRequest(arg, activate);
    var locked := s.lock.TryLock(tid as Word);
    if locked.Err? {
      return Blocked(locked.error.0, locked.error.1);
    }
    ghost var reqs := s.request[..];
    ghost var st0 := s.pstate.Snapshot();
    var retval := DoCombine(s, th, tid, nrThreads, sfunc);
    if tid <= nrThreads {
      NonCombinerSeesItsRequest(st0, reqs, nrThreads, sfunc, tid);
    }
    r := Returned(retval);
  }

  /** The operation of thread `tid`. `checkpoint` is the activate number the thread's memento
      checkpointed before a crash, if any; `peeked` is the return value it backed up;
      `recovering` says whether the thread restarts after a crash. */
  method ApplyOp(s: CombStruct, th: CombThreadState, tid: nat, arg: nat, checkpoint: Option<nat>,
                 recovering: bool, peeked: nat, nrThreads: nat, sfunc: SeqFunc)
    returns (r: ApplyOutcome)
    requires s.Valid() && th.Valid() && 1 <= tid <= MAX_THREADS && nrThreads <= MAX_THREADS
    requires Disjoint(th.Current(), s.pstate)
    modifies s, s.request, s.lock, th, th.Current(), th.Current().returnValue,
             th.Current().deactivate
    ensures s.Valid() && th.Valid() && Disjoint(th.Current(), s.pstate)
    ensures var activate := ChkActivate(checkpoint, old(s.request[tid].activate));
            var decision := Recover(activate, old(s.pstate.deactivate[tid]),
                                    old(s.lock.IsOwner(tid as Word)), old(s.request[tid].activate));
            if recovering && decision != Resubmit then
              && r == Returned(if decision == PeekBackup then peeked
                               else old(s.pstate.returnValue[tid]))
              && s.request[..] == old(s.request[..]) && s.pstate == old(s.pstate)
              && s.lock.inner == old(s.lock.inner) && th.index == old(th.index)
            else
              && s.request[..] == old(s.request[..])[tid := CombRequest(arg, activate)]
              && (r.Blocked? <==> TidOf(old(s.lock.inner)) != RELEASED
                                  && !old(s.lock.IsOwner(tid as Word)))
              && (r.Blocked? ==> && r == Blocked(PtrOf(old(s.lock.inner)), TidOf(old(s.lock.inner)))
                                 && s.pstate == old(s.pstate) && s.lock.inner == old(s.lock.inner)
                                 && th.index == old(th.index))
              && (r.Returned? && tid <= nrThreads ==> activate <= s.pstate.deactivate[tid])
              && (r.Returned? ==> && r.retval == s.pstate.returnValue[tid]
                                  && s.pstate == old(th.Current())
                                  && th.index == 1 - old(th.index)
                                  && s.pstate.Snapshot()
                                     == Pass(old(s.pstate.Snapshot()), Activates(s.request[..]),
                                             Args(s.request[..]), nrThreads, sfunc,
                                             COMBINING_ROUNDS)
                                  && s.lock.inner == ComposeAuxBit(s.pstate.addr, RELEASED))
  {
    var activate := ChkActivate(checkpoint, s.request[tid].activate);
    if recovering {
      var done := RecoveryCheck(s, tid, activate, peeked);
      if done.Some? {
        return Returned(done.value);
      }
    }
    r := Submit(s, th, tid, arg, activate, nrThreads, sfunc);
  }

  /** The activate number of a new operation: the checkpointed one after a crash, otherwise one
      above the thread's last posted number. */
  function ChkActivate(checkpoint: Option<nat>, posted: nat): (r: nat)
    ensures checkpoint.None? ==> r > posted
  {
    if checkpoint.Some? then checkpoint.value else posted + 1
  }
}
