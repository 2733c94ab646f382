/*
 * The per-participant bookkeeping of the persistent epoch-based garbage collector
 * (`crossbeam-epoch/src/internal.rs`): the fixed-capacity `Bag` of deferred functions, the
 * expiry rule of sealed bags, and a `Local`'s guard, handle and pin counters, its local bag of
 * deferred functions and its sorted set of locations to persist.
 *
 * The global epoch, the global queue and the list of participants are not part of this model:
 * the epoch a pin installs is a parameter, and the bags a participant hands to the global queue
 * are returned to the caller.
 */
module EpochInternal {
  /** `MAX_OBJECTS`: the capacity of a bag. */
  const MAX_OBJECTS: nat := 40

  /** `usize::MAX + 1`: the modulus of the wrapping pin counter. */
  const USIZE_MODULUS: nat := 0x1_0000_0000_0000_0000

  datatype Option<T> = None | Some(value: T)

  datatype Result<T, E> = Ok(value: T) | Err(error: E)

  /** A deferred function: `func` identifies the closure, `key` is its optional de-duplication
      key. */
  datatype Deferred = Deferred(func: nat, key: Option<nat>)

  /** `Deferred::new(no_op_func, None)`, the filler of an empty bag slot. */
  const NO_OP: Deferred := Deferred(0, None)

  /** `Bag`: `MAX_OBJECTS` slots of which the first `len` are in use. */
  class Bag {
    var deferreds: array<Deferred>
    var len: nat

    predicate Valid()
      reads this
    {
      deferreds.Length == MAX_OBJECTS && len <= MAX_OBJECTS
    }

    /** The deferred functions in the bag, in insertion order. */
    function Contents(): seq<Deferred>
      reads this, deferreds
      requires Valid()
    {
      deferreds[..len]
    }

    /** `Bag::new()` / `Bag::default()`: every slot holds a no-op and the bag is empty. */
    constructor ()
      ensures Valid() && fresh(deferreds) && Contents() == []
    {
      deferreds := new Deferred[MAX_OBJECTS](_ => NO_OP);
      len := 0;
    }

    /** `is_empty`. */
    function IsEmpty(): (r: bool)
      reads this, deferreds
      requires Valid()
      ensures r <==> Contents() == []
    {
      len == 0
    }

    /** `try_push`: stores `d` in slot `len` while there is room, and otherwise hands it back
        with the bag unchanged. */
    method TryPush(d: Deferred) returns (r: Result<(), Deferred>)
      requires Valid()
      modifies this`len, deferreds
      ensures Valid()
      ensures r.Ok? <==> old(len) < MAX_OBJECTS
      ensures r.Ok? ==> Contents() == old(Contents()) + [d]
      ensures r.Err? ==> r.error == d && len == old(len) && Contents() == old(Contents())
    {
      if len < MAX_OBJECTS {
        deferreds[len] := d;
        len := len + 1;
        r := Ok(());
      } else {
        r := Err(d);
      }
    }
  }

  /** `SealedBag`: a bag's contents with the epoch it was sealed in. Epochs are integers here. */
  datatype SealedBag = SealedBag(epoch: int, bag: seq<Deferred>)

  /** `is_expired`: a bag may be destroyed once the global epoch is at least two epochs past the
      one it was sealed in, because a pinned participant witnesses at most one advance. */
  predicate IsExpired(sealed: SealedBag, globalEpoch: int)
  {
    globalEpoch - sealed.epoch >= 2
  }

  /** A bag sealed in the current epoch or the one before is never expired, and once expired a
      bag stays expired as the global epoch advances. */
  lemma ExpiryIsMonotone(sealed: SealedBag, g1: int, g2: int)
    requires g1 <= g2
    ensures sealed.epoch <= g1 <= sealed.epoch + 1 ==> !IsExpired(sealed, g1)
    ensures IsExpired(sealed, g1) ==> IsExpired(sealed, g2)
  {
  }

  // De-duplication of the local bag (`Vec::dedup_by` with the key comparison of
  // `dedup_as_bags`).

  /** The comparison `dedup_as_bags` hands to `dedup_by`: two entries are duplicates only when
      both have a key and the keys are equal. */
  predicate SameKey(a: Deferred, b: Deferred)
  {
    a.key.Some? && b.key.Some? && a.key.value == b.key.value
  }

  /** `dedup_by`: scanning left to right, an entry is dropped when it is a duplicate of the last
      entry kept. */
  function Dedup(s: seq<Deferred>): (r: seq<Deferred>)
    ensures |r| <= |s|
    ensures s == [] <==> r == []
    ensures s != [] ==> r[0] == s[0]
  {
    if |s| <= 1 then s
    else
      var kept := Dedup(s[..|s| - 1]);
      if SameKey(s[|s| - 1], kept[|kept| - 1]) then kept else kept + [s[|s| - 1]]
  }

  /** No two neighbours are duplicates. */
  predicate NoAdjacentDuplicates(s: seq<Deferred>)
  {
    forall i :: 0 < i < |s| ==> !SameKey(s[i - 1], s[i])
  }

  lemma {:induction false} DedupLeavesNoAdjacentDuplicates(s: seq<Deferred>)
    ensures NoAdjacentDuplicates(Dedup(s))
  {
    if |s| > 1 {
      DedupLeavesNoAdjacentDuplicates(s[..|s| - 1]);
    }
  }

  /** Every entry `Dedup` keeps comes from its input. */
  lemma {:induction false} DedupKeepsOnlyInputs(s: seq<Deferred>)
    ensures forall x :: x in Dedup(s) ==> x in s
  {
    if |s| > 1 {
      DedupKeepsOnlyInputs(s[..|s| - 1]);
    }
  }

  /** The entries without a key, in order. */
  function Unkeyed(s: seq<Deferred>): seq<Deferred>
  {
    if s == [] then []
    else Unkeyed(s[..|s| - 1]) + (if s[|s| - 1].key.None? then [s[|s| - 1]] else [])
  }

  /** Entries without a key are never merged: all of them survive, in order. */
  lemma {:induction false} DedupKeepsUnkeyed(s: seq<Deferred>)
    ensures Unkeyed(Dedup(s)) == Unkeyed(s)
  {
    if |s| > 1 {
      var p := s[..|s| - 1];
      DedupKeepsUnkeyed(p);
      var kept := Dedup(p);
      if !SameKey(s[|s| - 1], kept[|kept| - 1]) {
        assert (kept + [s[|s| - 1]])[..|kept|] == kept;
      }
    }
  }

  /** A sequence without adjacent duplicates is left as it is. */
  lemma {:induction false} DedupFixesDistinct(s: seq<Deferred>)
    requires NoAdjacentDuplicates(s)
    ensures Dedup(s) == s
  {
    if |s| > 1 {
      var p := s[..|s| - 1];
      assert NoAdjacentDuplicates(p) by {
        forall i | 0 < i < |p|
          ensures !SameKey(p[i - 1], p[i])
        {
          assert p[i - 1] == s[i - 1] && p[i] == s[i];
        }
      }
      DedupFixesDistinct(p);
      assert s == p + [s[|s| - 1]];
    }
  }

  /** De-duplicating twice is de-duplicating once. */
  lemma DedupIdempotent(s: seq<Deferred>)
    ensures Dedup(Dedup(s)) == Dedup(s)
  {
    DedupLeavesNoAdjacentDuplicates(s);
    DedupFixesDistinct(Dedup(s));
  }

  /** `s` read from its last entry to its first. */
  function Reverse<T>(s: seq<T>): (r: seq<T>)
    ensures |r| == |s|
  {
    if s == [] then [] else [s[|s| - 1]] + Reverse(s[..|s| - 1])
  }

  lemma {:induction false} ReverseAt<T>(s: seq<T>, k: nat)
    requires k < |s|
    ensures Reverse(s)[k] == s[|s| - 1 - k]
  {
    if k > 0 {
      ReverseAt(s[..|s| - 1], k - 1);
    }
  }

  /** The bags' contents, one after another. */
  function Flatten<T>(bags: seq<seq<T>>): seq<T>
  {
    if bags == [] then [] else Flatten(bags[..|bags| - 1]) + bags[|bags| - 1]
  }

  lemma FlattenAppend<T>(bags: seq<seq<T>>, b: seq<T>)
    ensures Flatten(bags + [b]) == Flatten(bags) + b
  {
    assert (bags + [b])[..|bags|] == bags;
  }

  /** Well-filled bags that hold nothing are no bags at all. */
  lemma NoBagsFromNothing(bags: seq<seq<Deferred>>)
    requires BagsWellFilled(bags) && Flatten(bags) == []
    ensures bags == []
  {
  }

  /** The shape `dedup_as_bags` gives its bags: none is empty or over capacity, and all but the
      last are full. */
  predicate BagsWellFilled(bags: seq<seq<Deferred>>)
  {
    && (forall i :: 0 <= i < |bags| ==> 0 < |bags[i]| <= MAX_OBJECTS)
    && (forall i :: 0 <= i < |bags| - 1 ==> |bags[i]| == MAX_OBJECTS)
  }

  /** The packing loop of `dedup_as_bags`: pops entries from the back of `items` (the first
      `left` entries are those still in the vector) and pushes
      them into the current bag with `try_push`, starting a new bag whenever the current one is
      full; a non-empty last bag is kept too. */
  method PackIntoBags(items: seq<Deferred>) returns (bags: seq<seq<Deferred>>)
    ensures BagsWellFilled(bags)
    ensures Flatten(bags) == Reverse(items)
  {
    var left := |items|;
    ghost var popped: seq<Deferred> := [];
    bags := [];
    var cur := new Bag();
    while left > 0
      invariant cur.Valid() && fresh(cur) && fresh(cur.deferreds)
      invariant 0 <= left <= |items| && |popped| == |items| - left
      invariant forall j :: 0 <= j < |popped| ==> popped[j] == items[|items| - 1 - j]
      invariant Flatten(bags) + cur.Contents() == popped
      invariant forall i :: 0 <= i < |bags| ==> |bags[i]| == MAX_OBJECTS
      invariant cur.Contents() == [] ==> bags == []
    {
      var d := items[left - 1];
      left := left - 1;
      popped := popped + [d];
      cur, bags := PushOrSeal(cur, bags, d);
    }
    if !cur.IsEmpty() {
      FlattenAppend(bags, cur.Contents());
      bags := bags + [cur.Contents()];
    }
    ReverseFromEnds(items, popped);
  }

  /** One step of the packing loop: `try_push` into the current bag, and when it is full, move
      it to `bags` and push into a new bag instead. */
  method PushOrSeal(cur: Bag, bags: seq<seq<Deferred>>, d: Deferred) returns (next: Bag, bags': seq<seq<Deferred>>)
    requires cur.Valid()
    modifies cur`len, cur.deferreds
    ensures next.Valid() && next.Contents() != []
    ensures next == cur || (fresh(next) && fresh(next.deferreds))
    ensures Flatten(bags') + next.Contents() == Flatten(bags) + old(cur.Contents()) + [d]
    ensures bags' == bags || (bags' == bags + [old(cur.Contents())] && |old(cur.Contents())| == MAX_OBJECTS)
  {
    var before := cur.Contents();
    var pushed := cur.TryPush(d);
    if pushed.Err? {
      FlattenAppend(bags, before);
      bags' := bags + [before];
      next := new Bag();
      pushed := next.TryPush(d);
    } else {
      next, bags' := cur, bags;
    }
  }

  /** A sequence that reads `items` from the back is `Reverse(items)`. */
  lemma ReverseFromEnds<T>(items: seq<T>, popped: seq<T>)
    requires |popped| == |items|
    requires forall j :: 0 <= j < |popped| ==> popped[j] == items[|items| - 1 - j]
    ensures popped == Reverse(items)
  {
    forall k | 0 <= k < |items|
      ensures popped[k] == Reverse(items)[k]
    {
      ReverseAt(items, k);
    }
  }

  /** The local epoch of a participant: `Epoch::starting()` while unpinned, and the pinned global
      epoch while pinned. */
  datatype LocalEpoch = Starting | Pinned(global: int)

  /** `Local`: one participant. `bag` is the local vector of deferred functions, `persists` the
      `(ptr, len)` locations to persist, kept sorted by `ptr`; `finalized` records that the
      participant has been removed from the global list. */
  class Local {
    var tid: Option<nat>
    var epoch: LocalEpoch
    var bag: seq<Deferred>
    var guardCount: nat
    var handleCount: nat
    var pinCount: nat
    var persists: seq<(nat, nat)>
    var isRepinning: bool
    var finalized: bool

    /** `Local::register`: a fresh participant with one handle and no guard. */
    constructor Register(tid': Option<nat>)
      ensures tid == tid' && epoch == Starting && bag == [] && persists == []
      ensures guardCount == 0 && handleCount == 1 && pinCount == 0
      ensures !isRepinning && !finalized
    {
      tid := tid';
      epoch := Starting;
      bag := [];
      guardCount := 0;
      handleCount := 1;
      pinCount := 0;
      persists := [];
      isRepinning := false;
      finalized := false;
    }

    /** `is_pinned`. */
    predicate IsPinned()
      reads this
    {
      guardCount > 0
    }

    /** `reset_count`: the counters of a newly registered participant, with one pin counted. */
    method ResetCount()
      modifies this`handleCount, this`guardCount, this`pinCount, this`isRepinning
      ensures handleCount == 1 && guardCount == 0 && pinCount == 1 && !isRepinning
      ensures !IsPinned()
    {
      handleCount := 1;
      guardCount := 0;
      pinCount := 1;
      isRepinning := false;
    }

    /** `defer`: appends to the local bag. */
    method Defer(d: Deferred)
      modifies this`bag
      ensures bag == old(bag) + [d]
    {
      bag := bag + [d];
    }

    /** `dedup_as_bags`: de-duplicates the local bag, drains it and packs its entries into bags
        of at most `MAX_OBJECTS`. */
    method DedupAsBags() returns (bags: seq<seq<Deferred>>)
      modifies this`bag
      ensures bag == []
      ensures BagsWellFilled(bags)
      ensures Flatten(bags) == Reverse(Dedup(old(bag)))
    {
      var deduped := Dedup(bag);
      bag := [];
      bags := PackIntoBags(deduped);
    }

    /** `pin`: one more guard; the first guard pins the participant at the global epoch
        `globalPinned` and bumps the wrapping pin counter. `collects` tells whether this pin
        triggers a collection of the global queue (every `PINNINGS_BETWEEN_COLLECT` = 128
        pinnings). */
    method Pin(globalPinned: int) returns (collects: bool)
      requires guardCount + 1 < USIZE_MODULUS
      requires pinCount < USIZE_MODULUS
      modifies this`guardCount, this`epoch, this`pinCount
      ensures guardCount == old(guardCount) + 1 && IsPinned()
      ensures old(guardCount) == 0 ==> epoch == Pinned(globalPinned)
      ensures old(guardCount) == 0 ==> pinCount == (old(pinCount) + 1) % USIZE_MODULUS
      ensures old(guardCount) != 0 ==> epoch == old(epoch) && pinCount == old(pinCount)
      ensures collects <==> old(guardCount) == 0 && old(pinCount) % 128 == 0
    {
      var count := guardCount;
      guardCount := count + 1;
      collects := false;
      if count == 0 {
        epoch := Pinned(globalPinned);
        var pins := pinCount;
        pinCount := (pins + 1) % USIZE_MODULUS;
        collects := pins % 128 == 0;
      }
    }

    /** `unpin`: one guard fewer. When the last guard goes, a local bag of `MAX_OBJECTS` or more
        is handed to the global queue as `pushed`, whose bags `unpin` pushes from the back
        (`bags.pop()`); the local epoch returns to `Epoch::starting()`, and a participant with no
        handle left is finalized. */
    method Unpin(globalPinned: int) returns (pushed: seq<seq<Deferred>>)
      requires guardCount >= 1
      requires handleCount == 0 ==> pinCount < USIZE_MODULUS
      modifies this
      decreases if handleCount == 0 then 2 else 0
      ensures tid == old(tid) && persists == old(persists) && isRepinning == old(isRepinning)
      ensures old(guardCount) > 1 ==>
        guardCount == old(guardCount) - 1 && bag == old(bag) && epoch == old(epoch)
        && handleCount == old(handleCount) && pushed == [] && finalized == old(finalized)
        && pinCount == old(pinCount)
      ensures old(guardCount) == 1 ==> guardCount == 0 && epoch == Starting && BagsWellFilled(pushed)
      ensures old(guardCount) == 1 && old(handleCount) != 0 ==>
        handleCount == old(handleCount) && finalized == old(finalized) && pinCount == old(pinCount)
        && if |old(bag)| >= MAX_OBJECTS then bag == [] && Flatten(pushed) == Reverse(Dedup(old(bag)))
           else bag == old(bag) && pushed == []
      ensures old(guardCount) == 1 && old(handleCount) == 0 ==>
        handleCount == 0 && finalized && bag == [] && pinCount == (old(pinCount) + 1) % USIZE_MODULUS
        && Flatten(pushed) == Reverse(Dedup(old(bag)))
    {
      var count := guardCount;
      guardCount := count - 1;
      pushed := [];
      if count == 1 {
        if |bag| >= MAX_OBJECTS {
          pushed := DedupAsBags();
        }
        epoch := Starting;
        if handleCount == 0 {
          ghost var left := bag;
          var more := Finalize(globalPinned);
          if left == [] {
            NoBagsFromNothing(more);
            assert pushed + more == pushed;
          } else {
            assert pushed + more == more;
          }
          pushed := pushed + more;
        }
      }
    }

    /** `repin`: with exactly one guard and a local epoch other than `globalPinned`, hands a full
        local bag to the global queue and moves the local epoch to `globalPinned`; otherwise only
        the `is_repinning` flag flickers. */
    method Repin(globalPinned: int) returns (pushed: seq<seq<Deferred>>)
      modifies this`isRepinning, this`bag, this`epoch
      ensures !isRepinning
      ensures guardCount == 1 && old(epoch) != Pinned(globalPinned) ==>
        epoch == Pinned(globalPinned)
        && if |old(bag)| >= MAX_OBJECTS then bag == [] && BagsWellFilled(pushed)
                                              && Flatten(pushed) == Reverse(Dedup(old(bag)))
           else bag == old(bag) && pushed == []
      ensures !(guardCount == 1 && old(epoch) != Pinned(globalPinned)) ==>
        epoch == old(epoch) && bag == old(bag) && pushed == []
    {
      isRepinning := true;
      pushed := [];
      if guardCount == 1 {
        if epoch != Pinned(globalPinned) {
          if |bag| >= MAX_OBJECTS {
            pushed := DedupAsBags();
          }
          epoch := Pinned(globalPinned);
        }
      }
      isRepinning := false;
    }

    /** `acquire_handle`. */
    method AcquireHandle()
      modifies this`handleCount
      ensures handleCount == old(handleCount) + 1
    {
      handleCount := handleCount + 1;
    }

    /** `release_handle`: one handle fewer; dropping the last handle of an unpinned participant
        finalizes it. */
    method ReleaseHandle(globalPinned: int) returns (pushed: seq<seq<Deferred>>)
      requires handleCount >= 1
      requires pinCount < USIZE_MODULUS
      modifies this
      ensures tid == old(tid) && persists == old(persists) && guardCount == old(guardCount)
      ensures isRepinning == old(isRepinning)
      ensures handleCount == old(handleCount) - 1
      ensures finalized <==> old(finalized) || (old(guardCount) == 0 && old(handleCount) == 1)
      ensures !(old(guardCount) == 0 && old(handleCount) == 1) ==>
        bag == old(bag) && epoch == old(epoch) && pinCount == old(pinCount) && pushed == []
      ensures old(guardCount) == 0 && old(handleCount) == 1 ==>
        bag == [] && epoch == Starting && pinCount == (old(pinCount) + 1) % USIZE_MODULUS
        && BagsWellFilled(pushed) && Flatten(pushed) == Reverse(Dedup(old(bag)))
    {
      var guards := guardCount;
      var handles := handleCount;
      handleCount := handles - 1;
      pushed := [];
      if guards == 0 && handles == 1 {
        pushed := Finalize(globalPinned);
      }
    }

    /** `finalize`: with the handle count held at one, pins, hands the whole local bag to the
        global queue, unpins, then drops the handle count to zero and leaves the global list. */
    method Finalize(globalPinned: int) returns (pushed: seq<seq<Deferred>>)
      requires guardCount == 0
      requires pinCount < USIZE_MODULUS
      modifies this
      decreases 1
      ensures tid == old(tid) && persists == old(persists) && isRepinning == old(isRepinning)
      ensures guardCount == 0 && handleCount == 0 && finalized && epoch == Starting
      ensures pinCount == (old(pinCount) + 1) % USIZE_MODULUS
      ensures bag == [] && BagsWellFilled(pushed) && Flatten(pushed) == Reverse(Dedup(old(bag)))
    {
      handleCount := 1;
      var collects := Pin(globalPinned);
      pushed := DedupAsBags();
      var none := Unpin(globalPinned);
      handleCount := 0;
      finalized := true;
    }

    /** `push_persist`: records `(ptr, len)` unless a location with the same `ptr` is already
        recorded, inserting it where the binary search says so that `persists` stays sorted. */
    method PushPersist(ptr: nat, len: nat)
      requires SortedByPtr(persists)
      modifies this`persists
      ensures SortedByPtr(persists)
      ensures HasPtr(old(persists), ptr) ==> persists == old(persists)
      ensures !HasPtr(old(persists), ptr) ==>
        multiset(persists) == multiset(old(persists)) + multiset{(ptr, len)}
    {
      var found := SearchByPtr(persists, ptr);
      if found.Err? {
        var pos := found.error;
        InsertKeepsSorted(persists, pos, ptr, len);
        assert persists == persists[..pos] + persists[pos..];
        persists := persists[..pos] + [(ptr, len)] + persists[pos..];
      }
    }
  }

  /** Strictly increasing `ptr`s: sorted, with no pointer recorded twice. */
  predicate SortedByPtr(v: seq<(nat, nat)>)
  {
    forall i, j :: 0 <= i < j < |v| ==> v[i].0 < v[j].0
  }

  predicate HasPtr(v: seq<(nat, nat)>, ptr: nat)
  {
    exists i :: 0 <= i < |v| && v[i].0 == ptr
  }

  /** `binary_search_by_key(&ptr, |&(p, _)| p)` on a sorted vector: `Ok(i)` with the entry holding
      `ptr`, or `Err(pos)` with the position that keeps the vector sorted. */
  function SearchByPtr(v: seq<(nat, nat)>, ptr: nat): (r: Result<nat, nat>)
    requires SortedByPtr(v)
    ensures r.Ok? <==> HasPtr(v, ptr)
    ensures r.Ok? ==> r.value < |v| && v[r.value].0 == ptr
    ensures r.Err? ==>
      && r.error <= |v|
      && (forall i :: 0 <= i < r.error ==> v[i].0 < ptr)
      && (forall i :: r.error <= i < |v| ==> ptr < v[i].0)
  {
    SearchFrom(v, ptr, 0)
  }

  function SearchFrom(v: seq<(nat, nat)>, ptr: nat, lo: nat): (r: Result<nat, nat>)
    requires SortedByPtr(v) && lo <= |v|
    requires forall i :: 0 <= i < lo ==> v[i].0 < ptr
    ensures r.Ok? <==> HasPtr(v, ptr)
    ensures r.Ok? ==> r.value < |v| && v[r.value].0 == ptr
    ensures r.Err? ==>
      && r.error <= |v|
      && (forall i :: 0 <= i < r.error ==> v[i].0 < ptr)
      && (forall i :: r.error <= i < |v| ==> ptr < v[i].0)
    decreases |v| - lo
  {
    if lo == |v| then Err(lo)
    else if v[lo].0 == ptr then Ok(lo)
    else if ptr < v[lo].0 then Err(lo)
    else SearchFrom(v, ptr, lo + 1)
  }

  /** Inserting at the position the search gives keeps the vector strictly sorted. */
  lemma InsertKeepsSorted(v: seq<(nat, nat)>, pos: nat, ptr: nat, len: nat)
    requires SortedByPtr(v) && pos <= |v|
    requires forall i :: 0 <= i < pos ==> v[i].0 < ptr
    requires forall i :: pos <= i < |v| ==> ptr < v[i].0
    ensures SortedByPtr(v[..pos] + [(ptr, len)] + v[pos..])
  {
    var w := v[..pos] + [(ptr, len)] + v[pos..];
    forall i, j | 0 <= i < j < |w|
      ensures w[i].0 < w[j].0
    {
      if j < pos {
        assert w[i] == v[i] && w[j] == v[j];
      } else if j == pos {
        assert w[i] == v[i];
      } else if i < pos {
        assert w[i] == v[i] && w[j] == v[j - 1];
      } else if i == pos {
        assert w[j] == v[j - 1];
      } else {
        assert w[i] == v[i - 1] && w[j] == v[j - 1];
      }
    }
  }
}
