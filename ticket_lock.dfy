/*
 * The recoverable ticket lock (src/old/ticket_lock.rs). A client draws a
 * ticket from `next` and waits until `curr` reaches it; `unlock` advances
 * `curr`. Each client records its ticket and a state (Ready, Trying,
 * Recovering) in a persistent membership, registered in the lock's member
 * list, so that after a crash it can tell a ticket it holds from one it lost
 * between drawing and recording it; `recover` lets `curr` skip lost tickets.
 * Tickets never overflow. The model runs one thread at a time: a spin-wait
 * that another thread would have to end is reported as a blocked outcome.
 */
module RecoverableTicketLock {

  /** No ticket: the lock's counters start at 1 so that 0 never names a drawn ticket. */
  const NO_TICKET: nat := 0
  const TICKET_LOCK_INIT: nat := 1
  const TICKET_JUMP: nat := 1

  datatype State = Ready | Trying | Recovering

  /** A client's persistent record of its ticket and of how far it got drawing one. */
  class Membership {
    var ticket: nat
    var state: State

    constructor ()
      ensures ticket == NO_TICKET && state == Ready
    {
      ticket := NO_TICKET;
      state := Ready;
    }

    /** Between announcing that it draws a ticket and recording the ticket drawn. */
    predicate IsTicketing()
      reads this
    {
      ticket == NO_TICKET && state == Trying
    }
  }

  /** The client side of `lock`: its membership, once created, and whether it is registered. */
  class Lock {
    var membership: Membership?
    var registered: bool

    predicate Valid()
      reads this
    {
      registered ==> membership != null
    }

    constructor ()
      ensures Valid() && membership == null && !registered
    {
      membership := null;
      registered := false;
    }

    /** Resetting the client puts its membership back in Ready; the ticket stays. */
    method Reset()
      modifies membership
      ensures membership != null ==>
                membership.state == Ready && membership.ticket == old(membership.ticket)
    {
      var m := membership;
      if m == null {
        return;
      }
      m.state := Ready;
    }
  }

  // ---------------------------------------------------------------------------------------------
  // Sorting the snapshot.

  predicate Ascending(s: seq<nat>) {
    forall i, j :: 0 <= i < j < |s| ==> s[i] <= s[j]
  }

  function InsertSorted(x: nat, s: seq<nat>): (r: seq<nat>)
    requires Ascending(s)
    ensures multiset(r) == multiset(s) + multiset{x} && |r| == |s| + 1
    ensures r[0] == if s == [] || x <= s[0] then x else s[0]
    ensures Ascending(r)
  {
    if s == [] || x <= s[0] then
      AscendingCons(x, s);
      [x] + s
    else
      assert s == [s[0]] + s[1..];
      var rest := InsertSorted(x, s[1..]);
      AscendingCons(s[0], rest);
      [s[0]] + rest
  }

  /** Putting an element no larger than the head in front keeps a sequence ascending. */
  lemma AscendingCons(h: nat, t: seq<nat>)
    requires Ascending(t) && (t != [] ==> h <= t[0])
    ensures Ascending([h] + t)
  {
    var r := [h] + t;
    forall i, j | 0 <= i < j < |r|
      ensures r[i] <= r[j]
    {
      if i == 0 {
        assert t[0] <= t[j - 1];
      }
    }
  }

  /** The snapshot heap drained in ascending order. */
  function SortedVec(s: seq<nat>): (r: seq<nat>)
    ensures Ascending(r) && multiset(r) == multiset(s)
  {
    if s == [] then
      []
    else
      assert s == s[..|s| - 1] + [s[|s| - 1]];
      InsertSorted(s[|s| - 1], SortedVec(s[..|s| - 1]))
  }

  // ---------------------------------------------------------------------------------------------
  // The tickets recovery considers.

  /** The tickets `start <= t < end` among `tickets`, in order. */
  function InRange(tickets: seq<nat>, start: nat, end: nat): (r: seq<nat>)
    ensures forall x :: x in r <==> x in tickets && start <= x < end
  {
    if tickets == [] then
      []
    else
      var last := tickets[|tickets| - 1];
      assert tickets == tickets[..|tickets| - 1] + [last];
      InRange(tickets[..|tickets| - 1], start, end) + (if start <= last < end then [last] else [])
  }

  function Tickets(members: seq<Membership>): (r: seq<nat>)
    reads members
    ensures |r| == |members| && forall i :: 0 <= i < |members| ==> r[i] == members[i].ticket
  {
    seq(|members|, i reads members requires 0 <= i < |members| => members[i].ticket)
  }

  /** As written: the sorted snapshot after skipping its prefix `start, start + 1, ...`; its
      first element is taken for the lost ticket. */
  function LostAsWritten(sorted: seq<nat>, start: nat): (r: seq<nat>)
    ensures |r| <= |sorted| && r == sorted[|sorted| - |r|..]
    ensures r != [] ==> r[0] != start + (|sorted| - |r|)
    decreases |sorted|
  {
    if sorted != [] && sorted[0] == start then LostAsWritten(sorted[1..], start + TICKET_JUMP)
    else sorted
  }

  /** Corrected: the tickets from `t` up to `end` that no member holds, in ascending order. */
  function MissingFrom(held: seq<nat>, t: nat, end: nat): (r: seq<nat>)
    decreases end - t
  {
    if t >= end then []
    else if t in held then MissingFrom(held, t + TICKET_JUMP, end)
    else [t] + MissingFrom(held, t + TICKET_JUMP, end)
  }

  predicate StrictlyAscending(s: seq<nat>) {
    forall i, j :: 0 <= i < j < |s| ==> s[i] < s[j]
  }

  /** A ticket is a candidate exactly when it lies in the range and no member holds it; the
      candidates are strictly ascending. */
  lemma {:induction false} MissingTickets(held: seq<nat>, t: nat, end: nat)
    ensures forall x :: x in MissingFrom(held, t, end) <==> t <= x < end && x !in held
    ensures StrictlyAscending(MissingFrom(held, t, end))
    decreases end - t
  {
    if t < end {
      MissingTickets(held, t + TICKET_JUMP, end);
      var rest := MissingFrom(held, t + TICKET_JUMP, end);
      assert forall k :: 0 <= k < |rest| ==> t < rest[k] by {
        forall k | 0 <= k < |rest|
          ensures t < rest[k]
        {
          assert rest[k] in rest;
        }
      }
    }
  }

  /** As written: the candidates recovery walks are the sorted snapshot after its consecutive
      prefix. */
  function LostCandidatesAsWritten(snapshot: seq<nat>, start: nat): (r: seq<nat>)
    ensures forall x :: x in r ==> x in snapshot
  {
    var sorted := SortedVec(snapshot);
    var r := LostAsWritten(sorted, start);
    assert forall x :: x in r ==> x in multiset(sorted);
    r
  }

  /** The as-written candidates and the tickets actually lost never meet: every ticket the
      as-written recovery would let `curr` skip is one a member holds. */
  lemma AsWrittenNeverSkipsLostTicket(snapshot: seq<nat>, start: nat, end: nat)
    ensures forall x :: x in LostCandidatesAsWritten(snapshot, start) ==>
              x !in MissingFrom(snapshot, start, end)
  {
    MissingTickets(snapshot, start, end);
  }

  /** Members hold 5, 6 and 8, so the sorted snapshot is [5, 6, 8], and `next` is 9: ticket 7
      was lost. As written, recovery takes 8, a ticket a member holds, for the lost one; the
      corrected candidates are exactly [7]. */
  lemma RecoverAsWrittenSkipsHeldTicket()
    ensures LostAsWritten([5, 6, 8], 5) == [8]
    ensures MissingFrom([5, 6, 8], 5, 9) == [7]
  {
    var held := [5, 6, 8];
    assert LostAsWritten(held, 5) == LostAsWritten([6, 8], 6) by {
      assert held[1..] == [6, 8];
    }
    assert LostAsWritten([6, 8], 6) == LostAsWritten([8], 7) by {
      assert [6, 8][1..] == [8];
    }
    MissingSeven(held);
  }

  lemma MissingSeven(held: seq<nat>)
    requires held == [5, 6, 8]
    ensures MissingFrom(held, 5, 9) == [7]
  {
    assert 8 in held && 6 in held && 5 in held;
    assert 7 !in held;
    assert MissingFrom(held, 8, 9) == [];
  }

  /** Members hold 5 and 6 and `next` is 8: ticket 7 was lost. As written nothing is left after
      the consecutive prefix, so ticket 7 is never skipped; the corrected candidates are [7]. */
  lemma RecoverAsWrittenMissesTrailingTicket()
    ensures LostAsWritten([5, 6], 5) == []
    ensures MissingFrom([5, 6], 5, 8) == [7]
  {
    assert LostAsWritten([5, 6], 5) == LostAsWritten([6], 6) == LostAsWritten([], 7);
    assert 7 !in [5, 6] && 5 in [5, 6] && 6 in [5, 6];
  }

  // ---------------------------------------------------------------------------------------------
  // Skipping lost tickets.

  /** Walking the candidates: those below `curr` are passed over, one above `curr` is waited for
      (blocked), and one equal to `curr` is skipped by moving `curr` past it. */
  function SkipOutcome(lost: seq<nat>, curr: nat): (r: (nat, bool))
  {
    if lost == [] then (curr, false)
    else if lost[0] < curr then SkipOutcome(lost[1..], curr)
    else if lost[0] > curr then (curr, true)
    else (curr + TICKET_JUMP, false)
  }

  /** `curr` moves by at most one ticket, and only past a candidate; when it stays, either a
      candidate above it is being waited for or every candidate is below it. */
  lemma {:induction false} SkipOutcomeMovesPastLost(lost: seq<nat>, curr: nat)
    requires StrictlyAscending(lost)
    ensures SkipOutcome(lost, curr).0 == curr || SkipOutcome(lost, curr).0 == curr + TICKET_JUMP
    ensures SkipOutcome(lost, curr).0 == curr + TICKET_JUMP <==> curr in lost
    ensures SkipOutcome(lost, curr) == (curr, false) ==> forall x :: x in lost ==> x < curr
    ensures SkipOutcome(lost, curr).1 ==> exists x :: x in lost && x > curr
    ensures SkipOutcome(lost, curr).1 ==> SkipOutcome(lost, curr).0 == curr
  {
    if lost != [] {
      assert forall x :: x in lost <==> x == lost[0] || x in lost[1..];
      if lost[0] < curr {
        SkipOutcomeMovesPastLost(lost[1..], curr);
      } else if lost[0] > curr {
        assert lost[0] in lost;
        assert forall k :: 0 <= k < |lost| ==> lost[0] <= lost[k];
      }
    }
  }

  /** When no candidate lies below `curr`, the walk blocks exactly when `curr` itself is no
      candidate but some candidate exists: the first one is then above `curr`. */
  lemma SkipOutcomeFromCurr(lost: seq<nat>, curr: nat)
    requires StrictlyAscending(lost)
    requires forall x :: x in lost ==> curr <= x
    ensures SkipOutcome(lost, curr).1 <==> curr !in lost && exists x :: x in lost
  {
    if lost != [] {
      assert lost[0] in lost;
      assert forall k :: 0 <= k < |lost| ==> lost[0] <= lost[k];
    }
  }

  // ---------------------------------------------------------------------------------------------
  // The lock.

  datatype LockResult = Acquired(ticket: nat) | WaitsForTurn(ticket: nat) | RecoveryBlocked

  class TicketLock {
    var curr: nat
    var next: nat
    var members: seq<Membership>

    predicate Valid()
      reads this
    {
      TICKET_LOCK_INIT <= curr && TICKET_LOCK_INIT <= next
    }

    constructor ()
      ensures Valid() && curr == TICKET_LOCK_INIT && next == TICKET_LOCK_INIT && members == []
    {
      curr := TICKET_LOCK_INIT;
      next := TICKET_LOCK_INIT;
      members := [];
    }

    /** The tickets of the members in [start, end). Meeting a member that is drawing a ticket,
        recovery would wait for it: that outcome is `waits`. */
    method TakeSnapshot(start: nat, end: nat) returns (snapshot: seq<nat>, waits: bool)
      ensures waits <==> exists i :: 0 <= i < |members| && members[i].IsTicketing()
      ensures !waits ==> snapshot == InRange(Tickets(members), start, end)
    {
      snapshot := [];
      var i := 0;
      while i < |members|
        invariant 0 <= i <= |members|
        invariant forall k :: 0 <= k < i ==> !members[k].IsTicketing()
        invariant snapshot == InRange(Tickets(members)[..i], start, end)
      {
        var m := members[i];
        if m.IsTicketing() {
          return [], true;
        }
        var t := m.ticket;
        if start <= t < end {
          snapshot := snapshot + [t];
        }
        assert Tickets(members)[..i + 1] == Tickets(members)[..i] + [t];
        i := i + 1;
      }
      assert Tickets(members)[..i] == Tickets(members);
      waits := false;
    }

    /** Lets `curr` skip the first lost ticket it reaches. Since no other thread runs, the wait
        for `curr` to reach a larger ticket never ends, and the compare-exchange from `curr`
        succeeds. */
    method SkipLost(lost: seq<nat>) returns (blocked: bool)
      requires Valid()
      modifies this`curr
      ensures Valid()
      ensures (curr, blocked) == SkipOutcome(lost, old(curr))
    {
      var i := 0;
      while i < |lost|
        invariant 0 <= i <= |lost| && curr == old(curr)
        invariant SkipOutcome(lost[i..], curr) == SkipOutcome(lost, curr)
      {
        var candidate := lost[i];
        assert lost[i..][1..] == lost[i + 1..];
        if candidate < curr {
          i := i + 1;
          continue;
        }
        if candidate > curr {
          return true;
        }
        curr := candidate + TICKET_JUMP;
        return false;
      }
      blocked := false;
    }

    /** Recovery, with the lost tickets taken as the numbers in [curr, next) no member holds. */
    method Recover() returns (blocked: bool)
      requires Valid()
      modifies this`curr
      ensures Valid()
      ensures var held := InRange(Tickets(members), old(curr), next);
              !blocked ==> (curr == old(curr) + TICKET_JUMP <==> old(curr) !in held
                                                                   && old(curr) < next)
      ensures !blocked ==> curr == old(curr) || curr == old(curr) + TICKET_JUMP
      ensures (exists i :: 0 <= i < |members| && members[i].IsTicketing()) ==>
                blocked && curr == old(curr)
      ensures blocked ==> curr == old(curr)
      ensures var held := InRange(Tickets(members), old(curr), next);
              blocked <==> || (exists i :: 0 <= i < |members| && members[i].IsTicketing())
                           || (old(curr) in held && exists x :: old(curr) < x < next && x !in held)
    {
      var end := next;
      var start := curr;
      var snapshot, waits := TakeSnapshot(start, end);
      if waits {
        return true;
      }
      var lost := MissingFrom(snapshot, start, end);
      MissingTickets(snapshot, start, end);
      blocked := SkipLost(lost);
      SkipOutcomeMovesPastLost(lost, start);
      SkipOutcomeFromCurr(lost, start);
    }

    /** Draws a ticket, or resumes one, and reports whether the lock is taken: a ticket above
        `curr` means waiting for the holders before it to unlock. */
    method LockOp(client: Lock) returns (r: LockResult)
      requires Valid() && client.Valid()
      requires client.registered ==> client.membership in members
      modifies this, client, client.membership
      ensures Valid() && client.Valid() && client.registered
      ensures client.membership in members
      ensures old(client.registered) ==> members == old(members)
      ensures r.Acquired? ==> r.ticket == client.membership.ticket && r.ticket <= curr
      ensures r.WaitsForTurn? ==> r.ticket == client.membership.ticket && r.ticket > curr
      ensures !r.RecoveryBlocked? ==>
                client.membership.state == Trying && client.membership.ticket != NO_TICKET
      ensures old(client.membership) == null || old(client.membership.state) == Ready ==>
                !r.RecoveryBlocked? && client.membership.ticket == old(next)
                && next == old(next) + TICKET_JUMP && curr == old(curr)
      ensures r.RecoveryBlocked? ==>
                client.membership.state == Recovering && next == old(next) && curr == old(curr)
      ensures old(client.membership) != null
              && (|| old(client.membership.state) == Recovering
                  || (old(client.membership.state) == Trying
                      && old(client.membership.ticket) == NO_TICKET))
              && !r.RecoveryBlocked? ==>
                client.membership.ticket == old(next) && next == old(next) + TICKET_JUMP
                && (curr == old(curr) || curr == old(curr) + TICKET_JUMP)
      ensures old(client.membership) != null && old(client.membership.state) == Trying
              && old(client.membership.ticket) != NO_TICKET ==>
                !r.RecoveryBlocked? && client.membership.ticket == old(client.membership.ticket)
                && next == old(next) && curr == old(curr)
    {
      var m := client.membership;
      if !client.registered {
        if m == null {
          m := new Membership();
          client.membership := m;
        }
        members := [m] + members;
        client.registered := true;
      }
      m := client.membership;
      ghost var startedReady := m.state == Ready;
      ghost var recovers := m.state == Recovering || (m.state == Trying && m.ticket == NO_TICKET);
      if !(m.state == Trying && m.ticket != NO_TICKET) {
        while !(m.state == Trying && m.ticket != NO_TICKET)
          invariant Valid() && m == client.membership && m in members
          invariant client.registered && (members == old(members) || members == [m] + old(members))
          invariant old(client.registered) ==> members == old(members)
          invariant startedReady ==>
                      || (m.state == Ready && next == old(next) && curr == old(curr))
                      || (m.state == Trying && m.ticket == old(next)
                          && next == old(next) + TICKET_JUMP && curr == old(curr))
          invariant recovers ==>
                      || (m.state == Trying && m.ticket == NO_TICKET
                          && next == old(next) && curr == old(curr))
                      || (m.state == Recovering && next == old(next) && curr == old(curr))
                      || (m.state == Ready && next == old(next)
                          && (curr == old(curr) || curr == old(curr) + TICKET_JUMP))
                      || (m.state == Trying && m.ticket == old(next)
                          && next == old(next) + TICKET_JUMP
                          && (curr == old(curr) || curr == old(curr) + TICKET_JUMP))
          decreases if m.state == Trying && m.ticket != NO_TICKET then 0
                    else match m.state case Ready => 1 case Recovering => 2 case Trying => 3
        {
          match m.state
          case Ready =>
            if m.ticket != NO_TICKET {
              m.ticket := NO_TICKET;
            }
            m.state := Trying;
            var t := next;
            next := next + TICKET_JUMP;
            m.ticket := t;
          case Trying =>
            m.state := Recovering;
          case Recovering =>
            var blocked := Recover();
            if blocked {
              return RecoveryBlocked;
            }
            m.state := Ready;
        }
      }
      if curr < m.ticket {
        return WaitsForTurn(m.ticket);
      }
      r := Acquired(m.ticket);
    }

    /** Releases `ticket`: `curr` moves on only while it still equals the ticket. */
    method Unlock(ticket: nat)
      requires Valid() && ticket <= curr
      modifies this`curr
      ensures Valid() && curr == UnlockedCurr(curr := old(curr), ticket := ticket)
    {
      if curr == ticket {
        curr := ticket + 1;
      }
    }
  }

  function UnlockedCurr(curr: nat, ticket: nat): nat {
    if curr == ticket then ticket + 1 else curr
  }

  /** Unlocking a ticket the lock has reached moves `curr` past it only on the holder's turn, and
      a repeated unlock is a no-op. */
  lemma UnlockIdempotent(curr: nat, ticket: nat)
    requires ticket <= curr
    ensures UnlockedCurr(curr, ticket) == curr || UnlockedCurr(curr, ticket) == curr + 1
    ensures UnlockedCurr(curr, ticket) == curr + 1 <==> curr == ticket
    ensures ticket <= UnlockedCurr(curr, ticket)
    ensures UnlockedCurr(UnlockedCurr(curr, ticket), ticket) == UnlockedCurr(curr, ticket)
  {
  }
}
