/**
  An outbox table as the repositories and the reaper drive it.  The rows are
  updated in place; the ghost history records which statement did it, so every
  theorem of module Lease applies to every state a queue can be in.
 */
module LeaseQueue {
  import opened Prelude
  import opened Lease

  const REAPER_BATCH_LIMIT: nat := 100
  const DEFAULT_MAX_ATTEMPTS := 5
  const DEFAULT_GRACE := 30_000_000
  const REAPER_REASON := "max attempts exceeded"

  /** One more statement, no earlier than the last, keeps the history in order. */
  lemma ReplaySnoc<S>(h: History<S>, e: Entry<S>)
    requires Chronological(h) && NotBefore(h, e.at)
    ensures Replay(h + [e]) == Apply(Replay(h), e.at, e.op)
    ensures Chronological(h + [e])
  {
    AtPrefix(h, [e], |h|);
    assert (h + [e])[|h|] == e;
    forall i | 0 < i < |h| + 1 ensures InOrder(h + [e], i) {
      assert i < |h| ==> InOrder(h, i);
    }
  }

  lemma StablePrefix<S>(h: History<S>, longer: History<S>, k: nat)
    requires h <= longer && k <= |h|
    ensures At(longer, k) == At(h, k)
    ensures k < |h| ==> (Succeeds(longer, k) <==> Succeeds(h, k))
  {
    AtPrefix(h, longer[|h|..], k);
    assert longer == h + longer[|h|..];
  }

  /** What another worker or reaper runs, and how long after the previous statement. */
  datatype Rival<S> = Rival(wait: nat, op: Op<S>)

  /** The statements of rivals, stamped with the clock they run at. */
  ghost function Stamped<S>(steps: seq<Rival<S>>, now: Time): (h: History<S>)
    ensures |h| == |steps|
  {
    if steps == [] then [] else
      var at := now + steps[0].wait; [Entry(at, steps[0].op)] + Stamped(steps[1..], at)
  }

  lemma {:induction false} StampedOps<S>(steps: seq<Rival<S>>, now: Time, i: nat)
    requires i < |steps|
    ensures Stamped(steps, now)[i].op == steps[i].op
  {
    if i > 0 {
      StampedOps(steps[1..], now + steps[0].wait, i - 1);
    }
  }

  function TotalWait<S>(steps: seq<Rival<S>>): nat {
    if steps == [] then 0 else steps[0].wait + TotalWait(steps[1..])
  }

  /** Stamped statements keep a history in clock order. */
  lemma {:induction false} StampedInOrder<S>(h: History<S>, steps: seq<Rival<S>>, now: Time)
    requires Chronological(h) && NotBefore(h, now)
    ensures Chronological(h + Stamped(steps, now)) && NotBefore(h + Stamped(steps, now), now + TotalWait(steps))
    decreases |steps|
  {
    if steps == [] {
      assert h + Stamped(steps, now) == h;
    } else {
      var at := now + steps[0].wait;
      var e := Entry(at, steps[0].op);
      ReplaySnoc(h, e);
      StampedInOrder(h + [e], steps[1..], at);
      assert h + Stamped(steps, now) == h + [e] + Stamped(steps[1..], at);
    }
  }

  /** A stuck event as the reaper's listing reports it. */
  datatype Listed = Listed(id: EventId, attemptCount: nat)

  /** Statement p was a reap that took this event from stuck to failed. */
  ghost predicate ReapedAt<S>(h: History<S>, p: nat, id: EventId, maxAttempts: int, grace: Duration)
    requires p < |h|
  {
    && id in At(h, p) && Reapable(At(h, p)[id], maxAttempts, grace, h[p].at)
    && id in At(h, p + 1) && At(h, p + 1)[id].status == Failed
  }

  /** A reaped event had no live lease, and stays failed. */
  lemma ReapIsSafe<S>(h: History<S>, p: nat, n: nat, id: EventId, maxAttempts: int, grace: Duration)
    requires p < n <= |h| && grace >= 0 && ReapedAt(h, p, id, maxAttempts, grace)
    ensures forall worker :: !OwnedBy(At(h, p)[id], worker, h[p].at)
    ensures id in At(h, n) && At(h, n)[id].status == Failed
  {
    var m := p + 1;
    assert Terminal(At(h, m)[id].status);
    TerminalIsForever(h, m, n, id);
  }

  /** Statement p is the pass's guarded write for the event, and took effect or not as booked. */
  ghost predicate Booked<S>(h: History<S>, base: nat, p: nat, id: EventId, ok: bool, maxAttempts: int, grace: Duration)
  {
    && base <= p < |h| && h[p].op == Op.FailExpired(id, maxAttempts, grace, REAPER_REASON)
    && (ok <==> Succeeds(h, p))
    && (ok ==> ReapedAt(h, p, id, maxAttempts, grace))
  }

  /**
    The books of one reaper pass: calls maps each event it tried to end to the
    statement that tried, moved are the events for which that statement took effect.
   */
  ghost predicate Accounted<S>(h: History<S>, base: nat, calls: map<EventId, nat>, moved: set<EventId>,
                               maxAttempts: int, grace: Duration)
  {
    && moved <= calls.Keys
    && (forall id :: id in calls ==> Booked(h, base, calls[id], id, id in moved, maxAttempts, grace))
  }

  lemma BookedLater<S>(h: History<S>, longer: History<S>, base: nat, p: nat, id: EventId, ok: bool, maxAttempts: int,
                       grace: Duration)
    requires h <= longer && Booked(h, base, p, id, ok, maxAttempts, grace)
    ensures Booked(longer, base, p, id, ok, maxAttempts, grace)
  {
    StablePrefix(h, longer, p);
    StablePrefix(h, longer, p + 1);
  }

  function EffectiveAttempts(configured: int): (m: int)
    ensures m > 0 && (configured > 0 ==> m == configured) && (configured <= 0 ==> m == 5)
  {
    if configured <= 0 then DEFAULT_MAX_ATTEMPTS else configured
  }

  function EffectiveGrace(configured: Duration): (g: Duration)
    ensures g > 0 && (configured > 0 ==> g == configured) && (configured <= 0 ==> g == 30_000_000)
  {
    if configured <= 0 then DEFAULT_GRACE else configured
  }

  ghost predicate DistinctIds(listed: seq<Listed>) {
    forall i, j :: 0 <= i < j < |listed| ==> listed[i].id != listed[j].id
  }

  ghost function Ids(listed: seq<Listed>): set<EventId> { set i | 0 <= i < |listed| :: listed[i].id }

  lemma {:induction false} IdsCount(listed: seq<Listed>)
    requires DistinctIds(listed)
    ensures |Ids(listed)| == |listed|
  {
    if listed != [] {
      var n := |listed| - 1;
      IdsCount(listed[..n]);
      assert Ids(listed) == Ids(listed[..n]) + {listed[n].id};
    }
  }

  lemma IdsSnoc(listed: seq<Listed>, i: nat)
    requires i < |listed|
    ensures Ids(listed[..i + 1]) == Ids(listed[..i]) + {listed[i].id}
  {
    assert listed[..i + 1] == listed[..i] + [listed[i]];
  }

  /** The listed events whose attempts are used up. */
  ghost function Exhausted(listed: seq<Listed>, maxAttempts: int): set<EventId> {
    set i | 0 <= i < |listed| && listed[i].attemptCount >= maxAttempts :: listed[i].id
  }

  lemma ExhaustedSnoc(listed: seq<Listed>, i: nat, maxAttempts: int)
    requires i < |listed|
    ensures Exhausted(listed[..i + 1], maxAttempts) ==
      Exhausted(listed[..i], maxAttempts) + if listed[i].attemptCount >= maxAttempts then {listed[i].id} else {}
  {
    assert listed[..i + 1] == listed[..i] + [listed[i]];
    var a, b := Exhausted(listed[..i + 1], maxAttempts), Exhausted(listed[..i], maxAttempts);
    forall x | x in b ensures x in a {
      var k :| 0 <= k < i && listed[k].attemptCount >= maxAttempts && listed[k].id == x;
      assert listed[..i + 1][k] == listed[k];
    }
    if listed[i].attemptCount >= maxAttempts {
      assert listed[..i + 1][i] == listed[i];
    }
  }

  lemma ExhaustedFresh(listed: seq<Listed>, i: nat, maxAttempts: int)
    requires i < |listed| && DistinctIds(listed)
    ensures listed[i].id !in Exhausted(listed[..i], maxAttempts)
  {
  }

  /** Entry i reports a lapsed row not listed before it, expired no later than those left. */
  ghost predicate ListedInTurn<S>(rows: Table<S>, lapsed: set<EventId>, listed: seq<Listed>, i: nat)
    requires i < |listed|
  {
    var id := listed[i].id;
    && id in lapsed - Ids(listed[..i]) && id in rows && rows[id].attemptCount == listed[i].attemptCount
    && rows[id].lockedUntil.Some?
    && forall other :: other in lapsed - Ids(listed[..i]) && other in rows && rows[other].lockedUntil.Some? ==>
         rows[id].lockedUntil.value <= rows[other].lockedUntil.value
  }

  lemma ListedSnoc<S>(rows: Table<S>, lapsed: set<EventId>, listed: seq<Listed>, next: Listed)
    requires forall i :: 0 <= i < |listed| ==> ListedInTurn(rows, lapsed, listed, i)
    requires next.id in lapsed - Ids(listed) && next.id in rows && rows[next.id].attemptCount == next.attemptCount
    requires rows[next.id].lockedUntil.Some?
    requires forall other :: other in lapsed - Ids(listed) && other in rows && rows[other].lockedUntil.Some? ==>
      rows[next.id].lockedUntil.value <= rows[other].lockedUntil.value
    ensures Ids(listed + [next]) == Ids(listed) + {next.id}
    ensures forall i :: 0 <= i < |listed| + 1 ==> ListedInTurn(rows, lapsed, listed + [next], i)
  {
    var longer := listed + [next];
    assert longer[|listed|] == next;
    IdsSnoc(longer, |listed|);
    assert longer[..|listed|] == listed && longer[..|longer|] == longer;
    forall i | 0 <= i < |longer| ensures ListedInTurn(rows, lapsed, longer, i) {
      if i < |listed| {
        assert ListedInTurn(rows, lapsed, listed, i);
        assert longer[..i] == listed[..i] && longer[i] == listed[i];
      } else {
        assert longer[..i] == listed;
      }
    }
  }

  /** A listing in turn has no duplicates. */
  lemma InTurnDistinct<S>(rows: Table<S>, lapsed: set<EventId>, listed: seq<Listed>, i: nat, j: nat)
    requires forall i :: 0 <= i < |listed| ==> ListedInTurn(rows, lapsed, listed, i)
    requires i < j < |listed|
    ensures listed[i].id != listed[j].id
  {
    assert ListedInTurn(rows, lapsed, listed, j);
    assert listed[..j][i] == listed[i];
  }

  /** A listing in turn reports lapsed rows with their current attempt counts. */
  lemma InTurnFaithful<S>(rows: Table<S>, lapsed: set<EventId>, listed: seq<Listed>)
    requires forall i :: 0 <= i < |listed| ==> ListedInTurn(rows, lapsed, listed, i)
    ensures forall i :: 0 <= i < |listed| ==>
      listed[i].id in lapsed && listed[i].id in rows && rows[listed[i].id].attemptCount == listed[i].attemptCount
  {
    forall i | 0 <= i < |listed|
      ensures listed[i].id in lapsed && listed[i].id in rows
      ensures rows[listed[i].id].attemptCount == listed[i].attemptCount
    {
      assert ListedInTurn(rows, lapsed, listed, i);
    }
  }

  /** A duplicate-free listing as long as the set it is drawn from misses nobody. */
  lemma AllListed(listed: seq<Listed>, all: set<EventId>, id: EventId)
    requires DistinctIds(listed)
    requires forall i :: 0 <= i < |listed| ==> listed[i].id in all
    requires |listed| == |all| && id in all
    ensures exists j :: 0 <= j < |listed| && listed[j].id == id
  {
    IdsCount(listed);
    if id !in Ids(listed) {
      assert Ids(listed) <= all - {id};
      SubsetCardinality(Ids(listed), all - {id});
    }
  }

  lemma {:induction false} SubsetCardinality<T>(a: set<T>, b: set<T>)
    requires a <= b
    ensures |a| <= |b|
  {
    if a != {} {
      var x :| x in a;
      SubsetCardinality(a - {x}, b - {x});
    }
  }

  lemma FreshlyBooked<S>(h: History<S>, base: nat, id: EventId, maxAttempts: int, grace: Duration)
    requires base < |h| && h[|h| - 1].op == Op.FailExpired(id, maxAttempts, grace, REAPER_REASON)
    ensures Booked(h, base, |h| - 1, id, Succeeds(h, |h| - 1), maxAttempts, grace)
  {
    var p := |h| - 1;
    var before := At(h, p);
    assert At(h, p + 1) == Apply(before, h[p].at, h[p].op);
  }

  /** A guarded write at the end of the history enters the books under its own outcome. */
  lemma AccountedSnoc<S>(h: History<S>, longer: History<S>, base: nat, calls: map<EventId, nat>, moved: set<EventId>,
                         maxAttempts: int, grace: Duration, id: EventId, ok: bool)
    returns (calls': map<EventId, nat>, moved': set<EventId>)
    requires h < longer && base <= |h| && Accounted(h, base, calls, moved, maxAttempts, grace) && id !in calls
    requires longer[|longer| - 1].op == Op.FailExpired(id, maxAttempts, grace, REAPER_REASON)
    requires ok <==> Succeeds(longer, |longer| - 1)
    ensures Accounted(longer, base, calls', moved', maxAttempts, grace)
    ensures calls' == calls[id := |longer| - 1] && calls'.Keys == calls.Keys + {id}
    ensures moved' == (if ok then moved + {id} else moved) && |moved'| == |moved| + if ok then 1 else 0
  {
    calls', moved' := calls[id := |longer| - 1], if ok then moved + {id} else moved;
    forall x | x in calls' {
      StillBooked(h, longer, base, calls, moved, maxAttempts, grace, id, ok, x, calls'[x], x in moved');
    }
  }

  lemma StillBooked<S>(h: History<S>, longer: History<S>, base: nat, calls: map<EventId, nat>, moved: set<EventId>,
                       maxAttempts: int, grace: Duration, id: EventId, ok: bool, x: EventId, p: nat, did: bool)
    requires h < longer && base <= |h| && Accounted(h, base, calls, moved, maxAttempts, grace) && id !in calls
    requires longer[|longer| - 1].op == Op.FailExpired(id, maxAttempts, grace, REAPER_REASON)
    requires ok <==> Succeeds(longer, |longer| - 1)
    requires x in calls || x == id
    requires p == (if x == id then |longer| - 1 else calls[x])
    requires did == if x == id then ok else x in moved
    ensures Booked(longer, base, p, x, did, maxAttempts, grace)
  {
    if x == id {
      FreshlyBooked(longer, base, id, maxAttempts, grace);
    } else {
      BookedLater(h, longer, base, p, x, did, maxAttempts, grace);
    }
  }

  /** The clock after the rivals of the first n listed events the pass tries to end. */
  ghost function PassClock<S>(events: seq<Listed>, n: nat, maxAttempts: int, now: Time,
                              rivals: nat -> seq<Rival<S>>): Time
    requires n <= |events|
  {
    if n == 0 then now
    else
      var before := PassClock(events, n - 1, maxAttempts, now, rivals);
      if events[n - 1].attemptCount < maxAttempts then before else before + TotalWait(rivals(n - 1))
  }

  /** All that happens during the pass: for each exhausted event its rivals' statements and one guarded write. */
  ghost function PassHistory<S>(events: seq<Listed>, n: nat, maxAttempts: int, grace: Duration, now: Time,
                                rivals: nat -> seq<Rival<S>>): History<S>
    requires n <= |events|
  {
    if n == 0 then []
    else
      var before := PassHistory(events, n - 1, maxAttempts, grace, now, rivals);
      if events[n - 1].attemptCount < maxAttempts then before
      else
        before + Stamped(rivals(n - 1), PassClock(events, n - 1, maxAttempts, now, rivals))
        + [Entry(PassClock(events, n, maxAttempts, now, rivals),
                 Op.FailExpired(events[n - 1].id, maxAttempts, grace, REAPER_REASON))]
  }

  lemma PassGrows<S>(start: History<S>, events: seq<Listed>, i: nat, maxAttempts: int, grace: Duration, now: Time,
                     rivals: nat -> seq<Rival<S>>, h: History<S>, longer: History<S>)
    requires i < |events| && events[i].attemptCount >= maxAttempts
    requires h == start + PassHistory(events, i, maxAttempts, grace, now, rivals)
    requires longer == h + Stamped(rivals(i), PassClock(events, i, maxAttempts, now, rivals)) +
      [Entry(PassClock(events, i + 1, maxAttempts, now, rivals),
             Op.FailExpired(events[i].id, maxAttempts, grace, REAPER_REASON))]
    ensures longer == start + PassHistory(events, i + 1, maxAttempts, grace, now, rivals)
  {
  }

  class Queue<S(==)> {
    var rows: Table<S>
    ghost var history: History<S>

    ghost predicate Valid()
      reads this
    {
      Chronological(history) && rows == Replay(history)
    }

    constructor ()
      ensures Valid() && rows == map[] && history == []
    {
      rows := map[];
      history := [];
    }

    /** The state after one statement. */
    twostate predicate Ran(now: Time, op: Op<S>)
      reads this
    {
      && history == old(history) + [Entry(now, op)]
      && rows == Apply(old(rows), now, op)
    }

    /** INSERT of a pending row; false is the unique violation, or DO NOTHING. */
    method Save(id: EventId, subject: S, createdAt: Time, now: Time) returns (ok: bool)
      requires Valid() && NotBefore(history, now)
      modifies this
      ensures Valid() && Ran(now, Insert(id, subject, createdAt))
      ensures ok <==> id !in old(rows) && !HasActive(old(rows), subject)
    {
      ok := id !in rows && !HasActive(rows, subject);
      if ok {
        rows := rows[id := Row(subject, Pending, None, None, createdAt, None, 0, None, None, None)];
      }
      ghost var e := Entry(now, Insert(id, subject, createdAt));
      ReplaySnoc(history, e);
      history := history + [e];
    }

    function ClaimOrder(id: EventId): Time
      requires id in rows
      reads this
    {
      if rows[id].nextAttemptAt.Some? then rows[id].nextAttemptAt.value else rows[id].createdAt
    }

    /** The eligible rows no other transaction has locked. */
    function Eligible(now: Time, skipped: set<EventId>): set<EventId>
      reads this
    {
      set id | id in rows && Claimable(rows[id], now) && id !in skipped
    }

    /** The inner SELECT: the first eligible row in claim order. */
    method PickOldest(now: Time, skipped: set<EventId>) returns (first: Option<EventId>)
      ensures first.None? <==> Eligible(now, skipped) == {}
      ensures first.Some? ==> first.value in Eligible(now, skipped)
      ensures first.Some? ==> forall other :: other in Eligible(now, skipped) ==>
        ClaimOrder(first.value) <= ClaimOrder(other)
    {
      var todo := Eligible(now, skipped);
      first := None;
      while todo != {}
        invariant todo <= Eligible(now, skipped)
        invariant first.None? ==> todo == Eligible(now, skipped)
        invariant first.Some? ==> first.value in Eligible(now, skipped)
        invariant first.Some? ==> forall other ::
          other in Eligible(now, skipped) - todo ==> ClaimOrder(first.value) <= ClaimOrder(other)
        decreases |todo|
      {
        var id :| id in todo;
        if first.None? || ClaimOrder(id) < ClaimOrder(first.value) {
          first := Some(id);
        }
        todo := todo - {id};
      }
    }

    /**
      Claims the oldest eligible row that no concurrent transaction has locked
      (FOR UPDATE SKIP LOCKED), or reports that there is none: every row left alone is
      terminal, waits for a later retry time, or is leased for now.
     */
    method ClaimOne(worker: WorkerId, ttl: Duration, now: Time, skipped: set<EventId>)
      returns (claimed: Option<EventId>)
      requires Valid() && NotBefore(history, now)
      modifies this
      ensures Valid()
      ensures claimed.None? ==> rows == old(rows) && history == old(history)
      ensures claimed.None? ==> forall id :: id in rows && id !in skipped ==>
        || Terminal(rows[id].status)
        || (rows[id].status.Pending? && rows[id].nextAttemptAt.Some? && rows[id].nextAttemptAt.value > now)
        || (rows[id].status.Processing? && rows[id].lockedUntil.Some? && rows[id].lockedUntil.value >= now)
      ensures claimed.Some? ==> claimed.value in old(rows) && claimed.value !in skipped
      ensures claimed.Some? ==> var r := old(rows)[claimed.value];
        || (r.status.Pending? && (r.nextAttemptAt.Some? ==> r.nextAttemptAt.value <= now))
        || (r.status.Processing? && r.lockedUntil.Some? && r.lockedUntil.value < now)
      ensures claimed.Some? ==> forall id :: id in old(rows) && id !in skipped ==>
        var r, other := old(rows)[claimed.value], old(rows)[id];
        || Terminal(other.status)
        || (other.status.Pending? && other.nextAttemptAt.Some? && other.nextAttemptAt.value > now)
        || (other.status.Processing? && other.lockedUntil.Some? && other.lockedUntil.value >= now)
        || (if r.nextAttemptAt.Some? then r.nextAttemptAt.value else r.createdAt) <=
             if other.nextAttemptAt.Some? then other.nextAttemptAt.value else other.createdAt
      ensures claimed.Some? ==> Ran(now, Claim(claimed.value, worker, ttl))
    {
      claimed := PickOldest(now, skipped);
      EligibleColumns(now, skipped);
      if claimed.Some? {
        var ok := ClaimRow(claimed.value, worker, ttl, now);
      }
    }

    /** Of the rows nobody has locked, those passed over are terminal, waiting or leased. */
    lemma EligibleColumns(now: Time, skipped: set<EventId>)
      requires Valid()
      ensures forall id :: id in rows && id !in skipped && id !in Eligible(now, skipped) ==>
        || Terminal(rows[id].status)
        || (rows[id].status.Pending? && rows[id].nextAttemptAt.Some? && rows[id].nextAttemptAt.value > now)
        || (rows[id].status.Processing? && rows[id].lockedUntil.Some? && rows[id].lockedUntil.value >= now)
    {
      ReachableRows(history, |history|);
    }

    /** The UPDATE half of a claim, on the row the inner SELECT picked. */
    method ClaimRow(id: EventId, worker: WorkerId, ttl: Duration, now: Time) returns (ok: bool)
      requires Valid() && NotBefore(history, now)
      modifies this
      ensures Valid() && Ran(now, Claim(id, worker, ttl))
      ensures ok <==> id in old(rows) && Claimable(old(rows)[id], now)
    {
      ok := id in rows && Claimable(rows[id], now);
      ghost var e := Entry(now, Claim(id, worker, ttl));
      ReplaySnoc(history, e);
      if ok {
        rows := rows[id := rows[id].(
          status := Processing, lockedUntil := Some(now + ttl), lockedBy := Some(worker),
          attemptCount := rows[id].attemptCount + 1)];
      }
      history := history + [e];
    }

    /** Pushes the lease of a live owner out to now + ttl; false is ErrLeaseLost. */
    method ExtendLease(id: EventId, worker: WorkerId, ttl: Duration, now: Time) returns (ok: bool)
      requires Valid() && NotBefore(history, now)
      modifies this
      ensures Valid() && Ran(now, Extend(id, worker, ttl))
      ensures ok <==> id in old(rows) && OwnedBy(old(rows)[id], worker, now)
    {
      ok := id in rows && OwnedBy(rows[id], worker, now);
      ghost var e := Entry(now, Extend(id, worker, ttl));
      ReplaySnoc(history, e);
      if ok {
        rows := rows[id := rows[id].(lockedUntil := Some(now + ttl))];
      }
      history := history + [e];
    }

    /** Writes a terminal verdict for a live owner; false is ErrLeaseLost. */
    method FinalizeWithLease(id: EventId, worker: WorkerId, outcome: Outcome,
                             summaryId: Option<nat>, error: Option<string>, now: Time)
      returns (ok: bool)
      requires Valid() && NotBefore(history, now)
      modifies this
      ensures Valid() && Ran(now, Finalize(id, worker, outcome, summaryId, error))
      ensures ok <==> id in old(rows) && OwnedBy(old(rows)[id], worker, now)
    {
      ok := id in rows && OwnedBy(rows[id], worker, now);
      ghost var e := Entry(now, Finalize(id, worker, outcome, summaryId, error));
      ReplaySnoc(history, e);
      if ok {
        var r := rows[id].(status := outcome, processedAt := Some(now), lockedUntil := None, lockedBy := None);
        if summaryId.Some? { r := r.(summaryId := summaryId); }
        if error.Some? { r := r.(error := error); }
        rows := rows[id := r];
      }
      history := history + [e];
    }

    /** Sends the event of a live owner back to pending; false is ErrLeaseLost. */
    method MarkForRetry(id: EventId, worker: WorkerId, retryAt: Time, reason: string, now: Time) returns (ok: bool)
      requires Valid() && NotBefore(history, now)
      modifies this
      ensures Valid() && Ran(now, Op.MarkForRetry(id, worker, retryAt, reason))
      ensures ok <==> id in old(rows) && OwnedBy(old(rows)[id], worker, now)
    {
      ok := id in rows && OwnedBy(rows[id], worker, now);
      ghost var e := Entry(now, Op.MarkForRetry(id, worker, retryAt, reason));
      ReplaySnoc(history, e);
      if ok {
        rows := rows[id := rows[id].(
          status := Pending, nextAttemptAt := Some(retryAt), error := Some(reason),
          lockedUntil := None, lockedBy := None)];
      }
      history := history + [e];
    }

    /** Ends a stuck event whose lease is past grace and whose attempts are used up. */
    method FailExpired(id: EventId, maxAttempts: int, grace: Duration, reason: string, now: Time) returns (ok: bool)
      requires Valid() && NotBefore(history, now)
      modifies this
      ensures Valid() && Ran(now, Op.FailExpired(id, maxAttempts, grace, reason))
      ensures ok <==> id in old(rows) && Reapable(old(rows)[id], maxAttempts, grace, now)
    {
      ok := id in rows && Reapable(rows[id], maxAttempts, grace, now);
      ghost var e := Entry(now, Op.FailExpired(id, maxAttempts, grace, reason));
      ReplaySnoc(history, e);
      if ok {
        rows := rows[id := rows[id].(
          status := Failed, error := Some(reason), processedAt := Some(now), lockedUntil := None, lockedBy := None)];
      }
      history := history + [e];
    }

    /** Any one statement, as a rival runs it. */
    method Run(op: Op<S>, now: Time)
      requires Valid() && NotBefore(history, now)
      modifies this
      ensures Valid() && history == old(history) + [Entry(now, op)]
    {
      var ok;
      match op
      case Insert(id, subject, createdAt) => ok := Save(id, subject, createdAt, now);
      case Claim(id, worker, ttl) => ok := ClaimRow(id, worker, ttl, now);
      case Extend(id, worker, ttl) => ok := ExtendLease(id, worker, ttl, now);
      case Finalize(id, worker, outcome, summaryId, error) =>
        ok := FinalizeWithLease(id, worker, outcome, summaryId, error, now);
      case MarkForRetry(id, worker, retryAt, reason) => ok := MarkForRetry(id, worker, retryAt, reason, now);
      case FailExpired(id, maxAttempts, grace, reason) => ok := FailExpired(id, maxAttempts, grace, reason, now);
    }

    /** Lets rivals run a sequence of statements. */
    method Interleave(steps: seq<Rival<S>>, now: Time)
      requires Valid() && NotBefore(history, now)
      modifies this
      ensures Valid() && history == old(history) + Stamped(steps, now)
      ensures NotBefore(history, now + TotalWait(steps))
      decreases |steps|
    {
      if steps == [] {
        assert Stamped(steps, now) == [];
      } else {
        var at := now + steps[0].wait;
        ghost var h := history;
        Run(steps[0].op, at);
        Interleave(steps[1..], at);
        assert history == h + ([Entry(at, steps[0].op)] + Stamped(steps[1..], at));
      }
    }

    /** Back to an earlier state: ROLLBACK, or what one reader saw of the table before. */
    method Restore(earlier: Table<S>, ghost h: History<S>)
      requires Chronological(h) && earlier == Replay(h)
      modifies this
      ensures Valid() && rows == earlier && history == h
    {
      rows := earlier;
      history := h;
    }

    /** The rows whose lease has been expired for at least grace. */
    function Lapsed(grace: Duration, now: Time): set<EventId>
      reads this
    {
      set id | id in rows && LapsedFor(rows[id], grace, now)
    }

    /** Up to limit lapsed rows, longest expired first. */
    method ListLeaseExpired(grace: Duration, limit: nat, now: Time) returns (listed: seq<Listed>)
      ensures |listed| == Min(limit, |Lapsed(grace, now)|)
      ensures forall i :: 0 <= i < |listed| ==> ListedInTurn(rows, Lapsed(grace, now), listed, i)
    {
      listed := [];
      var lapsed := Lapsed(grace, now);
      var rest := lapsed;
      while |listed| < limit && rest != {}
        invariant rest == lapsed - Ids(listed)
        invariant |listed| + |rest| == |lapsed| && |listed| <= limit
        invariant forall i :: 0 <= i < |listed| ==> ListedInTurn(rows, lapsed, listed, i)
        decreases |rest|
      {
        var id := LongestExpired(rest);
        ListedSnoc(rows, lapsed, listed, Listed(id, rows[id].attemptCount));
        listed := listed + [Listed(id, rows[id].attemptCount)];
        rest := rest - {id};
      }
    }

    /**
      Such a listing in the columns' own terms: events whose lease ended more than grace
      ago, the earliest end first, none twice, and every one of them if it is not full.
     */
    lemma ListingMeans(grace: Duration, limit: nat, now: Time, listed: seq<Listed>)
      requires |listed| == Min(limit, |Lapsed(grace, now)|)
      requires forall i :: 0 <= i < |listed| ==> ListedInTurn(rows, Lapsed(grace, now), listed, i)
      ensures forall i :: 0 <= i < |listed| ==>
        && listed[i].id in rows && rows[listed[i].id].attemptCount == listed[i].attemptCount
        && rows[listed[i].id].status.Processing? && rows[listed[i].id].lockedUntil.Some?
        && rows[listed[i].id].lockedUntil.value < now - grace
      ensures forall i, j :: 0 <= i < j < |listed| ==>
        && listed[i].id != listed[j].id && listed[i].id in rows && listed[j].id in rows
        && rows[listed[i].id].lockedUntil.Some? && rows[listed[j].id].lockedUntil.Some?
        && rows[listed[i].id].lockedUntil.value <= rows[listed[j].id].lockedUntil.value
      ensures |listed| < limit ==>
        forall id ::
          (&& id in rows && rows[id].status.Processing?
           && rows[id].lockedUntil.Some? && rows[id].lockedUntil.value < now - grace) ==> id in Ids(listed)
    {
      var lapsed := Lapsed(grace, now);
      InTurnFaithful(rows, lapsed, listed);
      forall i, j | 0 <= i < j < |listed|
        ensures listed[i].id != listed[j].id && listed[j].id in lapsed - Ids(listed[..i])
        ensures ListedInTurn(rows, lapsed, listed, i)
      {
        InTurnDistinct(rows, lapsed, listed, i, j);
        forall k | 0 <= k < i ensures listed[..i][k].id != listed[j].id {
          InTurnDistinct(rows, lapsed, listed, k, j);
        }
      }
      if |listed| < limit {
        forall id | id in lapsed ensures id in Ids(listed) {
          AllListed(listed, lapsed, id);
        }
      }
    }

    method LongestExpired(ids: set<EventId>) returns (first: EventId)
      requires ids != {} && forall id :: id in ids ==> id in rows && rows[id].lockedUntil.Some?
      ensures first in ids
      ensures forall id :: id in ids ==> rows[first].lockedUntil.value <= rows[id].lockedUntil.value
    {
      first :| first in ids;
      var todo := ids - {first};
      while todo != {}
        invariant todo <= ids && first in ids
        invariant forall id :: id in ids - todo ==> rows[first].lockedUntil.value <= rows[id].lockedUntil.value
        decreases |todo|
      {
        var id :| id in todo;
        if rows[id].lockedUntil.value < rows[first].lockedUntil.value {
          first := id;
        }
        todo := todo - {id};
      }
    }

    /** Rivals run; then the guarded write that ends one stuck event. */
    method ReapOne(id: EventId, maxAttempts: int, grace: Duration, now: Time, rivals: seq<Rival<S>>)
      returns (ok: bool, later: Time)
      requires Valid() && NotBefore(history, now)
      modifies this
      ensures Valid() && NotBefore(history, later)
      ensures later == now + TotalWait(rivals)
      ensures history ==
        old(history) + Stamped(rivals, now) + [Entry(later, Op.FailExpired(id, maxAttempts, grace, REAPER_REASON))]
      ensures ok <==> Succeeds(history, |history| - 1)
    {
      later := now + TotalWait(rivals);
      Interleave(rivals, now);
      ghost var before := history;
      ok := FailExpired(id, maxAttempts, grace, REAPER_REASON, later);
      StablePrefix(before, history, |before|);
    }

    /** ReapOne, entered in the books of the pass. */
    method ReapBooked(id: EventId, maxAttempts: int, grace: Duration, now: Time, rivals: seq<Rival<S>>,
                      ghost base: nat, ghost calls: map<EventId, nat>, ghost moved: set<EventId>)
      returns (ok: bool, later: Time, ghost calls': map<EventId, nat>, ghost moved': set<EventId>)
      requires Valid() && NotBefore(history, now) && base <= |history|
      requires Accounted(history, base, calls, moved, maxAttempts, grace) && id !in calls
      modifies this
      ensures Valid() && NotBefore(history, later) && later == now + TotalWait(rivals)
      ensures history ==
        old(history) + Stamped(rivals, now) + [Entry(later, Op.FailExpired(id, maxAttempts, grace, REAPER_REASON))]
      ensures Accounted(history, base, calls', moved', maxAttempts, grace)
      ensures calls'.Keys == calls.Keys + {id}
      ensures |moved'| == |moved| + if ok then 1 else 0
    {
      ok, later := ReapOne(id, maxAttempts, grace, now, rivals);
      calls', moved' := AccountedSnoc(old(history), history, base, calls, moved, maxAttempts, grace, id, ok);
    }

    /** Where the loop stands after i events: what happened, what is booked, and how many were moved. */
    ghost predicate Passing(start: History<S>, events: seq<Listed>, i: nat, maxAttempts: int, grace: Duration,
                            now: Time, rivals: nat -> seq<Rival<S>>, clock: Time, calls: map<EventId, nat>,
                            moved: set<EventId>)
      requires i <= |events|
      reads this
    {
      && Valid() && NotBefore(history, clock) && clock == PassClock(events, i, maxAttempts, now, rivals)
      && history == start + PassHistory(events, i, maxAttempts, grace, now, rivals)
      && Accounted(history, |start|, calls, moved, maxAttempts, grace)
      && calls.Keys == Exhausted(events[..i], maxAttempts)
    }

    lemma PassStarts(events: seq<Listed>, maxAttempts: int, grace: Duration, now: Time, rivals: nat -> seq<Rival<S>>)
      requires Valid() && NotBefore(history, now)
      ensures Passing(history, events, 0, maxAttempts, grace, now, rivals, now, map[], {})
    {
    }

    lemma PassEnds(start: History<S>, events: seq<Listed>, maxAttempts: int, grace: Duration, now: Time,
                   rivals: nat -> seq<Rival<S>>, clock: Time, calls: map<EventId, nat>, moved: set<EventId>)
      requires Passing(start, events, |events|, maxAttempts, grace, now, rivals, clock, calls, moved)
      ensures history == start + PassHistory(events, |events|, maxAttempts, grace, now, rivals)
      ensures calls.Keys == Exhausted(events, maxAttempts)
    {
      assert events[..|events|] == events;
    }

    lemma PassSkips(start: History<S>, events: seq<Listed>, i: nat, maxAttempts: int, grace: Duration, now: Time,
                    rivals: nat -> seq<Rival<S>>, clock: Time, calls: map<EventId, nat>, moved: set<EventId>)
      requires i < |events| && events[i].attemptCount < maxAttempts
      requires Passing(start, events, i, maxAttempts, grace, now, rivals, clock, calls, moved)
      ensures Passing(start, events, i + 1, maxAttempts, grace, now, rivals, clock, calls, moved)
    {
      ExhaustedSnoc(events, i, maxAttempts);
    }

    /** One turn of the loop, for an event that is out of attempts. */
    method ReapNext(events: seq<Listed>, i: nat, maxAttempts: int, grace: Duration, rivals: seq<Rival<S>>, clock: Time,
                    ghost start: History<S>, ghost now: Time, ghost all: nat -> seq<Rival<S>>,
                    ghost calls: map<EventId, nat>, ghost moved: set<EventId>)
      returns (ok: bool, clock': Time, ghost calls': map<EventId, nat>, ghost moved': set<EventId>)
      requires i < |events| && DistinctIds(events) && events[i].attemptCount >= maxAttempts
      requires rivals == all(i) && Passing(start, events, i, maxAttempts, grace, now, all, clock, calls, moved)
      modifies this
      ensures Passing(start, events, i + 1, maxAttempts, grace, now, all, clock', calls', moved')
      ensures |moved'| == |moved| + if ok then 1 else 0
    {
      ExhaustedSnoc(events, i, maxAttempts);
      ExhaustedFresh(events, i, maxAttempts);
      ok, clock', calls', moved' := ReapBooked(events[i].id, maxAttempts, grace, clock, rivals, |start|, calls, moved);
      PassGrows(start, events, i, maxAttempts, grace, now, all, old(history), history);
    }

    /** The reaper's loop over its listing; rivals run before each guarded write. */
    method ReapListed(events: seq<Listed>, maxAttempts: int, grace: Duration, now: Time, rivals: nat -> seq<Rival<S>>)
      returns (terminated: nat, ghost calls: map<EventId, nat>, ghost moved: set<EventId>)
      requires Valid() && NotBefore(history, now)
      requires DistinctIds(events)
      modifies this
      ensures Valid() && history == old(history) + PassHistory(events, |events|, maxAttempts, grace, now, rivals)
      ensures Accounted(history, |old(history)|, calls, moved, maxAttempts, grace)
      ensures calls.Keys == Exhausted(events, maxAttempts)
      ensures terminated == |moved|
    {
      terminated, calls, moved := 0, map[], {};
      var clock := now;
      PassStarts(events, maxAttempts, grace, now, rivals);
      for i := 0 to |events|
        invariant Passing(old(history), events, i, maxAttempts, grace, now, rivals, clock, calls, moved)
        invariant terminated == |moved|
      {
        if events[i].attemptCount < maxAttempts {
          PassSkips(old(history), events, i, maxAttempts, grace, now, rivals, clock, calls, moved);
          continue;
        }
        var ok;
        ok, clock, calls, moved :=
          ReapNext(events, i, maxAttempts, grace, rivals(i), clock, old(history), now, rivals, calls, moved);
        if ok {
          terminated := terminated + 1;
        }
      }
      PassEnds(old(history), events, maxAttempts, grace, now, rivals, clock, calls, moved);
    }

    /**
      One reaper pass.  Rivals run any statements between the listing and each
      guarded write.  The count returned is exactly the number of events moved.
     */
    method ReapStuckEvents(configAttempts: int, configGrace: Duration, now: Time, rivals: nat -> seq<Rival<S>>)
      returns (terminated: nat, ghost listed: seq<Listed>, ghost calls: map<EventId, nat>, ghost moved: set<EventId>)
      requires Valid() && NotBefore(history, now)
      modifies this
      ensures Valid()
      ensures |listed| == Min(100, |old(Lapsed(EffectiveGrace(configGrace), now))|)
      ensures forall i :: 0 <= i < |listed| ==>
        old(ListedInTurn(rows, Lapsed(EffectiveGrace(configGrace), now), listed, i))
      ensures history == old(history) +
        PassHistory(listed, |listed|, EffectiveAttempts(configAttempts), EffectiveGrace(configGrace), now, rivals)
      ensures Accounted(history, |old(history)|, calls, moved,
                        EffectiveAttempts(configAttempts), EffectiveGrace(configGrace))
      ensures calls.Keys == Exhausted(listed, EffectiveAttempts(configAttempts))
      ensures calls.Keys <= old(Stuck(EffectiveAttempts(configAttempts), EffectiveGrace(configGrace), now))
      ensures |old(Lapsed(EffectiveGrace(configGrace), now))| <= REAPER_BATCH_LIMIT ==>
        calls.Keys == old(Stuck(EffectiveAttempts(configAttempts), EffectiveGrace(configGrace), now))
      ensures terminated == |moved|
    {
      var maxAttempts, grace := EffectiveAttempts(configAttempts), EffectiveGrace(configGrace);
      var events := ListLeaseExpired(grace, REAPER_BATCH_LIMIT, now);
      ghost var lapsed, stuck := Lapsed(grace, now), Stuck(maxAttempts, grace, now);
      forall i, j | 0 <= i < j < |events| ensures events[i].id != events[j].id {
        InTurnDistinct(rows, lapsed, events, i, j);
      }
      InTurnFaithful(rows, lapsed, events);
      if |lapsed| <= REAPER_BATCH_LIMIT {
        forall id | id in stuck ensures id in Exhausted(events, maxAttempts) {
          AllListed(events, lapsed, id);
        }
      }
      listed := events;
      terminated, calls, moved := ReapListed(events, maxAttempts, grace, now, rivals);
    }

    /** The rows the reaper should end. */
    ghost function Stuck(maxAttempts: int, grace: Duration, now: Time): set<EventId>
      reads this
    {
      set id | id in rows && Reapable(rows[id], maxAttempts, grace, now)
    }
  }
}
