/**
  The lease protocol of the two outbox tables, one SQL statement a step.

  A history is the list of statements that reached one table, in commit order,
  with the database clock at each; Replay gives the table it leaves behind.  The
  theorems hold of every history whose clock never runs backwards, so of every
  interleaving of any number of workers, schedulers and reapers.
 */
module Lease {
  import opened Prelude

  type EventId = nat

  datatype Status = Pending | Processing | Completed | Failed | Expired

  predicate Terminal(s: Status) { s.Completed? || s.Failed? || s.Expired? }

  predicate Active(s: Status) { s.Pending? || s.Processing? }

  type Outcome = s: Status | Terminal(s) witness Completed

  /** One row; subject is the key of the partial unique index over active rows. */
  datatype Row<S> = Row(
    subject: S,
    status: Status,
    summaryId: Option<nat>,
    error: Option<string>,
    createdAt: Time,
    processedAt: Option<Time>,
    attemptCount: nat,
    nextAttemptAt: Option<Time>,
    lockedBy: Option<WorkerId>,
    lockedUntil: Option<Time>)

  type Table<S> = map<EventId, Row<S>>

  datatype Op<S> =
    | Insert(id: EventId, subject: S, createdAt: Time)
    | Claim(id: EventId, worker: WorkerId, ttl: Duration)
    | Extend(id: EventId, worker: WorkerId, ttl: Duration)
    | Finalize(id: EventId, worker: WorkerId, outcome: Outcome, summaryId: Option<nat>, error: Option<string>)
    | MarkForRetry(id: EventId, worker: WorkerId, retryAt: Time, reason: string)
    | FailExpired(id: EventId, maxAttempts: int, grace: Duration, reason: string)

  /** A step that succeeds only for the worker holding the lease. */
  predicate OwnerStep<S>(op: Op<S>) { op.Extend? || op.Finalize? || op.MarkForRetry? }

  // ---------------------------------------------------------------- guards

  predicate Claimable<S>(r: Row<S>, now: Time) {
    || (r.status.Pending? && (r.nextAttemptAt.None? || r.nextAttemptAt.value <= now))
    || (r.status.Processing? && r.lockedUntil.Some? && r.lockedUntil.value < now)
  }

  predicate OwnedBy<S>(r: Row<S>, worker: WorkerId, now: Time) {
    && r.lockedBy == Some(worker)
    && r.status.Processing?
    && r.lockedUntil.Some? && r.lockedUntil.value > now
  }

  predicate LapsedFor<S>(r: Row<S>, grace: Duration, now: Time) {
    r.status.Processing? && r.lockedUntil.Some? && r.lockedUntil.value < now - grace
  }

  predicate Reapable<S>(r: Row<S>, maxAttempts: int, grace: Duration, now: Time) {
    r.attemptCount >= maxAttempts && LapsedFor(r, grace, now)
  }

  predicate HasActive<S(==)>(t: Table<S>, subject: S) {
    exists id :: id in t && t[id].subject == subject && Active(t[id].status)
  }

  // --------------------------------------------------------------- effects

  ghost function NewRow<S>(subject: S, createdAt: Time): Row<S> {
    Row(subject, Pending, None, None, createdAt, None, 0, None, None, None)
  }

  function Coalesce<T>(a: Option<T>, b: Option<T>): Option<T> { if a.Some? then a else b }

  /** Whether the statement changes its row (for Insert: creates it). */
  ghost predicate Accepts<S>(t: Table<S>, now: Time, op: Op<S>) {
    match op
    case Insert(id, subject, _) => id !in t && !HasActive(t, subject)
    case Claim(id, _, _) => id in t && Claimable(t[id], now)
    case Extend(id, worker, _) => id in t && OwnedBy(t[id], worker, now)
    case Finalize(id, worker, _, _, _) => id in t && OwnedBy(t[id], worker, now)
    case MarkForRetry(id, worker, _, _) => id in t && OwnedBy(t[id], worker, now)
    case FailExpired(id, maxAttempts, grace, _) => id in t && Reapable(t[id], maxAttempts, grace, now)
  }

  ghost function Effect<S>(t: Table<S>, now: Time, op: Op<S>): Row<S>
    requires Accepts(t, now, op)
  {
    match op
    case Insert(_, subject, createdAt) => NewRow(subject, createdAt)
    case Claim(id, worker, ttl) =>
      t[id].(status := Processing, lockedUntil := Some(now + ttl), lockedBy := Some(worker),
             attemptCount := t[id].attemptCount + 1)
    case Extend(id, _, ttl) => t[id].(lockedUntil := Some(now + ttl))
    case Finalize(id, _, outcome, summaryId, error) =>
      t[id].(status := outcome, summaryId := Coalesce(summaryId, t[id].summaryId),
             error := Coalesce(error, t[id].error), processedAt := Some(now),
             lockedUntil := None, lockedBy := None)
    case MarkForRetry(id, _, retryAt, reason) =>
      t[id].(status := Pending, nextAttemptAt := Some(retryAt), error := Some(reason),
             lockedUntil := None, lockedBy := None)
    case FailExpired(id, _, _, reason) =>
      t[id].(status := Failed, error := Some(reason), processedAt := Some(now),
             lockedUntil := None, lockedBy := None)
  }

  ghost function Apply<S>(t: Table<S>, now: Time, op: Op<S>): Table<S> {
    if Accepts(t, now, op) then t[op.id := Effect(t, now, op)] else t
  }

  // --------------------------------------------------------------- history

  datatype Entry<S> = Entry(at: Time, op: Op<S>)

  type History<S> = seq<Entry<S>>

  ghost predicate InOrder<S>(h: History<S>, i: nat)
    requires 0 < i < |h|
  {
    h[i - 1].at <= h[i].at
  }

  /** The database clock never runs backwards. */
  ghost predicate Chronological<S>(h: History<S>) {
    forall i :: 0 < i < |h| ==> InOrder(h, i)
  }

  /** The clock reads no earlier than at the latest statement. */
  ghost predicate NotBefore<S>(h: History<S>, now: Time) {
    h == [] || h[|h| - 1].at <= now
  }

  /** The table after the first n statements. */
  ghost function At<S>(h: History<S>, n: nat): Table<S>
    requires n <= |h|
  {
    if n == 0 then map[] else Apply(At(h, n - 1), h[n - 1].at, h[n - 1].op)
  }

  ghost function Replay<S>(h: History<S>): Table<S> { At(h, |h|) }

  /** Statement k of the history changed its row. */
  ghost predicate Succeeds<S>(h: History<S>, k: nat)
    requires k < |h|
  {
    Accepts(At(h, k), h[k].at, h[k].op)
  }

  /** Statement k of the history is a successful claim of the event. */
  ghost predicate ClaimedAt<S>(h: History<S>, k: nat, id: EventId)
    requires k < |h|
  {
    h[k].op.Claim? && h[k].op.id == id && Succeeds(h, k)
  }

  /** How often the event was claimed in the first n statements. */
  ghost function Claims<S>(h: History<S>, n: nat, id: EventId): nat
    requires n <= |h|
  {
    if n == 0 then 0 else Claims(h, n - 1, id) + if ClaimedAt(h, n - 1, id) then 1 else 0
  }

  /** The latest claim of the event among the first n statements, or -1. */
  ghost function LastClaim<S>(h: History<S>, n: nat, id: EventId): (j: int)
    requires n <= |h|
    ensures -1 <= j < n
    ensures 0 <= j ==> ClaimedAt(h, j, id)
    ensures forall i :: j < i < n ==> !ClaimedAt(h, i, id)
  {
    if n == 0 then -1
    else if ClaimedAt(h, n - 1, id) then n - 1
    else LastClaim(h, n - 1, id)
  }

  /** What happened first does not depend on what happens next. */
  lemma {:induction false} AtPrefix<S>(h: History<S>, more: History<S>, n: nat)
    requires n <= |h|
    ensures At(h + more, n) == At(h, n)
  {
    if n > 0 {
      AtPrefix(h, more, n - 1);
    }
  }

  // ------------------------------------------------------------ invariants

  ghost predicate RowInvariant<S>(r: Row<S>) {
    && (r.status.Processing? <==> r.lockedBy.Some?)
    && (r.status.Processing? <==> r.lockedUntil.Some?)
    && (Terminal(r.status) <==> r.processedAt.Some?)
  }

  /** Every reachable row keeps its columns consistent, and attempt_count counts its claims. */
  lemma {:induction false} ReachableRows<S>(h: History<S>, n: nat)
    requires n <= |h|
    ensures forall id :: id in At(h, n) ==> RowInvariant(At(h, n)[id])
    ensures forall id :: id in At(h, n) ==> At(h, n)[id].attemptCount == Claims(h, n, id)
    ensures forall id :: id !in At(h, n) ==> Claims(h, n, id) == 0
  {
    if n > 0 {
      ReachableRows(h, n - 1);
    }
  }

  /** At most one active event per subject, whatever was inserted, claimed or retried. */
  lemma {:induction false} UniqueActive<S>(h: History<S>, n: nat, a: EventId, b: EventId)
    requires n <= |h| && a in At(h, n) && b in At(h, n) && a != b
    requires Active(At(h, n)[a].status) && Active(At(h, n)[b].status)
    ensures At(h, n)[a].subject != At(h, n)[b].subject
  {
    var before := At(h, n - 1);
    if a in before && b in before && Active(before[a].status) && Active(before[b].status) {
      UniqueActive(h, n - 1, a, b);
    }
  }

  /** A terminal row never changes again. */
  lemma {:induction false} TerminalIsForever<S>(h: History<S>, i: nat, n: nat, id: EventId)
    requires i <= n <= |h| && id in At(h, i) && Terminal(At(h, i)[id].status)
    ensures id in At(h, n) && At(h, n)[id] == At(h, i)[id]
  {
    if i < n {
      TerminalIsForever(h, i, n - 1, id);
    }
  }

  /** Statement k ended the event. */
  ghost predicate EndedBy<S>(h: History<S>, k: nat, id: EventId)
    requires k < |h|
  {
    (h[k].op.Finalize? || h[k].op.FailExpired?) && h[k].op.id == id && Succeeds(h, k)
  }

  /** A terminal row carries the clock and verdict of the one statement that ended it. */
  lemma {:induction false} TerminalStamp<S>(h: History<S>, n: nat, id: EventId) returns (k: nat)
    requires n <= |h| && id in At(h, n) && Terminal(At(h, n)[id].status)
    ensures k < n && EndedBy(h, k, id)
    ensures At(h, n)[id].processedAt == Some(h[k].at)
    ensures At(h, n)[id].status == if h[k].op.Finalize? then h[k].op.outcome else Failed
    ensures forall i :: 0 <= i < n && i != k ==> !EndedBy(h, i, id)
  {
    var before := At(h, n - 1);
    if id in before && Terminal(before[id].status) {
      k := TerminalStamp(h, n - 1, id);
    } else {
      k := n - 1;
      forall i | 0 <= i < n - 1 ensures !EndedBy(h, i, id) {
        if EndedBy(h, i, id) {
          assert id in At(h, i + 1) && Terminal(At(h, i + 1)[id].status);
          TerminalIsForever(h, i + 1, n - 1, id);
        }
      }
    }
  }

  /** Statement j sent the event back to pending until retryAt. */
  ghost predicate RetriedAt<S>(h: History<S>, j: nat, id: EventId)
    requires j < |h|
  {
    h[j].op.MarkForRetry? && h[j].op.id == id && Succeeds(h, j)
  }

  /** A rescheduled event is not claimed before its retry time, by anyone. */
  lemma RetryIsHonoured<S>(h: History<S>, j: nat, k: nat, id: EventId)
    requires Chronological(h) && j < k < |h| && RetriedAt(h, j, id) && ClaimedAt(h, k, id)
    requires forall i :: j < i < k ==> !RetriedAt(h, i, id)
    ensures h[k].at >= h[j].op.retryAt
  {
    RetryGate(h, j, k, id);
  }

  lemma {:induction false} RetryGate<S>(h: History<S>, j: nat, n: nat, id: EventId)
    requires Chronological(h) && j < n < |h| && RetriedAt(h, j, id)
    requires forall i :: j < i < n ==> !RetriedAt(h, i, id)
    ensures id in At(h, n) && At(h, n)[id].nextAttemptAt == Some(h[j].op.retryAt)
    ensures At(h, n)[id].status.Pending? || h[n].at >= h[j].op.retryAt
  {
    if j < n - 1 {
      RetryGate(h, j, n - 1, id);
      assert !RetriedAt(h, n - 1, id) && InOrder(h, n);
    }
  }

  // --------------------------------------------------------------- fencing

  /** After the first i statements the worker holds the event's lease, live at instant tau. */
  ghost predicate HeldAt<S>(h: History<S>, id: EventId, worker: WorkerId, i: nat, tau: Time)
    requires i <= |h|
  {
    id in At(h, i) && OwnedBy(At(h, i)[id], worker, tau)
  }

  /** Between statements j and k the lease stayed with the worker and was live at every instant. */
  ghost predicate HeldThroughout<S>(h: History<S>, id: EventId, worker: WorkerId, j: nat, k: nat)
    requires j < k < |h|
  {
    forall i, tau :: j < i <= k && h[i - 1].at <= tau <= h[i].at ==> HeldAt(h, id, worker, i, tau)
  }

  /** Statement i did not change the event, or it was the worker extending its own lease. */
  ghost predicate OwnExtensionAtMost<S>(h: History<S>, id: EventId, worker: WorkerId, i: nat)
    requires i < |h|
  {
    h[i].op.id == id && Succeeds(h, i) ==> h[i].op.Extend? && h[i].op.worker == worker
  }

  /** A lease live after a statement was live before it, unless that statement was the claim. */
  lemma OwnedBefore<S>(t: Table<S>, at: Time, op: Op<S>, id: EventId, worker: WorkerId, later: Time)
    requires at <= later
    requires id in Apply(t, at, op) && OwnedBy(Apply(t, at, op)[id], worker, later)
    requires !(op.Claim? && op.id == id && Accepts(t, at, op))
    ensures id in t && OwnedBy(t[id], worker, at)
    ensures Apply(t, at, op)[id].attemptCount == t[id].attemptCount
    ensures op.id == id && Accepts(t, at, op) ==> op.Extend? && op.worker == worker
  {
  }

  /** Statement i found the lease live, and left the event alone or was its worker extending it. */
  ghost predicate Undisturbed<S>(h: History<S>, id: EventId, worker: WorkerId, i: nat)
    requires i < |h|
  {
    && HeldAt(h, id, worker, i, h[i].at)
    && OwnExtensionAtMost(h, id, worker, i)
  }

  /** A lease live at time t goes back undisturbed to the worker's own claim. */
  lemma {:induction false} HeldSinceClaim<S>(h: History<S>, n: nat, id: EventId, worker: WorkerId, t: Time, j: int)
    requires Chronological(h) && n <= |h| && (n > 0 ==> h[n - 1].at <= t)
    requires id in At(h, n) && OwnedBy(At(h, n)[id], worker, t)
    requires j == LastClaim(h, n, id)
    ensures 0 <= j < n && h[j].op.worker == worker
    ensures forall i :: j < i < n ==> Undisturbed(h, id, worker, i)
    ensures id in At(h, j + 1) && At(h, j + 1)[id].attemptCount == At(h, n)[id].attemptCount
  {
    var before, at, op := At(h, n - 1), h[n - 1].at, h[n - 1].op;
    if j < n - 1 {
      OwnedBefore(before, at, op, id, worker, t);
      assert n > 1 ==> InOrder(h, n - 1);
      HeldSinceClaim(h, n - 1, id, worker, at, j);
      assert Undisturbed(h, id, worker, n - 1);
    } else {
      assert op.worker == worker;
    }
  }

  /**
    Fencing.  When a worker extends, finalizes or reschedules an event, the latest
    claim of that event was its own, its lease was live at every instant since, and
    nobody else claimed, finalized, rescheduled or reaped the event in between.
   */
  lemma Fencing<S>(h: History<S>, k: nat)
    requires Chronological(h) && k < |h| && OwnerStep(h[k].op) && Succeeds(h, k)
    ensures var id, worker, j := h[k].op.id, h[k].op.worker, LastClaim(h, k, h[k].op.id);
      && 0 <= j < k && ClaimedAt(h, j, id) && h[j].op.worker == worker
      && HeldThroughout(h, id, worker, j, k)
      && (forall i :: j < i < k ==> Undisturbed(h, id, worker, i))
      && id in At(h, j + 1) && At(h, j + 1)[id].attemptCount == At(h, k)[id].attemptCount
  {
    var id, worker, j := h[k].op.id, h[k].op.worker, LastClaim(h, k, h[k].op.id);
    assert k > 0 ==> InOrder(h, k);
    HeldSinceClaim(h, k, id, worker, h[k].at, j);
    forall i, tau | j < i <= k && h[i - 1].at <= tau <= h[i].at
      ensures HeldAt(h, id, worker, i, tau)
    {
      assert i < k ==> Undisturbed(h, id, worker, i);
    }
  }

  /** The holder's guard and the guards that take the row away never hold at one instant. */
  lemma GuardsDisjoint<S>(r: Row<S>, worker: WorkerId, rival: WorkerId, maxAttempts: int, grace: Duration, now: Time)
    requires OwnedBy(r, worker, now) && grace >= 0
    ensures !Claimable(r, now) && !Reapable(r, maxAttempts, grace, now)
    ensures rival != worker ==> !OwnedBy(r, rival, now)
  {
  }

  // ------------------------------------------- what the latest statement decides

  /** Statement j is the latest before the n-th that changed the event. */
  ghost predicate LastWord<S>(h: History<S>, j: nat, n: nat, id: EventId)
    requires j < n <= |h|
  {
    h[j].op.id == id && Succeeds(h, j) && forall i :: j < i < n && h[i].op.id == id ==> !Succeeds(h, i)
  }

  lemma {:induction false} RowKept<S>(h: History<S>, j: nat, n: nat, id: EventId)
    requires j < n <= |h| && LastWord(h, j, n, id)
    ensures id in At(h, j + 1) && id in At(h, n) && At(h, n)[id] == At(h, j + 1)[id]
  {
    if j + 1 < n {
      RowKept(h, j, n - 1, id);
    }
  }

  /** The row as the latest statement left it, column by column. */
  lemma ColumnsAfter<S>(h: History<S>, j: nat, n: nat, id: EventId)
    requires j < n <= |h| && LastWord(h, j, n, id)
    ensures id in At(h, n)
    ensures var r, e := At(h, n)[id], h[j];
      match e.op
      case Insert(_, subject, createdAt) =>
        && r.status.Pending? && r.subject == subject && r.createdAt == createdAt && r.attemptCount == 0
        && r.nextAttemptAt.None? && r.error.None? && r.summaryId.None?
      case Claim(_, worker, ttl) =>
        r.status.Processing? && r.lockedBy == Some(worker) && r.lockedUntil == Some(e.at + ttl)
      case Extend(_, worker, ttl) =>
        r.status.Processing? && r.lockedBy == Some(worker) && r.lockedUntil == Some(e.at + ttl)
      case MarkForRetry(_, _, retryAt, reason) =>
        && r.status.Pending? && r.nextAttemptAt == Some(retryAt) && r.error == Some(reason)
        && r.lockedBy.None? && r.lockedUntil.None?
      case Finalize(_, _, outcome, summaryId, error) =>
        && r.status == outcome && r.processedAt == Some(e.at) && r.lockedBy.None? && r.lockedUntil.None?
        && (summaryId.Some? ==> r.summaryId == summaryId) && (error.Some? ==> r.error == error)
      case FailExpired(_, _, _, reason) =>
        && r.status.Failed? && r.processedAt == Some(e.at) && r.error == Some(reason)
        && r.lockedBy.None? && r.lockedUntil.None?
  {
    RowKept(h, j, n, id);
  }

  /** What a statement is not given to write it leaves: the error and summary id of an earlier one stay. */
  lemma ColumnsKept<S>(h: History<S>, j: nat, n: nat, id: EventId)
    requires j < n <= |h| && LastWord(h, j, n, id) && !h[j].op.Insert?
    ensures id in At(h, j) && id in At(h, n)
    ensures var before, r, op := At(h, j)[id], At(h, n)[id], h[j].op;
      && (!op.Finalize? || op.summaryId.None? ==> r.summaryId == before.summaryId)
      && (op.Claim? || op.Extend? || (op.Finalize? && op.error.None?) ==> r.error == before.error)
  {
    RowKept(h, j, n, id);
  }

  /** An event that was never rescheduled has no retry time. */
  lemma {:induction false} NeverRescheduled<S>(h: History<S>, n: nat, id: EventId)
    requires n <= |h| && id in At(h, n) && forall i :: 0 <= i < n ==> !RetriedAt(h, i, id)
    ensures At(h, n)[id].nextAttemptAt.None?
  {
    if id in At(h, n - 1) {
      assert !RetriedAt(h, n - 1, id);
      NeverRescheduled(h, n - 1, id);
    }
  }

  /** Subject and creation time are those of the insert, whatever came later. */
  lemma {:induction false} Origin<S>(h: History<S>, n: nat, id: EventId) returns (i: nat)
    requires n <= |h| && id in At(h, n)
    ensures i < n && InsertedAt(h, i, id)
    ensures At(h, n)[id].subject == h[i].op.subject && At(h, n)[id].createdAt == h[i].op.createdAt
  {
    if id in At(h, n - 1) {
      i := Origin(h, n - 1, id);
    } else {
      i := n - 1;
    }
  }

  /** Statement i added the event. */
  ghost predicate InsertedAt<S>(h: History<S>, i: nat, id: EventId)
    requires i < |h|
  {
    h[i].op.Insert? && h[i].op.id == id && Succeeds(h, i)
  }

  /**
    What can happen to an event next is decided by the latest statement that changed
    it.  An inserted event can be claimed at once, a rescheduled one from its retry
    time on.  A lease claimed or extended at some clock by ttl belongs to its worker
    before that clock plus ttl, to the next claimer after it, and to the reaper later
    by more than grace if the claims are used up.  An ended event is out of reach.
   */
  lemma NextStep<S>(h: History<S>, j: nat, k: nat, id: EventId)
    requires j < k < |h| && LastWord(h, j, k, id) && h[k].op.id == id
    ensures var last, at, now := h[j].op, h[j].at, h[k].at;
      var leased := last.Claim? || last.Extend?;
      Succeeds(h, k) <==>
        match h[k].op
        case Insert(_, _, _) => false
        case Claim(_, _, _) =>
          last.Insert? || (last.MarkForRetry? && now >= last.retryAt) || (leased && now > at + last.ttl)
        case FailExpired(_, maxAttempts, grace, _) =>
          leased && now > at + last.ttl + grace && Claims(h, k, id) >= maxAttempts
        case _ => leased && h[k].op.worker == last.worker && now < at + last.ttl
  {
    ColumnsAfter(h, j, k, id);
    ReachableRows(h, k);
  }

  /** So a rescheduled event is not lost: left alone, it can be claimed at any clock from its retry time on. */
  lemma RetryComesDue<S>(h: History<S>, j: nat, k: nat, id: EventId)
    requires j < k < |h| && RetriedAt(h, j, id) && h[k].op.Claim? && h[k].op.id == id
    requires forall i :: j < i < k && h[i].op.id == id ==> !Succeeds(h, i)
    ensures ClaimedAt(h, k, id) <==> h[k].at >= h[j].op.retryAt
  {
    NextStep(h, j, k, id);
  }

  /** The event has been added by statement i and not been ended before statement k. */
  ghost predicate Unfinished<S>(h: History<S>, i: nat, k: nat, id: EventId)
    requires i < k <= |h|
  {
    InsertedAt(h, i, id) && forall l :: i < l < k ==> !EndedBy(h, l, id)
  }

  lemma UnfinishedIsActive<S>(h: History<S>, i: nat, k: nat, id: EventId)
    requires i < k <= |h| && InsertedAt(h, i, id)
    ensures id in At(h, k) && At(h, k)[id].subject == h[i].op.subject
    ensures Active(At(h, k)[id].status) <==> Unfinished(h, i, k, id)
  {
    SubjectKept(h, i, k, id);
    if Terminal(At(h, k)[id].status) {
      var l := TerminalStamp(h, k, id);
      EndedAfter(h, i, l, id);
    }
    forall l | i < l < k && EndedBy(h, l, id) ensures Terminal(At(h, k)[id].status) {
      EndedStaysEnded(h, l, k, id);
    }
  }

  lemma EndedStaysEnded<S>(h: History<S>, l: nat, k: nat, id: EventId)
    requires l < k <= |h| && EndedBy(h, l, id)
    ensures id in At(h, k) && Terminal(At(h, k)[id].status)
  {
    TerminalIsForever(h, l + 1, k, id);
  }

  lemma {:induction false} SubjectKept<S>(h: History<S>, i: nat, k: nat, id: EventId)
    requires i < k <= |h| && InsertedAt(h, i, id)
    ensures id in At(h, k) && At(h, k)[id].subject == h[i].op.subject
  {
    if i + 1 < k {
      SubjectKept(h, i, k - 1, id);
    }
  }

  /** An event is ended after it is added. */
  lemma {:induction false} EndedAfter<S>(h: History<S>, i: nat, l: nat, id: EventId)
    requires i < |h| && l < |h| && InsertedAt(h, i, id) && EndedBy(h, l, id)
    ensures i < l
  {
    if l < i {
      StaysInTable(h, l, i, id);
    }
  }

  lemma {:induction false} StaysInTable<S>(h: History<S>, l: nat, n: nat, id: EventId)
    requires l <= n <= |h| && id in At(h, l)
    ensures id in At(h, n)
  {
    if l < n {
      StaysInTable(h, l, n - 1, id);
    }
  }

  /** An insert takes effect exactly if its id is new and every earlier event about the subject has been ended. */
  lemma InsertIff<S>(h: History<S>, k: nat)
    requires k < |h| && h[k].op.Insert?
    ensures Succeeds(h, k) <==>
      && (forall i: nat :: i < k ==> !InsertedAt(h, i, h[k].op.id))
      && (forall i: nat, e :: i < k && Unfinished(h, i, k, e) ==> h[i].op.subject != h[k].op.subject)
  {
    forall i: nat, e | i < k && InsertedAt(h, i, e) ensures e in At(h, k) {
      SubjectKept(h, i, k, e);
    }
    if h[k].op.id in At(h, k) {
      var i := Origin(h, k, h[k].op.id);
    }
    forall i: nat, e | i < k && Unfinished(h, i, k, e) && h[i].op.subject == h[k].op.subject
      ensures HasActive(At(h, k), h[k].op.subject)
    {
      UnfinishedIsActive(h, i, k, e);
    }
    if e :| e in At(h, k) && At(h, k)[e].subject == h[k].op.subject && Active(At(h, k)[e].status) {
      var i := Origin(h, k, e);
      UnfinishedIsActive(h, i, k, e);
    }
  }
}
