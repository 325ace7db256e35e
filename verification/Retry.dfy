/**
  Retry policy: exponential backoff over 64-bit durations, and how far it lets an
  event's attempt count grow.
 */
module Retry {
  import opened Prelude
  import opened Lease

  const INT64_MAX := 0x7FFF_FFFF_FFFF_FFFF
  const TWO_64 := 0x1_0000_0000_0000_0000

  predicate IsInt64(x: int) { -INT64_MAX - 1 <= x <= INT64_MAX }

  /** Two's-complement wrap-around of a 64-bit result. */
  function Wrap64(x: int): (w: int)
    ensures IsInt64(w) && (IsInt64(x) ==> w == x)
  {
    (x + INT64_MAX + 1) % TWO_64 - INT64_MAX - 1
  }

  function Pow2(n: nat): (p: nat)
    ensures p >= 1
  {
    if n == 0 then 1 else 2 * Pow2(n - 1)
  }

  datatype Policy = Policy(maxAttempts: int, backoffBase: int, backoffMax: int)

  /** The fallbacks both RetryPolicy() constructors apply to unset configuration. */
  function Effective(configured: Policy): (p: Policy)
    ensures p.maxAttempts >= 1 && p.backoffBase > 0 && p.backoffMax > 0
    ensures if configured.maxAttempts > 0 then p.maxAttempts == configured.maxAttempts else p.maxAttempts == 5
    ensures configured.backoffBase > 0 ==> p.backoffBase == configured.backoffBase
    ensures configured.backoffBase <= 0 ==> p.backoffBase == 10 * 1_000_000_000
    ensures configured.backoffMax > 0 ==> p.backoffMax == configured.backoffMax
    ensures configured.backoffMax <= 0 ==> p.backoffMax == 600 * 1_000_000_000
  {
    Policy(
      if configured.maxAttempts <= 0 then 5 else configured.maxAttempts,
      if configured.backoffBase <= 0 then 10_000_000_000 else configured.backoffBase,
      if configured.backoffMax <= 0 then 600_000_000_000 else configured.backoffMax)
  }

  /** What the documentation promises, over unbounded integers. */
  function Backoff(p: Policy, attempt: int): int {
    if attempt <= 0 then p.backoffBase else Min(p.backoffBase * Pow2(attempt - 1), p.backoffMax)
  }

  /** base doubled n times. */
  function Doubled(base: int, n: nat): int { if n == 0 then base else 2 * Doubled(base, n - 1) }

  lemma {:induction false} DoubledIsProduct(base: int, n: nat)
    ensures Doubled(base, n) == base * Pow2(n)
  {
    if n > 0 {
      DoubledIsProduct(base, n - 1);
      assert base * (2 * Pow2(n - 1)) == 2 * (base * Pow2(n - 1));
    }
  }

  lemma {:induction false} DoubledMonotone(base: int, m: nat, n: nat)
    requires base > 0 && m <= n
    ensures 0 < Doubled(base, m) <= Doubled(base, n)
  {
    if m < n {
      DoubledMonotone(base, m, n - 1);
    } else if n > 0 {
      DoubledMonotone(base, m - 1, n - 1);
    }
  }

  /** A doubling that overflows wraps to a negative number, so the comparison with d catches it. */
  lemma DoublingWraps(d: int)
    requires 0 < d <= INT64_MAX
    ensures Wrap64(d * 2) == if d * 2 <= INT64_MAX then d * 2 else d * 2 - TWO_64
    ensures Wrap64(d * 2) < d <==> d * 2 > INT64_MAX
  {
    if d * 2 > INT64_MAX {
      var x := d * 2 + INT64_MAX + 1;
      assert x == 1 * TWO_64 + (x - TWO_64) && 0 <= x - TWO_64 < TWO_64;
    }
  }

  /** The doubling loop, wrapped at 64 bits, computes the unbounded formula exactly. */
  method CalculateBackoff(p: Policy, attempt: int) returns (d: int)
    requires IsInt64(p.backoffBase) && IsInt64(p.backoffMax) && p.backoffBase > 0 && p.backoffMax > 0
    ensures d == Backoff(p, attempt)
  {
    if attempt <= 0 {
      return p.backoffBase;
    }
    DoubledIsProduct(p.backoffBase, attempt - 1);
    d := DoubleUpTo(p, attempt);
  }

  /** The loop of CalculateBackoff. */
  method DoubleUpTo(p: Policy, attempt: int) returns (d: int)
    requires IsInt64(p.backoffBase) && IsInt64(p.backoffMax) && p.backoffBase > 0 && p.backoffMax > 0 && attempt >= 1
    ensures d == Min(Doubled(p.backoffBase, attempt - 1), p.backoffMax)
  {
    d := p.backoffBase;
    var i := 1;
    while i < attempt
      invariant 1 <= i <= attempt
      invariant d == Doubled(p.backoffBase, i - 1) && 0 < d <= INT64_MAX
      invariant i > 1 ==> d <= p.backoffMax
    {
      DoublingWraps(d);
      DoubledMonotone(p.backoffBase, i, attempt - 1);
      var next := Wrap64(d * 2);
      if next < d || next > p.backoffMax {
        return p.backoffMax;
      }
      d := next;
      i := i + 1;
    }
    if d > p.backoffMax {
      return p.backoffMax;
    }
  }

  /** The wait before a reschedule, under any configuration a policy can be built from. */
  method RetryDelay(configured: Policy, attempt: int) returns (d: int)
    requires IsInt64(configured.backoffBase) && IsInt64(configured.backoffMax)
    ensures d == Backoff(Effective(configured), attempt) && d > 0
  {
    d := CalculateBackoff(Effective(configured), attempt);
    BackoffGrows(Effective(configured), 1, Max(1, attempt));
  }

  /** Later attempts never wait less. */
  lemma BackoffGrows(p: Policy, a: int, b: int)
    requires p.backoffBase > 0 && p.backoffMax > 0 && 1 <= a <= b
    ensures 0 < Backoff(p, a) <= Backoff(p, b)
  {
    DoubledMonotone(p.backoffBase, a - 1, b - 1);
    DoubledIsProduct(p.backoffBase, a - 1);
    DoubledIsProduct(p.backoffBase, b - 1);
  }

  /** The first wait is the base, every further one twice the one before, none above the maximum. */
  lemma BackoffDoubles(p: Policy, attempt: int)
    requires p.backoffBase > 0 && p.backoffMax > 0
    ensures attempt <= 0 ==> Backoff(p, attempt) == p.backoffBase
    ensures Backoff(p, 1) == Min(p.backoffBase, p.backoffMax)
    ensures attempt >= 1 ==> Backoff(p, attempt + 1) == Min(2 * Backoff(p, attempt), p.backoffMax)
  {
    DoubledIsProduct(p.backoffBase, 0);
    if attempt >= 1 {
      DoubledIsProduct(p.backoffBase, attempt - 1);
      DoubledIsProduct(p.backoffBase, attempt);
    }
  }

  /** The cap holds exactly for real attempt numbers, or when the base respects it already. */
  lemma BackoffCapped(p: Policy, attempt: int)
    requires p.backoffBase > 0 && p.backoffMax > 0
    ensures Backoff(p, attempt) <= p.backoffMax <==> attempt >= 1 || p.backoffBase <= p.backoffMax
  {
  }

  // -------------------------------------------------------- attempt budget

  datatype Failure =
    | Cancelled
    | DeadlineExceeded
    | Validation
    | SelfContainedSource
    | PostMissing
    | SourceMissing
    | Other

  predicate IsTransient(e: Option<Failure>) { e == Some(Other) }

  predicate ShouldRetry(p: Policy, e: Option<Failure>, attempt: int) { IsTransient(e) && attempt < p.maxAttempts }

  /** The attempt count the worker was handed by its latest claim before statement k. */
  ghost function AttemptSeen<S>(h: History<S>, k: nat): int
    requires k < |h|
  {
    var j, id := LastClaim(h, k, h[k].op.id), h[k].op.id;
    if 0 <= j && id in At(h, j + 1) then At(h, j + 1)[id].attemptCount else 0
  }

  /** Workers reschedule only when the policy, fed the claimed attempt count, says so. */
  ghost predicate Disciplined<S>(h: History<S>, p: Policy) {
    forall k :: 0 <= k < |h| && h[k].op.MarkForRetry? && Succeeds(h, k) ==>
      exists e :: ShouldRetry(p, e, AttemptSeen(h, k))
  }

  /** How often a claim took the event over from a lapsed lease. */
  ghost function Lapses<S>(h: History<S>, n: nat, id: EventId): nat
    requires n <= |h|
  {
    if n == 0 then 0
    else Lapses(h, n - 1, id) + (if ClaimedAt(h, n - 1, id) && At(h, n - 1)[id].status.Processing? then 1 else 0)
  }

  /** The count the policy was fed is the number of claims so far. */
  lemma SeenIsClaims<S>(h: History<S>, k: nat)
    requires Chronological(h) && k < |h| && OwnerStep(h[k].op) && Succeeds(h, k)
    ensures AttemptSeen(h, k) == Claims(h, k, h[k].op.id) >= 1
  {
    Fencing(h, k);
    ReachableRows(h, k);
    ClaimsUpTo(h, LastClaim(h, k, h[k].op.id), k, h[k].op.id);
  }

  lemma {:induction false} ClaimsUpTo<S>(h: History<S>, j: nat, n: nat, id: EventId)
    requires j < n <= |h| && ClaimedAt(h, j, id)
    ensures Claims(h, n, id) >= 1
  {
    if j < n - 1 {
      ClaimsUpTo(h, j, n - 1, id);
    }
  }

  /** Cancellations and lasting failures are never retried; what is, is retried while attempts remain. */
  lemma RetriedWhile(p: Policy, e: Option<Failure>, attempt: int)
    ensures e.None? || e.value.Cancelled? || e.value.DeadlineExceeded? ==> !ShouldRetry(p, e, attempt)
    ensures e.Some? && (e.value.Validation? || e.value.SelfContainedSource?) ==> !ShouldRetry(p, e, attempt)
    ensures e.Some? && (e.value.PostMissing? || e.value.SourceMissing?) ==> !ShouldRetry(p, e, attempt)
    ensures e == Some(Other) ==> (ShouldRetry(p, e, attempt) <==> attempt < p.maxAttempts)
  {
  }

  /** A successful reschedule found the row with fewer attempts than the policy allows. */
  lemma RetryBelowBudget<S>(h: History<S>, p: Policy, k: nat)
    requires Chronological(h) && Disciplined(h, p) && k < |h|
    requires h[k].op.MarkForRetry? && Succeeds(h, k)
    ensures At(h, k)[h[k].op.id].attemptCount < p.maxAttempts
  {
    Fencing(h, k);
  }

  /** Statement k took the event over from a lapsed lease although its attempts were used up. */
  ghost predicate TakenOverLate<S>(h: History<S>, p: Policy, k: nat, id: EventId)
    requires k < |h|
  {
    ClaimedAt(h, k, id) && At(h, k)[id].status.Processing? && At(h, k)[id].attemptCount >= p.maxAttempts
  }

  ghost function LateTakeovers<S>(h: History<S>, p: Policy, n: nat, id: EventId): nat
    requires n <= |h|
  {
    if n == 0 then 0 else LateTakeovers(h, p, n - 1, id) + if TakenOverLate(h, p, n - 1, id) then 1 else 0
  }

  /** Whatever lapsed before, an event that waits has used fewer attempts than the policy allows. */
  lemma {:induction false} WaitingBelowBudget<S>(h: History<S>, p: Policy, n: nat, id: EventId)
    requires Chronological(h) && Disciplined(h, p) && p.maxAttempts >= 1 && n <= |h|
    requires id in At(h, n) && At(h, n)[id].status.Pending?
    ensures Claims(h, n, id) == At(h, n)[id].attemptCount < p.maxAttempts
  {
    ReachableRows(h, n);
    var before := At(h, n - 1);
    if h[n - 1].op.MarkForRetry? && h[n - 1].op.id == id && Succeeds(h, n - 1) {
      RetryBelowBudget(h, p, n - 1);
    } else if id in before && before[id].status.Pending? {
      WaitingBelowBudget(h, p, n - 1, id);
    }
  }

  /** The claims beyond maxAttempts are exactly the late takeovers. */
  lemma {:induction false} ClaimsBeyondBudget<S>(h: History<S>, p: Policy, n: nat, id: EventId)
    requires Chronological(h) && Disciplined(h, p) && p.maxAttempts >= 1 && n <= |h|
    ensures LateTakeovers(h, p, n, id) == Max(0, Claims(h, n, id) - p.maxAttempts)
  {
    if n > 0 {
      ClaimsBeyondBudget(h, p, n - 1, id);
      ReachableRows(h, n - 1);
      if ClaimedAt(h, n - 1, id) && At(h, n - 1)[id].status.Pending? {
        WaitingBelowBudget(h, p, n - 1, id);
      }
    }
  }

  lemma {:induction false} SomeLateTakeover<S>(h: History<S>, p: Policy, n: nat, id: EventId)
    requires n <= |h|
    ensures LateTakeovers(h, p, n, id) > 0 <==> exists k: nat :: k < n && TakenOverLate(h, p, k, id)
  {
    if n > 0 {
      SomeLateTakeover(h, p, n - 1, id);
    }
  }

  /**
    An event is claimed at most maxAttempts times, plus once for each late takeover; it
    exceeds maxAttempts if and only if there is one.
   */
  lemma BoundedAttempts<S>(h: History<S>, p: Policy, n: nat, id: EventId)
    requires Chronological(h) && Disciplined(h, p) && p.maxAttempts >= 1 && n <= |h|
    ensures Claims(h, n, id) <= p.maxAttempts + LateTakeovers(h, p, n, id)
    ensures Claims(h, n, id) > p.maxAttempts <==> exists k: nat :: k < n && TakenOverLate(h, p, k, id)
  {
    ClaimsBeyondBudget(h, p, n, id);
    SomeLateTakeover(h, p, n, id);
  }

  lemma {:induction false} LateTakeoversLapsed<S>(h: History<S>, p: Policy, n: nat, id: EventId)
    requires n <= |h|
    ensures LateTakeovers(h, p, n, id) <= Lapses(h, n, id)
  {
    if n > 0 {
      LateTakeoversLapsed(h, p, n - 1, id);
    }
  }

  /** Without a lapsed lease, the policy's limit is the limit. */
  lemma AttemptsWithoutLapses<S>(h: History<S>, p: Policy, id: EventId)
    requires Chronological(h) && Disciplined(h, p) && p.maxAttempts >= 1
    requires Lapses(h, |h|, id) == 0
    ensures Claims(h, |h|, id) <= p.maxAttempts
  {
    BoundedAttempts(h, p, |h|, id);
    LateTakeoversLapsed(h, p, |h|, id);
  }

  /** One lapsed lease is enough: allowed a single attempt, the event is claimed again after 20 of its 10 ticks. */
  ghost function CrashedOnce(): History<nat> {
    [Entry(0, Insert(1, 7, 0)), Entry(0, Claim(1, "a", 10)), Entry(20, Claim(1, "b", 10))]
  }

  lemma BudgetExceeded(p: Policy)
    requires p.maxAttempts == 1
    ensures Chronological(CrashedOnce()) && Disciplined(CrashedOnce(), p)
    ensures Claims(CrashedOnce(), 3, 1) == 2 && TakenOverLate(CrashedOnce(), p, 2, 1)
  {
    var h := CrashedOnce();
    assert At(h, 0) == map[];
    assert At(h, 1) == map[1 := NewRow(7, 0)];
    var row := NewRow(7, 0).(status := Processing, lockedUntil := Some(10), lockedBy := Some("a"), attemptCount := 1);
    assert At(h, 2) == map[1 := row];
    assert ClaimedAt(h, 1, 1) && ClaimedAt(h, 2, 1);
    assert Claims(h, 1, 1) == 0 && Claims(h, 2, 1) == 1;
  }
}
