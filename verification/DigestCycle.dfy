/**
  The scheduler and the digest worker of one cumulative source, together.  The
  scheduler asks for a post since the last digest; the worker looks back no further
  than maxWindow.  What lies between the two is enqueued and never summarized.
 */
module DigestCycle {
  import opened Prelude
  import opened Lease
  import opened LeaseQueue
  import opened Utf8
  import opened PostRepo
  import opened Digest
  import opened DigestWindows
  import S = Scheduler

  /** Some post of the source is at least as new as its last digest, and not too old for a digest made now. */
  ghost predicate InReach(posts: seq<Post>, id: SourceId, last: Option<Time>, now: Time, maxWindow: Duration) {
    exists p :: p in posts && p.sourceId == id && (last.Some? ==> p.createdAt >= last.value)
                && now - maxWindow <= p.createdAt < now
  }

  /** The worker's window is empty exactly if no new post is within its reach. */
  lemma EmptyWindowIff(posts: seq<Post>, id: SourceId, last: Option<Time>, now: Time, maxWindow: Duration)
    requires UniqueIds(posts)
    ensures NewestFirst(posts, id, WindowStart(last, now, maxWindow), now) == [] <==>
      !InReach(posts, id, last, now, maxWindow)
  {
    var window := NewestFirst(posts, id, WindowStart(last, now, maxWindow), now);
    NewestFirstFacts(posts, id, WindowStart(last, now, maxWindow), now);
    if window != [] {
      assert window[0] in window;
    }
  }

  ghost predicate ProperTexts(posts: seq<Post>) { forall p :: p in posts ==> p.text != [] && Valid(p.text) }

  /** No text of these posts can be cut to nothing. */
  ghost predicate RoomForFirst(posts: seq<Post>, budget: nat) {
    posts != [] ==> posts[0].text != [] && FirstLen(posts[0].text) <= budget
  }

  /**
    Exactly when an execution reports that there were no posts: none new is within
    reach, or the first character of the newest is longer than the whole budget.
   */
  lemma NoPostsIff(posts: seq<Post>, id: SourceId, last: Option<Time>, now: Time, c: Config,
                   llm: seq<Byte> -> Option<seq<Byte>>, r: Result<seq<Byte>, Error>)
    requires UniqueIds(posts) && ProperTexts(posts)
    requires Digested(NewestFirst(posts, id, WindowStart(last, now, MaxWindow(c)), now), MaxChars(c), llm, r)
    ensures r == Err(NoPosts) <==>
      || !InReach(posts, id, last, now, MaxWindow(c))
      || !RoomForFirst(NewestFirst(posts, id, WindowStart(last, now, MaxWindow(c)), now), MaxChars(c))
  {
    var window := NewestFirst(posts, id, WindowStart(last, now, MaxWindow(c)), now);
    EmptyWindowIff(posts, id, last, now, MaxWindow(c));
    NewestFirstFacts(posts, id, WindowStart(last, now, MaxWindow(c)), now);
    var input :| Rendering(window, MaxChars(c), input) && r == ResultOf(input, llm);
    EmptyIff(window, MaxChars(c), input);
    assert window != [] ==> window[0] in window;
  }

  /** New posts there are, all of the past, and none of them in reach. */
  ghost predicate Overlooked(posts: seq<Post>, id: SourceId, last: Option<Time>, now: Time, maxWindow: Duration) {
    && S.HasNewPosts(posts, id, last, now) && !InReach(posts, id, last, now, maxWindow)
    && forall p :: p in posts && p.sourceId == id ==> p.createdAt < now
  }

  /** Once overlooked, posts stay so: only a new one helps. */
  lemma OverlookedForGood(posts: seq<Post>, id: SourceId, last: Option<Time>, now: Time, later: Time,
                          maxWindow: Duration)
    requires Overlooked(posts, id, last, now, maxWindow) && now <= later
    ensures Overlooked(posts, id, last, later, maxWindow)
  {
    var p :| p in posts && p.sourceId == id && (last.Some? ==> p.createdAt >= last.value) && p.createdAt < now;
    assert S.HasNewPosts(posts, id, last, later);
  }

  /**
    The clock readings of one round: the database's at the enqueue, the claim and the
    end, the application's when the source is put off, when the scheduler looks for
    posts, when the event's age is checked, at the end of the window and at the save.
   */
  datatype Ticks = Ticks(
    enqueued: Time, claimed: Time, ended: Time,
    bumped: Time, looked: Time, checked: Time, now: Time, saved: Time)

  predicate InSequence(t: Ticks) { t.enqueued <= t.claimed <= t.ended }

  /** Who takes the event on, for how long, what goes wrong, the retry time if there is one, and the digest's id. */
  datatype Attempt = Attempt(
    worker: WorkerId, ttl: Duration, fault: Option<Fault>, retryAt: Option<Time>, digest: nat)

  /** The lease is live when the worker writes its verdict. */
  predicate InTime(a: Attempt, t: Ticks) { t.ended < t.claimed + a.ttl }

  class Cycle {
    const store: S.Store
    const digests: CumulativeSource

    /** The scheduler reads the digests the worker saves. */
    ghost predicate Valid()
      reads this, store, store.queue, digests
    {
      && store.Valid() && digests.Valid() && UniqueIds(store.posts)
      && store.LastSummary(digests.source) == Latest(digests.windows, |digests.windows|)
    }

    constructor (source: SourceId, config: Config)
      ensures Valid() && fresh(store) && fresh(store.queue) && fresh(digests)
      ensures digests.source == source && digests.config == config && digests.summaries == []
      ensures store.posts == [] && store.lastSummary == map[] && store.queue.history == []
    {
      store := new S.Store();
      digests := new CumulativeSource(source, config);
    }

    /** The input of a digest made now. */
    ghost function Window(now: Time): seq<Post>
      reads this, store, digests
    {
      NewestFirst(store.posts, digests.source,
                  WindowStart(Latest(digests.windows, |digests.windows|), now, MaxWindow(digests.config)), now)
    }

    /** What an execution that is not too late and reads its tables makes of the posts, and what is saved. */
    twostate predicate Made(t: Ticks, llm: seq<Byte> -> Option<seq<Byte>>, fault: Option<Fault>,
                            new r: Result<seq<Byte>, Error>)
      reads this, store, digests
    {
      && (r == Err(EventExpired) <==> t.checked - t.looked > EventTtl(digests.config))
      && (r != Err(EventExpired) && Broken(fault).Some? ==> r == Err(Broken(fault).value))
      && (r != Err(EventExpired) && Broken(fault).None? ==>
            DigestedUnless(fault, old(Window(t.now)), MaxChars(digests.config), llm, r))
      && digests.summaries == old(digests.summaries) + (if r.Ok? then [Summary(r.value, t.saved)] else [])
      && (r.Err? ==> digests.windows == old(digests.windows) && store.lastSummary == old(store.lastSummary))
    }

    /** The digest of an event, on tables that nobody else writes meanwhile. */
    method Process(t: Ticks, llm: seq<Byte> -> Option<seq<Byte>>, fault: Option<Fault>)
      returns (r: Result<seq<Byte>, Error>)
      requires Valid()
      modifies store`lastSummary, digests
      ensures Valid() && Made(t, llm, fault, r)
      ensures r == Err(Interrupted) ==> fault == Some(Cancelled)
    {
      var posts := store.posts;
      ghost var ws := digests.windows;
      assert ws + [] == ws;
      r := digests.ProcessSourceEvent(t.looked, t.checked, t.now, t.saved, (i: nat) => posts, llm, fault, [], []);
      if r.Ok? {
        var last := digests.GetLastBySource();
        LastIsLatest(digests.summaries, digests.windows, last);
        store.lastSummary := store.lastSummary[digests.source := last.value.createdAt];
      }
    }

    /** The row after the worker's last write, which finds the lease live, or nothing at all to change. */
    ghost predicate Concluded(row: Row<S.Subject>, before: Row<S.Subject>, r: Result<seq<Byte>, Error>, a: Attempt,
                              live: bool)
    {
      && row.subject == before.subject
      && row.status == (if live then StatusAfter(r, a.retryAt) else Processing)
      && row.summaryId == (if live && r.Ok? then Some(a.digest) else before.summaryId)
    }

    /** A digest completes its event and is named in it; nothing else is. */
    lemma ConcludedMeans(row: Row<S.Subject>, before: Row<S.Subject>, r: Result<seq<Byte>, Error>, a: Attempt)
      requires Concluded(row, before, r, a, true)
      ensures r.Ok? ==> row.status.Completed? && row.summaryId == Some(a.digest)
      ensures r == Err(NoPosts) ==> row.status.Completed? && row.summaryId == before.summaryId
      ensures r == Err(EventExpired) ==> row.status.Expired?
      ensures r == Err(Interrupted) ==> row.status.Processing?
      ensures r == Err(SummarizeFailed) || r == Err(Database) ==>
        if a.retryAt.Some? then row.status.Pending? else row.status.Failed?
    {
    }

    /** The worker's last write: completed, expired, failed for good or put back; none if it was interrupted. */
    method Conclude(event: EventId, a: Attempt, t: Ticks, r: Result<seq<Byte>, Error>)
      requires store.Valid() && NotBefore(store.queue.history, t.ended)
      requires event in store.queue.rows && store.queue.rows[event].status.Processing?
      modifies store.queue
      ensures store.Valid() && NotBefore(store.queue.history, t.ended)
      ensures event in store.queue.rows
      ensures store.queue.rows == old(store.queue.rows)[event := store.queue.rows[event]]
      ensures Concluded(store.queue.rows[event], old(store.queue.rows)[event], r, a,
                        old(OwnedBy(store.queue.rows[event], a.worker, t.ended)))
    {
      var ok;
      match r
      case Ok(_) => ok := store.queue.FinalizeWithLease(event, a.worker, Completed, Some(a.digest), None, t.ended);
      case Err(Interrupted) => return;
      case Err(EventExpired) => ok := store.queue.FinalizeWithLease(event, a.worker, Expired, None, None, t.ended);
      case Err(NoPosts) => ok := store.queue.FinalizeWithLease(event, a.worker, Completed, None, None, t.ended);
      case Err(_) =>
        if a.retryAt.Some? {
          ok := store.queue.MarkForRetry(event, a.worker, a.retryAt.value, "failed", t.ended);
        } else {
          ok := store.queue.FinalizeWithLease(event, a.worker, Failed, None, Some("failed"), t.ended);
        }
    }

    /** A worker claims the event, makes the digest and writes the verdict. */
    method Work(event: EventId, a: Attempt, t: Ticks, llm: seq<Byte> -> Option<seq<Byte>>)
      returns (r: Result<seq<Byte>, Error>)
      requires Valid() && NotBefore(store.queue.history, t.claimed) && InSequence(t)
      requires event in store.queue.rows && Claimable(store.queue.rows[event], t.claimed)
      modifies store`lastSummary, store.queue, digests
      ensures Valid() && NotBefore(store.queue.history, t.ended) && Made(t, llm, a.fault, r)
      ensures event in store.queue.rows
      ensures store.queue.rows == old(store.queue.rows)[event := store.queue.rows[event]]
      ensures Concluded(store.queue.rows[event], old(store.queue.rows)[event], r, a, InTime(a, t))
    {
      var claimed := store.queue.ClaimRow(event, a.worker, a.ttl, t.claimed);
      r := Process(t, llm, a.fault);
      Conclude(event, a, t, r);
    }

    /** Other sources are left to other schedulers. */
    function Others(): set<SourceId>
      reads store
    {
      set id | id in store.sources && id != digests.source
    }

    ghost predicate DueAt(now: Time)
      reads this, store, digests
    {
      digests.source in store.sources && S.Due(store.sources[digests.source], now)
    }

    /** With the others left out, a pass can only claim this source. */
    lemma AloneOrNone(now: Time)
      ensures S.DueSources(store.sources, now) - Others() == if DueAt(now) then {digests.source} else {}
    {
    }

    /** The scheduler's pass over this source. */
    method Schedule(event: EventId, cron: Duration, t: Ticks) returns (enqueued: bool)
      requires Valid() && NotBefore(store.queue.history, t.enqueued) && event !in store.queue.rows
      modifies store`sources, store.queue
      ensures Valid() && NotBefore(store.queue.history, t.enqueued)
      ensures enqueued <==> old(DueAt(t.enqueued) && store.WouldEnqueue(digests.source, t.looked))
      ensures store.sources == if old(DueAt(t.enqueued))
                               then old(store.sources)[digests.source := PutOff(old(store.sources), cron, t)]
                               else old(store.sources)
      ensures !enqueued ==> store.queue.rows == old(store.queue.rows)
      ensures enqueued ==>
        store.queue.rows == old(store.queue.rows)[event := NewRow(S.SummarizeSource(digests.source), t.looked)]
    {
      AloneOrNone(t.enqueued);
      var passed, claimed := store.ScheduleNextCumulative(cron, event, t.enqueued, t.bumped, t.looked, Others(), []);
      enqueued := passed == Ok(true);
    }

    /** The source's row after a pass: due again one interval later. */
    ghost function PutOff(sources: S.Sources, cron: Duration, t: Ticks): S.SourceRow
      requires digests.source in sources
      reads digests
    {
      sources[digests.source].(nextSummaryAt := Some(t.bumped + S.CronInterval(cron)))
    }

    /**
      One round, with nobody else writing this source's tables: the scheduler's pass,
      and, if that enqueued an event, a worker that takes it on.
     */
    method Round(event: EventId, cron: Duration, a: Attempt, t: Ticks, llm: seq<Byte> -> Option<seq<Byte>>)
      returns (enqueued: bool, r: Result<seq<Byte>, Error>)
      requires Valid() && NotBefore(store.queue.history, t.enqueued) && InSequence(t)
      requires event !in store.queue.rows
      modifies store`sources, store`lastSummary, store.queue, digests
      ensures Valid() && NotBefore(store.queue.history, t.ended)
      ensures enqueued <==> old(DueAt(t.enqueued) && store.WouldEnqueue(digests.source, t.looked))
      ensures store.sources == if old(DueAt(t.enqueued))
                               then old(store.sources)[digests.source := PutOff(old(store.sources), cron, t)]
                               else old(store.sources)
      ensures !enqueued ==> r == Err(NoPosts) && store.queue.rows == old(store.queue.rows)
      ensures !enqueued ==> digests.windows == old(digests.windows) && digests.summaries == old(digests.summaries)
      ensures !enqueued ==> store.lastSummary == old(store.lastSummary)
      ensures enqueued ==> Made(t, llm, a.fault, r) && event in store.queue.rows
      ensures enqueued ==> store.queue.rows == old(store.queue.rows)[event := store.queue.rows[event]]
      ensures enqueued ==>
        Concluded(store.queue.rows[event], NewRow(S.SummarizeSource(digests.source), t.looked), r, a, InTime(a, t))
    {
      r := Err(NoPosts);
      enqueued := Schedule(event, cron, t);
      if enqueued {
        r := Work(event, a, t, llm);
      }
    }

    /** The source is idle and its new posts are out of reach. */
    ghost predicate Stuck(now: Time)
      reads this, store, store.queue, digests
    {
      && !HasActive(store.queue.rows, S.SummarizeSource(digests.source))
      && Overlooked(store.posts, digests.source, store.LastSummary(digests.source), now, MaxWindow(digests.config))
    }

    /** Nothing in reach now or at any later reading: the window is empty, and yet the scheduler sees new posts. */
    lemma StuckMeans(start: Time, t: Ticks)
      requires Valid() && Stuck(start) && start <= t.looked && start <= t.now
      ensures store.WouldEnqueue(digests.source, t.looked) && Window(t.now) == []
    {
      var id, last, reach := digests.source, store.LastSummary(digests.source), MaxWindow(digests.config);
      OverlookedForGood(store.posts, id, last, start, t.looked, reach);
      OverlookedForGood(store.posts, id, last, start, t.now, reach);
      EmptyWindowIff(store.posts, id, last, t.now, reach);
    }

    /** One round of a stuck source: an event that ends empty, and everything else as it was. */
    method RoundInVain(event: EventId, cron: Duration, a: Attempt, t: Ticks, llm: seq<Byte> -> Option<seq<Byte>>,
                       ghost start: Time)
      requires Valid() && Stuck(start) && start <= t.looked && start <= t.now && InSequence(t)
      requires DueAt(t.enqueued) && a.fault.None? && InTime(a, t)
      requires NotBefore(store.queue.history, t.enqueued) && event !in store.queue.rows
      modifies store`sources, store`lastSummary, store.queue, digests
      ensures Valid() && Stuck(start) && NotBefore(store.queue.history, t.ended)
      ensures digests.source in store.sources
      ensures store.sources == old(store.sources)[digests.source := PutOff(old(store.sources), cron, t)]
      ensures digests.summaries == old(digests.summaries)
      ensures EndedEmpty(store.queue.rows, event, digests.source)
      ensures store.queue.rows == old(store.queue.rows)[event := store.queue.rows[event]]
    {
      StuckMeans(start, t);
      var enqueued, r := Round(event, cron, a, t, llm);
      if r != Err(EventExpired) {
        NothingMade(a.fault, MaxChars(digests.config), llm, r);
      }
      assert !HasActive(store.queue.rows, S.SummarizeSource(digests.source));
    }

    /** The readings of round k: in sequence, past the start, and an interval before those of any later round. */
    static ghost predicate Punctual(ticks: nat -> Ticks, k: nat, start: Time, cron: Duration, a: Attempt)
    {
      && InSequence(ticks(k)) && InTime(a, ticks(k)) && start <= ticks(k).looked && start <= ticks(k).now
      && forall l: nat :: k < l ==> Apart(ticks(k), ticks(l), cron)
    }

    /**
      Enqueued at every interval, summarized never: once all new posts are out of reach,
      each pass that finds the source due enqueues an event, which ends with nothing
      saved, until a post is added.
     */
    method InVain(rounds: nat, ids: nat -> EventId, cron: Duration, a: Attempt, ticks: nat -> Ticks,
                  llm: seq<Byte> -> Option<seq<Byte>>, start: Time)
      requires Valid() && Stuck(start) && a.fault.None?
      requires forall k: nat :: Punctual(ticks, k, start, cron, a)
      requires forall k: nat :: NotBefore(store.queue.history, ticks(k).enqueued) && DueAt(ticks(k).enqueued)
      requires forall k: nat :: ids(k) !in store.queue.rows
      requires forall j: nat, k: nat :: j < k ==> ids(j) != ids(k)
      modifies store`sources, store`lastSummary, store.queue, digests
      ensures Valid() && Stuck(start) && digests.summaries == old(digests.summaries)
      ensures forall k: nat :: k < rounds ==> EndedEmpty(store.queue.rows, ids(k), digests.source)
      ensures forall k: nat :: k < rounds ==>
        && ids(k) in store.queue.rows
        && Terminal(store.queue.rows[ids(k)].status) && store.queue.rows[ids(k)].summaryId.None?
      ensures store.queue.rows.Keys == old(store.queue.rows).Keys + set k: nat | k < rounds :: ids(k)
    {
      for i := 0 to rounds
        invariant Valid() && Stuck(start) && digests.summaries == old(digests.summaries)
        invariant forall k: nat :: k >= i ==> Ready(ticks(k))
        invariant forall k: nat :: k < i ==> EndedEmpty(store.queue.rows, ids(k), digests.source)
        invariant store.queue.rows.Keys == old(store.queue.rows).Keys + set k: nat | k < i :: ids(k)
      {
        assert Punctual(ticks, i, start, cron, a) && Ready(ticks(i));
        RoundInVain(ids(i), cron, a, ticks(i), llm, start);
        forall k: nat | k > i ensures Ready(ticks(k)) {
          assert Apart(ticks(i), ticks(k), cron);
        }
      }
    }

    /** A round with these readings can begin, and finds the source due. */
    ghost predicate Ready(t: Ticks)
      reads this, store, store.queue, digests
    {
      NotBefore(store.queue.history, t.enqueued) && DueAt(t.enqueued)
    }
  }

  /** The later round begins after the earlier has ended, and when the source is due again. */
  predicate Apart(t: Ticks, later: Ticks, cron: Duration) {
    t.ended <= later.enqueued && t.bumped + S.CronInterval(cron) <= later.enqueued
  }

  const TOO_OLD := Post(1, 1, "a", 0, 0, [65])

  /** The k-th of the example's rounds: all readings the same, one default interval after another. */
  function Hourly(k: nat): Ticks {
    var at := DEFAULT_WINDOW + 1 + k * S.DEFAULT_CRON_INTERVAL;
    Ticks(at, at, at, at, at, at, at, at)
  }

  /** One post, just out of reach when its source is first due: an event every hour, and never a digest. */
  method TooOldForEver(rounds: nat) returns (c: Cycle)
    ensures fresh(c) && c.Valid() && c.Stuck(DEFAULT_WINDOW + 1) && c.store.posts == [TOO_OLD]
    ensures c.digests.summaries == []
    ensures forall k: nat :: k < rounds ==> EndedEmpty(c.store.queue.rows, k, 1)
  {
    c := new Cycle(1, Config(0, 0, 0));
    c.store.posts := [TOO_OLD];
    c.store.sources := map[1 := S.SourceRow(S.TelegramGroup, 0, None)];
    assert TOO_OLD in c.store.posts;
    assert S.HasNewPosts(c.store.posts, 1, None, DEFAULT_WINDOW + 1);
    var ids := (k: nat) => k;
    c.InVain(rounds, ids, 0, Attempt("w", 1, None, None, 0), Hourly, (input: seq<Byte>) => None,
             DEFAULT_WINDOW + 1);
    forall k: nat | k < rounds ensures EndedEmpty(c.store.queue.rows, k, 1) {
      assert EndedEmpty(c.store.queue.rows, ids(k), 1);
    }
  }

  /** A digest event of the source that ended without a digest. */
  predicate EndedEmpty(rows: Table<S.Subject>, event: EventId, source: SourceId) {
    && event in rows && rows[event].subject == S.SummarizeSource(source)
    && (rows[event].status.Completed? || rows[event].status.Expired?) && rows[event].summaryId.None?
  }

  /** No posts, no digest. */
  lemma NothingMade(fault: Option<Fault>, budget: nat, llm: seq<Byte> -> Option<seq<Byte>>,
                    r: Result<seq<Byte>, Error>)
    requires DigestedUnless(fault, [], budget, llm, r)
    ensures r == Err(NoPosts)
  {
    var made: Result<seq<Byte>, Error> :|
      Digested([], budget, llm, made) && r == if made.Ok? && fault == Some(NotSaved) then Err(Database) else made;
    var input :| Rendering([], budget, input) && made == ResultOf(input, llm);
    var k: nat :| RenderedBy([], budget, k, input);
  }

  /** What becomes of the event. */
  function StatusAfter(r: Result<seq<Byte>, Error>, retryAt: Option<Time>): Status {
    match r
    case Ok(_) => Completed
    case Err(EventExpired) => Expired
    case Err(NoPosts) => Completed
    case Err(Interrupted) => Processing
    case Err(_) => if retryAt.Some? then Pending else Failed
  }
}
