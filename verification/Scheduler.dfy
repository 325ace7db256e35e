/**
  Who enqueues a digest and when: the due-time scheduler and the manual trigger,
  both writing the sources table and the summary outbox in one transaction.
 */
module Scheduler {
  import opened Prelude
  import opened Lease
  import opened LeaseQueue
  import opened PostRepo
  import K = Keyset

  datatype SourceType = TelegramChannel | TelegramGroup | Rss | Html

  predicate Cumulative(t: SourceType) { t.TelegramGroup? }

  datatype SourceRow = SourceRow(kind: SourceType, createdAt: Time, nextSummaryAt: Option<Time>)

  type Sources = map<SourceId, SourceRow>

  /** The active-row key of summary_events: a post, or a whole source. */
  datatype Subject = SummarizePost(postId: PostId) | SummarizeSource(sourceId: SourceId)

  datatype Error = SourceNotFound | SelfContainedSource | AlreadyProcessing | TransactionAborted | SourceGone

  const DEFAULT_CRON_INTERVAL := 3_600_000_000

  function CronInterval(configured: Duration): (d: Duration)
    ensures if configured > 0 then d == configured else d == 3600 * 1_000_000
  {
    if configured <= 0 then DEFAULT_CRON_INTERVAL else configured
  }

  predicate Due(r: SourceRow, now: Time) {
    Cumulative(r.kind) && (r.nextSummaryAt.None? || r.nextSummaryAt.value <= now)
  }

  function DueSources(sources: Sources, now: Time): set<SourceId> {
    set id | id in sources && Due(sources[id], now)
  }

  function DueOrder(r: SourceRow): Time { if r.nextSummaryAt.Some? then r.nextSummaryAt.value else r.createdAt }

  /** Some post of the source is at least as new as its last digest, and older than this instant. */
  ghost predicate HasNewPosts(posts: seq<Post>, id: SourceId, last: Option<Time>, before: Time) {
    exists p :: p in posts && p.sourceId == id && (last.Some? ==> p.createdAt >= last.value) && p.createdAt < before
  }

  /** Putting a source past the clock takes exactly it off the due list. */
  lemma BumpLeavesDue(sources: Sources, id: SourceId, next: Time, now: Time)
    requires id in DueSources(sources, now) && next > now
    ensures DueSources(sources[id := sources[id].(nextSummaryAt := Some(next))], now) == DueSources(sources, now) - {id}
    ensures |DueSources(sources[id := sources[id].(nextSummaryAt := Some(next))], now)| ==
      |DueSources(sources, now)| - 1
  {
  }

  /** The source is one of ids, and none of them has been due for longer. */
  ghost predicate LongestDue(sources: Sources, ids: set<SourceId>, first: SourceId)
    requires ids <= sources.Keys
  {
    first in ids && forall id :: id in ids ==> DueOrder(sources[first]) <= DueOrder(sources[id])
  }

  method PickLongestDue(sources: Sources, ids: set<SourceId>) returns (first: SourceId)
    requires ids != {} && ids <= sources.Keys
    ensures LongestDue(sources, ids, first)
  {
    first :| first in ids;
    var todo := ids - {first};
    while todo != {}
      invariant todo <= ids && first in ids
      invariant forall id :: id in ids - todo ==> DueOrder(sources[first]) <= DueOrder(sources[id])
      decreases |todo|
    {
      var id :| id in todo;
      if DueOrder(sources[id]) < DueOrder(sources[first]) {
        first := id;
      }
      todo := todo - {id};
    }
  }

  class Store {
    var sources: Sources
    var posts: seq<Post>
    var lastSummary: map<SourceId, Time>
    const queue: Queue<Subject>

    ghost predicate Valid()
      reads this, queue
    {
      queue.Valid()
    }

    constructor ()
      ensures Valid() && fresh(queue) && sources == map[] && posts == [] && lastSummary == map[]
      ensures queue.history == []
    {
      sources, posts, lastSummary := map[], [], map[];
      queue := new Queue<Subject>();
    }

    function LastSummary(id: SourceId): Option<Time>
      reads this
    {
      if id in lastSummary then Some(lastSummary[id]) else None
    }

    /** ClaimDueCumulative: the longest-due cumulative source no other transaction has locked. */
    method ClaimDueCumulative(now: Time, skipped: set<SourceId>) returns (claimed: Option<SourceId>)
      ensures claimed.None? <==> DueSources(sources, now) - skipped == {}
      ensures claimed.Some? ==> LongestDue(sources, DueSources(sources, now) - skipped, claimed.value)
      ensures claimed.None? ==> forall id :: id in sources && id !in skipped && sources[id].kind == TelegramGroup ==>
        sources[id].nextSummaryAt.Some? && sources[id].nextSummaryAt.value > now
      ensures claimed.Some? ==>
        && claimed.value in sources && claimed.value !in skipped && sources[claimed.value].kind == TelegramGroup
        && (sources[claimed.value].nextSummaryAt.Some? ==> sources[claimed.value].nextSummaryAt.value <= now)
    {
      DueMeans(now, skipped);
      var eligible := DueSources(sources, now) - skipped;
      if eligible == {} {
        return None;
      }
      var first := PickLongestDue(sources, eligible);
      claimed := Some(first);
    }

    /** The due sources are Telegram groups that were never put off, or no further than now. */
    lemma DueMeans(now: Time, skipped: set<SourceId>)
      ensures forall id :: id in sources && id !in skipped && sources[id].kind == TelegramGroup ==>
        id in DueSources(sources, now) - skipped
        || (sources[id].nextSummaryAt.Some? && sources[id].nextSummaryAt.value > now)
    {
    }

    /** Of two due sources a pass takes the one put off to the earlier time, or created earlier if never put off. */
    lemma LongestDueMeans(now: Time, skipped: set<SourceId>, first: SourceId, other: SourceId)
      requires LongestDue(sources, DueSources(sources, now) - skipped, first)
      requires other in DueSources(sources, now) - skipped
      ensures var r, o := sources[first], sources[other];
        && (r.nextSummaryAt.Some? && o.nextSummaryAt.Some? ==> r.nextSummaryAt.value <= o.nextSummaryAt.value)
        && (r.nextSummaryAt.Some? && o.nextSummaryAt.None? ==> r.nextSummaryAt.value <= o.createdAt)
        && (r.nextSummaryAt.None? && o.nextSummaryAt.Some? ==> r.createdAt <= o.nextSummaryAt.value)
        && (r.nextSummaryAt.None? && o.nextSummaryAt.None? ==> r.createdAt <= o.createdAt)
    {
    }

    /** HasActiveEvent: the one pending or processing event of the source, if any; never two. */
    method HasActiveEvent(id: SourceId) returns (active: Option<EventId>)
      requires Valid()
      ensures active.Some? <==> HasActive(queue.rows, SummarizeSource(id))
      ensures active.Some? ==> forall e :: active == Some(e) <==>
        e in queue.rows && queue.rows[e].subject == SummarizeSource(id) && Active(queue.rows[e].status)
    {
      if e :| e in queue.rows && queue.rows[e].subject == SummarizeSource(id) && Active(queue.rows[e].status) {
        forall other |
          other in queue.rows && queue.rows[other].subject == SummarizeSource(id) && Active(queue.rows[other].status)
          ensures other == e
        {
          if other != e {
            UniqueActive(queue.history, |queue.history|, e, other);
          }
        }
        return Some(e);
      }
      return None;
    }

    /** The one-row listing that asks whether a digest would have any input. */
    method AnyNewPosts(id: SourceId, before: Time) returns (some: bool)
      ensures some <==> HasNewPosts(posts, id, LastSummary(id), before)
      ensures some <==> exists p :: p in posts && p.sourceId == id && p.createdAt < before
                                    && (id in lastSummary ==> lastSummary[id] <= p.createdAt)
    {
      var f := ListFilter(Scope(Some(id), LastSummary(id), Some(before)), 1, None, ByCreatedAt, Desc);
      var page := List(posts, f);
      K.PageFacts(QueryOf(f), posts, None);
      K.MatchingMembers(QueryOf(f), posts, None);
      K.SortMembers(QueryOf(f).ord, K.Matching(QueryOf(f), posts, None));
      some := |page.items| > 0;
      if some {
        assert page.items[0] in K.Remaining(QueryOf(f), posts, None);
      }
    }

    /** Whether this store would enqueue a digest of the source now. */
    ghost predicate WouldEnqueue(id: SourceId, before: Time)
      reads this, queue
    {
      !HasActive(queue.rows, SummarizeSource(id)) && HasNewPosts(posts, id, LastSummary(id), before)
    }

    /** That is: no event of it is pending or being processed, and a post is as new as its last digest. */
    lemma WouldEnqueueMeans(id: SourceId, before: Time)
      ensures WouldEnqueue(id, before) <==>
        && (forall e :: e in queue.rows && queue.rows[e].subject == SummarizeSource(id) ==>
              !queue.rows[e].status.Pending? && !queue.rows[e].status.Processing?)
        && (exists p :: p in posts && p.sourceId == id && p.createdAt < before
                        && (id in lastSummary ==> lastSummary[id] <= p.createdAt))
    {
    }

    /** What happened is the rivals' statements and then the one insert, nothing else. */
    ghost predicate Inserted(h: History<Subject>, id: SourceId, eventId: EventId, readNow: Time, now: Time,
                             rivals: seq<Rival<Subject>>)
      reads queue
    {
      queue.history ==
        h + Stamped(rivals, now) + [Entry(now + TotalWait(rivals), Insert(eventId, SummarizeSource(id), readNow))]
    }

    /** By the time the rivals have run, the id is taken or the source has an active event. */
    ghost predicate Beaten(id: SourceId, eventId: EventId, rivals: seq<Rival<Subject>>, now: Time)
      reads queue
    {
      var rows := Replay(queue.history + Stamped(rivals, now));
      eventId in rows || HasActive(rows, SummarizeSource(id))
    }

    /**
      maybeEnqueueSourceEvent inside the scheduler's transaction.  Rivals may commit
      statements on the outbox between the check for an active event and the insert;
      a unique violation then aborts the whole transaction.
     */
    method MaybeEnqueue(id: SourceId, eventId: EventId, readNow: Time, now: Time, rivals: seq<Rival<Subject>>)
      returns (r: Result<bool, Error>)
      requires Valid() && NotBefore(queue.history, now)
      modifies queue
      ensures Valid() && old(queue.history) <= queue.history
      ensures NotBefore(queue.history, now + TotalWait(rivals))
      ensures r == Ok(false) <==> !old(WouldEnqueue(id, readNow))
      ensures r == Ok(false) ==> queue.history == old(queue.history)
      ensures r != Ok(false) ==> Inserted(old(queue.history), id, eventId, readNow, now, rivals)
      ensures r.Err? ==> queue.rows == Replay(old(queue.history) + Stamped(rivals, now))
      ensures r == Ok(true) ==> eventId in queue.rows && queue.rows[eventId] == NewRow(SummarizeSource(id), readNow)
      ensures r.Err? ==> r == Err(TransactionAborted)
      ensures r.Err? <==> old(WouldEnqueue(id, readNow)) && old(Beaten(id, eventId, rivals, now))
      ensures rivals == [] && eventId !in old(queue.rows) ==>
        && r.Ok?
        && queue.rows ==
             if r.value then old(queue.rows)[eventId := NewRow(SummarizeSource(id), readNow)] else old(queue.rows)
    {
      var active := HasActiveEvent(id);
      if active.Some? {
        return Ok(false);
      }
      var any := AnyNewPosts(id, readNow);
      if !any {
        return Ok(false);
      }
      queue.Interleave(rivals, now);
      assert rivals == [] ==> queue.history == old(queue.history);
      var saved := queue.Save(eventId, SummarizeSource(id), readNow, now + TotalWait(rivals));
      r := if saved then Ok(true) else Err(TransactionAborted);
    }

    /**
      ScheduleNextCumulative: claim a due source, bump it, maybe enqueue, commit.  An
      aborted transaction leaves the sources as they were.  The application clock
      (appNow) sets the next due time, the database clock (now) decides what is due.
     */
    method ScheduleNextCumulative(cronInterval: Duration, eventId: EventId, now: Time, appNow: Time, readNow: Time,
                                  skipped: set<SourceId>, rivals: seq<Rival<Subject>>)
      returns (r: Result<bool, Error>, claimed: Option<SourceId>)
      requires Valid() && NotBefore(queue.history, now)
      modifies this`sources, queue
      ensures Valid() && old(queue.history) <= queue.history
      ensures NotBefore(queue.history, now + TotalWait(rivals))
      ensures claimed.None? <==> old(DueSources(sources, now) - skipped) == {}
      ensures claimed.None? ==> r == Ok(false) && sources == old(sources)
      ensures r == Ok(false) ==> queue.history == old(queue.history) && queue.rows == old(queue.rows)
      ensures r != Ok(false) ==> Inserted(old(queue.history), claimed.value, eventId, readNow, now, rivals)
      ensures r.Err? ==> queue.rows == Replay(old(queue.history) + Stamped(rivals, now))
      ensures claimed.Some? ==> old(LongestDue(sources, DueSources(sources, now) - skipped, claimed.value))
      ensures claimed.Some? ==> (r == Ok(false) <==> !old(WouldEnqueue(claimed.value, readNow)))
      ensures claimed.Some? && r.Ok? ==>
        var next := Some(appNow + CronInterval(cronInterval));
        sources == old(sources)[claimed.value := old(sources)[claimed.value].(nextSummaryAt := next)]
      ensures r == Ok(true) ==>
        eventId in queue.rows && queue.rows[eventId] == NewRow(SummarizeSource(claimed.value), readNow)
      ensures r.Err? ==> r == Err(TransactionAborted) && sources == old(sources)
      ensures claimed.Some? ==>
        (r.Err? <==> old(WouldEnqueue(claimed.value, readNow)) && old(Beaten(claimed.value, eventId, rivals, now)))
      ensures claimed.Some? && r.Ok? && appNow + CronInterval(cronInterval) > now ==>
        && DueSources(sources, now) == old(DueSources(sources, now)) - {claimed.value}
        && |DueSources(sources, now)| == |old(DueSources(sources, now))| - 1
      ensures rivals == [] && eventId !in old(queue.rows) ==>
        && r.Ok?
        && queue.rows ==
             if r.value then old(queue.rows)[eventId := NewRow(SummarizeSource(claimed.value), readNow)]
             else old(queue.rows)
    {
      claimed := ClaimDueCumulative(now, skipped);
      if claimed.None? {
        return Ok(false), None;
      }
      var id := claimed.value;
      var before := sources;
      sources := sources[id := sources[id].(nextSummaryAt := Some(appNow + CronInterval(cronInterval)))];
      r := MaybeEnqueue(id, eventId, readNow, now, rivals);
      if r.Err? {
        sources := before;
      } else if appNow + CronInterval(cronInterval) > now {
        BumpLeavesDue(before, id, appNow + CronInterval(cronInterval), now);
      }
    }

    /** With nobody else writing, k passes at one clock reading drain k due sources. */
    method Drain(cronInterval: Duration, k: nat, ids: nat -> EventId, now: Time, appNow: Time, readNow: Time)
      requires Valid() && NotBefore(queue.history, now) && appNow + CronInterval(cronInterval) > now
      requires forall i: nat, j: nat :: i < j ==> ids(i) != ids(j)
      requires forall i: nat :: ids(i) !in queue.rows
      modifies this`sources, queue
      ensures Valid()
      ensures |DueSources(sources, now)| == Max(0, |old(DueSources(sources, now))| - k)
    {
      for i := 0 to k
        invariant Valid() && NotBefore(queue.history, now)
        invariant |DueSources(sources, now)| == Max(0, |old(DueSources(sources, now))| - i)
        invariant forall j: nat :: j >= i ==> ids(j) !in queue.rows
      {
        ghost var due := DueSources(sources, now);
        assert due - {} == due;
        var r, claimed := ScheduleNextCumulative(cronInterval, ids(i), now, appNow, readNow, {}, []);
      }
    }

    /**
      TriggerSourceSummarize: the manual trigger, with rivals between its check and its
      insert.  The source may be gone by then (deleted); the insert then breaks its
      foreign key, and the transaction is rolled back.
     */
    method TriggerSourceSummarize(id: SourceId, cronInterval: Duration, eventId: EventId, now: Time, appNow: Time,
                                  rivals: seq<Rival<Subject>>, deleted: bool)
      returns (r: Result<(EventId, bool), Error>)
      requires Valid() && NotBefore(queue.history, now)
      modifies this`sources, queue
      ensures Valid() && old(queue.history) <= queue.history
      ensures r == Err(SourceNotFound) <==> id !in old(sources)
      ensures r == Err(SelfContainedSource) <==> id in old(sources) && old(sources)[id].kind != TelegramGroup
      ensures r.Ok? && r.value.1 <==>
        id in old(sources) && Cumulative(old(sources)[id].kind) && HasActive(old(queue.rows), SummarizeSource(id))
      ensures r.Ok? && r.value.1 ==>
        && sources == old(sources) && queue.history == old(queue.history)
        && r.value.0 in queue.rows
        && queue.rows[r.value.0].subject == SummarizeSource(id) && Active(queue.rows[r.value.0].status)
      ensures r.Ok? && !r.value.1 ==>
        && r.value.0 == eventId && eventId in queue.rows && queue.rows[eventId] == NewRow(SummarizeSource(id), appNow)
        && sources == old(sources)[id := old(sources)[id].(nextSummaryAt := Some(appNow + CronInterval(cronInterval)))]
      ensures r.Ok? && !r.value.1 ==> Inserted(old(queue.history), id, eventId, appNow, now, rivals)
      ensures r.Err? ==> r.error != TransactionAborted
      ensures r.Err? ==> sources == if r == Err(SourceGone) then old(sources) - {id} else old(sources)
      ensures r == Err(SourceNotFound) || r == Err(SelfContainedSource) ==> queue.history == old(queue.history)
      ensures r == Err(AlreadyProcessing) ==> Inserted(old(queue.history), id, eventId, appNow, now, rivals)
      ensures r == Err(SourceGone) ==> queue.history == old(queue.history) + Stamped(rivals, now)
      ensures r == Err(AlreadyProcessing) || r == Err(SourceGone) ==>
        queue.rows == Replay(old(queue.history) + Stamped(rivals, now))
      ensures r == Err(AlreadyProcessing) <==>
        && id in old(sources) && Cumulative(old(sources)[id].kind) && !HasActive(old(queue.rows), SummarizeSource(id))
        && old(Beaten(id, eventId, rivals, now))
      ensures r == Err(SourceGone) <==>
        && id in old(sources) && Cumulative(old(sources)[id].kind) && !HasActive(old(queue.rows), SummarizeSource(id))
        && deleted && !old(Beaten(id, eventId, rivals, now))
      ensures rivals == [] && eventId !in old(queue.rows) ==> r != Err(AlreadyProcessing)
    {
      if id !in sources {
        return Err(SourceNotFound);
      }
      if !Cumulative(sources[id].kind) {
        return Err(SelfContainedSource);
      }
      var active := HasActiveEvent(id);
      if active.Some? {
        return Ok((active.value, true));
      }
      queue.Interleave(rivals, now);
      assert rivals == [] ==> queue.history == old(queue.history);
      var earlier := queue.rows;
      ghost var before := queue.history;
      var saved := queue.Save(eventId, SummarizeSource(id), appNow, now + TotalWait(rivals));
      if !saved {
        return Err(AlreadyProcessing);
      }
      if deleted {
        queue.Restore(earlier, before);
        sources := sources - {id};
        return Err(SourceGone);
      }
      sources := sources[id := sources[id].(nextSummaryAt := Some(appNow + CronInterval(cronInterval)))];
      r := Ok((eventId, false));
    }
  }

  /** In every reachable state of the outbox a source has at most one active digest event. */
  lemma OneActiveEventPerSource(h: History<Subject>, n: nat, id: SourceId, a: EventId, b: EventId)
    requires n <= |h| && a in At(h, n) && b in At(h, n)
    requires At(h, n)[a].subject == At(h, n)[b].subject == SummarizeSource(id)
    requires Active(At(h, n)[a].status) && Active(At(h, n)[b].status)
    ensures a == b
  {
    if a != b {
      UniqueActive(h, n, a, b);
    }
  }
}
