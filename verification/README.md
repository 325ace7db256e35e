# Feedium: a verified model of its queues, walks, digests and scores

Feedium collects posts from sources, summarizes them with a language model, scores the
summaries against the user's interests and serves a ranked feed. Its hard logic lives in
tables that many workers write at once and in the loops that read them. This project models
that logic in Dafny and proves properties of it.

Statements of the database are atomic steps on a table; a transaction commits as a whole or
not at all. Times are integers, and nothing is assumed of the database clock except that it
never runs backwards. Calls out of the repository (the language model, the embedding
provider, SHA-256, the square root) are parameters; the content hash is assumed injective
and the square root exact.

| file | what it models |
|---|---|
| `Prelude.dfy` | options, results, time |
| `Lease.dfy` | the outbox protocol as a history of guarded statements; fencing and its companions |
| `LeaseQueue.dfy` | an outbox table updated in place, the reaper, and rivals that interleave with them |
| `Retry.dfy` | 64-bit exponential backoff and the attempt budget |
| `Keyset.dfy` | cursor pagination over a table that changes between pages |
| `PostRepo.dfy` | the posts listing as an instance of it |
| `RankedFeed.dfy` | the ranked feed, whose cursor and order disagree |
| `ChangingFeed.dfy` | walks of the feed while scores and likes change |
| `Utf8.dfy` | truncation on a rune boundary |
| `Digest.dfy` | the budgeted loop that gathers a digest's input |
| `DigestWindows.dfy` | the windows of successive digests of one source |
| `Scheduler.dfy` | who enqueues a digest, and when |
| `DigestCycle.dfy` | the scheduler and the digest worker of one source, together |
| `Scoring.dfy` | cosine similarity and relevance over exact reals |
| `EmbeddingCache.dfy` | scoring with a persisted vector cache and crashes |
| `ScoringRuns.dfy` | many workers scoring at once, interleaved stage by stage |
| `Ingestion.dfy` | collecting items into posts and events |
| `SharedIngestion.dfy` | a batch while others create posts between its items |
| `EnqueueCall.dfy` | what an enqueueing call and its rivals do to an outbox, as a history |
| `ScoreOutbox.dfy` | finding and enqueueing what is to be scored, and the re-score of an interest change |
| `PageToken.dfy` | the encoding of the page token |

## Where the code and its documentation disagree

The model follows the code; each of these is a theorem or a counterexample below.

- The feed orders by `effective_value`, its cursor compares `value`
  (internal/data/score_repo.go:189-195). `RankedFeed.ExactIff` says exactly when a walk is
  still exact; `RankedFeed.LikeHidesAPost` gives two posts and one like where the second
  post is never shown, however long the walk.
- `scoredCandidatePostIDs` lacks the `IS NOT NULL` of its digest partner
  (internal/data/score_outbox_repo.go:234-242). A digest's score row is scanned as the nil
  UUID and its insert fails on the foreign key, so the transaction of an interest change
  (internal/biz/interest.go:119-134) is rolled back (internal/data/tx_manager.go:57-80)
  and nothing is enqueued (`ScoreOutbox.Outbox.EnqueueScoredPosts`).
  `ScoreOutbox.Outbox.RescoreFate`: it fails whatever the scan lists iff some digest is
  scored and fewer than 500 scored posts are idle.
- An interest change is said to commit atomically with its re-score
  (internal/biz/interest.go:98-101). The interest repository writes through the client
  outside the transaction (internal/data/interest_repo.go:33, internal/data/interest_repo.go:53,
  internal/data/interest_repo.go:74), so the rollback above does not undo the change: it
  stays, and nothing is re-scored (`ScoreOutbox.Outbox.RescoreAll`), change after change
  (`ScoreOutbox.Outbox.ChangesInVain`, with the example `ScoreOutbox.RescoreLost`).
- A batch "skips" items whose source is gone (internal/biz/collect.go:112-119). The skip
  covers only a source deleted between Create's read and its insert, which can happen only
  before the source has a post; the next item then finds no source and ends the batch. So a
  batch that skips completes iff the skipped item was all of it
  (`Ingestion.Store.CollectItems`).
- Posts listed by `published_at` while one is edited can come twice
  (`PostRepo.PublicationOrderRepeats`). None does if edits leave the sort value alone, as
  they do `created_at` (`PostRepo.WalkNeverRepeats`); an edited post that was already shown
  comes again iff it moved past the cursor (`PostRepo.EditedComesAgainIff`).
- A digest's `created_at` is read after the model has answered, later than its window's end
  (internal/biz/summary_usecase.go:205, internal/biz/summary_usecase.go:230). Posts
  created in between are in no digest (`DigestWindows.MissedIff`). Windows of overlapping
  executions can share instants (`DigestWindows.OverlapShares`); `DigestWindows.SharedIff`
  says exactly which do.
- The scheduler asks for a post since the last digest (internal/biz/summary_usecase.go:424-446),
  the digest looks back no further than maxWindow (internal/biz/summary_usecase.go:205-209).
  A source whose new posts are all older is enqueued at every interval and never gets a
  digest (`DigestCycle.Cycle.InVain`).
- An empty gathering is said to mean that there were no posts. It is also what a newest
  post yields whose first character exceeds the budget, and nothing else
  (`Digest.EmptyIff`).
- `CalculateBackoff` promises at most the maximum, but returns the base uncapped for
  attempt numbers below one (`Retry.BackoffCapped`).
- `ClaimOne` has no attempt limit: a lapsed lease is claimed again whatever the count.
  `Retry.BudgetExceeded` is a run with two claims where one is allowed;
  `Retry.BoundedAttempts` says that the limit is exceeded iff a lapsed lease was taken over
  when the attempts were used up, and by how much.
- A unique violation inside the scheduler's transaction is treated as "scheduled by a peer"
  (internal/biz/summary_usecase.go:412-460), but it has already aborted the transaction, so
  nothing of that pass commits (`Scheduler.Store.ScheduleNextCumulative`).

## Model

| member | source | states |
|---|---|---|
| Lease.Fencing | internal/data/summary_outbox_repo.go:143-315 | In any history with a non-decreasing clock, a successful extend, finalize or retry by a worker means: the latest claim was its own, its lease was live at every instant since, and no claim, finalize, retry or reap of the event came in between |
| Lease.HeldSinceClaim | internal/data/summary_outbox_repo.go:102-315 | A lease that is live now goes back, step by step and undisturbed, to its owner's own claim |
| Lease.ReachableRows | internal/data/summary_outbox_repo.go:102-355 | In every reachable table: processing iff locked_by and locked_until are set, terminal iff processed_at is set, and attempt_count is the number of claims in the history |
| Lease.UniqueActive | migrations/20260415100000_create_summaries_and_events.sql:24-25 | In every reachable table two active events are about different subjects |
| Lease.TerminalIsForever | internal/data/summary_outbox_repo.go:102-355 | Once terminal, a row never changes again |
| Lease.TerminalStamp | internal/data/summary_outbox_repo.go:175-355 | A terminal row carries the verdict and clock of exactly one finalize or reap |
| Lease.RetryIsHonoured | internal/data/summary_outbox_repo.go:102-315 | A rescheduled event is not claimed before its retry time |
| Lease.GuardsDisjoint | internal/data/summary_outbox_repo.go:102-355 | While one worker's guard holds, nobody can reclaim, reap or act as owner |
| Lease.ColumnsAfter | internal/data/summary_outbox_repo.go:42-355 | The columns of an event are those the latest statement that took effect wrote: a claim or extension a lease from its clock for its ttl, a retry its time and reason, an ending its verdict, clock and error |
| Lease.ColumnsKept | internal/data/summary_outbox_repo.go:102-355 | What a statement is not given to write it leaves: an earlier error and summary id stay |
| Lease.NextStep | internal/data/summary_outbox_repo.go:102-355 | What may happen next is decided by that statement: a new event can be claimed at once, a rescheduled one from its retry time on; a lease is its worker's strictly before its end, a claimer's strictly after, the reaper's later by more than grace if the claims are used up; an ended event is nobody's |
| Lease.RetryComesDue | internal/data/summary_outbox_repo.go:113-113 | A rescheduled event that is left alone can be claimed at any clock from its retry time on, and not before |
| Lease.Origin | internal/data/summary_outbox_repo.go:42-79 | Subject and creation time stay those of the insert |
| Lease.InsertIff | migrations/20260415100000_create_summaries_and_events.sql:24-25 | An insert takes effect iff its id is new and every earlier event about the subject has been ended |
| LeaseQueue.Queue.Save | internal/data/summary_outbox_repo.go:42-79 | Inserts a pending row unless the id is taken or the subject has an active event |
| LeaseQueue.Queue.ClaimOne | internal/data/summary_outbox_repo.go:102-141 | Claims a row that nobody has locked, pending and due or processing under a lapsed lease, with the least retry or creation time of all such; or leaves the table as it was because every other row is terminal, waits for a later time or is leased |
| LeaseQueue.Queue.ExtendLease | internal/data/summary_outbox_repo.go:143-173 | Succeeds exactly for the live owner and changes the lease's end only |
| LeaseQueue.Queue.FinalizeWithLease | internal/data/summary_outbox_repo.go:175-226 | Succeeds exactly for the live owner; writes the verdict, keeps an earlier error or summary it is not given, and releases the lock |
| LeaseQueue.Queue.MarkForRetry | internal/data/summary_outbox_repo.go:277-315 | Succeeds exactly for the live owner; the row is pending until the retry time |
| LeaseQueue.Queue.FailExpired | internal/data/summary_outbox_repo.go:317-355 | Succeeds exactly on a processing row past grace and at or above the attempt limit |
| LeaseQueue.Queue.ListLeaseExpired | internal/data/summary_outbox_repo.go:357-390 | Lists lapsed rows without repetition, longest expired first, as many as the limit and the table allow, with their current attempt counts |
| LeaseQueue.Queue.ListingMeans | internal/data/summary_outbox_repo.go:357-390 | Column by column: processing, lease ended more than grace ago, earliest end first, none twice, and every such row if the listing is not full |
| LeaseQueue.Queue.ReapListed | internal/biz/summary_usecase.go:288-302 | With rivals before every write, what happens is their statements and one guarded write for each listed event that is out of attempts, in that order and nothing else; the count is the number of writes that took effect |
| LeaseQueue.Queue.ReapStuckEvents | internal/biz/summary_usecase.go:275-303 | With arbitrary steps between listing and writes, nothing else happens than they and the guarded writes; each write that takes effect finds its row processing, past grace and out of attempts at that instant; only rows stuck at the listing are tried, all of them if they fit the batch; the count is exactly the rows moved to failed |
| LeaseQueue.ReapIsSafe | internal/biz/score.go:203-240 | A reaped event had no live lease for anyone, and stays failed |
| Retry.CalculateBackoff | internal/biz/summary_retry.go:26-42 | The doubling loop, wrapped at 64 bits, returns min(base * 2^(attempt-1), max) over unbounded integers |
| Retry.RetryDelay | internal/biz/summary_usecase.go:307-323 | Whatever is configured, the policy built from it gives a positive wait by the same formula |
| Retry.BackoffGrows | internal/biz/summary_retry.go:26-42 | The backoff is positive and never shrinks with the attempt number |
| Retry.BackoffCapped | internal/biz/summary_retry.go:26-42 | The backoff respects the maximum iff the attempt number is at least one or the base already does |
| Retry.BackoffDoubles | internal/biz/summary_retry.go:26-42 | The first wait is the base, every further one twice the one before, none above the maximum |
| Retry.RetriedWhile | internal/biz/summary_retry.go:46-76 | Cancellations, deadlines and the four lasting failures are never retried; any other error is while attempts remain |
| Retry.SeenIsClaims | internal/task/event_worker_pool.go:271-275 | The count a worker passes to the policy is the number of claims so far |
| Retry.RetryBelowBudget | internal/biz/summary_retry.go:46-54 | Under the policy, a reschedule that succeeds found the row below the attempt limit, although the policy saw only the count at the claim |
| Retry.WaitingBelowBudget | internal/biz/summary_retry.go:46-54 | If workers reschedule only when the policy says so, an event that waits has been claimed fewer than maxAttempts times, whatever lapsed before |
| Retry.ClaimsBeyondBudget | internal/biz/summary_retry.go:46-54 | The claims beyond maxAttempts are exactly the takeovers of lapsed leases at a used-up count |
| Retry.BoundedAttempts | internal/biz/summary_retry.go:46-54 | So an event is claimed at most maxAttempts times plus once per such takeover, and more than maxAttempts times iff there is one |
| Retry.BudgetExceeded | internal/data/summary_outbox_repo.go:102-141 | The shortest such run: one attempt allowed, one crash, two claims |
| Retry.AttemptsWithoutLapses | internal/biz/summary_retry.go:46-54 | A run without lapses claims an event at most maxAttempts times |
| Keyset.WalkOrdered | internal/data/post_repo.go:287-454 | While rows come and go between pages, the walk is strictly sorted, so nothing comes twice, and holds only rows that matched when fetched |
| Keyset.WalkComplete | internal/data/post_repo.go:287-454 | A row held by every snapshot from some fetch on, and not passed by the cursor then, has been returned since by the time the cursor has passed it |
| Keyset.WalkStatic | internal/data/post_repo.go:287-454 | On an unchanged table the walk is, page after page, a prefix of the sorted filtered table as long as the cursor separates at the page boundaries |
| Keyset.WalkEnds | internal/data/source_repo.go:127-207 | A coherent walk over an unchanged table ends within one fetch more than the table has rows, with exactly what matches |
| Keyset.ListPageSound | internal/data/summary_repo.go:101-156 | A row that is left is on the page iff the page's token has passed it |
| Keyset.PageMeans | internal/data/post_repo.go:287-390 | A page holds matching rows past the cursor, in order, as many as fit; it hands out the cursor of its last row iff something is left, all of which comes after it |
| Keyset.StillReturnedIff | internal/data/post_repo.go:287-454 | A row that every later snapshot holds is still to come in the finished walk iff the cursor is before it |
| Keyset.SameFollow | internal/data/score_repo.go:167-259 | Two queries that agree on every row there ever was walk alike |
| Keyset.SortedUnique | internal/data/post_repo.go:213-262 | There is only one sorted arrangement of the same rows, so the order of a page is determined |
| PostRepo.List | internal/data/post_repo.go:213-390 | The SQL conditions, limit pageSize + 1 and the loop give exactly one page of the walk, and the token that continues it |
| PostRepo.WhereIsMatching | internal/data/post_repo.go:391-454 | The ascending and descending cursor filters select exactly what the walk has left |
| PostRepo.PageOfPosts | internal/data/post_repo.go:213-390 | Field by field: which posts are on the page, how many, what its token says, and that a wanted post past the token that is not on it comes after a full page |
| PostRepo.PageInOrder | internal/data/post_repo.go:264-276 | The four orders in terms of published_at, created_at and id |
| PostRepo.ListPosts | internal/biz/post.go:251-264 | An inverted time range is an invalid argument; else any requested page size is brought into 1 to 500, and the page is that of the walk with this size |
| PostRepo.WalkInOrder | internal/data/post_repo.go:213-454 | A walk in any of the four orders, under inserts, edits and deletes between pages, comes strictly by (sort value, id), and each post matched when it was read |
| PostRepo.WalkNeverRepeats | internal/data/post_repo.go:213-454 | If every post keeps its sort value while it lives, no id comes twice; creation times always are kept |
| PostRepo.EditedComesAgainIff | internal/data/post_repo.go:264-454 | A post that every later snapshot holds in one edited form comes again in the finished walk iff that form lies past the cursor |
| PostRepo.WalkMissesNobody | internal/data/post_repo.go:213-454 | A post that at every fetch of a finished walk matched with one sort value is in its result |
| PostRepo.WalkOfUnchangedPosts | internal/data/post_repo.go:213-454 | On an unchanged table, in any of the four orders, the finished walk is the sorted list of the matching posts |
| PostRepo.PublicationOrderRepeats | internal/data/post_repo.go:264-276 | So it happens by publication time: one edit, creation times kept, and a post comes twice |
| RankedFeed.ListRanked | internal/data/score_repo.go:167-259 | One page of the feed query, and the (value, id) token that continues it |
| RankedFeed.PageOfTheFeed | internal/data/score_repo.go:167-259 | Field by field: every item has the minimum score and lies in the date range and past the token, by effective value and id; any other such row of the union comes after a full page |
| RankedFeed.EligibleRows | internal/data/score_repo.go:125-165 | The union holds exactly the scored posts that are not disliked, boosted if liked, and the scored cumulative digests |
| RankedFeed.ExactIff | internal/data/score_repo.go:167-259 | A walk ordered by one column with a cursor on another returns every row exactly once iff at every page boundary the cursor separates the rows above from those below |
| RankedFeed.FeedWalkExactIff | internal/data/score_repo.go:167-259 | The same for the feed and one page size |
| RankedFeed.FeedExactForEveryPageSize | internal/data/score_repo.go:167-259 | Walks of every page size are exact iff the eligible rows in feed order are also in value order |
| RankedFeed.FeedWithoutLikes | internal/data/score_repo.go:125-259 | Without likes the finished walk holds exactly the rows of the union with the minimum score in the date range, once each, by value descending and id ascending |
| RankedFeed.LikeHidesAPost | internal/data/score_repo.go:189-195 | Two posts and one like: a walk of page size one never returns the second, eligible post, whatever its length |
| ChangingFeed.FeedInOrder | internal/data/score_repo.go:125-259 | Without likes, while scores, posts, digests and dislikes change between pages, rows come strictly by (value descending, id ascending), each eligible when it was read |
| ChangingFeed.FeedNeverRepeats | internal/data/score_repo.go:125-259 | If nothing is rescored meanwhile, no entity comes twice |
| ChangingFeed.RescoredComesIff | internal/data/score_repo.go:125-259 | A rescored entity that every later snapshot holds comes in the rest of the finished walk iff its new place is past the cursor |
| ChangingFeed.FeedMissesNobody | internal/data/score_repo.go:125-259 | An entity eligible with one score at every fetch of a finished walk is in its result |
| ChangingFeed.MissingIff | internal/data/score_repo.go:167-259 | Whatever the order and the cursor column, and whatever is written: a row held by every snapshot from some fetch on is missing from the rest of the finished walk iff the cursor reached it before the walk returned it |
| ChangingFeed.FeedHidesIff | internal/data/score_repo.go:167-259 | So in the feed, likes and all, a held row is hidden iff some page ended at its value or below before it was shown |
| ChangingFeed.HiddenByALike | internal/data/score_repo.go:189-195 | By then a liked post has been shown: nothing else hides a row |
| Utf8.TruncateUTF8 | internal/biz/summary_usecase.go:399-407 | The loop stays in range and cuts at the last rune start at or before n |
| Utf8.TruncatedIsLongestValid | internal/biz/summary_usecase.go:399-407 | On well-formed text the cut is well-formed, at most n bytes and the longest such prefix |
| Utf8.TruncatedLosesLittle | internal/biz/summary_usecase.go:399-407 | The cut drops at most three bytes below n |
| Utf8.PrefixValidIff | internal/biz/summary_usecase.go:399-407 | A prefix of well-formed text is well-formed iff it ends at a rune start or at the end |
| Utf8.ValidIsEncoding | internal/biz/summary_usecase.go:399-407 | Well-formed text is the UTF-8 encoding of some sequence of Unicode scalar values |
| Utf8.EncodingIsValid | internal/biz/summary_usecase.go:399-407 | And every such encoding is well-formed |
| Digest.CollectWindowPosts | internal/biz/summary_usecase.go:350-396 | The paged loop renders the posts it walked and stops only at the end of the walk or past the budget |
| Digest.CollectIsRendering | internal/biz/summary_usecase.go:350-396 | On an unchanged table that is the rendering of the whole window: the longest newest-first prefix that fits, joined oldest to newest, or the truncated newest post |
| Digest.RenderingUnique | internal/biz/summary_usecase.go:342-396 | A window and a budget have one rendering |
| Digest.Layout | internal/biz/summary_usecase.go:366-396 | Byte by byte: for the largest k whose texts and separators fit, the text of the j-th newest post stands, with an empty line after it, behind all that are older, and nothing else is there; or the cut newest text, if none fits |
| Digest.PageSizeIrrelevant | internal/biz/summary_usecase.go:350-396 | The result does not depend on the page size |
| Digest.RenderingFits | internal/biz/summary_usecase.go:350-396 | The result never exceeds the budget in bytes |
| Digest.LongestFitIsLongest | internal/biz/summary_usecase.go:366-386 | No longer prefix of the newest posts would have fitted |
| Digest.NewestFirstFacts | internal/biz/summary_usecase.go:350-365 | The window's posts are those of the source with start <= created_at < end, strictly by (created_at, id) descending |
| Digest.EmptyIff | internal/biz/summary_usecase.go:342-396 | With well-formed, non-empty texts the result is empty iff the window has no posts or the newest one's first character is longer than the budget |
| Digest.TinyBudgetReadsAsEmpty | internal/biz/summary_usecase.go:342-349 | The smallest input of the second kind: one four-byte character under a budget of three |
| DigestWindows.CumulativeSource.GetLastBySource | internal/data/summary_repo.go:158-179 | The digest with the greatest created_at |
| DigestWindows.CumulativeSource.ProcessSourceEvent | internal/biz/summary_usecase.go:186-236 | Whatever overlapping executions save meanwhile and whatever the clock does: expired iff too old; a failed read or save saves nothing; else the model is given the rendering of [start, now), where start is the latest digest it had read or the maxWindow cutoff, and a digest is saved iff it answers and there was input |
| DigestWindows.ReportMeans | internal/biz/summary_usecase.go:211-236 | No posts iff the rendering is empty, a failure iff the model gives no answer to it, and what is saved is that answer |
| DigestWindows.CumulativeSource.NextStartMeans | internal/biz/summary_usecase.go:199-208 | The window starts at the newest digest or at the cutoff, whichever is later |
| DigestWindows.WindowsDisjoint | internal/biz/summary_usecase.go:186-236 | Two windows share no instant if one execution began after the other's digest was saved, over any run |
| DigestWindows.SharedIff | internal/biz/summary_usecase.go:186-236 | Two windows share an instant iff the later one ends less than maxWindow after the earlier and neither execution had read a digest saved at the earlier end or after |
| DigestWindows.OverlapShares | internal/biz/summary_usecase.go:186-236 | So executions that overlap can share: both read before either saved |
| DigestWindows.NoPostFeedsTwoDigests | internal/biz/summary_usecase.go:186-236 | A post that is input to two digests, as the table stood at each, is input to two executions that overlapped |
| DigestWindows.MissedAnyhowIff | internal/biz/summary_usecase.go:186-236 | Over any run, overlapping or not, an instant is in no digest iff each window ends at or before it, ends maxWindow or more after it, or belongs to an execution that had read a digest saved after it |
| DigestWindows.MissedIff | internal/biz/summary_usecase.go:186-236 | When executions follow one another, an instant up to the latest window is in no digest iff it fell between a window's end and its digest's save, or was older than maxWindow when the next window was taken |
| DigestWindows.LastIsLatest | internal/data/summary_repo.go:158-179 | The greatest created_at read from the table is the greatest save time of the windows |
| Scheduler.Store.ClaimDueCumulative | internal/data/source_repo.go:213-266 | Picks an unlocked due cumulative source that none has been due for longer than, or none iff there is none |
| Scheduler.Store.LongestDueMeans | internal/data/source_repo.go:213-266 | Of two due sources the pass takes the one put off to the earlier time, or created earlier if never put off |
| Scheduler.Store.HasActiveEvent | internal/data/summary_outbox_repo.go:392-420 | Finds the source's one active event iff there is one |
| Scheduler.Store.AnyNewPosts | internal/biz/summary_usecase.go:424-446 | The one-row listing is non-empty iff some post of the source lies in [last digest, now) |
| Scheduler.Store.WouldEnqueueMeans | internal/biz/summary_usecase.go:412-446 | A digest is enqueued iff no event of the source is pending or being processed and some post is at least as new as its last digest |
| Scheduler.Store.MaybeEnqueue | internal/biz/summary_usecase.go:412-460 | Reports nothing to do iff an event is active or no post is new, and then does nothing; else aborts iff by the time of the insert rivals have taken the id or made an event of the source active, leaving the outbox to their statements alone; else they and the one insert are all that happened |
| Scheduler.Store.ScheduleNextCumulative | internal/biz/summary_usecase.go:244-270 | Aborts exactly in that case and then leaves the sources as they were and the outbox to the rivals; a committed pass bumps exactly the source it claimed, takes it off the due list as long as the application clock is less than an interval behind the database's, and adds its one event iff no event was active and a post is new |
| Scheduler.Store.Drain | internal/biz/summary_usecase.go:244-270 | With nobody else writing, k passes at one clock reading drain k due sources |
| Scheduler.Store.TriggerSourceSummarize | internal/biz/summary_usecase.go:70-105 | Each error exactly when its cause holds, a rival's event and a source deleted before the insert among them, with nothing of its own left behind; an active event is returned as it is; else one pending event is added to what rivals did and the source bumped |
| Scheduler.OneActiveEventPerSource | migrations/20260415100000_create_summaries_and_events.sql:25-25 | In every reachable outbox a source has at most one active digest event |
| DigestCycle.NoPostsIff | internal/biz/summary_usecase.go:186-221 | An execution reports no posts iff no post since the last digest is within maxWindow, or the newest one's first character is longer than the budget |
| DigestCycle.Cycle.Round | internal/task/event_worker_pool.go:222-292 | Scheduler and worker in turn: an event is enqueued iff the source is due, none is active and a post is new; the source is put off by an interval; the event ends as the digest does: completed, expired, failed or put back, or is left processing if the worker was interrupted or lost its lease |
| DigestCycle.Cycle.ConcludedMeans | internal/task/event_worker_pool.go:222-292 | A digest completes its event and is named in it; no posts completes it without one; a late event expires; other failures put it back or fail it |
| DigestCycle.OverlookedForGood | internal/biz/summary_usecase.go:204-221 | New posts out of reach stay so until one is added |
| DigestCycle.Cycle.InVain | internal/biz/summary_usecase.go:244-270 | From then on every pass that finds the source due, an interval or more after the last, enqueues an event that ends without a digest, and leaves the source as stuck as it was |
| DigestCycle.TooOldForEver | internal/biz/summary_usecase.go:204-221 | One post older than maxWindow, an empty outbox and no digest: an event every hour and never a digest |
| Scoring.CauchySchwarz | internal/biz/score.go:91-97 | The accumulators satisfy dot*dot <= na*nb for vectors of any length |
| Scoring.InnerProduct | internal/biz/score.go:91-97 | The accumulated product is symmetric, additive and homogeneous, and a unit vector picks out its coordinate: it is the inner product |
| Scoring.UnitsOrthonormal | internal/biz/score.go:91-97 | Unit vectors are orthonormal |
| Scoring.NullNorm | internal/biz/score.go:98-100 | The norm is 0 iff every coordinate is |
| Scoring.Cosine | internal/biz/score.go:79-102 | An error iff a vector is empty or the lengths differ; else the number with the sign of the inner product whose square times the norms is the inner product's square, 0 if a norm is 0 |
| Scoring.CosineUnique | internal/biz/score.go:79-102 | That number is unique, so the square root used does not matter |
| Scoring.CosineInRange | internal/biz/score.go:79-102 | A cosine lies in [-1, 1] |
| Scoring.CosineTimesNorms | internal/biz/score.go:101-101 | The cosine times the two norms is the inner product |
| Scoring.CosineOfMultiples | internal/biz/score.go:79-102 | A vector that is not null has cosine 1 with itself and its positive multiples and -1 with the negative ones |
| Scoring.Relevance | internal/biz/score.go:108-129 | Succeeds iff every interest is comparable, reports the first that is not, and returns the largest of 0 and the cosines |
| Scoring.RelevanceIsLargest | internal/biz/score.go:108-129 | No interest has a greater cosine than the relevance, and if that is not 0 one has just it |
| Scoring.RelevanceInRange | internal/biz/score.go:122-127 | The relevance lies in [0, 1], so neither clamp ever fires |
| Scoring.RelevanceGrows | internal/biz/score.go:104-129 | Adding interests never lowers it |
| Scoring.RelevanceOfASet | internal/biz/score.go:104-129 | It depends only on which interests there are, not on their order or repetition |
| Scoring.RelevanceScales | internal/biz/score.go:104-129 | Scaling the post and every interest by positive factors leaves it unchanged |
| EmbeddingCache.Scorer.ResolveVector | internal/biz/score.go:335-356 | Returns what the provider would, calls it iff the cached hash or model differs, and stores the vector before returning it |
| EmbeddingCache.Scorer.CollectVectors | internal/biz/score.go:261-268 | Gives the interests' vectors iff every interest has the current model |
| EmbeddingCache.Scorer.UpsertScore | internal/data/score_repo.go:35-115 | One score per entity: a second one keeps the id and creation time of the first |
| EmbeddingCache.Scorer.ScorePost | internal/biz/score.go:246-322 | Whatever is cached, a success stores the relevance direct computation gives, under one model; each failure has its exact cause; one Embed call iff the vector is needed and not cached; a second score keeps the first one's id and creation time |
| EmbeddingCache.Scorer.StoredScoreMeans | internal/biz/score.go:246-322 | Every stored score was computed under one model; no interest it saw is closer to the text, and unless it is 0 one is just that close |
| EmbeddingCache.Scorer.Fill | internal/biz/score.go:335-356 | An attempt that gets its vector leaves it reusable, whether or not its score is stored |
| ScoringRuns.Pool.Run | internal/biz/score.go:246-356 | Over any run in which workers' attempts interleave stage by stage with one another, with deaths and with changes of texts and interests, every cached vector stays the provider's and every stored score the direct relevance of what its attempt read; a cached vector stays usable while text and model do |
| ScoringRuns.Pool.CrashThenRun | internal/biz/score.go:329-334 | After an attempt that got its vector, whether or not its score was stored, and any such run that leaves text and model alone, no retry makes an Embed call |
| ScoringRuns.Pool.Finish | internal/biz/score.go:270-322 | The score is stored under the text and interests its attempt read, iff their vectors can be compared |
| Ingestion.FilterTextItems | internal/biz/collect.go:139-147 | Returns the items that have text, in order |
| Ingestion.TextItemsExactly | internal/biz/collect.go:135-147 | An item passes iff it was there and is not blank |
| Ingestion.TextsOfBoth | internal/biz/collect.go:139-147 | Filtering keeps order and repetitions: the texts of two lists, one after the other, are the texts of both |
| Ingestion.TextsOfOne | internal/biz/collect.go:135-147 | A single item passes unless its text is all spaces |
| Ingestion.SpacesAreWhiteSpace | internal/biz/collect.go:135-147 | Space means a character with the Unicode property White_Space |
| Ingestion.Store.Create | internal/biz/post.go:152-211 | Each error exactly when its cause holds, with nothing written; else either the post was there and nothing changes, or it is added now together with one pending event if its source is self-contained |
| Ingestion.Store.VerdictMeans | internal/biz/post.go:152-211 | The argument is invalid iff the external id is empty, the publication time missing or the text all spaces; every other error has its cause, and without one there is none |
| Ingestion.Store.SaveWithEvent | internal/data/post_repo.go:33-105 | Insert-or-keep by (source_id, external_id); keeps exactly one summary event per post of a self-contained source and none for a cumulative one |
| Ingestion.EventsAfter | internal/biz/post.go:189-204 | The post and event inserted together keep every event matched to one post and every self-contained post to one event |
| Ingestion.FirstWriteWins | internal/data/post_repo.go:33-39 | After a batch a stored post has its old content, a new one that of its first item |
| Ingestion.RerunAbsorbed | internal/biz/collect.go:112-133 | j items run again after k of the same items leave what the longer of the two would |
| Ingestion.Store.CollectItems | internal/biz/collect.go:120-133 | Whatever befalls each item: the posts are those up to the first item that is not stored; the batch completes iff its source was there, all items are valid and either the database held or the only item was skipped with its source; else it reports the verdict of the item it ended at; posts and events that were there stay |
| Ingestion.Store.CollectAgain | internal/biz/collect.go:112-133 | Attempts cut short anywhere, with others between them at work on the outbox and collecting other sources: once one completes, the posts of the source are those of one uninterrupted run up to ids and times |
| SharedIngestion.CollectAmong | internal/biz/collect.go:120-133 | With others creating posts, of the same source too, before every item: the posts are those of all writes in their order, the batch's own being its first done items; a batch that completes has written all, unless its one item was skipped with the source; undisturbed itself, it completes iff all items are valid |
| SharedIngestion.FirstOfAll | internal/data/post_repo.go:33-39 | The first write of a key wins, whoever made it |
| Ingestion.WorkKeepsPostEvents | internal/data/summary_outbox_repo.go:42-355 | No statement but the insert of a post's event changes which events are about which posts |
| ScoreOutbox.Outbox.Scan | internal/data/score_outbox_repo.go:163-298 | Distinct candidates in any order, 500 or all there are |
| ScoreOutbox.Outbox.DuePostsListed | internal/data/score_outbox_repo.go:268-298 | In the tables' own terms: posts some summary refers to, without a score and without a pending or processing event; all of them unless the scan is full; so a scored post is never enqueued as due |
| ScoreOutbox.Outbox.DueDigestsListed | internal/data/score_outbox_repo.go:163-198 | The same for the summaries that refer to no post |
| ScoreOutbox.Outbox.ScoredDigestsListed | internal/data/score_outbox_repo.go:178-198 | Digests that have a score and no event underway |
| ScoreOutbox.Outbox.ScoredPostRowsListed | internal/data/score_outbox_repo.go:228-263 | Every scored digest is listed besides the idle scored posts |
| ScoreOutbox.Outbox.InsertAll | internal/data/score_outbox_repo.go:71-83 | Stops at the first key whose row is missing; what happens is one insert per key tried, its rivals before it, and nothing else; the count is the number of the call's own events in the table |
| ScoreOutbox.Outbox.EnqueueDuePosts | internal/data/score_outbox_repo.go:60-84 | With rivals before every insert, what happens is they and one insert per listed post, and the count is exactly the rows the call added; alone, it adds just those rows and the listed posts are due no more |
| ScoreOutbox.Outbox.EnqueueDueDigests | internal/data/score_outbox_repo.go:113-125 | The same for digests |
| ScoreOutbox.Outbox.EnqueueScoredDigests | internal/data/score_outbox_repo.go:127-139 | The same for digests that have a score |
| ScoreOutbox.Outbox.EnqueueScoredPosts | internal/data/score_outbox_repo.go:86-111 | Fails iff its scan met a digest's score; then all it inserted is rolled back and only the rivals' statements remain |
| ScoreOutbox.Outbox.RescoreFate | internal/data/score_outbox_repo.go:228-242 | It fails whatever rows the scan lists iff a digest has a score and fewer than 500 scored posts are idle; it can fail iff a digest has a score |
| ScoreOutbox.Outbox.RescoreAll | internal/biz/interest.go:119-134 | An interest change: the write, then posts, then digests; the write stays in any case; if the posts fail nothing is enqueued, which is certain, and impossible, under the conditions of `RescoreFate` |
| ScoreOutbox.Outbox.ChangesInVain | internal/data/interest_repo.go:27-82 | Where failure is certain, any number of interest changes are kept and enqueue nothing |
| ScoreOutbox.RescoreLost | internal/data/interest_repo.go:27-82 | One scored post and one scored digest: the interests change and the post is not to be scored again |
| ScoreOutbox.Outbox.EnqueueDue | internal/biz/score.go:189-201 | Alone, one call enqueues up to 500 due posts and up to 500 due digests |
| ScoreOutbox.Outbox.DrainDue | internal/biz/score.go:189-201 | With nothing else running, k calls enqueue min(500k, n) of n due posts and as many of the due digests |
| EnqueueCall.InsertActive | internal/data/score_outbox_repo.go:27-45 | An insert under a new id adds its row iff the entity has no active event, and leaves it with one either way |
| EnqueueCall.TurnEffect | internal/data/score_outbox_repo.go:71-83 | Whatever rivals do, every entity tried had an active event right after its insert, and each event the call added is about its own entity |
| EnqueueCall.CountGrows | internal/data/score_outbox_repo.go:71-83 | The count of added events grows by one exactly if the insert met no active event |
| EnqueueCall.QuietInserts | internal/data/score_outbox_repo.go:71-83 | Undisturbed inserts of distinct idle entities all take effect, and activate nothing else |
| PageToken.TokenRoundTrip | internal/data/page_token.go:24-56 | Decoding the token of a UTC instant of the years 0 to 9999 and a UUID gives back both |
| PageToken.TokenLayout | internal/data/page_token.go:24-35 | Under the base64 a token is the timestamp, a bar and the identifier, in this order |
| PageToken.Base64RoundTrip | internal/data/page_token.go:26-35 | Base64 decoding undoes encoding, for every byte string |
| PageToken.StandardAlphabet | internal/data/page_token.go:26-35 | The alphabet is that of RFC 4648, A to Z, a to z, 0 to 9, plus and slash, in this order |
| PageToken.QuantumIsNumber | internal/data/page_token.go:26-35 | Four characters read in base 64 are the three bytes read in base 256 |
| PageToken.EncodedLength | internal/data/page_token.go:26-35 | Four characters for every three bytes begun |
| PageToken.TimeRoundTrip | internal/data/page_token.go:42-45 | Parsing undoes formatting with trimmed fractions, for every instant in range |
| PageToken.TimeLayout | internal/data/page_token.go:24-35 | Year, month, day, hour, minute and second stand at their places in decimal, a fraction only if there is one, and Z at the end |
| PageToken.LeapDays | internal/data/page_token.go:42-45 | A year is leap if divisible by 4, except centuries not divisible by 400 |
| PageToken.UuidRoundTrip | internal/data/page_token.go:47-50 | Parsing undoes formatting of a UUID |
| PageToken.UuidLayout | internal/data/page_token.go:47-50 | Sixteen bytes in five groups at their places, each byte two lower-case hexadecimal digits, the high half first |
| PageToken.HexAt | internal/data/page_token.go:47-50 | Each byte is two lower-case hexadecimal digits, the high half first |
| PageToken.HexOfEitherCase | internal/data/page_token.go:47-50 | Digits are read in either case |
| PageToken.SplitJoined | internal/data/page_token.go:37-40 | Two texts without a bar, joined by one, split into just those two |

## Left out

- PageToken.Base64RoundTrip: what the decoder makes of texts the encoder never writes (line breaks, misplaced padding) is modelled, but no law says it.
- PageToken.TimeRoundTrip: the parser accepts UTC timestamps ending in Z only; the library's numeric offsets, which the encoder never writes for UTC times, are not modelled.
- PageToken.UuidRoundTrip: of the library's four accepted forms only the hyphenated 36-character one, the one the encoder writes, is modelled.
- PostRepo.List: takes structured tokens; the string encoding is proved separately in `PageToken`. Loading the posts' sources into the page is left out.
- RankedFeed.ListRanked: scores are exact reals and tokens structured; printing and parsing floats (internal/data/score_repo.go:267-290) is not modelled.
- Scoring.Cosine: exact reals with an exact square root; float rounding is not modelled.
- LeaseQueue.Queue.ReapStuckEvents: no database error ends the pass early; with one the code returns the count so far.
- Ingestion.Store.Create: the identifier's syntax is not validated, and a failed transaction is one error whatever failed.
- LeaseQueue.Queue.FinalizeWithLease: takes terminal statuses only, as its interface documents (internal/biz/summary.go:127-130); the statement itself would write any.
- ScoreOutbox.Outbox.RescoreAll: the interests are one value, replaced as a whole, and their own errors (an unknown id, a failed write) end the call before anything here; rivals see the transaction's inserts at once instead of waiting for its end, and their effect after a rollback is taken without them.
- PostRepo.ListPosts: the syntax of a source id and the spelling of the order are not validated, because the model's are structured.
- DigestCycle.Cycle.Round: nobody else writes the source's tables meanwhile, and other due sources are left to other schedulers; what rivals can do is in `Scheduler`, `DigestWindows` and `Lease`.
- EmbeddingCache.Scorer.ScorePost: an upsert that is reported as failed has not been applied.
- `UpdateStatus` of the summary outbox (internal/data/summary_outbox_repo.go:228-274): an unguarded write without a caller, which would break the lease protocol.
- Deletion of posts and summaries with its cascades, the digest events that go with a deleted source (the model's outbox keeps them), and editing of posts outside the listing walks: they would add cases, not harder properties.
- The listings of sources, summaries and interests beyond the generic walk: the same keyset with other columns.
- The score outbox's own lease statements: the same guarded updates as the summary outbox's, so `LeaseQueue` stands for both.
- Freshness of scores after an interest changes while an event is in flight: the code does not give it.
- At most one summary per post under overlapping workers: ListByPost and Save are separate statements.
- Row locks beyond "skip what another transaction holds", deadlocks and isolation anomalies of the SQL engine.
- Fetchers, the Telegram session, HTTP, the language model, configuration, validators, enum mappings and the user interface.
