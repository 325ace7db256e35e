/**
  The scoring outbox: the four scans that find posts and digests to score, and the
  conflict-free inserts that enqueue them.  Rivals (workers, reapers, other scans)
  may run statements before each insert.
 */
module ScoreOutbox {
  import opened Prelude
  import opened Lease
  import opened LeaseQueue
  import opened EmbeddingCache
  import opened EnqueueCall

  const ENQUEUE_SCAN_LIMIT: nat := 500

  /** uuid.Nil, which no post has; scanning a NULL column leaves it behind. */
  const NIL: PostId := 0

  /** A listing from the candidates: distinct, at most the scan limit, all of them if they fit. */
  ghost predicate Listing(found: seq<ScoreKey>, candidates: set<ScoreKey>) {
    && Distinct(found) && AsSet(found) <= candidates
    && |found| == |AsSet(found)| == Min(ENQUEUE_SCAN_LIMIT, |candidates|)
  }

  lemma WholeListing(found: seq<ScoreKey>, candidates: set<ScoreKey>)
    requires Listing(found, candidates) && |candidates| <= ENQUEUE_SCAN_LIMIT
    ensures AsSet(found) == candidates
  {
    if candidates - AsSet(found) != {} {
      var k :| k in candidates - AsSet(found);
      SubsetCardinality(AsSet(found), candidates - {k});
    }
  }

  /** What scanning post_id into a uuid gives: a digest's NULL leaves uuid.Nil. */
  function PostIdColumn(rows: seq<ScoreKey>): (keys: seq<ScoreKey>)
    ensures |keys| == |rows|
    ensures forall i :: 0 <= i < |rows| ==> keys[i] == if rows[i].PostKey? then rows[i] else PostKey(NIL)
  {
    seq(|rows|, i requires 0 <= i < |rows| => if rows[i].PostKey? then rows[i] else PostKey(NIL))
  }

  /** The row the key refers to exists. */
  predicate Exists(posts: set<PostId>, summaries: map<SummaryId, Option<PostId>>, key: ScoreKey) {
    match key
    case PostKey(p) => p in posts
    case DigestKey(s) => s in summaries
  }

  predicate AllExist(posts: set<PostId>, summaries: map<SummaryId, Option<PostId>>, keys: seq<ScoreKey>, n: nat)
    requires n <= |keys|
  {
    n == 0 || (AllExist(posts, summaries, keys, n - 1) && Exists(posts, summaries, keys[n - 1]))
  }

  lemma {:induction false} AllExistAt(posts: set<PostId>, summaries: map<SummaryId, Option<PostId>>,
                                      keys: seq<ScoreKey>, n: nat, j: nat)
    requires j < n <= |keys| && AllExist(posts, summaries, keys, n)
    ensures Exists(posts, summaries, keys[j])
  {
    if j < n - 1 {
      AllExistAt(posts, summaries, keys, n - 1, j);
    }
  }

  /** Summaries are of stored posts, scores of stored posts or summaries, and uuid.Nil is nobody's id. */
  ghost predicate ForeignKeys(posts: set<PostId>, summaries: map<SummaryId, Option<PostId>>, scores: set<ScoreKey>) {
    && NIL !in posts
    && (forall s :: s in summaries && summaries[s].Some? ==> summaries[s].value in posts)
    && (forall key :: key in scores ==> Exists(posts, summaries, key))
  }

  class Outbox {
    var posts: set<PostId>
    var summaries: map<SummaryId, Option<PostId>>
    var scores: set<ScoreKey>
    var interests: seq<Interest>
    const queue: Queue<ScoreKey>

    ghost predicate Valid()
      reads this, queue
    {
      queue.Valid() && ForeignKeys(posts, summaries, scores)
    }

    constructor (posts: set<PostId>, summaries: map<SummaryId, Option<PostId>>, scores: set<ScoreKey>)
      requires ForeignKeys(posts, summaries, scores)
      ensures Valid() && fresh(queue) && this.posts == posts && this.summaries == summaries && this.scores == scores
      ensures queue.history == [] && interests == []
    {
      this.posts, this.summaries, this.scores, interests := posts, summaries, scores, [];
      queue := new Queue<ScoreKey>();
    }

    predicate Idle(key: ScoreKey)
      reads queue
    {
      !HasActive(queue.rows, key)
    }

    /** dueCandidatePostIDs: posts with a summary, no score and no active event. */
    function DuePosts(): set<ScoreKey>
      reads this, queue
    {
      set s |
        && s in summaries && summaries[s].Some?
        && PostKey(summaries[s].value) !in scores && Idle(PostKey(summaries[s].value))
        :: PostKey(summaries[s].value)
    }

    /** dueCandidateSummaryIDs: digests with no score and no active event. */
    function DueDigests(): set<ScoreKey>
      reads this, queue
    {
      set s | s in summaries && summaries[s].None? && DigestKey(s) !in scores && Idle(DigestKey(s)) :: DigestKey(s)
    }

    /** scoredCandidateSummaryIDs: scored digests with no active event. */
    function ScoredDigests(): set<ScoreKey>
      reads this, queue
    {
      set key | key in scores && key.DigestKey? && Idle(key)
    }

    /** The rows of scoredCandidatePostIDs: NOT EXISTS is true of every digest, whose post_id is NULL. */
    function ScoredPostRows(): set<ScoreKey>
      reads this, queue
    {
      set key | key in scores && (key.PostKey? ==> Idle(key))
    }

    /** Some event about the entity is pending or being processed. */
    ghost predicate Underway(key: ScoreKey)
      reads queue
    {
      exists e :: e in queue.rows && queue.rows[e].subject == key
        && (queue.rows[e].status.Pending? || queue.rows[e].status.Processing?)
    }

    /**
      A scan for due posts in the tables' own terms: each listed key is a post that some
      summary refers to, without a score and without an event underway; and all such
      posts are listed unless the scan is full.  A scored post is never listed.
     */
    lemma DuePostsListed(found: seq<ScoreKey>)
      requires Listing(found, DuePosts())
      ensures forall key :: key in found ==>
        && key.PostKey? && key !in scores && !Underway(key)
        && exists s :: s in summaries && summaries[s] == Some(key.postId)
      ensures |found| <= 500
      ensures |found| < 500 ==> forall s :: s in summaries && summaries[s].Some? ==>
        var key := PostKey(summaries[s].value); key in scores || Underway(key) || key in found
    {
      ListedAndLeft(found, DuePosts());
      forall key | key in DuePosts()
        ensures !Underway(key) && exists s :: s in summaries && summaries[s] == Some(key.postId)
      {
        var s :| s in summaries && summaries[s].Some? && PostKey(summaries[s].value) == key;
      }
    }

    /** The same for digests: the summaries that refer to no post. */
    lemma DueDigestsListed(found: seq<ScoreKey>)
      requires Listing(found, DueDigests())
      ensures forall key :: key in found ==>
        && key.DigestKey? && key !in scores && !Underway(key)
        && key.summaryId in summaries && summaries[key.summaryId].None?
      ensures |found| <= 500
      ensures |found| < 500 ==> forall s :: s in summaries && summaries[s].None? ==>
        DigestKey(s) in scores || Underway(DigestKey(s)) || DigestKey(s) in found
    {
      ListedAndLeft(found, DueDigests());
    }

    /** And for digests that have a score. */
    lemma ScoredDigestsListed(found: seq<ScoreKey>)
      requires Listing(found, ScoredDigests())
      ensures forall key :: key in found ==> key.DigestKey? && key in scores && !Underway(key)
      ensures |found| <= 500
      ensures |found| < 500 ==> forall key :: key in scores && key.DigestKey? ==> Underway(key) || key in found
    {
      ListedAndLeft(found, ScoredDigests());
    }

    /** The scan for scored posts lists every scored digest besides, whatever is underway. */
    lemma ScoredPostRowsListed(found: seq<ScoreKey>)
      requires Listing(found, ScoredPostRows())
      ensures forall key :: key in found ==> key in scores && (key.PostKey? ==> !Underway(key))
      ensures |found| <= 500
      ensures |found| < 500 ==> forall key :: key in scores ==> (key.PostKey? && Underway(key)) || key in found
    {
      ListedAndLeft(found, ScoredPostRows());
    }

    lemma ListedAndLeft(found: seq<ScoreKey>, candidates: set<ScoreKey>)
      requires Listing(found, candidates)
      ensures forall key :: key in found ==> key in candidates
      ensures |found| < ENQUEUE_SCAN_LIMIT ==> forall key :: key in candidates ==> key in found
    {
      forall key | key in found ensures key in candidates {
        assert key in AsSet(found);
      }
      if |found| < ENQUEUE_SCAN_LIMIT {
        WholeListing(found, candidates);
        forall key | key in candidates ensures key in found {
          assert key in AsSet(found);
        }
      }
    }

    /** LIMIT 500 without ORDER BY: any rows, in any order. */
    method Scan(candidates: set<ScoreKey>) returns (found: seq<ScoreKey>)
      ensures Listing(found, candidates)
    {
      found := [];
      var rest := candidates;
      while |found| < ENQUEUE_SCAN_LIMIT && rest != {}
        invariant rest == candidates - AsSet(found) && AsSet(found) <= candidates
        invariant Distinct(found) && |found| == |AsSet(found)| <= ENQUEUE_SCAN_LIMIT
        invariant |rest| + |found| == |candidates|
        decreases |rest|
      {
        var key :| key in rest;
        assert AsSet(found + [key]) == AsSet(found) + {key};
        found := found + [key];
        rest := rest - {key};
      }
    }

    /** One insert with ON CONFLICT DO NOTHING, after rivals have run. */
    method InsertOne(key: ScoreKey, id: EventId, rivals: seq<Rival<ScoreKey>>, now: Time)
      returns (ok: bool, later: Time, ghost middle: Log)
      requires queue.Valid() && NotBefore(queue.history, now)
      modifies queue
      ensures queue.Valid() && NotBefore(queue.history, later) && later == now + TotalWait(rivals)
      ensures middle == old(queue.history) + Stamped(rivals, now)
      ensures queue.history == middle + [Entry(later, Insert(id, key, later))]
      ensures ok <==> id !in Replay(middle) && !HasActive(Replay(middle), key)
    {
      later := now + TotalWait(rivals);
      queue.Interleave(rivals, now);
      middle := queue.history;
      ok := queue.Save(id, key, later, later);
    }

    /** All that happened is n inserts and their rivals' statements; enqueued is how many took effect. */
    ghost predicate Did(c: Call, h: Log, n: nat, enqueued: nat, later: Time)
      requires n <= |c.keys|
      reads queue
    {
      && queue.Valid() && queue.history == AfterInserts(c, h, n)
      && later == Clock(c, n) && NotBefore(queue.history, later)
      && enqueued == Present(c.ids, n, queue.rows)
    }

    /**
      The insert loop.  It stops at the first key whose row does not exist; enqueued
      is then how many of this call's own events are in the table.
     */
    method InsertAll(keys: seq<ScoreKey>, ids: Supply, rivals: Rivals, now: Time)
      returns (enqueued: nat, failed: bool, tried: nat, later: Time)
      requires Valid() && Legal(Call(keys, ids, rivals, now), queue.history)
      modifies queue
      ensures Valid() && tried <= |keys| && AllExist(posts, summaries, keys, tried)
      ensures if failed then tried < |keys| && !Exists(posts, summaries, keys[tried]) else tried == |keys|
      ensures Did(Call(keys, ids, rivals, now), old(queue.history), tried, enqueued, later)
    {
      var c := Call(keys, ids, rivals, now);
      enqueued, failed, tried, later := 0, false, 0, now;
      for i := 0 to |keys|
        invariant tried == i && !failed && AllExist(posts, summaries, keys, i)
        invariant Did(c, old(queue.history), i, enqueued, later)
      {
        if !Exists(posts, summaries, keys[i]) {
          failed := true;
          return;
        }
        enqueued, later := InsertNext(c, i, enqueued, later, old(queue.history));
        tried := i + 1;
      }
    }

    /** One turn of the loop. */
    method InsertNext(c: Call, i: nat, enqueued: nat, clock: Time, ghost h: Log) returns (enqueued': nat, clock': Time)
      requires i < |c.keys| && Legal(c, h) && Did(c, h, i, enqueued, clock)
      modifies queue
      ensures Did(c, h, i + 1, enqueued', clock')
    {
      NotYetUsed(c, h, i, i);
      CountGrows(c, h, i);
      var ok;
      ghost var middle;
      ok, clock', middle := InsertOne(c.keys[i], c.ids(i), c.rivals(i), clock);
      assert middle == AfterRivals(c, h, i);
      enqueued' := enqueued + if ok then 1 else 0;
    }

    /** A scan and its inserts, over keys that all refer to existing rows. */
    method EnqueueFrom(candidates: set<ScoreKey>, ids: Supply, rivals: Rivals, now: Time)
      returns (enqueued: nat, later: Time, ghost found: seq<ScoreKey>)
      requires Valid() && Startable(ids, rivals, now)
      requires forall key :: key in candidates ==> Exists(posts, summaries, key) && Idle(key)
      modifies queue
      ensures Valid() && Listing(found, candidates)
      ensures Did(Call(found, ids, rivals, now), old(queue.history), |found|, enqueued, later)
      ensures Quiet(rivals) ==> later == now && enqueued == |found|
      ensures Quiet(rivals) ==> AllTaken(old(queue.rows), queue.rows, Call(found, ids, rivals, now), |found|)
    {
      var keys := Scan(candidates);
      found := keys;
      assert forall j :: 0 <= j < |keys| ==> keys[j] in AsSet(keys);
      var failed, tried;
      enqueued, failed, tried, later := InsertAll(keys, ids, rivals, now);
      if Quiet(rivals) {
        QuietInserts(Call(keys, ids, rivals, now), old(queue.history), |keys|);
        AllPresent(ids, |keys|, queue.rows);
      }
    }

    /** The caller's ids are new and its own, and the clock has not stepped back. */
    ghost predicate Startable(ids: Supply, rivals: Rivals, now: Time)
      reads queue
    {
      NotBefore(queue.history, now) && FreshIds(ids, queue.rows) && KeepsClear(rivals, ids)
    }

    /** Every due post is a stored post without an active event. */
    lemma DuePostsKnown()
      requires Valid()
      ensures forall key :: key in DuePosts() ==> Exists(posts, summaries, key) && Idle(key)
    {
    }

    /**
      EnqueueDuePosts.  What happens is the listed inserts and the rivals' statements,
      nothing else; the count is exactly the number of rows the call added.  With nobody
      interfering the listed posts, all if they fit in one scan, are due no more.
     */
    method EnqueueDuePosts(ids: Supply, rivals: Rivals, now: Time)
      returns (enqueued: nat, later: Time, ghost found: seq<ScoreKey>)
      requires Valid() && Startable(ids, rivals, now)
      modifies queue
      ensures Valid() && Listing(found, old(DuePosts()))
      ensures forall key :: key in found ==> key.PostKey? && key !in scores && !old(Underway(key))
      ensures Did(Call(found, ids, rivals, now), old(queue.history), |found|, enqueued, later)
      ensures Quiet(rivals) ==> later == now && enqueued == |found|
      ensures Quiet(rivals) ==> queue.rows.Keys == old(queue.rows).Keys + Own(ids, |found|)
      ensures Quiet(rivals) ==> DuePosts() == old(DuePosts()) - AsSet(found) && DueDigests() == old(DueDigests())
    {
      DuePostsKnown();
      enqueued, later, found := EnqueueFrom(DuePosts(), ids, rivals, now);
      assert forall key :: key in found ==> key in AsSet(found);
      assert found[..|found|] == found;
    }

    /** EnqueueDueDigests, the same for digests. */
    method EnqueueDueDigests(ids: Supply, rivals: Rivals, now: Time)
      returns (enqueued: nat, later: Time, ghost found: seq<ScoreKey>)
      requires Valid() && Startable(ids, rivals, now)
      modifies queue
      ensures Valid() && Listing(found, old(DueDigests()))
      ensures Did(Call(found, ids, rivals, now), old(queue.history), |found|, enqueued, later)
      ensures Quiet(rivals) ==> later == now && enqueued == |found|
      ensures Quiet(rivals) ==> queue.rows.Keys == old(queue.rows).Keys + Own(ids, |found|)
      ensures Quiet(rivals) ==> DueDigests() == old(DueDigests()) - AsSet(found) && DuePosts() == old(DuePosts())
    {
      enqueued, later, found := EnqueueFrom(DueDigests(), ids, rivals, now);
      assert found[..|found|] == found;
    }

    /** EnqueueScoredDigests: digests that have a score are enqueued again. */
    method EnqueueScoredDigests(ids: Supply, rivals: Rivals, now: Time)
      returns (enqueued: nat, later: Time, ghost found: seq<ScoreKey>)
      requires Valid() && Startable(ids, rivals, now)
      modifies queue
      ensures Valid() && Listing(found, old(ScoredDigests()))
      ensures Did(Call(found, ids, rivals, now), old(queue.history), |found|, enqueued, later)
      ensures Quiet(rivals) ==> later == now && enqueued == |found|
      ensures Quiet(rivals) ==> queue.rows.Keys == old(queue.rows).Keys + Own(ids, |found|)
      ensures Quiet(rivals) ==> ScoredDigests() == old(ScoredDigests()) - AsSet(found)
    {
      enqueued, later, found := EnqueueFrom(ScoredDigests(), ids, rivals, now);
      assert found[..|found|] == found;
    }

    // ------------------------------------------------------------- re-scoring

    /** ROLLBACK after n inserts: they are undone, what their rivals did is not. */
    method RollBack(c: Call, earlier: Events, ghost h: Log, n: nat)
      requires Proper(h, c.now) && earlier == Replay(h)
      modifies queue
      ensures queue.Valid() && queue.history == RivalsOnly(c, h, n) && NotBefore(queue.history, Clock(c, n))
    {
      queue.Restore(earlier, h);
      var clock := c.now;
      for i := 0 to n
        invariant queue.Valid() && queue.history == RivalsOnly(c, h, i)
        invariant clock == Clock(c, i) && NotBefore(queue.history, clock)
      {
        queue.Interleave(c.rivals(i), clock);
        clock := clock + TotalWait(c.rivals(i));
      }
    }

    /**
      EnqueueScoredPosts, first in the transaction of an interest change.  Its scan does
      not exclude digest scores, and one such row makes an insert fail on its foreign
      key.  So the call succeeds if and only if the scan met no digest score; when it
      fails the transaction is rolled back, and nothing has been enqueued.
     */
    method EnqueueScoredPosts(ids: Supply, rivals: Rivals, now: Time)
      returns (enqueued: nat, failed: bool, tried: nat, later: Time, ghost found: seq<ScoreKey>)
      requires Valid() && Startable(ids, rivals, now)
      modifies queue
      ensures Valid() && Listing(found, old(ScoredPostRows()))
      ensures (failed <==> HasDigest(found)) && tried <= |found|
      ensures failed ==> queue.history == RivalsOnly(Call(found, ids, rivals, now), old(queue.history), tried)
      ensures !failed ==> tried == |found|
      ensures !failed ==> Did(Call(found, ids, rivals, now), old(queue.history), |found|, enqueued, later)
    {
      var rows := Scan(ScoredPostRows());
      found := rows;
      RowsExist(rows);
      var keys := PostIdColumn(rows);
      var earlier := queue.rows;
      enqueued, failed, tried, later := InsertAll(keys, ids, rivals, now);
      if failed {
        RollBack(Call(keys, ids, rivals, now), earlier, old(queue.history), tried);
        SameRivals(Call(keys, ids, rivals, now), Call(rows, ids, rivals, now), old(queue.history), tried);
      } else {
        forall j | 0 <= j < |rows| ensures rows[j].PostKey? {
          AllExistAt(posts, summaries, keys, |rows|, j);
        }
        assert keys == rows;
      }
    }

    /** A listed row's post id exists unless it is a digest's. */
    lemma RowsExist(rows: seq<ScoreKey>)
      requires Valid() && AsSet(rows) <= ScoredPostRows()
      ensures forall j :: 0 <= j < |rows| ==> (Exists(posts, summaries, PostIdColumn(rows)[j]) <==> rows[j].PostKey?)
    {
      forall j | 0 <= j < |rows| ensures Exists(posts, summaries, PostIdColumn(rows)[j]) <==> rows[j].PostKey? {
        assert rows[j] in AsSet(rows);
      }
    }

    /** The scored posts without an active event. */
    ghost function IdleScoredPosts(): set<ScoreKey>
      reads this, queue
    {
      set key | key in scores && key.PostKey? && Idle(key)
    }

    ghost predicate SomeDigestScored()
      reads this
    {
      exists key :: key in scores && key.DigestKey?
    }

    /**
      Re-scoring fails whatever rows the scan happens to list if and only if some digest
      has a score and fewer than 500 scored posts are idle; it can fail at all if and
      only if some digest has a score.
     */
    lemma RescoreFate()
      requires Valid()
      ensures (forall found :: Listing(found, ScoredPostRows()) ==> HasDigest(found)) <==>
        SomeDigestScored() && |IdleScoredPosts()| < ENQUEUE_SCAN_LIMIT
      ensures (exists found :: Listing(found, ScoredPostRows()) && HasDigest(found)) <==> SomeDigestScored()
    {
      var rows, idle := ScoredPostRows(), IdleScoredPosts();
      RowsAndIdle();
      if SomeDigestScored() && |idle| < ENQUEUE_SCAN_LIMIT {
        forall found | Listing(found, rows) ensures HasDigest(found) {
          FewPostsLeaveADigest(found, rows, idle);
        }
      } else {
        var posts := ListingOf(idle);
        PostsOnly(posts, rows, idle);
      }
      if SomeDigestScored() {
        var digest :| digest in scores && digest.DigestKey?;
        var with := ListingWith(rows, digest);
        assert Listing(with, rows) && HasDigest(with);
      }
      forall found: seq<ScoreKey> | Listing(found, rows) && HasDigest(found) ensures SomeDigestScored() {
        var j :| 0 <= j < |found| && found[j].DigestKey?;
        assert found[j] in AsSet(found);
      }
    }

    lemma RowsAndIdle()
      ensures IdleScoredPosts() == set key | key in ScoredPostRows() && key.PostKey?
      ensures SomeDigestScored() <==> exists key :: key in ScoredPostRows() && key.DigestKey?
    {
    }

    /**
      An interest change: the change, then posts, then digests, in one transaction that
      the change itself is not part of (its repository writes through the client outside
      it).  If the posts fail, nothing is enqueued but the change stays; that is certain
      once some digest has a score and fewer than 500 scored posts are idle, and
      impossible while none has.
     */
    method RescoreAll(changed: seq<Interest>, ids: Supply, rivals: Rivals, now: Time)
      returns (failed: bool, tried: nat, ghost posts: Call, ghost digests: Call)
      requires Valid() && Startable(ids, rivals, now)
      modifies this`interests, queue
      ensures interests == changed
      ensures Valid() && posts == Call(posts.keys, ids, rivals, now) && Listing(posts.keys, old(ScoredPostRows()))
      ensures (failed <==> HasDigest(posts.keys)) && tried <= |posts.keys|
      ensures old(SomeDigestScored() && |IdleScoredPosts()| < ENQUEUE_SCAN_LIMIT) ==> failed
      ensures !SomeDigestScored() ==> !failed
      ensures failed ==> queue.history == RivalsOnly(posts, old(queue.history), tried)
      ensures !failed ==>
        && digests == Call(digests.keys, Shifted(ids, tried), ShiftedRivals(rivals, tried), Clock(posts, tried))
        && queue.history == AfterInserts(digests, AfterInserts(posts, old(queue.history), |posts.keys|), |digests.keys|)
    {
      RescoreFate();
      ghost var rows := ScoredPostRows();
      interests := changed;
      assert ScoredPostRows() == rows;
      var enqueued, later;
      ghost var found;
      enqueued, failed, tried, later, found := EnqueueScoredPosts(ids, rivals, now);
      posts := Call(found, ids, rivals, now);
      digests := posts;
      if !failed {
        RestUnused(posts, old(queue.history), |found|);
        ShiftedFresh(ids, tried, queue.rows);
        ShiftedClear(rivals, ids, tried);
        var more, last;
        ghost var listed;
        more, last, listed := EnqueueScoredDigests(Shifted(ids, tried), ShiftedRivals(rivals, tried), later);
        digests := Call(listed, Shifted(ids, tried), ShiftedRivals(rivals, tried), later);
      }
    }

    /**
      Interest changes for ever, re-scoring never: from then on every change is kept and
      none enqueues anything.
     */
    method ChangesInVain(changes: seq<seq<Interest>>, ids: Supply, now: Time)
      requires Valid() && Startable(ids, Nobody(), now)
      requires SomeDigestScored() && |IdleScoredPosts()| < ENQUEUE_SCAN_LIMIT
      modifies this`interests, queue
      ensures Valid() && queue.history == old(queue.history) && queue.rows == old(queue.rows)
      ensures interests == if changes == [] then old(interests) else changes[|changes| - 1]
    {
      for i := 0 to |changes|
        invariant Valid() && queue.history == old(queue.history) && queue.rows == old(queue.rows)
        invariant IdleScoredPosts() == old(IdleScoredPosts())
        invariant interests == if i == 0 then old(interests) else changes[i - 1]
      {
        var failed, tried;
        ghost var posts, digests;
        failed, tried, posts, digests := RescoreAll(changes[i], ids, Nobody(), now);
        NothingLeft(posts, old(queue.history), tried);
      }
    }

    // --------------------------------------------------------------- draining

    /** One quiet call of EnqueueDue, its ids taken from a common supply. */
    method EnqueueDue(ids: Supply, start: nat, now: Time) returns (posts: nat, digests: nat)
      requires Valid() && NotBefore(queue.history, now) && NoRepeats(ids) && UnusedFrom(ids, start, queue.rows)
      modifies queue
      ensures Valid() && NotBefore(queue.history, now) && UnusedFrom(ids, start + 2 * ENQUEUE_SCAN_LIMIT, queue.rows)
      ensures posts == Min(ENQUEUE_SCAN_LIMIT, |old(DuePosts())|)
      ensures digests == Min(ENQUEUE_SCAN_LIMIT, |old(DueDigests())|)
      ensures DuePosts() <= old(DuePosts()) && |DuePosts()| == |old(DuePosts())| - posts
      ensures DueDigests() <= old(DueDigests()) && |DueDigests()| == |old(DueDigests())| - digests
    {
      posts := DuePostsOnce(ids, start, now);
      digests := DueDigestsOnce(ids, start + ENQUEUE_SCAN_LIMIT, now);
    }

    method DuePostsOnce(ids: Supply, start: nat, now: Time) returns (enqueued: nat)
      requires Valid() && NotBefore(queue.history, now) && NoRepeats(ids) && UnusedFrom(ids, start, queue.rows)
      modifies queue
      ensures Valid() && NotBefore(queue.history, now) && UnusedFrom(ids, start + ENQUEUE_SCAN_LIMIT, queue.rows)
      ensures enqueued == Min(ENQUEUE_SCAN_LIMIT, |old(DuePosts())|)
      ensures DuePosts() <= old(DuePosts()) && |DuePosts()| == |old(DuePosts())| - enqueued
      ensures DueDigests() == old(DueDigests())
    {
      var later;
      ghost var found, due, rows := [], DuePosts(), queue.rows;
      ShiftedFresh(ids, start, rows);
      enqueued, later, found := EnqueueDuePosts(Shifted(ids, start), Nobody(), now);
      OnlyOwnAdded(ids, start, |found|, rows, queue.rows);
      Remainder(due, found);
    }

    method DueDigestsOnce(ids: Supply, start: nat, now: Time) returns (enqueued: nat)
      requires Valid() && NotBefore(queue.history, now) && NoRepeats(ids) && UnusedFrom(ids, start, queue.rows)
      modifies queue
      ensures Valid() && NotBefore(queue.history, now) && UnusedFrom(ids, start + ENQUEUE_SCAN_LIMIT, queue.rows)
      ensures enqueued == Min(ENQUEUE_SCAN_LIMIT, |old(DueDigests())|)
      ensures DueDigests() <= old(DueDigests()) && |DueDigests()| == |old(DueDigests())| - enqueued
      ensures DuePosts() == old(DuePosts())
    {
      var later;
      ghost var found, due, rows := [], DueDigests(), queue.rows;
      ShiftedFresh(ids, start, rows);
      enqueued, later, found := EnqueueDueDigests(Shifted(ids, start), Nobody(), now);
      OnlyOwnAdded(ids, start, |found|, rows, queue.rows);
      Remainder(due, found);
    }

    /**
      Draining: with nothing else running, k calls enqueue 500*k of the due posts and as
      many of the due digests, or all of them if there are no more.
     */
    method DrainDue(k: nat, ids: Supply, now: Time) returns (posts: nat, digests: nat)
      requires Valid() && NotBefore(queue.history, now) && FreshIds(ids, queue.rows)
      modifies queue
      ensures Valid()
      ensures posts == Min(ENQUEUE_SCAN_LIMIT * k, |old(DuePosts())|)
      ensures digests == Min(ENQUEUE_SCAN_LIMIT * k, |old(DueDigests())|)
      ensures DuePosts() <= old(DuePosts()) && |DuePosts()| == |old(DuePosts())| - posts
      ensures DueDigests() <= old(DueDigests()) && |DueDigests()| == |old(DueDigests())| - digests
    {
      posts, digests := 0, 0;
      for i := 0 to k
        invariant Valid() && NotBefore(queue.history, now) && UnusedFrom(ids, 2 * ENQUEUE_SCAN_LIMIT * i, queue.rows)
        invariant posts == Min(ENQUEUE_SCAN_LIMIT * i, |old(DuePosts())|)
        invariant digests == Min(ENQUEUE_SCAN_LIMIT * i, |old(DueDigests())|)
        invariant DuePosts() <= old(DuePosts()) && |DuePosts()| == |old(DuePosts())| - posts
        invariant DueDigests() <= old(DueDigests()) && |DueDigests()| == |old(DueDigests())| - digests
      {
        var p, d := EnqueueDue(ids, 2 * ENQUEUE_SCAN_LIMIT * i, now);
        posts, digests := posts + p, digests + d;
      }
    }
  }

  /** One scored post, one scored digest: the interests change, and the post is not to be scored again. */
  method RescoreLost(changed: seq<Interest>) returns (o: Outbox)
    ensures fresh(o) && o.Valid() && o.interests == changed
    ensures PostKey(1) in o.IdleScoredPosts() && o.queue.rows == map[]
  {
    o := new Outbox({1}, map[2 := None], {PostKey(1), DigestKey(2)});
    assert DigestKey(2) in o.scores;
    assert o.IdleScoredPosts() == {PostKey(1)};
    o.ChangesInVain([changed], (i: nat) => i, 0);
  }

  // ------------------------------------------------------------------- scans

  ghost predicate HasDigest(found: seq<ScoreKey>) { exists j :: 0 <= j < |found| && found[j].DigestKey? }

  /** A full scan with fewer idle posts than its limit lists a digest. */
  lemma FewPostsLeaveADigest(found: seq<ScoreKey>, rows: set<ScoreKey>, idle: set<ScoreKey>)
    requires Listing(found, rows) && idle == (set key | key in rows && key.PostKey?)
    requires |idle| < ENQUEUE_SCAN_LIMIT && exists key :: key in rows && key.DigestKey?
    ensures HasDigest(found)
  {
    if !HasDigest(found) {
      forall key | key in AsSet(found) ensures key in idle {
        var j :| 0 <= j < |found| && found[j] == key;
      }
      SubsetCardinality(AsSet(found), idle);
      WholeListing(found, rows);
    }
  }

  /** A scan of idle posts alone is a scan of all rows, if there are no others or it is full. */
  lemma PostsOnly(found: seq<ScoreKey>, rows: set<ScoreKey>, idle: set<ScoreKey>)
    requires Listing(found, idle) && idle == (set key | key in rows && key.PostKey?)
    requires |idle| >= ENQUEUE_SCAN_LIMIT || forall key :: key in rows ==> key.PostKey?
    ensures Listing(found, rows) && !HasDigest(found)
  {
    SubsetCardinality(idle, rows);
    forall j | 0 <= j < |found| ensures found[j].PostKey? {
      assert found[j] in AsSet(found);
    }
    if forall key :: key in rows ==> key.PostKey? {
      assert idle == rows;
    }
  }

  /** There is a scan of any set of candidates. */
  lemma ListingOf(candidates: set<ScoreKey>) returns (found: seq<ScoreKey>)
    ensures Listing(found, candidates)
  {
    found := ChooseFrom(candidates, Min(ENQUEUE_SCAN_LIMIT, |candidates|));
  }

  lemma {:induction false} ChooseFrom(candidates: set<ScoreKey>, n: nat) returns (found: seq<ScoreKey>)
    requires n <= |candidates|
    ensures Distinct(found) && AsSet(found) <= candidates && |found| == |AsSet(found)| == n
  {
    if n == 0 {
      found := [];
    } else {
      var key :| key in candidates;
      var rest := ChooseFrom(candidates - {key}, n - 1);
      found := [key] + rest;
      assert AsSet(found) == {key} + AsSet(rest);
      assert key !in AsSet(rest);
    }
  }

  /** There is one that lists any given candidate. */
  lemma ListingWith(candidates: set<ScoreKey>, key: ScoreKey) returns (found: seq<ScoreKey>)
    requires key in candidates
    ensures Listing(found, candidates) && key in found
  {
    var rest := ChooseFrom(candidates - {key}, Min(ENQUEUE_SCAN_LIMIT, |candidates|) - 1);
    found := [key] + rest;
    assert AsSet(found) == {key} + AsSet(rest);
    assert key !in AsSet(rest);
  }

  /** Rolled back, it does not matter what was to be inserted. */
  lemma {:induction false} SameRivals(c: Call, d: Call, h: Log, n: nat)
    requires c.rivals == d.rivals && c.now == d.now
    ensures RivalsOnly(c, h, n) == RivalsOnly(d, h, n) && Clock(c, n) == Clock(d, n)
  {
    if n > 0 {
      SameRivals(c, d, h, n - 1);
    }
  }

  lemma Remainder(due: set<ScoreKey>, found: seq<ScoreKey>)
    requires Listing(found, due)
    ensures |due - AsSet(found)| == |due| - |found|
  {
    assert due == (due - AsSet(found)) + AsSet(found);
  }

  /** If only the next ids of the supply got rows, those further on are unused still. */
  lemma OnlyOwnAdded(ids: Supply, start: nat, n: nat, before: Events, after: Events)
    requires NoRepeats(ids) && UnusedFrom(ids, start, before) && n <= ENQUEUE_SCAN_LIMIT
    requires after.Keys == before.Keys + Own(Shifted(ids, start), n)
    ensures UnusedFrom(ids, start + ENQUEUE_SCAN_LIMIT, after)
  {
    forall i: nat | i >= start + ENQUEUE_SCAN_LIMIT ensures ids(i) !in after {
      forall j: nat | j < n ensures Shifted(ids, start)(j) != ids(i) {
        assert start + j < i;
      }
    }
  }
}
