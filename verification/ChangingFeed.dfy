/**
  Walks of the ranked feed while scores, posts, digests and dislikes come and go
  between pages.  Without likes the cursor column and the order agree on every row,
  so the walk is that of a coherent query and its guarantees carry over.  With likes
  rows can be hidden; when is proved exactly, and that it takes a liked post.
 */
module ChangingFeed {
  import opened Prelude
  import opened Keyset
  import opened RankedFeed

  /** Nobody has liked anything. */
  ghost predicate Likeless(db: FeedDb) { forall id :: id in db.reactions ==> !db.reactions[id].Like? }

  /** Each snapshot has one score per entity, and no likes. */
  ghost predicate LikelessFeed(feed: nat -> FeedDb) {
    forall i: nat :: OneScoreEach(feed(i).scores) && Likeless(feed(i))
  }

  /** The rows fetch i sees. */
  ghost function Fetched(feed: nat -> FeedDb): nat -> seq<FeedRow> {
    (i: nat) => Union(feed(i), feed(i).scores)
  }

  /** The feed's query if it ordered by the column of its cursor. */
  ghost function ByValueAlone(f: FeedQuery): Query<FeedRow> {
    Query(ByValue(), ByValue(), (r: FeedRow) => Wanted(f, r), f.pageSize)
  }

  lemma {:induction false} LikelessRows(db: FeedDb, scores: seq<ScoreRow>, f: FeedQuery)
    requires Likeless(db)
    ensures Agree(QueryOf(f), ByValueAlone(f), Union(db, scores))
  {
    if scores != [] {
      LikelessRows(db, scores[1..], f);
    }
  }

  lemma {:induction false} OneRowEach(db: FeedDb, scores: seq<ScoreRow>)
    requires OneScoreEach(scores)
    ensures forall x, y :: x in Union(db, scores) && y in Union(db, scores) && x.id == y.id ==> x == y
  {
    if scores != [] {
      OneRowEach(db, scores[1..]);
      FirstIdIsNew(db, scores);
    }
  }

  /** Without likes the walk is that of the coherent query, over snapshots with a key. */
  lemma LikelessWalk(f: FeedQuery, feed: nat -> FeedDb, n: nat)
    requires f.pageSize >= 1 && LikelessFeed(feed)
    ensures Follow(QueryOf(f), Fetched(feed), n) == Follow(ByValueAlone(f), Fetched(feed), n)
    ensures Snapshots(ByValueAlone(f), Fetched(feed))
  {
    forall i: nat ensures Agree(QueryOf(f), ByValueAlone(f), Fetched(feed)(i)) && Keyed(ByValue(), Fetched(feed)(i)) {
      assert OneScoreEach(feed(i).scores) && Likeless(feed(i));
      LikelessRows(feed(i), feed(i).scores, f);
      ValueKeyed(feed(i), f);
    }
    SameFollow(QueryOf(f), ByValueAlone(f), Fetched(feed), n);
  }

  lemma ValueKeyed(db: FeedDb, f: FeedQuery)
    requires OneScoreEach(db.scores) && Likeless(db)
    ensures Keyed(ByValue(), Union(db, db.scores))
  {
    var rows := Union(db, db.scores);
    UnionKeyed(db, db.scores, f);
    LikelessRows(db, db.scores, f);
    forall i, j | 0 <= i < j < |rows| ensures ByValue()(rows[i]) != ByValue()(rows[j]) {
      assert rows[i] in rows && rows[j] in rows;
      assert QueryOf(f).ord(rows[i]) != QueryOf(f).ord(rows[j]);
    }
  }

  /** x is shown strictly before y: better value, or the lower id at the same value. */
  predicate Better(x: FeedRow, y: FeedRow) { x.value > y.value || (x.value == y.value && x.id < y.id) }

  /** The row was eligible in the snapshot of some fetch before the n-th. */
  ghost predicate Shown(f: FeedQuery, db: nat -> seq<FeedRow>, n: nat, r: FeedRow) {
    exists i: nat :: i < n && r in db(i) && Wanted(f, r)
  }

  ghost predicate BestFirst(items: seq<FeedRow>) { forall i, j :: 0 <= i < j < |items| ==> Better(items[i], items[j]) }

  ghost predicate AllShown(f: FeedQuery, db: nat -> seq<FeedRow>, n: nat, items: seq<FeedRow>) {
    forall i :: 0 <= i < |items| ==> Shown(f, db, n, items[i])
  }

  /** Whatever happens to the scores between pages, rows come best first, each eligible when it was read. */
  lemma FeedInOrder(f: FeedQuery, feed: nat -> FeedDb, n: nat)
    requires f.pageSize >= 1 && LikelessFeed(feed)
    ensures var items := Follow(QueryOf(f), Fetched(feed), n).items;
      BestFirst(items) && AllShown(f, Fetched(feed), n, items)
  {
    var q, db := ByValueAlone(f), Fetched(feed);
    LikelessWalk(f, feed, n);
    WalkOrdered(q, db, n);
    var items := Follow(q, db, n).items;
    forall i, j | 0 <= i < j < |items| ensures Better(items[i], items[j]) {
      assert Before(q.ord(items[i]), q.ord(items[j]));
    }
    forall i | 0 <= i < |items| ensures Shown(f, db, n, items[i]) {
      assert items[i] in items && SeenBefore(q, db, n, items[i]);
      var k: nat :| k < n && items[i] in db(k) && q.keep(items[i]);
    }
  }

  /** An entity keeps its score for as long as it has one. */
  ghost predicate ValueFixed(db: nat -> seq<FeedRow>) {
    forall i: nat, j: nat, x, y :: x in db(i) && y in db(j) && x.id == y.id ==> x.value == y.value
  }

  /** If nothing is rescored meanwhile, no entity comes twice. */
  lemma FeedNeverRepeats(f: FeedQuery, feed: nat -> FeedDb, n: nat)
    requires f.pageSize >= 1 && LikelessFeed(feed) && ValueFixed(Fetched(feed))
    ensures var items := Follow(QueryOf(f), Fetched(feed), n).items;
      forall i, j :: 0 <= i < j < |items| ==> items[i].id != items[j].id
  {
    FeedInOrder(f, feed, n);
    NoneTwice(f, Fetched(feed), n, Follow(QueryOf(f), Fetched(feed), n).items);
  }

  lemma NoneTwice(f: FeedQuery, db: nat -> seq<FeedRow>, n: nat, items: seq<FeedRow>)
    requires ValueFixed(db) && BestFirst(items) && AllShown(f, db, n, items)
    ensures forall i, j :: 0 <= i < j < |items| ==> items[i].id != items[j].id
  {
    forall i, j | 0 <= i < j < |items| ensures items[i].id != items[j].id {
      var x, y := items[i], items[j];
      assert Better(x, y) && Shown(f, db, n, x) && Shown(f, db, n, y);
      var k: nat :| k < n && x in db(k);
      var l: nat :| l < n && y in db(l);
      assert x.id == y.id ==> x.value == y.value;
    }
  }

  /** The walk returns the id again after its first m fetches. */
  ghost predicate ShownAgain(f: FeedQuery, feed: nat -> FeedDb, m: nat, n: nat, id: EntityId)
    requires f.pageSize >= 1
  {
    var shown, items := Follow(QueryOf(f), Fetched(feed), m).items, Follow(QueryOf(f), Fetched(feed), n).items;
    exists j :: |shown| <= j < |items| && items[j].id == id
  }

  /**
    Exactly when a rescored entity comes later in the walk, be it again or for the first
    time: from fetch m on every snapshot holds it as y, and y is past the cursor of then.
   */
  lemma RescoredComesIff(f: FeedQuery, feed: nat -> FeedDb, m: nat, n: nat, y: FeedRow)
    requires f.pageSize >= 1 && LikelessFeed(feed) && 0 < m < n && Wanted(f, y)
    requires !Follow(QueryOf(f), Fetched(feed), m).done && Follow(QueryOf(f), Fetched(feed), n).done
    requires forall i: nat :: m <= i < n ==> y in Fetched(feed)(i)
    ensures ShownAgain(f, feed, m, n, y.id) <==> After(Follow(QueryOf(f), Fetched(feed), m).next, ByValue()(y))
  {
    var q, db := ByValueAlone(f), Fetched(feed);
    LikelessWalk(f, feed, m);
    LikelessWalk(f, feed, n);
    forall i: nat | m <= i < n ensures Holds(q, db(i), q.ord(y)) {
      assert y in db(i) && q.keep(y);
    }
    StillReturnedIff(q, db, m, n, q.ord(y));
    var shown, items := |Follow(q, db, m).items|, Follow(q, db, n).items;
    if j: nat :| ReturnedAt(q, Follow(q, db, n), shown, q.ord(y), j) {
      assert items[j].id == y.id;
    } else if j :| shown <= j < |items| && items[j].id == y.id {
      var i := SeenSince(q, db, m, n, j, items[j]);
      assert OneScoreEach(feed(i).scores);
      OneRowEach(feed(i), feed(i).scores);
      assert ReturnedAt(q, Follow(q, db, n), shown, q.ord(y), j);
    }
  }

  /** An entity that at every fetch of a finished walk was eligible with the same score is in its result. */
  lemma FeedMissesNobody(f: FeedQuery, feed: nat -> FeedDb, n: nat, id: EntityId, value: real)
    requires f.pageSize >= 1 && LikelessFeed(feed) && n > 0 && Follow(QueryOf(f), Fetched(feed), n).done
    requires forall i: nat :: i < n ==>
      exists r :: r in Fetched(feed)(i) && Wanted(f, r) && r.id == id && r.value == value
    ensures exists r :: r in Follow(QueryOf(f), Fetched(feed), n).items && r.id == id
  {
    var q, db, k := ByValueAlone(f), Fetched(feed), Key(-value, id as int);
    LikelessWalk(f, feed, n);
    forall i: nat | i < n ensures Holds(q, db(i), k) {
      var r :| r in db(i) && Wanted(f, r) && r.id == id && r.value == value;
      assert q.keep(r) && q.ord(r) == k;
    }
    var j := WalkComplete(q, db, 0, n, k);
    assert Follow(q, db, n).items[j].id == id;
  }

  // ------------------------------------------------ with likes, changing or not

  /** Among the rows returned after the first m fetches, up to the n-th, is x. */
  ghost predicate Since<T(!new)>(q: Query<T>, db: nat -> seq<T>, m: nat, n: nat, x: T)
    requires q.pageSize >= 1 && m <= n
  {
    exists j :: |Follow(q, db, m).items| <= j < |Follow(q, db, n).items| && Follow(q, db, n).items[j] == x
  }

  lemma SinceExtends<T(!new)>(q: Query<T>, db: nat -> seq<T>, m: nat, k: nat, x: T)
    requires q.pageSize >= 1 && m <= k && !Follow(q, db, k).done
    ensures Since(q, db, m, k + 1, x) <==>
      Since(q, db, m, k, x) || x in ListPage(q, db(k), Follow(q, db, k).next).items
  {
    var shown, w, page := |Follow(q, db, m).items|, Follow(q, db, k), ListPage(q, db(k), Follow(q, db, k).next);
    FollowExtends(q, db, k + 1);
    ItemsOnlyGrow(q, db, m, k);
    var items := Follow(q, db, k + 1).items;
    assert items == w.items + page.items;
    if j :| shown <= j < |w.items| && w.items[j] == x {
      assert items[j] == x;
    } else if j :| 0 <= j < |page.items| && page.items[j] == x {
      assert items[|w.items| + j] == x;
    }
  }

  /** The cursor is at or past x for good, or there is no more walk; and x has not been returned. */
  ghost predicate Gone<T(!new)>(q: Query<T>, db: nat -> seq<T>, m: nat, k: nat, x: T)
    requires q.pageSize >= 1 && m <= k
  {
    !Since(q, db, m, k, x) && (Follow(q, db, k).done || !After(Follow(q, db, k).next, q.cur(x)))
  }

  /** After k fetches the walk goes on, from a cursor at or past x, and x has not been returned since fetch m. */
  ghost predicate PassedUnseen<T(!new)>(q: Query<T>, db: nat -> seq<T>, m: nat, k: nat, x: T)
    requires q.pageSize >= 1 && m <= k
  {
    !Follow(q, db, k).done && Gone(q, db, m, k, x)
  }

  lemma GoneStep<T(!new)>(q: Query<T>, db: nat -> seq<T>, m: nat, k: nat, x: T)
    requires q.pageSize >= 1 && Snapshots(q, db) && m <= k && Gone(q, db, m, k, x)
    ensures Gone(q, db, m, k + 1, x)
  {
    if Follow(q, db, k).done {
      ItemsOnlyGrow(q, db, k, k + 1);
    } else {
      SinceExtends(q, db, m, k, x);
      FollowExtends(q, db, k + 1);
      PageSorted(q, db(k), Follow(q, db, k).next);
    }
  }

  /** Once the cursor has passed a row, the row is not returned any more, whatever is written meanwhile. */
  lemma {:induction false} GoneForGood<T(!new)>(q: Query<T>, db: nat -> seq<T>, m: nat, k: nat, n: nat, x: T)
    requires q.pageSize >= 1 && Snapshots(q, db) && m <= k <= n && Gone(q, db, m, k, x)
    ensures Gone(q, db, m, n, x)
    decreases n - k
  {
    if k < n {
      GoneStep(q, db, m, k, x);
      GoneForGood(q, db, m, k + 1, n, x);
    }
  }

  /** The fetch that ended the walk. */
  lemma LastFetch<T(!new)>(q: Query<T>, db: nat -> seq<T>, m: nat, n: nat) returns (k: nat)
    requires q.pageSize >= 1 && m < n && !Follow(q, db, m).done && Follow(q, db, n).done
    ensures m <= k < n && !Follow(q, db, k).done && Follow(q, db, k + 1).done
    ensures Follow(q, db, n) == Follow(q, db, k + 1)
  {
    k := Turning((i: nat) => Follow(q, db, i).done, m, n);
    ItemsOnlyGrow(q, db, k + 1, n);
  }

  /**
    Whatever the two columns: a row held by every snapshot from fetch m on is missing
    from the rest of the finished walk if and only if at some fetch the cursor was at
    or past it before it was returned.
   */
  lemma MissingIff<T(!new)>(q: Query<T>, db: nat -> seq<T>, m: nat, n: nat, x: T)
    requires q.pageSize >= 1 && Snapshots(q, db) && m < n && q.keep(x)
    requires !Follow(q, db, m).done && Follow(q, db, n).done
    requires forall i: nat :: m <= i < n ==> x in db(i)
    ensures !Since(q, db, m, n, x) <==> exists k: nat :: m <= k < n && PassedUnseen(q, db, m, k, x)
  {
    if k: nat :| m <= k < n && PassedUnseen(q, db, m, k, x) {
      GoneForGood(q, db, m, k, n, x);
    } else {
      var k := LastFetch(q, db, m, n);
      SinceExtends(q, db, m, k, x);
      EndShowsAll(q, db, k, x);
      assert !PassedUnseen(q, db, m, k, x);
    }
  }

  /** The last page holds all that is left. */
  lemma EndShowsAll<T(!new)>(q: Query<T>, db: nat -> seq<T>, k: nat, x: T)
    requires q.pageSize >= 1 && Snapshots(q, db) && x in db(k) && q.keep(x)
    requires !Follow(q, db, k).done && Follow(q, db, k + 1).done
    ensures After(Follow(q, db, k).next, q.cur(x)) ==> x in ListPage(q, db(k), Follow(q, db, k).next).items
  {
    FollowExtends(q, db, k + 1);
    RemainingFacts(q, db(k), Follow(q, db, k).next);
    PageFacts(q, db(k), Follow(q, db, k).next);
  }

  /** Each snapshot has one score per entity. */
  ghost predicate ScoredOnce(feed: nat -> FeedDb) { forall i: nat :: OneScoreEach(feed(i).scores) }

  /**
    The feed, likes and all: a row that every snapshot holds is hidden if and only if
    some page ended at its value, or below, before it was shown.
   */
  lemma FeedHidesIff(f: FeedQuery, feed: nat -> FeedDb, n: nat, r: FeedRow)
    requires f.pageSize >= 1 && ScoredOnce(feed) && n > 0 && Follow(QueryOf(f), Fetched(feed), n).done
    requires Wanted(f, r) && forall i: nat :: i < n ==> r in Fetched(feed)(i)
    ensures r !in Follow(QueryOf(f), Fetched(feed), n).items <==>
      exists k: nat :: k < n && PassedUnseen(QueryOf(f), Fetched(feed), 0, k, r)
  {
    var q, db := QueryOf(f), Fetched(feed);
    FeedSnapshots(f, feed);
    MissingIff(q, db, 0, n, r);
    assert Follow(q, db, 0).items == [];
  }

  lemma FeedSnapshots(f: FeedQuery, feed: nat -> FeedDb)
    requires ScoredOnce(feed)
    ensures Snapshots(QueryOf(f), Fetched(feed))
  {
    forall i: nat ensures Keyed(QueryOf(f).ord, Fetched(feed)(i)) {
      assert OneScoreEach(feed(i).scores);
      UnionKeyed(feed(i), feed(i).scores, f);
    }
  }

  /** A row shown as more than its value: a liked post. */
  predicate Boosted(r: FeedRow) { r.effective > r.value }

  ghost predicate SomeBoosted(items: seq<FeedRow>) { exists j :: 0 <= j < |items| && Boosted(items[j]) }

  lemma {:induction false} NeverLess(db: FeedDb, scores: seq<ScoreRow>)
    ensures forall r :: r in Union(db, scores) ==> r.effective >= r.value
  {
    if scores != [] {
      NeverLess(db, scores[1..]);
    }
  }

  /** Nothing is hidden but by a liked post: one has been shown by the time the cursor passes a held row. */
  lemma {:induction false} HiddenByALike(f: FeedQuery, feed: nat -> FeedDb, k: nat, r: FeedRow)
    requires f.pageSize >= 1 && ScoredOnce(feed) && Wanted(f, r) && forall i: nat :: i < k ==> r in Fetched(feed)(i)
    requires PassedUnseen(QueryOf(f), Fetched(feed), 0, k, r)
    ensures SomeBoosted(Follow(QueryOf(f), Fetched(feed), k).items)
    ensures exists x :: x in Follow(QueryOf(f), Fetched(feed), k).items && x.effective > x.value
  {
    var q, db := QueryOf(f), Fetched(feed);
    if k > 0 {
      var l: nat := k - 1;
      ItemsOnlyGrow(q, db, l, k);
      SinceExtends(q, db, 0, l, r);
      if After(Follow(q, db, l).next, q.cur(r)) {
        HiddenNow(f, feed, l, r);
      } else {
        HiddenByALike(f, feed, l, r);
        StillBoosted(Follow(q, db, l).items, Follow(q, db, k).items);
      }
    }
  }

  /** Fetch k is the one that passes the row. */
  lemma HiddenNow(f: FeedQuery, feed: nat -> FeedDb, k: nat, r: FeedRow)
    requires f.pageSize >= 1 && ScoredOnce(feed) && Wanted(f, r) && r in Fetched(feed)(k)
    requires !Follow(QueryOf(f), Fetched(feed), k).done
    requires After(Follow(QueryOf(f), Fetched(feed), k).next, ByValue()(r))
    requires PassedUnseen(QueryOf(f), Fetched(feed), 0, k + 1, r)
    ensures SomeBoosted(Follow(QueryOf(f), Fetched(feed), k + 1).items)
  {
    var q, db := QueryOf(f), Fetched(feed);
    FeedSnapshots(f, feed);
    FollowExtends(q, db, k + 1);
    SinceExtends(q, db, 0, k, r);
    NeverLess(feed(k), feed(k).scores);
    PassedByBoost(q, db(k), Follow(q, db, k).next, f, r);
    LastIsShown(Follow(q, db, k).items, ListPage(q, db(k), Follow(q, db, k).next).items);
  }

  lemma StillBoosted(some: seq<FeedRow>, more: seq<FeedRow>)
    requires some <= more && SomeBoosted(some)
    ensures SomeBoosted(more)
  {
    var j :| 0 <= j < |some| && Boosted(some[j]);
    assert more[j] == some[j];
  }

  lemma LastIsShown(before: seq<FeedRow>, page: seq<FeedRow>)
    requires page != [] && Boosted(page[|page| - 1])
    ensures SomeBoosted(before + page)
  {
    assert (before + page)[|before| + |page| - 1] == page[|page| - 1];
  }

  /** A page that leaves a row out and whose cursor passes it ends with a boosted row. */
  lemma PassedByBoost(q: Query<FeedRow>, table: seq<FeedRow>, cursor: Option<Key>, f: FeedQuery, r: FeedRow)
    requires q == QueryOf(f) && f.pageSize >= 1 && Keyed(q.ord, table) && r in table && Wanted(f, r)
    requires After(cursor, q.cur(r)) && forall x :: x in table ==> x.effective >= x.value
    requires var page := ListPage(q, table, cursor);
      page.next.Some? && r !in page.items && !After(page.next, q.cur(r))
    ensures var items := ListPage(q, table, cursor).items; items != [] && Boosted(items[|items| - 1])
  {
    RemainingFacts(q, table, cursor);
    PageFacts(q, table, cursor);
    var rest, items := Remaining(q, table, cursor), ListPage(q, table, cursor).items;
    assert items == rest[..f.pageSize];
    var i :| 0 <= i < |rest| && rest[i] == r;
    assert r !in rest[..f.pageSize];
    var last := rest[f.pageSize - 1];
    assert Before(q.ord(last), q.ord(r)) && last in rest;
    OnlyABoost(last, r);
  }

  /** Shown before r, but at or past r by value: only a boost does that. */
  lemma OnlyABoost(last: FeedRow, r: FeedRow)
    requires last.effective >= last.value && r.effective >= r.value
    requires Before(ByEffective()(last), ByEffective()(r)) && !Before(ByValue()(last), ByValue()(r))
    ensures Boosted(last)
  {
  }
}
