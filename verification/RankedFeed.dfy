/**
  scoreRepo.ListRanked: posts and digests in one feed.  The query orders by
  effective_value but its cursor filters on value, so a walk is exact only when
  the two agree at the page boundaries; that condition is proved necessary and
  sufficient.
 */
module RankedFeed {
  import opened Prelude
  import opened Keyset

  type EntityId = nat

  datatype Reaction = Like | Dislike

  datatype Kind = PostItem | DigestItem

  datatype ScoreRow = PostScore(postId: EntityId, value: real) | DigestScore(summaryId: EntityId, value: real)

  datatype SummaryRow = SummaryRow(postId: Option<EntityId>, createdAt: Time)

  /** The tables the query joins; a post is its publication time. */
  datatype FeedDb = FeedDb(
    scores: seq<ScoreRow>, posts: map<EntityId, Time>,
    reactions: map<EntityId, Reaction>, summaries: map<EntityId, SummaryRow>)

  datatype FeedRow = FeedRow(id: EntityId, kind: Kind, publishedAt: Time, value: real, effective: real)

  datatype FeedQuery = FeedQuery(
    from: Option<Time>,
    to: Option<Time>,
    minScore: real,
    pageSize: nat,
    token: Option<ScoreToken>)

  datatype ScoreToken = ScoreToken(value: real, id: EntityId)

  datatype FeedResult = FeedResult(items: seq<FeedRow>, nextToken: Option<ScoreToken>)

  const LIKE_BOOST := 0.1

  /** The row a score contributes to the union, if its join finds anything. */
  function Joined(db: FeedDb, s: ScoreRow): Option<FeedRow> {
    match s
    case PostScore(id, v) =>
      if id !in db.posts || (id in db.reactions && db.reactions[id].Dislike?) then None
      else
        var liked := id in db.reactions && db.reactions[id].Like?;
        Some(FeedRow(id, PostItem, db.posts[id], v, if liked then v + LIKE_BOOST else v))
    case DigestScore(id, v) =>
      if id !in db.summaries || db.summaries[id].postId.Some? then None
      else Some(FeedRow(id, DigestItem, db.summaries[id].createdAt, v, v))
  }

  function Union(db: FeedDb, scores: seq<ScoreRow>): seq<FeedRow> {
    if scores == [] then []
    else
      var rest := Union(db, scores[1..]);
      var row := Joined(db, scores[0]);
      if row.Some? then [row.value] + rest else rest
  }

  lemma {:induction false} UnionMembers(db: FeedDb, scores: seq<ScoreRow>)
    ensures forall r :: r in Union(db, scores) <==> exists s :: s in scores && Joined(db, s) == Some(r)
  {
    if scores != [] {
      UnionMembers(db, scores[1..]);
      assert scores == [scores[0]] + scores[1..];
    }
  }

  function EntityOf(s: ScoreRow): EntityId { if s.PostScore? then s.postId else s.summaryId }

  /** One score per entity (the partial unique indexes), and no id used for both kinds. */
  ghost predicate OneScoreEach(scores: seq<ScoreRow>) {
    forall i, j :: 0 <= i < j < |scores| ==> EntityOf(scores[i]) != EntityOf(scores[j])
  }

  /** min-score and published_at range. */
  predicate Wanted(f: FeedQuery, r: FeedRow) {
    && r.value >= f.minScore
    && (f.from.Some? ==> r.publishedAt >= f.from.value)
    && (f.to.Some? ==> r.publishedAt <= f.to.value)
  }

  predicate PastToken(f: FeedQuery, r: FeedRow) {
    f.token.Some? ==> r.value < f.token.value.value || (r.value == f.token.value.value && r.id > f.token.value.id)
  }

  function Where(f: FeedQuery, rows: seq<FeedRow>): seq<FeedRow> {
    if rows == [] then []
    else (if Wanted(f, rows[0]) && PastToken(f, rows[0]) then [rows[0]] else []) + Where(f, rows[1..])
  }

  function ByEffective(): FeedRow -> Key { (r: FeedRow) => Key(-r.effective, r.id as int) }

  function ByValue(): FeedRow -> Key { (r: FeedRow) => Key(-r.value, r.id as int) }

  function QueryOf(f: FeedQuery): Query<FeedRow> {
    Query(ByEffective(), ByValue(), (r: FeedRow) => Wanted(f, r), f.pageSize)
  }

  function TokenKey(t: Option<ScoreToken>): Option<Key> {
    if t.None? then None else Some(Key(-t.value.value, t.value.id as int))
  }

  lemma {:induction false} WhereIsMatching(f: FeedQuery, rows: seq<FeedRow>)
    ensures Where(f, rows) == Matching(QueryOf(f), rows, TokenKey(f.token))
  {
    if rows != [] {
      WhereIsMatching(f, rows[1..]);
    }
  }

  /** ListRanked: the union, WHERE, ORDER BY effective_value, LIMIT pageSize + 1, then the page. */
  method ListRanked(db: FeedDb, f: FeedQuery) returns (result: FeedResult)
    requires f.pageSize >= 1
    ensures var page := ListPage(QueryOf(f), Union(db, db.scores), TokenKey(f.token));
      result.items == page.items && TokenKey(result.nextToken) == page.next
  {
    var rows := Union(db, db.scores);
    var selected := Sort(ByEffective(), Where(f, rows));
    WhereIsMatching(f, rows);
    assert selected == Remaining(QueryOf(f), rows, TokenKey(f.token));
    var items := Take(selected, f.pageSize + 1);
    var returnCount := Min(|items|, f.pageSize);
    var next := None;
    if |items| > f.pageSize {
      var last := items[returnCount - 1];
      next := Some(ScoreToken(last.value, last.id));
    }
    result := FeedResult(Take(items, returnCount), next);
  }

  // ----------------------------------------------------- a page, field by field

  /** What ListRanked returns, said without the query. */
  lemma PageOfTheFeed(db: FeedDb, f: FeedQuery, result: FeedResult)
    requires f.pageSize >= 1 && OneScoreEach(db.scores)
    requires var page := ListPage(QueryOf(f), Union(db, db.scores), TokenKey(f.token));
      result.items == page.items && TokenKey(result.nextToken) == page.next
    ensures forall r :: r in result.items ==> r in Union(db, db.scores)
    ensures forall r :: r in result.items ==>
      && r.value >= f.minScore
      && (f.from.Some? ==> f.from.value <= r.publishedAt) && (f.to.Some? ==> r.publishedAt <= f.to.value)
      && (f.token.Some? ==>
            r.value < f.token.value.value || (r.value == f.token.value.value && r.id > f.token.value.id))
    ensures forall i, j :: 0 <= i < j < |result.items| ==>
      || result.items[i].effective > result.items[j].effective
      || (result.items[i].effective == result.items[j].effective && result.items[i].id < result.items[j].id)
    ensures |result.items| <= f.pageSize
    ensures result.nextToken.Some? ==>
      && |result.items| == f.pageSize
      && result.nextToken == Some(ScoreToken(result.items[f.pageSize - 1].value, result.items[f.pageSize - 1].id))
    ensures forall r :: (
      && r in Union(db, db.scores) && r !in result.items && r.value >= f.minScore
      && (f.from.Some? ==> f.from.value <= r.publishedAt) && (f.to.Some? ==> r.publishedAt <= f.to.value)
      && (f.token.Some? ==>
            r.value < f.token.value.value || (r.value == f.token.value.value && r.id > f.token.value.id))) ==>
      result.nextToken.Some? && forall i :: 0 <= i < |result.items| ==>
        || result.items[i].effective > r.effective
        || (result.items[i].effective == r.effective && result.items[i].id < r.id)
  {
    UnionKeyed(db, db.scores, f);
    PageMeans(QueryOf(f), Union(db, db.scores), TokenKey(f.token));
  }

  // ------------------------------------------------------ what is eligible

  /** A row of the feed is a scored, not disliked post, or a scored cumulative digest. */
  lemma EligibleRows(db: FeedDb, r: FeedRow)
    ensures r in Union(db, db.scores) <==>
      || (&& r.kind.PostItem? && PostScore(r.id, r.value) in db.scores
          && r.id in db.posts && r.publishedAt == db.posts[r.id]
          && !(r.id in db.reactions && db.reactions[r.id].Dislike?)
          && r.effective == if r.id in db.reactions then r.value + 0.1 else r.value)
      || (&& r.kind.DigestItem? && DigestScore(r.id, r.value) in db.scores && r.id in db.summaries
          && db.summaries[r.id].postId.None? && r.publishedAt == db.summaries[r.id].createdAt && r.effective == r.value)
  {
    UnionMembers(db, db.scores);
    var s := if r.kind.PostItem? then PostScore(r.id, r.value) else DigestScore(r.id, r.value);
    assert s in db.scores ==> Joined(db, s) == Joined(db, s);
  }

  lemma FirstIdIsNew(db: FeedDb, scores: seq<ScoreRow>)
    requires OneScoreEach(scores) && scores != []
    ensures forall r :: r in Union(db, scores[1..]) ==> r.id != EntityOf(scores[0])
  {
    UnionMembers(db, scores[1..]);
    forall r | r in Union(db, scores[1..]) ensures r.id != EntityOf(scores[0]) {
      var s :| s in scores[1..] && Joined(db, s) == Some(r);
      var i :| 0 <= i < |scores[1..]| && scores[1..][i] == s;
      assert scores[i + 1] == s;
    }
  }

  lemma {:induction false} UnionKeyed(db: FeedDb, scores: seq<ScoreRow>, f: FeedQuery)
    requires OneScoreEach(scores)
    ensures Keyed(QueryOf(f).ord, Union(db, scores))
  {
    if scores != [] {
      UnionKeyed(db, scores[1..], f);
      FirstIdIsNew(db, scores);
    }
  }

  // ------------------------------------------- when is a walk of it exact?

  /** The walk ends, having returned every matching row exactly once. */
  ghost predicate ExactWalk<T(!new)>(q: Query<T>, db: nat -> seq<T>, all: seq<T>, n: nat)
    requires q.pageSize >= 1
  {
    var w := Follow(q, db, n);
    && w.done
    && (forall i, j :: 0 <= i < j < |w.items| ==> w.items[i] != w.items[j])
    && (forall x :: x in w.items <==> x in all)
  }

  /** Once the cursor has reached c, no row at or before c is returned any more. */
  ghost predicate BeyondFrom<T(!new)>(q: Query<T>, w: Walk<T>, m: nat, c: Key) {
    && m <= |w.items|
    && (forall x :: x in w.items[m..] ==> Before(c, q.cur(x)))
    && (!w.done ==> w.next.Some? && !Before(w.next.value, c))
  }

  lemma {:induction false} CursorOnlyAdvances<T(!new)>(q: Query<T>, db: nat -> seq<T>, table: seq<T>, k: nat, n: nat,
                                                       c: Key)
    requires q.pageSize >= 1 && Keyed(q.ord, table) && Frozen(db, table) && k <= n
    requires !Follow(q, db, k).done && Follow(q, db, k).next == Some(c)
    ensures BeyondFrom(q, Follow(q, db, n), |Follow(q, db, k).items|, c)
  {
    if k < n {
      CursorOnlyAdvances(q, db, table, k, n - 1, c);
      var w := Follow(q, db, n - 1);
      if !w.done {
        PageSorted(q, table, w.next);
        AdvanceStep(q, w, ListPage(q, db(n - 1), w.next), |Follow(q, db, k).items|, c);
      }
    }
  }

  lemma AdvanceStep<T(!new)>(q: Query<T>, w: Walk<T>, page: Page<T>, m: nat, c: Key)
    requires BeyondFrom(q, w, m, c) && !w.done
    requires forall x :: x in page.items ==> After(w.next, q.cur(x))
    requires page.next.Some? ==> page.items != [] && page.next == Some(q.cur(page.items[|page.items| - 1]))
    ensures BeyondFrom(q, Walk(w.items + page.items, page.next, page.next.None?), m, c)
  {
    assert (w.items + page.items)[m..] == w.items[m..] + page.items;
    if page.next.Some? {
      assert page.items[|page.items| - 1] in page.items;
    }
  }

  /** A row left behind at a page boundary never comes. */
  lemma LeftBehind<T(!new)>(q: Query<T>, db: nat -> seq<T>, table: seq<T>, all: seq<T>, k: nat, m: nat, l: nat, n: nat)
    requires q.pageSize >= 1 && Keyed(q.ord, table) && Frozen(db, table) && all == Remaining(q, table, None)
    requires 1 <= m <= l < |all| && k <= n && Follow(q, db, k) == Walk(all[..m], Some(q.cur(all[m - 1])), false)
    requires !Before(q.cur(all[m - 1]), q.cur(all[l]))
    ensures all[l] !in Follow(q, db, n).items
  {
    RemainingFacts(q, table, None);
    CursorOnlyAdvances(q, db, table, k, n, q.cur(all[m - 1]));
    ItemsOnlyGrow(q, db, k, n);
    NotAmong(q, all, Follow(q, db, n).items, m, l);
  }

  lemma NotAmong<T(!new)>(q: Query<T>, all: seq<T>, items: seq<T>, m: nat, l: nat)
    requires Sorted(q.ord, all) && 1 <= m <= l < |all| && all[..m] <= items
    requires forall x :: x in items[m..] ==> Before(q.cur(all[m - 1]), q.cur(x))
    requires !Before(q.cur(all[m - 1]), q.cur(all[l]))
    ensures all[l] !in items
  {
    assert items == all[..m] + items[m..];
    forall i | 0 <= i < m ensures all[i] != all[l] {
      assert Before(q.ord(all[i]), q.ord(all[l]));
    }
  }

  /** If the cursor leaves a row above the boundary in, the next page begins with a row already shown. */
  lemma NextPageRepeats<T(!new)>(q: Query<T>, table: seq<T>, all: seq<T>, m: nat, i: nat) returns (f: nat)
    requires q.pageSize >= 1 && Keyed(q.ord, table) && all == Remaining(q, table, None)
    requires i < m <= |all| && Before(q.cur(all[m - 1]), q.cur(all[i]))
    ensures var page := ListPage(q, table, Some(q.cur(all[m - 1])));
      f <= i && page.items != [] && page.items[0] == all[f]
  {
    var cursor := Some(q.cur(all[m - 1]));
    RemainingFacts(q, table, None);
    RemainingFacts(q, table, cursor);
    f := FirstLeft(q, all, Remaining(q, table, cursor), i);
    PageFacts(q, table, cursor);
  }

  /** A page that begins with a row already shown makes the walk repeat itself. */
  lemma ComesAgain<T(!new)>(q: Query<T>, db: nat -> seq<T>, k: nat, w: Walk<T>, page: Page<T>, f: nat, n: nat)
    requires q.pageSize >= 1 && k < n && Follow(q, db, k) == w && !w.done && page == ListPage(q, db(k), w.next)
    requires f < |w.items| && page.items != [] && page.items[0] == w.items[f]
    ensures var items, m := Follow(q, db, n).items, |w.items|; |items| > m && items[m] in items[..m]
  {
    FollowExtends(q, db, k + 1);
    ItemsOnlyGrow(q, db, k + 1, n);
    Repeats(w.items, page.items, Follow(q, db, n).items, f);
  }

  lemma Repeats<T>(shown: seq<T>, page: seq<T>, items: seq<T>, f: nat)
    requires f < |shown| && page != [] && page[0] == shown[f] && shown + page <= items
    ensures |items| > |shown| && items[|shown|] in items[..|shown|]
  {
    assert items[|shown|] == (shown + page)[|shown|];
    assert items[..|shown|][f] == (shown + page)[f];
  }

  /** If what is left includes row i of the sorted table, it begins with row i or one above it. */
  lemma FirstLeft<T(!new)>(q: Query<T>, all: seq<T>, rest: seq<T>, i: nat) returns (f: nat)
    requires Sorted(q.ord, all) && Sorted(q.ord, rest) && i < |all| && all[i] in rest
    requires forall x :: x in rest ==> x in all
    ensures f <= i && rest != [] && all[f] == rest[0]
  {
    assert rest[0] in all;
    f :| 0 <= f < |all| && all[f] == rest[0];
    var j :| 0 <= j < |rest| && rest[j] == all[i];
    assert j > 0 ==> Before(q.ord(rest[0]), q.ord(rest[j]));
    forall g | i < g < |all| ensures all[g] != rest[0] {
      assert Before(q.ord(all[i]), q.ord(all[g]));
    }
  }

  /** The first page boundary, among the first n, at which the cursor does not separate. */
  lemma {:induction false} FirstBadBoundary<T(!new)>(q: Query<T>, all: seq<T>, n: nat) returns (j: nat)
    requires q.pageSize >= 1 && !SplitsAll(q, all, n)
    ensures 1 <= j <= n && 0 < Rows(j, q.pageSize) < |all| && !Splits(q, all, Rows(j, q.pageSize))
    ensures SplitsAll(q, all, j - 1)
  {
    if n > 0 && !SplitsAll(q, all, n - 1) {
      j := FirstBadBoundary(q, all, n - 1);
    } else {
      j := n;
    }
  }

  /** A boundary that does not separate spoils every longer walk. */
  lemma BadBoundarySpoils<T(!new)>(q: Query<T>, db: nat -> seq<T>, table: seq<T>, all: seq<T>, k: nat, n: nat)
    requires q.pageSize >= 1 && Keyed(q.ord, table) && Frozen(db, table) && all == Remaining(q, table, None)
    requires k > 0 && 0 < Rows(k, q.pageSize) < |all|
    requires !Splits(q, all, Rows(k, q.pageSize)) && SplitsAll(q, all, k - 1)
    ensures !ExactWalk(q, db, all, n)
  {
    var m := Rows(k, q.pageSize);
    ReachesBoundary(q, db, table, all, k);
    if n <= k {
      ItemsOnlyGrow(q, db, n, k);
    } else if i: nat :| i < m && Before(q.cur(all[m - 1]), q.cur(all[i])) {
      var f := NextPageRepeats(q, table, all, m, i);
      var w := Walk(all[..m], Some(q.cur(all[m - 1])), false);
      ComesAgain(q, db, k, w, ListPage(q, db(k), w.next), f, n);
      var items := Follow(q, db, n).items;
      var g :| 0 <= g < m && items[..m][g] == items[m];
      assert items[g] == items[m];
    } else {
      var l: nat :| m <= l < |all| && !Before(q.cur(all[m - 1]), q.cur(all[l]));
      LeftBehind(q, db, table, all, k, m, l, n);
      assert all[l] in all;
    }
  }

  /** Up to the first bad boundary the walk is the sorted table. */
  lemma ReachesBoundary<T(!new)>(q: Query<T>, db: nat -> seq<T>, table: seq<T>, all: seq<T>, k: nat)
    requires q.pageSize >= 1 && Keyed(q.ord, table) && Frozen(db, table) && all == Remaining(q, table, None)
    requires k > 0 && Rows(k, q.pageSize) < |all| && SplitsAll(q, all, k - 1)
    ensures Follow(q, db, k) == Walk(all[..Rows(k, q.pageSize)], Some(q.cur(all[Rows(k, q.pageSize) - 1])), false)
  {
    WalkStatic(q, db, table, all, k);
    FullPages(q, all, Follow(q, db, k), k);
  }

  /** A walk that holds k pages of a longer table holds just those, and goes on from the last row. */
  lemma FullPages<T(!new)>(q: Query<T>, all: seq<T>, w: Walk<T>, k: nat)
    requires q.pageSize >= 1 && Prefixed(q, all, w, k) && Rows(k, q.pageSize) < |all|
    ensures !w.done && w.items == all[..Rows(k, q.pageSize)]
    ensures k > 0 ==> w.next == Some(q.cur(all[Rows(k, q.pageSize) - 1]))
  {
  }

  /**
    A walk over an unchanged table is exact if and only if, at every page boundary,
    the cursor column separates the rows above from the rows below.
   */
  lemma ExactIff<T(!new)>(q: Query<T>, db: nat -> seq<T>, table: seq<T>, n: nat)
    requires q.pageSize >= 1 && Keyed(q.ord, table) && Frozen(db, table) && n > |table|
    ensures ExactWalk(q, db, Remaining(q, table, None), n) <==> SplitsAll(q, Remaining(q, table, None), n)
  {
    var all := Remaining(q, table, None);
    if SplitsAll(q, all, n) {
      WalkStatic(q, db, table, all, n);
      RowsGrow(n, q.pageSize);
      RemainingFacts(q, table, None);
    } else {
      var k := FirstBadBoundary(q, all, n);
      BadBoundarySpoils(q, db, table, all, k, n);
    }
  }

  // ------------------------------------------------- the feed, concretely

  /** The filtered feed in the order the query returns it. */
  ghost function Eligible(db: FeedDb, f: FeedQuery): seq<FeedRow> {
    Remaining(QueryOf(f), Union(db, db.scores), None)
  }

  /** The feed as every fetch sees it when nobody writes. */
  ghost function Unchanged(db: FeedDb): nat -> seq<FeedRow> { (i: nat) => Union(db, db.scores) }

  /** For one page size: exact if and only if no page boundary mixes the two orders. */
  lemma FeedWalkExactIff(db: FeedDb, f: FeedQuery, n: nat)
    requires f.pageSize >= 1 && OneScoreEach(db.scores) && n > |Union(db, db.scores)|
    ensures ExactWalk(QueryOf(f), Unchanged(db), Eligible(db, f), n) <==> SplitsAll(QueryOf(f), Eligible(db, f), n)
  {
    UnionKeyed(db, db.scores, f);
    ExactIff(QueryOf(f), Unchanged(db), Union(db, db.scores), n);
  }

  /** Whatever the page size: every walk is exact if and only if value and effective_value order agree. */
  lemma FeedExactForEveryPageSize(db: FeedDb, f: FeedQuery, n: nat)
    requires OneScoreEach(db.scores) && n > |Union(db, db.scores)|
    ensures var all := Eligible(db, f);
      (forall size: nat :: size >= 1 ==> ExactWalk(QueryOf(f.(pageSize := size)), Unchanged(db), all, n)) <==>
      Sorted(ByValue(), all)
  {
    var all := Eligible(db, f);
    forall size: nat | size >= 1
      ensures ExactWalk(QueryOf(f.(pageSize := size)), Unchanged(db), all, n) <==>
        SplitsAll(QueryOf(f.(pageSize := size)), all, n)
    {
      SameEligible(db, f, size);
      FeedWalkExactIff(db, f.(pageSize := size), n);
    }
    UnionKeyed(db, db.scores, f);
    RemainingFacts(QueryOf(f), Union(db, db.scores), None);
    if Sorted(ByValue(), all) {
      forall size: nat | size >= 1 ensures SplitsAll(QueryOf(f.(pageSize := size)), all, n) {
        SortedSplits(QueryOf(f.(pageSize := size)), all, n);
      }
    } else {
      AdjacentDisorder(f.(pageSize := 1), all, n);
    }
  }

  lemma SameEligible(db: FeedDb, f: FeedQuery, size: nat)
    ensures Eligible(db, f.(pageSize := size)) == Eligible(db, f)
  {
    SameRemaining(QueryOf(f.(pageSize := size)), QueryOf(f), Union(db, db.scores), None);
  }

  /** With one row a page, every row is a boundary, so disorder anywhere shows at one. */
  lemma AdjacentDisorder(f: FeedQuery, all: seq<FeedRow>, n: nat)
    requires f.pageSize == 1 && n >= |all| && !Sorted(ByValue(), all)
    ensures !SplitsAll(QueryOf(f), all, n)
  {
    var q := QueryOf(f);
    var i, j :| 0 <= i < j < |all| && !Before(ByValue()(all[i]), ByValue()(all[j]));
    RowsOfOne(i + 1);
    assert !Before(q.cur(all[i]), q.cur(all[j]));
    assert 0 < Rows(i + 1, q.pageSize) < |all|;
  }

  lemma {:induction false} RowsOfOne(n: nat)
    ensures Rows(n, 1) == n
  {
    if n > 0 {
      RowsOfOne(n - 1);
    }
  }

  /** Without likes the orders agree, so the walk is the whole feed by value, best first. */
  lemma FeedWithoutLikes(db: FeedDb, f: FeedQuery, n: nat)
    requires f.pageSize >= 1 && OneScoreEach(db.scores) && n > |Union(db, db.scores)|
    requires forall id :: id in db.reactions ==> !db.reactions[id].Like?
    ensures ExactWalk(QueryOf(f), Unchanged(db), Eligible(db, f), n) && Sorted(ByValue(), Eligible(db, f))
    ensures forall r :: r in Follow(QueryOf(f), Unchanged(db), n).items <==>
      && r in Union(db, db.scores) && r.value >= f.minScore
      && (f.from.Some? ==> f.from.value <= r.publishedAt) && (f.to.Some? ==> r.publishedAt <= f.to.value)
  {
    var q, all := QueryOf(f), Eligible(db, f);
    UnionKeyed(db, db.scores, f);
    RemainingFacts(q, Union(db, db.scores), None);
    forall r | r in all ensures r.effective == r.value {
      EligibleRows(db, r);
    }
    forall i, j | 0 <= i < j < |all| ensures Before(ByValue()(all[i]), ByValue()(all[j])) {
      assert Before(q.ord(all[i]), q.ord(all[j]));
    }
    SortedSplits(q, all, n);
    FeedWalkExactIff(db, f, n);
  }

  /** One like is enough to lose a post: 0.5 liked shows above 0.55, and the cursor 0.5 then hides it. */
  const LIKED_FEED := FeedDb([PostScore(1, 0.5), PostScore(2, 0.55)], map[1 := 0, 2 := 0], map[1 := Like], map[])

  const ONE_AT_A_TIME := FeedQuery(None, None, 0.0, 1, None)

  lemma LikeHidesAPost(n: nat)
    ensures var hidden := FeedRow(2, PostItem, 0, 0.55, 0.55);
      && hidden in Eligible(LIKED_FEED, ONE_AT_A_TIME)
      && hidden !in Follow(QueryOf(ONE_AT_A_TIME), Unchanged(LIKED_FEED), n).items
    ensures !ExactWalk(QueryOf(ONE_AT_A_TIME), Unchanged(LIKED_FEED), Eligible(LIKED_FEED, ONE_AT_A_TIME), n)
  {
    var db, f, all := LIKED_FEED, ONE_AT_A_TIME, Eligible(LIKED_FEED, ONE_AT_A_TIME);
    var liked, hidden := FeedRow(1, PostItem, 0, 0.5, 0.5 + LIKE_BOOST), FeedRow(2, PostItem, 0, 0.55, 0.55);
    UnionKeyed(db, db.scores, f);
    RemainingFacts(QueryOf(f), Union(db, db.scores), None);
    assert db.scores[0] in db.scores && db.scores[1] in db.scores;
    EligibleRows(db, liked);
    EligibleRows(db, hidden);
    UnionSize(db, db.scores);
    var i :| 0 <= i < |all| && all[i] == liked;
    var j :| 0 <= j < |all| && all[j] == hidden;
    IndexOrder(QueryOf(f).ord, all, i, j);
    if n > 0 {
      SecondRowHidden(QueryOf(f), Unchanged(db), Union(db, db.scores), all, n);
    }
  }

  /** Of two rows the second is never shown if the cursor of the first does not precede it. */
  lemma SecondRowHidden<T(!new)>(q: Query<T>, db: nat -> seq<T>, table: seq<T>, all: seq<T>, n: nat)
    requires q.pageSize == 1 && n > 0
    requires Keyed(q.ord, table) && Frozen(db, table) && all == Remaining(q, table, None)
    requires |all| == 2 && !Before(q.cur(all[0]), q.cur(all[1]))
    ensures all[1] !in Follow(q, db, n).items
  {
    var k: nat := 1;
    RowsOfOne(k);
    ReachesBoundary(q, db, table, all, k);
    LeftBehind(q, db, table, all, k, k, k, n);
  }

  lemma IndexOrder<T(!new)>(ord: T -> Key, all: seq<T>, i: nat, j: nat)
    requires Sorted(ord, all) && i < |all| && j < |all| && Before(ord(all[i]), ord(all[j]))
    ensures i < j
  {
  }

  lemma {:induction false} UnionSize(db: FeedDb, scores: seq<ScoreRow>)
    ensures |Union(db, scores)| <= |scores|
  {
    if scores != [] {
      UnionSize(db, scores[1..]);
    }
  }
}
