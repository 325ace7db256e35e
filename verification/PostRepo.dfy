/**
  postRepo.List: one page of posts, with the WHERE and ORDER BY clauses the code
  builds, proved to be a page of the generic keyset walk; and what a whole walk
  over a changing posts table then guarantees.
 */
module PostRepo {
  import opened Prelude
  import opened Keyset
  import opened Utf8

  datatype Post = Post(
    id: PostId, sourceId: SourceId, externalId: string,
    publishedAt: Time, createdAt: Time, text: seq<Byte>)

  datatype SortField = ByPublishedAt | ByCreatedAt
  datatype SortDirection = Desc | Asc

  datatype Token = Token(sortValue: Time, id: PostId)

  /** Which posts are asked for, whatever the order and the page. */
  datatype Scope = Scope(sourceId: Option<SourceId>, createdAfter: Option<Time>, createdBefore: Option<Time>)

  datatype ListFilter = ListFilter(
    scope: Scope, pageSize: nat, token: Option<Token>, orderBy: SortField, orderDir: SortDirection)

  datatype ListResult = ListResult(items: seq<Post>, nextToken: Option<Token>)

  function SortValue(f: SortField, p: Post): Time {
    if f.ByPublishedAt? then p.publishedAt else p.createdAt
  }

  /** The filter's own conditions: source, and [createdAfter, createdBefore). */
  predicate Wanted(s: Scope, p: Post) {
    && (s.sourceId.Some? ==> p.sourceId == s.sourceId.value)
    && (s.createdAfter.Some? ==> p.createdAt >= s.createdAfter.value)
    && (s.createdBefore.Some? ==> p.createdAt < s.createdBefore.value)
  }

  /** applyCursorFilterDesc and applyCursorFilterAsc. */
  predicate PastToken(f: ListFilter, p: Post) {
    match f.token
    case None => true
    case Some(t) =>
      var v := SortValue(f.orderBy, p);
      if f.orderDir.Desc? then v < t.sortValue || (v == t.sortValue && p.id < t.id)
      else v > t.sortValue || (v == t.sortValue && p.id > t.id)
  }

  function Where(f: ListFilter, table: seq<Post>): seq<Post> {
    if table == [] then []
    else (if Wanted(f.scope, table[0]) && PastToken(f, table[0]) then [table[0]] else []) + Where(f, table[1..])
  }

  /** The position of a (value, id) pair in the order of the listing. */
  function KeyAt(dir: SortDirection, value: Time, id: PostId): Key {
    if dir.Desc? then Key(-(value as real), -(id as int)) else Key(value as real, id as int)
  }

  function KeyOf(f: SortField, dir: SortDirection): Post -> Key {
    (p: Post) => KeyAt(dir, SortValue(f, p), p.id)
  }

  function TokenKey(f: ListFilter): Option<Key> {
    if f.token.None? then None else Some(KeyAt(f.orderDir, f.token.value.sortValue, f.token.value.id))
  }

  function QueryFor(s: Scope, field: SortField, dir: SortDirection, pageSize: nat): Query<Post> {
    var key := KeyOf(field, dir);
    Query(key, key, (p: Post) => Wanted(s, p), pageSize)
  }

  function QueryOf(f: ListFilter): Query<Post> { QueryFor(f.scope, f.orderBy, f.orderDir, f.pageSize) }

  ghost predicate UniqueIds(table: seq<Post>) {
    forall i, j :: 0 <= i < j < |table| ==> table[i].id != table[j].id
  }

  lemma UniqueIdsKeyed(f: ListFilter, table: seq<Post>)
    requires UniqueIds(table)
    ensures Keyed(QueryOf(f).ord, table)
  {
  }

  /** The SQL conditions select exactly the rows the keyset walk has left. */
  lemma {:induction false} WhereIsMatching(f: ListFilter, table: seq<Post>)
    ensures Where(f, table) == Matching(QueryOf(f), table, TokenKey(f))
  {
    if table != [] {
      WhereIsMatching(f, table[1..]);
    }
  }

  /** List: SELECT with LIMIT pageSize + 1, then the loop that builds the page. */
  method List(table: seq<Post>, f: ListFilter) returns (result: ListResult)
    requires f.pageSize >= 1
    ensures result.items == ListPage(QueryOf(f), table, TokenKey(f)).items
    ensures TokenKey(f.(token := result.nextToken)) == ListPage(QueryOf(f), table, TokenKey(f)).next
  {
    var selected := Sort(KeyOf(f.orderBy, f.orderDir), Where(f, table));
    var fetched := Take(selected, f.pageSize + 1);
    WhereIsMatching(f, table);
    assert selected == Remaining(QueryOf(f), table, TokenKey(f));
    var items := [];
    var returnCount := Min(|fetched|, f.pageSize);
    for i := 0 to returnCount
      invariant items == fetched[..i]
    {
      items := items + [fetched[i]];
    }
    var next := None;
    if |fetched| > f.pageSize {
      var last := fetched[returnCount - 1];
      next := Some(Token(SortValue(f.orderBy, last), last.id));
    }
    result := ListResult(items, next);
  }

  /** PostUsecase.List clamps the page size before it reaches the repository. */
  function ClampPageSize(requested: int): (size: nat)
    ensures 1 <= size <= 500 && (1 <= requested <= 500 ==> size == requested)
  {
    if requested < 1 then 1 else if requested > 500 then 500 else requested
  }

  datatype ListError = InvalidArgument

  /** ValidateListPostsFilter, of what a structured filter can still get wrong: an inverted time range. */
  predicate ValidScope(s: Scope) {
    s.createdAfter.Some? && s.createdBefore.Some? ==> s.createdAfter.value <= s.createdBefore.value
  }

  /** PostUsecase.List: any page size may be asked for; at least one and at most 500 posts are looked up. */
  method ListPosts(table: seq<Post>, f: ListFilter, requested: int) returns (r: Result<ListResult, ListError>)
    ensures r.Err? <==>
      && f.scope.createdAfter.Some? && f.scope.createdBefore.Some?
      && f.scope.createdBefore.value < f.scope.createdAfter.value
    ensures r.Ok? ==>
      var g := f.(pageSize := ClampPageSize(requested));
      && r.value.items == ListPage(QueryOf(g), table, TokenKey(g)).items
      && TokenKey(g.(token := r.value.nextToken)) == ListPage(QueryOf(g), table, TokenKey(g)).next
      && |r.value.items| <= 500
  {
    if !ValidScope(f.scope) {
      return Err(InvalidArgument);
    }
    var result := List(table, f.(pageSize := ClampPageSize(requested)));
    r := Ok(result);
  }

  /** What List returns, said field by field. */
  lemma PageOfPosts(table: seq<Post>, f: ListFilter, result: ListResult)
    requires f.pageSize >= 1 && UniqueIds(table)
    requires result.items == ListPage(QueryOf(f), table, TokenKey(f)).items
    requires TokenKey(f.(token := result.nextToken)) == ListPage(QueryOf(f), table, TokenKey(f)).next
    ensures forall x :: x in result.items ==> x in table && PastToken(f, x)
    ensures forall x :: x in result.items ==>
      && (f.scope.sourceId.Some? ==> x.sourceId == f.scope.sourceId.value)
      && (f.scope.createdAfter.Some? ==> f.scope.createdAfter.value <= x.createdAt)
      && (f.scope.createdBefore.Some? ==> x.createdAt < f.scope.createdBefore.value)
    ensures |result.items| <= f.pageSize
    ensures result.nextToken.Some? ==>
      && |result.items| == f.pageSize
      && var last, token := result.items[f.pageSize - 1], result.nextToken.value;
         token.id == last.id && token.sortValue == if f.orderBy.ByPublishedAt? then last.publishedAt else last.createdAt
    ensures forall x :: (
      && x in table && PastToken(f, x) && x !in result.items
      && (f.scope.sourceId.Some? ==> x.sourceId == f.scope.sourceId.value)
      && (f.scope.createdAfter.Some? ==> f.scope.createdAfter.value <= x.createdAt)
      && (f.scope.createdBefore.Some? ==> x.createdAt < f.scope.createdBefore.value)) ==>
      && result.nextToken.Some?
      && forall y :: y in result.items ==> Precedes(f.orderBy, f.orderDir, y, x)
  {
    UniqueIdsKeyed(f, table);
    PageMeans(QueryOf(f), table, TokenKey(f));
  }

  /** The four orders of a page. */
  lemma PageInOrder(table: seq<Post>, f: ListFilter, items: seq<Post>)
    requires f.pageSize >= 1 && UniqueIds(table) && items == ListPage(QueryOf(f), table, TokenKey(f)).items
    ensures f.orderBy.ByPublishedAt? && f.orderDir.Desc? ==> forall i, j :: 0 <= i < j < |items| ==>
      || items[i].publishedAt > items[j].publishedAt
      || (items[i].publishedAt == items[j].publishedAt && items[i].id > items[j].id)
    ensures f.orderBy.ByPublishedAt? && f.orderDir.Asc? ==> forall i, j :: 0 <= i < j < |items| ==>
      || items[i].publishedAt < items[j].publishedAt
      || (items[i].publishedAt == items[j].publishedAt && items[i].id < items[j].id)
    ensures f.orderBy.ByCreatedAt? && f.orderDir.Desc? ==> forall i, j :: 0 <= i < j < |items| ==>
      || items[i].createdAt > items[j].createdAt
      || (items[i].createdAt == items[j].createdAt && items[i].id > items[j].id)
    ensures f.orderBy.ByCreatedAt? && f.orderDir.Asc? ==> forall i, j :: 0 <= i < j < |items| ==>
      || items[i].createdAt < items[j].createdAt
      || (items[i].createdAt == items[j].createdAt && items[i].id < items[j].id)
  {
    UniqueIdsKeyed(f, table);
    PageMeans(QueryOf(f), table, TokenKey(f));
    forall i, j | 0 <= i < j < |items| ensures Before(QueryOf(f).ord(items[i]), QueryOf(f).ord(items[j])) {}
  }

  // --------------------------------------------------------- whole walks

  ghost predicate Snapshot(db: nat -> seq<Post>) { forall i: nat :: UniqueIds(db(i)) }

  /** A post keeps the value it is sorted by for as long as it lives. */
  ghost predicate SortValueFixed(field: SortField, db: nat -> seq<Post>) {
    forall i: nat, j: nat, x, y ::
      x in db(i) && y in db(j) && x.id == y.id ==> SortValue(field, x) == SortValue(field, y)
  }

  /** x is listed strictly before y: by the sort value, and by id where that is equal. */
  predicate Precedes(field: SortField, dir: SortDirection, x: Post, y: Post) {
    var v, w := SortValue(field, x), SortValue(field, y);
    if dir.Desc? then v > w || (v == w && x.id > y.id) else v < w || (v == w && x.id < y.id)
  }

  ghost predicate InListOrder(f: ListFilter, items: seq<Post>) {
    forall i, j :: 0 <= i < j < |items| ==> Precedes(f.orderBy, f.orderDir, items[i], items[j])
  }

  /** Each post was in the table and wanted at some fetch before the n-th. */
  ghost predicate AllListed(f: ListFilter, db: nat -> seq<Post>, n: nat, items: seq<Post>) {
    forall i :: 0 <= i < |items| ==> ListedOnce(f, db, n, items[i])
  }

  ghost predicate ListedOnce(f: ListFilter, db: nat -> seq<Post>, n: nat, x: Post) {
    exists i: nat :: i < n && x in db(i) && Wanted(f.scope, x)
  }

  /**
    Walking while posts are inserted, edited and deleted between pages: the order is
    strict and every post returned matched when its page was read.
   */
  lemma WalkInOrder(f: ListFilter, db: nat -> seq<Post>, n: nat)
    requires f.pageSize >= 1 && Snapshot(db)
    ensures var items := Follow(QueryOf(f), db, n).items; InListOrder(f, items) && AllListed(f, db, n, items)
  {
    var q, items := QueryOf(f), Follow(QueryOf(f), db, n).items;
    SnapshotKeyed(f, db);
    WalkOrdered(q, db, n);
    forall i, j | 0 <= i < j < |items| ensures Precedes(f.orderBy, f.orderDir, items[i], items[j]) {
      BeforePrecedes(f, items[i], items[j]);
    }
    forall i | 0 <= i < |items| ensures ListedOnce(f, db, n, items[i]) {
      assert items[i] in items && SeenBefore(q, db, n, items[i]);
      var k: nat :| k < n && items[i] in db(k) && q.keep(items[i]);
    }
  }

  /** If edits leave the sort value alone, as they always do the creation time, no post comes twice. */
  lemma WalkNeverRepeats(f: ListFilter, db: nat -> seq<Post>, n: nat)
    requires f.pageSize >= 1 && Snapshot(db) && SortValueFixed(f.orderBy, db)
    ensures var items := Follow(QueryOf(f), db, n).items;
      forall i, j :: 0 <= i < j < |items| ==> items[i].id != items[j].id
  {
    WalkInOrder(f, db, n);
    NoneTwice(f, db, n, Follow(QueryOf(f), db, n).items);
  }

  lemma NoneTwice(f: ListFilter, db: nat -> seq<Post>, n: nat, items: seq<Post>)
    requires SortValueFixed(f.orderBy, db) && InListOrder(f, items) && AllListed(f, db, n, items)
    ensures forall i, j :: 0 <= i < j < |items| ==> items[i].id != items[j].id
  {
    forall i, j | 0 <= i < j < |items| ensures items[i].id != items[j].id {
      var x, y := items[i], items[j];
      assert Precedes(f.orderBy, f.orderDir, x, y) && ListedOnce(f, db, n, x) && ListedOnce(f, db, n, y);
      var k: nat :| k < n && x in db(k);
      var l: nat :| l < n && y in db(l);
      assert x.id == y.id ==> SortValue(f.orderBy, x) == SortValue(f.orderBy, y);
    }
  }

  lemma BeforePrecedes(f: ListFilter, x: Post, y: Post)
    requires Before(QueryOf(f).ord(x), QueryOf(f).ord(y))
    ensures Precedes(f.orderBy, f.orderDir, x, y)
  {
  }

  /** The walk returns the id again after its first m fetches. */
  ghost predicate ComesAgain(f: ListFilter, db: nat -> seq<Post>, m: nat, n: nat, id: PostId)
    requires f.pageSize >= 1
  {
    var shown, items := Follow(QueryOf(f), db, m).items, Follow(QueryOf(f), db, n).items;
    exists j :: |shown| <= j < |items| && items[j].id == id
  }

  /**
    Exactly when an edit makes a post come twice.  A post has been returned within m
    fetches; from then on every snapshot holds it as y.  The finished walk returns it
    again if and only if y's place in the order is past the cursor of that moment.
   */
  lemma EditedComesAgainIff(f: ListFilter, db: nat -> seq<Post>, m: nat, n: nat, y: Post)
    requires f.pageSize >= 1 && Snapshot(db) && 0 < m < n && Wanted(f.scope, y)
    requires !Follow(QueryOf(f), db, m).done && Follow(QueryOf(f), db, n).done
    requires forall i: nat :: m <= i < n ==> y in db(i)
    ensures ComesAgain(f, db, m, n, y.id) <==> After(Follow(QueryOf(f), db, m).next, QueryOf(f).ord(y))
  {
    var q := QueryOf(f);
    SnapshotKeyed(f, db);
    forall i: nat | m <= i < n ensures Holds(q, db(i), q.ord(y)) {
      assert y in db(i) && q.keep(y);
    }
    StillReturnedIff(q, db, m, n, q.ord(y));
    var shown, items := |Follow(q, db, m).items|, Follow(q, db, n).items;
    if j: nat :| ReturnedAt(q, Follow(q, db, n), shown, q.ord(y), j) {
      SameKeySameId(f, items[j], y);
    } else if j :| shown <= j < |items| && items[j].id == y.id {
      var i := SeenSince(q, db, m, n, j, items[j]);
      SameIdSamePost(db(i), items[j], y);
      assert ReturnedAt(q, Follow(q, db, n), shown, q.ord(y), j);
    }
  }

  lemma SameKeySameId(f: ListFilter, x: Post, y: Post)
    requires QueryOf(f).ord(x) == QueryOf(f).ord(y)
    ensures x.id == y.id
  {
  }

  lemma SameIdSamePost(table: seq<Post>, x: Post, y: Post)
    requires UniqueIds(table) && x in table && y in table && x.id == y.id
    ensures x == y
  {
  }

  lemma SnapshotKeyed(f: ListFilter, db: nat -> seq<Post>)
    requires Snapshot(db)
    ensures Snapshots(QueryOf(f), db)
  {
    forall i: nat ensures Keyed(QueryOf(f).ord, db(i)) {
      UniqueIdsKeyed(f, db(i));
    }
  }

  /** A post that at every fetch of a finished walk matched with the same sort value is in its result. */
  lemma WalkMissesNobody(f: ListFilter, db: nat -> seq<Post>, n: nat, id: PostId, value: Time)
    requires f.pageSize >= 1 && Snapshot(db) && n > 0 && Follow(QueryOf(f), db, n).done
    requires forall i: nat :: i < n ==>
      exists x :: x in db(i) && Wanted(f.scope, x) && x.id == id && SortValue(f.orderBy, x) == value
    ensures exists x :: x in Follow(QueryOf(f), db, n).items && x.id == id
  {
    var q, k := QueryOf(f), KeyAt(f.orderDir, value, id);
    SnapshotKeyed(f, db);
    forall i: nat | i < n ensures Holds(q, db(i), k) {
      var x :| x in db(i) && Wanted(f.scope, x) && x.id == id && SortValue(f.orderBy, x) == value;
      assert q.keep(x) && q.ord(x) == k;
    }
    var j := WalkComplete(q, db, 0, n, k);
    assert Follow(q, db, n).items[j].id == id;
  }

  /** On an unchanged table the finished walk is the sorted list of the matching posts. */
  lemma WalkOfUnchangedPosts(f: ListFilter, db: nat -> seq<Post>, table: seq<Post>, n: nat)
    requires f.pageSize >= 1 && UniqueIds(table) && Frozen(db, table) && n > |table|
    ensures var w := Follow(QueryOf(f), db, n);
      && w.done && Sorted(KeyOf(f.orderBy, f.orderDir), w.items)
      && (forall x :: x in w.items <==> x in table && Wanted(f.scope, x))
  {
    UniqueIdsKeyed(f, table);
    WalkEnds(QueryOf(f), db, table, n);
    RemainingFacts(QueryOf(f), table, None);
  }

  // ------------------------------------- ordering by publication time

  const EARLY := Post(1, 7, "a", 10, 100, [])
  const OTHER := Post(2, 7, "b", 5, 101, [])

  /** After the first page is read, Update moves post 1 to an earlier publication time. */
  function EditedMidWalk(i: nat): seq<Post> {
    if i == 0 then [EARLY, OTHER] else [EARLY.(publishedAt := 1), OTHER]
  }

  const NEWEST_PUBLISHED := ListFilter(Scope(Some(7), None, None), 1, None, ByPublishedAt, Desc)

  /** One step of that walk, from the sorted rows that are left. */
  lemma EditedStep(n: nat, w: Walk<Post>, rest: seq<Post>)
    requires Follow(QueryOf(NEWEST_PUBLISHED), EditedMidWalk, n) == w && !w.done && rest != []
    requires Sorted(QueryOf(NEWEST_PUBLISHED).ord, rest)
    requires forall x :: x in rest <==>
      x in EditedMidWalk(n) && Wanted(NEWEST_PUBLISHED.scope, x) && After(w.next, QueryOf(NEWEST_PUBLISHED).ord(x))
    ensures Follow(QueryOf(NEWEST_PUBLISHED), EditedMidWalk, n + 1) ==
      Walk(w.items + [rest[0]], if |rest| > 1 then Some(QueryOf(NEWEST_PUBLISHED).ord(rest[0])) else None, |rest| <= 1)
  {
    var q, table := QueryOf(NEWEST_PUBLISHED), EditedMidWalk(n);
    UniqueIdsKeyed(NEWEST_PUBLISHED, table);
    RemainingFacts(q, table, w.next);
    PageFacts(q, table, w.next);
    SortedUnique(q.ord, Remaining(q, table, w.next), rest);
    assert rest[..1] == [rest[0]];
  }

  /** The first two pages of the walk. */
  lemma EditedStart() returns (n: nat)
    ensures n == 2
    ensures Follow(QueryOf(NEWEST_PUBLISHED), EditedMidWalk, n) ==
      Walk([EARLY, OTHER], Some(QueryOf(NEWEST_PUBLISHED).ord(OTHER)), false)
  {
    var moved, key := EARLY.(publishedAt := 1), QueryOf(NEWEST_PUBLISHED).ord;
    n := 0;
    EditedStep(n, Walk([], None, false), [EARLY, OTHER]);
    EditedStep(n + 1, Walk([EARLY], Some(key(EARLY)), false), [OTHER, moved]);
    n := n + 2;
  }

  /** And the third. */
  lemma EditedWalk() returns (n: nat)
    ensures Follow(QueryOf(NEWEST_PUBLISHED), EditedMidWalk, n).items == [EARLY, OTHER, EARLY.(publishedAt := 1)]
  {
    n := EditedStart();
    EditedStep(n, Walk([EARLY, OTHER], Some(QueryOf(NEWEST_PUBLISHED).ord(OTHER)), false), [EARLY.(publishedAt := 1)]);
    n := n + 1;
  }

  lemma EditedIsLegal()
    ensures Snapshot(EditedMidWalk) && SortValueFixed(ByCreatedAt, EditedMidWalk)
  {
    forall i: nat, x | x in EditedMidWalk(i) ensures x.createdAt == x.id + 99 {}
  }

  /** So it happens: walking by publication time, one edit brings a post back, its creation time untouched. */
  lemma PublicationOrderRepeats()
    ensures Snapshot(EditedMidWalk) && SortValueFixed(ByCreatedAt, EditedMidWalk)
    ensures exists n: nat ::
      Follow(QueryOf(NEWEST_PUBLISHED), EditedMidWalk, n).items == [EARLY, OTHER, EARLY.(publishedAt := 1)]
  {
    var n := EditedWalk();
    EditedIsLegal();
  }
}
