/**
  Keyset pagination: fetch pageSize + 1 rows after a cursor, return pageSize of
  them, and hand out the key of the last one as the next cursor.

  Rows are ordered by a key (rank, id), ascending; a descending column enters
  negated.  The order of the query (ord) and the column the cursor is made from
  and compared against (cur) are separate, because one of the feeds mixes them.
 */
module Keyset {
  import opened Prelude

  datatype Key = Key(rank: real, id: int)

  predicate Before(a: Key, b: Key) { a.rank < b.rank || (a.rank == b.rank && a.id < b.id) }

  predicate After(cursor: Option<Key>, k: Key) { cursor.None? || Before(cursor.value, k) }

  ghost predicate Sorted<T(!new)>(ord: T -> Key, s: seq<T>) {
    forall i, j :: 0 <= i < j < |s| ==> Before(ord(s[i]), ord(s[j]))
  }

  /** No two rows share a key: the id in it is the primary key. */
  ghost predicate Keyed<T(!new)>(ord: T -> Key, s: seq<T>) {
    forall i, j :: 0 <= i < j < |s| ==> ord(s[i]) != ord(s[j])
  }

  // ---------------------------------------------------- WHERE and ORDER BY

  function Insert<T(!new)>(ord: T -> Key, x: T, s: seq<T>): seq<T> {
    if s == [] || Before(ord(x), ord(s[0])) then [x] + s else [s[0]] + Insert(ord, x, s[1..])
  }

  function Sort<T(!new)>(ord: T -> Key, s: seq<T>): seq<T> {
    if s == [] then [] else Insert(ord, s[0], Sort(ord, s[1..]))
  }

  lemma {:induction false} InsertMembers<T(!new)>(ord: T -> Key, x: T, s: seq<T>)
    ensures |Insert(ord, x, s)| == |s| + 1
    ensures forall y :: y in Insert(ord, x, s) <==> y == x || y in s
  {
    if s != [] && !Before(ord(x), ord(s[0])) {
      InsertMembers(ord, x, s[1..]);
      assert s == [s[0]] + s[1..];
    }
  }

  lemma {:induction false} SortMembers<T(!new)>(ord: T -> Key, s: seq<T>)
    ensures |Sort(ord, s)| == |s|
    ensures forall x :: x in Sort(ord, s) <==> x in s
  {
    if s != [] {
      SortMembers(ord, s[1..]);
      InsertMembers(ord, s[0], Sort(ord, s[1..]));
      assert s == [s[0]] + s[1..];
    }
  }

  lemma {:induction false} InsertSorted<T(!new)>(ord: T -> Key, x: T, s: seq<T>)
    requires Sorted(ord, s) && forall y :: y in s ==> ord(y) != ord(x)
    ensures Sorted(ord, Insert(ord, x, s))
  {
    if s != [] && !Before(ord(x), ord(s[0])) {
      InsertSorted(ord, x, s[1..]);
      InsertMembers(ord, x, s[1..]);
      var rest := Insert(ord, x, s[1..]);
      forall y | y in rest ensures Before(ord(s[0]), ord(y)) {
        if y in s[1..] {
          var i :| 0 <= i < |s[1..]| && s[1..][i] == y;
          assert s[i + 1] == y;
        }
      }
    }
  }

  lemma {:induction false} SortSorted<T(!new)>(ord: T -> Key, s: seq<T>)
    requires Keyed(ord, s)
    ensures Sorted(ord, Sort(ord, s))
  {
    if s != [] {
      SortSorted(ord, s[1..]);
      SortMembers(ord, s[1..]);
      InsertSorted(ord, s[0], Sort(ord, s[1..]));
    }
  }

  lemma EmptyTogether<T>(a: seq<T>, b: seq<T>)
    requires forall x :: x in a <==> x in b
    ensures a == [] <==> b == []
  {
    if a != [] {
      assert a[0] in b;
    }
    if b != [] {
      assert b[0] in a;
    }
  }

  /** A sorted sequence is determined by its members. */
  lemma {:induction false} SortedUnique<T(!new)>(ord: T -> Key, a: seq<T>, b: seq<T>)
    requires Sorted(ord, a) && Sorted(ord, b) && forall x :: x in a <==> x in b
    ensures a == b
  {
    if a == [] || b == [] {
      EmptyTogether(a, b);
    } else {
      assert a[0] in b && b[0] in a;
      assert a[0] == b[0];
      forall x ensures x in a[1..] <==> x in b[1..] {
        assert x in a[1..] ==> x in a && x != a[0];
        assert x in b[1..] ==> x in b && x != b[0];
        assert x in a && x != a[0] ==> x in a[1..];
        assert x in b && x != b[0] ==> x in b[1..];
      }
      SortedUnique(ord, a[1..], b[1..]);
    }
  }

  // ------------------------------------------------------------- one page

  /** The parameters of one listing: order, cursor column, filter and page size. */
  datatype Query<!T(!new)> = Query(ord: T -> Key, cur: T -> Key, keep: T -> bool, pageSize: nat)

  /** The WHERE clause: the filter, and past the cursor. */
  function Matching<T(!new)>(q: Query<T>, table: seq<T>, cursor: Option<Key>): seq<T> {
    if table == [] then []
    else
      var rest := Matching(q, table[1..], cursor);
      if q.keep(table[0]) && After(cursor, q.cur(table[0])) then [table[0]] + rest else rest
  }

  lemma {:induction false} MatchingMembers<T(!new)>(q: Query<T>, table: seq<T>, cursor: Option<Key>)
    ensures |Matching(q, table, cursor)| <= |table|
    ensures forall x :: x in Matching(q, table, cursor) <==> x in table && q.keep(x) && After(cursor, q.cur(x))
  {
    if table != [] {
      MatchingMembers(q, table[1..], cursor);
      assert table == [table[0]] + table[1..];
    }
  }

  lemma {:induction false} MatchingKeyed<T(!new)>(q: Query<T>, table: seq<T>, cursor: Option<Key>)
    requires Keyed(q.ord, table)
    ensures Keyed(q.ord, Matching(q, table, cursor))
  {
    if table != [] {
      MatchingKeyed(q, table[1..], cursor);
      MatchingMembers(q, table[1..], cursor);
      var rest := Matching(q, table[1..], cursor);
      forall y | y in rest ensures q.ord(table[0]) != q.ord(y) {
        var i :| 0 <= i < |table[1..]| && table[1..][i] == y;
        assert table[i + 1] == y;
      }
    }
  }

  /** What the query matches after a cursor, in the order it is returned. */
  function Remaining<T(!new)>(q: Query<T>, table: seq<T>, cursor: Option<Key>): seq<T> {
    Sort(q.ord, Matching(q, table, cursor))
  }

  function Take<T(!new)>(s: seq<T>, n: nat): seq<T> { s[..Min(n, |s|)] }

  datatype Page<T> = Page(items: seq<T>, next: Option<Key>)

  function ListPage<T(!new)>(q: Query<T>, table: seq<T>, cursor: Option<Key>): Page<T>
    requires q.pageSize >= 1
  {
    var fetched := Take(Remaining(q, table, cursor), q.pageSize + 1);
    var items := Take(fetched, q.pageSize);
    Page(items, if |fetched| > q.pageSize then Some(q.cur(items[|items| - 1])) else None)
  }

  // ------------------------------------------------------------- the walk

  /** Everything returned so far, and the token to continue with; done when there is none. */
  datatype Walk<T> = Walk(items: seq<T>, next: Option<Key>, done: bool)

  /** The walk after n fetches, where fetch i sees the database as snapshot db(i). */
  ghost function Follow<T(!new)>(q: Query<T>, db: nat -> seq<T>, n: nat): Walk<T>
    requires q.pageSize >= 1
  {
    if n == 0 then Walk([], None, false)
    else
      var w := Follow(q, db, n - 1);
      if w.done then w
      else
        var page := ListPage(q, db(n - 1), w.next);
        Walk(w.items + page.items, page.next, page.next.None?)
  }

  /** The query of a correct listing: the cursor compares the very column it orders by. */
  ghost predicate Coherent<T(!new)>(q: Query<T>) { q.pageSize >= 1 && q.ord == q.cur }

  /** The page holds the first rows of rest, and a token exactly when more are left. */
  ghost predicate Heads<T(!new)>(q: Query<T>, rest: seq<T>, page: Page<T>)
    requires q.pageSize >= 1
  {
    && page.items == rest[..Min(q.pageSize, |rest|)]
    && page.next == if |rest| > q.pageSize then Some(q.cur(rest[q.pageSize - 1])) else None
  }

  /** What the query has left is the sorted, filtered rest of the table. */
  lemma RemainingFacts<T(!new)>(q: Query<T>, table: seq<T>, cursor: Option<Key>)
    requires Keyed(q.ord, table)
    ensures Sorted(q.ord, Remaining(q, table, cursor)) && |Remaining(q, table, cursor)| <= |table|
    ensures forall x :: x in Remaining(q, table, cursor) <==> x in table && q.keep(x) && After(cursor, q.cur(x))
  {
    MatchingKeyed(q, table, cursor);
    MatchingMembers(q, table, cursor);
    SortSorted(q.ord, Matching(q, table, cursor));
    SortMembers(q.ord, Matching(q, table, cursor));
  }

  /** What one page is, in terms of what was left. */
  lemma PageFacts<T(!new)>(q: Query<T>, table: seq<T>, cursor: Option<Key>)
    requires q.pageSize >= 1
    ensures Heads(q, Remaining(q, table, cursor), ListPage(q, table, cursor))
  {
    var r := Remaining(q, table, cursor);
    assert Take(Take(r, q.pageSize + 1), q.pageSize) == r[..Min(q.pageSize, |r|)];
  }

  /** A page is sorted, lies past the cursor, and its token is the key of its last row. */
  lemma PageSorted<T(!new)>(q: Query<T>, table: seq<T>, cursor: Option<Key>)
    requires q.pageSize >= 1 && Keyed(q.ord, table)
    ensures var page := ListPage(q, table, cursor);
      && Sorted(q.ord, page.items)
      && (forall x :: x in page.items ==> x in table && q.keep(x) && After(cursor, q.cur(x)))
      && (page.next.Some? ==> page.items != [] && page.next == Some(q.cur(page.items[|page.items| - 1])))
  {
    RemainingFacts(q, table, cursor);
    PageFacts(q, table, cursor);
    var r, page := Remaining(q, table, cursor), ListPage(q, table, cursor);
    forall x | x in page.items ensures x in r {}
  }

  /**
    What a page holds: only matching rows past the cursor, in order, no more than fit;
    a row of that kind that is not on it comes after a full page, which hands out the
    cursor of its last row.
   */
  lemma PageMeans<T(!new)>(q: Query<T>, table: seq<T>, cursor: Option<Key>)
    requires q.pageSize >= 1 && Keyed(q.ord, table)
    ensures var page := ListPage(q, table, cursor);
      && Sorted(q.ord, page.items) && |page.items| <= q.pageSize
      && (forall x :: x in page.items ==> x in table && q.keep(x) && After(cursor, q.cur(x)))
      && (page.next.Some? ==>
            && |page.items| == q.pageSize && page.next == Some(q.cur(page.items[q.pageSize - 1]))
            && exists x :: x in table && q.keep(x) && After(cursor, q.cur(x)) && x !in page.items)
      && (forall x :: x in table && q.keep(x) && After(cursor, q.cur(x)) && x !in page.items ==>
            page.next.Some? && forall y :: y in page.items ==> Before(q.ord(y), q.ord(x)))
  {
    PageSorted(q, table, cursor);
    RemainingFacts(q, table, cursor);
    PageFacts(q, table, cursor);
    var rest, page := Remaining(q, table, cursor), ListPage(q, table, cursor);
    if page.next.Some? {
      LeftOut(q, rest, q.pageSize);
      assert rest[q.pageSize] in rest;
    }
    forall x | x in rest && x !in page.items ensures page.next.Some?
      && forall y :: y in page.items ==> Before(q.ord(y), q.ord(x))
    {
      BehindThePage(q, rest, page, x);
    }
  }

  lemma LeftOut<T(!new)>(q: Query<T>, rest: seq<T>, n: nat)
    requires Sorted(q.ord, rest) && n < |rest|
    ensures rest[n] !in rest[..n]
  {
    forall i | 0 <= i < n ensures rest[i] != rest[n] {
      assert Before(q.ord(rest[i]), q.ord(rest[n]));
    }
  }

  lemma BehindThePage<T(!new)>(q: Query<T>, rest: seq<T>, page: Page<T>, x: T)
    requires q.pageSize >= 1 && Sorted(q.ord, rest) && Heads(q, rest, page) && x in rest && x !in page.items
    ensures page.next.Some? && forall y :: y in page.items ==> Before(q.ord(y), q.ord(x))
  {
    var i :| 0 <= i < |rest| && rest[i] == x;
    assert x !in rest[..Min(q.pageSize, |rest|)];
    forall y | y in page.items ensures Before(q.ord(y), q.ord(x)) {
      var j :| 0 <= j < |page.items| && page.items[j] == y;
      assert rest[j] == y;
    }
  }

  /** A row that is left is on the page exactly if the page's token has passed it. */
  lemma ListPageSound<T(!new)>(q: Query<T>, table: seq<T>, cursor: Option<Key>, x: T)
    requires Coherent(q) && Keyed(q.ord, table)
    requires x in table && q.keep(x) && After(cursor, q.ord(x))
    ensures var page := ListPage(q, table, cursor);
      x in page.items <==> page.next.None? || !Before(page.next.value, q.ord(x))
  {
    RemainingFacts(q, table, cursor);
    PageFacts(q, table, cursor);
    HeadsSound(q, Remaining(q, table, cursor), ListPage(q, table, cursor), x);
  }

  lemma HeadsSound<T(!new)>(q: Query<T>, rest: seq<T>, page: Page<T>, x: T)
    requires Coherent(q) && Sorted(q.ord, rest) && Heads(q, rest, page) && x in rest
    ensures x in page.items <==> page.next.None? || !Before(page.next.value, q.ord(x))
  {
    var i :| 0 <= i < |rest| && rest[i] == x;
    if i < q.pageSize {
      assert page.items[i] == x;
    } else {
      forall j | 0 <= j < q.pageSize ensures rest[j] != x {}
    }
  }

  /** Every snapshot of the table has its primary key. */
  ghost predicate Snapshots<T(!new)>(q: Query<T>, db: nat -> seq<T>) {
    forall i: nat :: Keyed(q.ord, db(i))
  }

  /** Nobody writes to the table. */
  ghost predicate Frozen<T(!new)>(db: nat -> seq<T>, table: seq<T>) {
    forall i: nat :: db(i) == table
  }

  /** n pages of rows. */
  function Rows(n: nat, pageSize: nat): nat {
    if n == 0 then 0 else Rows(n - 1, pageSize) + pageSize
  }

  /** Snapshot i of the database holds a matching row with this key. */
  ghost predicate Holds<T(!new)>(q: Query<T>, table: seq<T>, k: Key) {
    exists x :: x in table && q.keep(x) && q.ord(x) == k
  }

  /** The row was matching in the snapshot of some fetch before the n-th. */
  ghost predicate SeenBefore<T(!new)>(q: Query<T>, db: nat -> seq<T>, n: nat, x: T) {
    exists i: nat :: i < n && x in db(i) && q.keep(x)
  }

  /** The walk returned only rows that matched when fetched. */
  ghost predicate AllSeen<T(!new)>(q: Query<T>, db: nat -> seq<T>, n: nat)
    requires q.pageSize >= 1
  {
    var items := Follow(q, db, n).items;
    forall x :: x in items ==> SeenBefore(q, db, n, x)
  }

  /** The cursor has passed the key, or the walk is over. */
  ghost predicate Passed<T>(w: Walk<T>, k: Key) {
    w.done || (w.next.Some? && !Before(w.next.value, k))
  }

  /** The walk is sorted so far and its token is the key of its last row. */
  ghost predicate Ordered<T(!new)>(q: Query<T>, w: Walk<T>, n: nat) {
    && Sorted(q.ord, w.items)
    && (w.done ==> w.next.None?)
    && (!w.done && n > 0 ==> w.items != [] && w.next == Some(q.ord(w.items[|w.items| - 1])))
    && (n == 0 ==> w.items == [] && w.next.None? && !w.done)
  }

  lemma SortedConcat<T(!new)>(ord: T -> Key, a: seq<T>, b: seq<T>)
    requires Sorted(ord, a) && Sorted(ord, b)
    requires a != [] ==> forall y :: y in b ==> Before(ord(a[|a| - 1]), ord(y))
    ensures Sorted(ord, a + b)
  {
    forall i, j | 0 <= i < j < |a + b| ensures Before(ord((a + b)[i]), ord((a + b)[j])) {
      if i < |a| <= j {
        assert b[j - |a|] in b;
        assert i == |a| - 1 || Before(ord(a[i]), ord(a[|a| - 1]));
      }
    }
  }

  /**
    While rows come and go between fetches, the walk stays strictly sorted, so it
    never returns a key twice, and it returns only rows that matched when fetched.
   */
  lemma {:induction false} WalkOrdered<T(!new)>(q: Query<T>, db: nat -> seq<T>, n: nat)
    requires Coherent(q) && Snapshots(q, db)
    ensures Ordered(q, Follow(q, db, n), n)
    ensures AllSeen(q, db, n)
  {
    if n > 0 {
      WalkOrdered(q, db, n - 1);
      WalkSourced(q, db, n);
      var w := Follow(q, db, n - 1);
      if !w.done {
        WalkStep(q, db(n - 1), w, n);
      }
    }
  }

  lemma WalkStep<T(!new)>(q: Query<T>, table: seq<T>, w: Walk<T>, n: nat)
    requires Coherent(q) && Keyed(q.ord, table) && n > 0 && !w.done && Ordered(q, w, n - 1)
    ensures var page := ListPage(q, table, w.next);
      Ordered(q, Walk(w.items + page.items, page.next, page.next.None?), n)
  {
    var page := ListPage(q, table, w.next);
    PageSorted(q, table, w.next);
    SortedConcat(q.ord, w.items, page.items);
  }

  lemma WalkSourced<T(!new)>(q: Query<T>, db: nat -> seq<T>, n: nat)
    requires Coherent(q) && Snapshots(q, db) && n > 0
    requires AllSeen(q, db, n - 1)
    ensures AllSeen(q, db, n)
  {
    var w := Follow(q, db, n - 1);
    forall x | x in Follow(q, db, n).items ensures SeenBefore(q, db, n, x) {
      if x in w.items {
        assert SeenBefore(q, db, n - 1, x);
      } else {
        PageSorted(q, db(n - 1), w.next);
        assert x in ListPage(q, db(n - 1), w.next).items;
      }
    }
  }

  lemma {:induction false} ItemsOnlyGrow<T(!new)>(q: Query<T>, db: nat -> seq<T>, m: nat, n: nat)
    requires q.pageSize >= 1 && m <= n
    ensures Follow(q, db, m).items <= Follow(q, db, n).items
    ensures Follow(q, db, m).done ==> Follow(q, db, n) == Follow(q, db, m)
  {
    if m < n {
      ItemsOnlyGrow(q, db, m, n - 1);
      var w := Follow(q, db, n - 1);
      if !w.done {
        PrefixOfLonger(Follow(q, db, m).items, w.items, ListPage(q, db(n - 1), w.next).items);
      }
    }
  }

  lemma PrefixOfLonger<T>(a: seq<T>, b: seq<T>, c: seq<T>)
    requires a <= b
    ensures a <= b + c
  {
  }

  /** Row j of the walk, not among the first shown, has this key. */
  ghost predicate ReturnedAt<T(!new)>(q: Query<T>, w: Walk<T>, shown: nat, k: Key, j: nat) {
    shown <= j < |w.items| && q.ord(w.items[j]) == k
  }

  lemma ReturnedLater<T(!new)>(q: Query<T>, w: Walk<T>, longer: Walk<T>, shown: nat, k: Key, j: nat)
    requires ReturnedAt(q, w, shown, k, j) && w.items <= longer.items
    ensures ReturnedAt(q, longer, shown, k, j)
  {
  }

  /** The walk after one more page. */
  ghost function Extended<T(!new)>(q: Query<T>, table: seq<T>, w: Walk<T>): Walk<T>
    requires q.pageSize >= 1
  {
    var page := ListPage(q, table, w.next);
    Walk(w.items + page.items, page.next, page.next.None?)
  }

  lemma FollowExtends<T(!new)>(q: Query<T>, db: nat -> seq<T>, n: nat)
    requires q.pageSize >= 1 && n > 0 && !Follow(q, db, n - 1).done
    ensures Follow(q, db, n) == Extended(q, db(n - 1), Follow(q, db, n - 1))
  {
  }

  /** A key the cursor has yet to pass, held by every snapshot from then on, is returned once the cursor passes it. */
  lemma {:induction false} WalkComplete<T(!new)>(q: Query<T>, db: nat -> seq<T>, m: nat, n: nat, k: Key)
    returns (j: nat)
    requires Coherent(q) && Snapshots(q, db) && m < n
    requires forall i: nat :: m <= i < n ==> Holds(q, db(i), k)
    requires !Passed(Follow(q, db, m), k) && Passed(Follow(q, db, n), k)
    ensures ReturnedAt(q, Follow(q, db, n), |Follow(q, db, m).items|, k, j)
  {
    var last: nat := n - 1;
    var w, shown := Follow(q, db, last), |Follow(q, db, m).items|;
    if Passed(w, k) {
      j := WalkComplete(q, db, m, last, k);
      ItemsOnlyGrow(q, db, last, n);
      ReturnedLater(q, w, Follow(q, db, n), shown, k, j);
    } else {
      FollowExtends(q, db, n);
      ItemsOnlyGrow(q, db, m, last);
      assert Holds(q, db(last), k);
      j := PageHolds(q, db(last), w, shown, k);
    }
  }

  /** A held key the cursor passes with one page is on that page. */
  lemma PageHolds<T(!new)>(q: Query<T>, table: seq<T>, w: Walk<T>, shown: nat, k: Key) returns (j: nat)
    requires Coherent(q) && Keyed(q.ord, table) && Holds(q, table, k) && shown <= |w.items|
    requires !Passed(w, k) && Passed(Extended(q, table, w), k)
    ensures ReturnedAt(q, Extended(q, table, w), shown, k, j)
  {
    var page := ListPage(q, table, w.next);
    var x :| x in table && q.keep(x) && q.ord(x) == k;
    ListPageSound(q, table, w.next, x);
    var i :| 0 <= i < |page.items| && page.items[i] == x;
    j := |w.items| + i;
  }

  /** A row returned after the first m fetches matched at one of the later ones. */
  lemma {:induction false} SeenSince<T(!new)>(q: Query<T>, db: nat -> seq<T>, m: nat, n: nat, j: nat, x: T)
    returns (i: nat)
    requires Coherent(q) && Snapshots(q, db) && m <= n
    requires |Follow(q, db, m).items| <= j < |Follow(q, db, n).items| && x == Follow(q, db, n).items[j]
    ensures m <= i < n && x in db(i) && q.keep(x)
  {
    var last: nat := n - 1;
    var w := Follow(q, db, last);
    ItemsOnlyGrow(q, db, last, n);
    if j < |w.items| {
      i := SeenSince(q, db, m, last, j, x);
    } else {
      FollowExtends(q, db, n);
      ExtendedSeen(q, db(last), w, j, x);
      i := last;
    }
  }

  lemma ExtendedSeen<T(!new)>(q: Query<T>, table: seq<T>, w: Walk<T>, j: nat, x: T)
    requires q.pageSize >= 1 && Keyed(q.ord, table)
    requires |w.items| <= j < |Extended(q, table, w).items| && x == Extended(q, table, w).items[j]
    ensures x in table && q.keep(x)
  {
    PageSorted(q, table, w.next);
    assert x == ListPage(q, table, w.next).items[j - |w.items|];
  }

  /** What the walk returns later lies past the cursor of now. */
  lemma LaterIsPast<T(!new)>(q: Query<T>, db: nat -> seq<T>, m: nat, n: nat, j: nat)
    requires Coherent(q) && Snapshots(q, db) && 0 < m <= n && !Follow(q, db, m).done
    requires |Follow(q, db, m).items| <= j < |Follow(q, db, n).items|
    ensures After(Follow(q, db, m).next, q.ord(Follow(q, db, n).items[j]))
  {
    WalkOrdered(q, db, m);
    WalkOrdered(q, db, n);
    ItemsOnlyGrow(q, db, m, n);
    var shown, items := Follow(q, db, m).items, Follow(q, db, n).items;
    assert items[|shown| - 1] == shown[|shown| - 1];
    assert Before(q.ord(items[|shown| - 1]), q.ord(items[j]));
  }

  /** The walk returns some row with this key after its first m fetches. */
  ghost predicate StillReturned<T(!new)>(q: Query<T>, db: nat -> seq<T>, m: nat, n: nat, k: Key)
    requires q.pageSize >= 1
  {
    exists j: nat :: ReturnedAt(q, Follow(q, db, n), |Follow(q, db, m).items|, k, j)
  }

  /** A key that every later snapshot holds is still returned by the finished walk iff the cursor is before it. */
  lemma StillReturnedIff<T(!new)>(q: Query<T>, db: nat -> seq<T>, m: nat, n: nat, k: Key)
    requires Coherent(q) && Snapshots(q, db) && 0 < m < n
    requires !Follow(q, db, m).done && Follow(q, db, n).done
    requires forall i: nat :: m <= i < n ==> Holds(q, db(i), k)
    ensures StillReturned(q, db, m, n, k) <==> After(Follow(q, db, m).next, k)
  {
    WalkOrdered(q, db, m);
    if After(Follow(q, db, m).next, k) {
      var j := WalkComplete(q, db, m, n, k);
    } else if j: nat :| ReturnedAt(q, Follow(q, db, n), |Follow(q, db, m).items|, k, j) {
      LaterIsPast(q, db, m, n, j);
    }
  }

  // ------------------------------------------ queries that agree on the rows

  /** The two queries see these rows alike, whatever they would make of others. */
  ghost predicate Agree<T(!new)>(q: Query<T>, r: Query<T>, table: seq<T>) {
    forall x :: x in table ==> q.keep(x) == r.keep(x) && q.ord(x) == r.ord(x) && q.cur(x) == r.cur(x)
  }

  ghost predicate AlwaysAgree<T(!new)>(q: Query<T>, r: Query<T>, db: nat -> seq<T>) {
    forall i: nat :: Agree(q, r, db(i))
  }

  lemma {:induction false} SameMatching<T(!new)>(q: Query<T>, r: Query<T>, table: seq<T>, cursor: Option<Key>)
    requires Agree(q, r, table)
    ensures Matching(q, table, cursor) == Matching(r, table, cursor)
  {
    if table != [] {
      assert table[0] in table && forall x :: x in table[1..] ==> x in table;
      SameMatching(q, r, table[1..], cursor);
    }
  }

  lemma {:induction false} SameSort<T(!new)>(q: Query<T>, r: Query<T>, rows: seq<T>)
    requires Agree(q, r, rows)
    ensures Sort(q.ord, rows) == Sort(r.ord, rows)
  {
    if rows != [] {
      assert rows[0] in rows && forall x :: x in rows[1..] ==> x in rows;
      SameSort(q, r, rows[1..]);
      SortMembers(q.ord, rows[1..]);
      SameInsert(q, r, rows[0], Sort(q.ord, rows[1..]));
    }
  }

  lemma {:induction false} SameInsert<T(!new)>(q: Query<T>, r: Query<T>, x: T, rows: seq<T>)
    requires Agree(q, r, [x] + rows)
    ensures Insert(q.ord, x, rows) == Insert(r.ord, x, rows)
  {
    assert x in [x] + rows && forall y :: y in rows ==> y in [x] + rows;
    if rows != [] {
      SameInsert(q, r, x, rows[1..]);
    }
  }

  lemma SameRemaining<T(!new)>(q: Query<T>, r: Query<T>, table: seq<T>, cursor: Option<Key>)
    requires Agree(q, r, table)
    ensures Remaining(q, table, cursor) == Remaining(r, table, cursor)
  {
    SameMatching(q, r, table, cursor);
    MatchingMembers(q, table, cursor);
    SameSort(q, r, Matching(q, table, cursor));
  }

  lemma SamePage<T(!new)>(q: Query<T>, r: Query<T>, table: seq<T>, cursor: Option<Key>)
    requires Agree(q, r, table) && q.pageSize == r.pageSize >= 1
    ensures ListPage(q, table, cursor) == ListPage(r, table, cursor)
  {
    SameRemaining(q, r, table, cursor);
    MatchingMembers(q, table, cursor);
    SortMembers(q.ord, Matching(q, table, cursor));
    PageFacts(q, table, cursor);
    PageFacts(r, table, cursor);
    var rest := Remaining(q, table, cursor);
    assert |rest| > q.pageSize ==> rest[q.pageSize - 1] in rest;
  }

  lemma SameExtended<T(!new)>(q: Query<T>, r: Query<T>, table: seq<T>, w: Walk<T>)
    requires Agree(q, r, table) && q.pageSize == r.pageSize >= 1
    ensures Extended(q, table, w) == Extended(r, table, w)
  {
    SamePage(q, r, table, w.next);
  }

  /** Queries that agree on every row there ever was walk alike. */
  lemma SameFollow<T(!new)>(q: Query<T>, r: Query<T>, db: nat -> seq<T>, n: nat)
    requires q.pageSize == r.pageSize >= 1 && AlwaysAgree(q, r, db)
    ensures Follow(q, db, n) == Follow(r, db, n)
  {
    if Follow(q, db, n) != Follow(r, db, n) {
      var k := Turning((i: nat) => Follow(q, db, i) != Follow(r, db, i), 0, n);
      SameStep(q, r, db, k + 1);
    }
  }

  lemma SameStep<T(!new)>(q: Query<T>, r: Query<T>, db: nat -> seq<T>, n: nat)
    requires q.pageSize == r.pageSize >= 1 && n > 0 && AlwaysAgree(q, r, db)
    requires Follow(q, db, n - 1) == Follow(r, db, n - 1)
    ensures Follow(q, db, n) == Follow(r, db, n)
  {
    SameExtended(q, r, db(n - 1), Follow(q, db, n - 1));
  }

  // ---------------------------------------------------- an unchanged table

  /** The cursor taken from row m - 1 separates the first m rows from the others. */
  ghost predicate Splits<T(!new)>(q: Query<T>, all: seq<T>, m: nat)
    requires 1 <= m <= |all|
  {
    && (forall i :: 0 <= i < m ==> !Before(q.cur(all[m - 1]), q.cur(all[i])))
    && (forall i :: m <= i < |all| ==> Before(q.cur(all[m - 1]), q.cur(all[i])))
  }

  /** The cursor separates the rows at every page boundary among the first n. */
  ghost predicate SplitsAll<T(!new)>(q: Query<T>, all: seq<T>, n: nat) {
    forall j :: 1 <= j <= n && 0 < Rows(j, q.pageSize) < |all| ==> Splits(q, all, Rows(j, q.pageSize))
  }

  /** In a sorted sequence every row separates. */
  lemma SortedSplits<T(!new)>(q: Query<T>, all: seq<T>, n: nat)
    requires Sorted(q.cur, all)
    ensures SplitsAll(q, all, n)
  {
  }

  /** What is left after the m-th row is the rest of the sorted table, if the cursor separates there. */
  lemma RemainingAfter<T(!new)>(q: Query<T>, table: seq<T>, m: nat)
    requires q.pageSize >= 1 && Keyed(q.ord, table)
    requires var all := Remaining(q, table, None); 1 <= m <= |all| && Splits(q, all, m)
    ensures var all := Remaining(q, table, None); Remaining(q, table, Some(q.cur(all[m - 1]))) == all[m..]
  {
    var all := Remaining(q, table, None);
    RemainingFacts(q, table, None);
    RestOfSplit(q, all, m);
    var cursor := Some(q.cur(all[m - 1]));
    RemainingFacts(q, table, cursor);
    SortedUnique(q.ord, Remaining(q, table, cursor), all[m..]);
  }

  lemma RestOfSplit<T(!new)>(q: Query<T>, all: seq<T>, m: nat)
    requires Sorted(q.ord, all) && 1 <= m <= |all| && Splits(q, all, m)
    ensures Sorted(q.ord, all[m..])
    ensures forall x :: x in all[m..] <==> x in all && Before(q.cur(all[m - 1]), q.cur(x))
  {
    forall x ensures x in all[m..] <==> x in all && Before(q.cur(all[m - 1]), q.cur(x)) {
      if x in all && Before(q.cur(all[m - 1]), q.cur(x)) {
        var i :| 0 <= i < |all| && all[i] == x;
        assert i >= m;
        assert all[m..][i - m] == x;
      }
    }
  }

  /**
    On an unchanged table, as long as the cursor separates at the page boundaries,
    the pages concatenate to the sorted, filtered table: after n fetches the walk
    holds its first n pages of rows, and it is done exactly when those cover them all.
   */
  lemma {:induction false} WalkStatic<T(!new)>(q: Query<T>, db: nat -> seq<T>, table: seq<T>, all: seq<T>, n: nat)
    requires q.pageSize >= 1 && Keyed(q.ord, table) && Frozen(db, table)
    requires all == Remaining(q, table, None) && (n > 0 ==> SplitsAll(q, all, n - 1))
    ensures Prefixed(q, all, Follow(q, db, n), n)
  {
    if n > 0 {
      if n > 1 {
        SplitsFewer(q, all, n - 1);
      }
      WalkStatic(q, db, table, all, n - 1);
      var w := Follow(q, db, n - 1);
      if w.done {
        DonePrefixed(q, all, w, n);
      } else {
        StaticStep(q, db(n - 1), w, n);
      }
    }
  }

  lemma SplitsFewer<T(!new)>(q: Query<T>, all: seq<T>, n: nat)
    requires n > 0 && SplitsAll(q, all, n)
    ensures SplitsAll(q, all, n - 1)
  {
  }

  /** The walk w holds the first n pages of all, and knows whether that is everything. */
  ghost predicate Prefixed<T(!new)>(q: Query<T>, all: seq<T>, w: Walk<T>, n: nat) {
    var m := Min(Rows(n, q.pageSize), |all|);
    && w.items == all[..m]
    && (w.done <==> n > 0 && |all| <= Rows(n, q.pageSize))
    && (n == 0 ==> w.next.None?)
    && (!w.done && n > 0 ==> 0 < m && w.next == Some(q.cur(all[m - 1])))
  }

  lemma DonePrefixed<T(!new)>(q: Query<T>, all: seq<T>, w: Walk<T>, n: nat)
    requires n > 0 && w.done && Prefixed(q, all, w, n - 1)
    ensures Prefixed(q, all, w, n)
  {
  }

  lemma StaticStep<T(!new)>(q: Query<T>, table: seq<T>, w: Walk<T>, n: nat)
    requires q.pageSize >= 1 && Keyed(q.ord, table) && n > 0
    requires !w.done && Prefixed(q, Remaining(q, table, None), w, n - 1)
    requires SplitsAll(q, Remaining(q, table, None), n - 1)
    ensures var page := ListPage(q, table, w.next);
      Prefixed(q, Remaining(q, table, None), Walk(w.items + page.items, page.next, page.next.None?), n)
  {
    var all, rest, m := Remaining(q, table, None), Remaining(q, table, w.next), Rows(n - 1, q.pageSize);
    if n > 1 {
      RowsGrow(n - 1, q.pageSize);
      assert Splits(q, all, m);
      RemainingAfter(q, table, m);
    }
    assert rest == all[m..];
    PageFacts(q, table, w.next);
    NextPrefixed(q, all, rest, w, ListPage(q, table, w.next), n, m);
  }

  lemma NextPrefixed<T(!new)>(q: Query<T>, all: seq<T>, rest: seq<T>, w: Walk<T>, page: Page<T>, n: nat, m: nat)
    requires q.pageSize >= 1 && n > 0 && m == Rows(n - 1, q.pageSize) && m <= |all| && w.items == all[..m]
    requires rest == all[m..] && Heads(q, rest, page)
    ensures Prefixed(q, all, Walk(w.items + page.items, page.next, page.next.None?), n)
  {
    assert all[..m] + rest[..Min(q.pageSize, |rest|)] == all[..Min(m + q.pageSize, |all|)];
  }

  lemma {:induction false} RowsGrow(n: nat, pageSize: nat)
    requires pageSize >= 1
    ensures Rows(n, pageSize) >= n
  {
    if n > 0 {
      RowsGrow(n - 1, pageSize);
    }
  }

  /** The walk of an unchanged table ends, within |table| + 1 fetches, with exactly what matches. */
  lemma WalkEnds<T(!new)>(q: Query<T>, db: nat -> seq<T>, table: seq<T>, n: nat)
    requires Coherent(q) && Keyed(q.ord, table) && Frozen(db, table)
    requires n > |table|
    ensures Follow(q, db, n).done && Follow(q, db, n).items == Remaining(q, table, None)
  {
    RemainingFacts(q, table, None);
    SortedSplits(q, Remaining(q, table, None), n);
    WalkStatic(q, db, table, Remaining(q, table, None), n);
    RowsGrow(n, q.pageSize);
  }
}
