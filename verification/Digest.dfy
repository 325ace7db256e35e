/**
  collectWindowPosts: the paged, budgeted loop that gathers the text of a digest,
  proved equal to a one-line specification of what it should gather.
 */
module Digest {
  import opened Prelude
  import opened Utf8
  import opened Keyset
  import opened PostRepo

  const SEPARATOR: seq<Byte> := [10, 10]

  const DEFAULT_LIST_PAGE_SIZE: nat := 500

  function Piece(p: Post): seq<Byte> { p.text + SEPARATOR }

  function Pieces(posts: seq<Post>): seq<seq<Byte>> { seq(|posts|, i requires 0 <= i < |posts| => Piece(posts[i])) }

  /** The size of the posts with their separators. */
  function Size(posts: seq<Post>): nat {
    if posts == [] then 0 else Size(posts[..|posts| - 1]) + |Piece(posts[|posts| - 1])|
  }

  /** Newest-first posts, laid out oldest to newest. */
  function Join(posts: seq<Post>): seq<Byte> {
    if posts == [] then [] else Piece(posts[|posts| - 1]) + Join(posts[..|posts| - 1])
  }

  /** The first k posts are the longest prefix that fits the budget. */
  ghost predicate LongestFit(posts: seq<Post>, budget: nat, k: nat) {
    && k <= |posts| && Size(posts[..k]) <= budget
    && (k < |posts| ==> Size(posts[..k + 1]) > budget)
  }

  /**
    What a digest is made of, given the window's posts newest first: the newest
    posts that fit, oldest first; or the newest alone, cut, if not even it fits.
   */
  ghost predicate Rendering(posts: seq<Post>, budget: nat, out: seq<Byte>) {
    exists k: nat :: RenderedBy(posts, budget, k, out)
  }

  ghost predicate RenderedBy(posts: seq<Post>, budget: nat, k: nat, out: seq<Byte>) {
    && LongestFit(posts, budget, k)
    && out == if k == 0 && posts != [] then Truncated(posts[0].text, budget) else Join(posts[..k])
  }

  lemma {:induction false} SizeGrows(posts: seq<Post>, j: nat, k: nat)
    requires j <= k <= |posts|
    ensures Size(posts[..j]) <= Size(posts[..k])
    ensures j < k ==> Size(posts[..j]) < Size(posts[..k])
  {
    if j < k {
      SizeGrows(posts, j, k - 1);
      assert posts[..k][..k - 1] == posts[..k - 1];
    }
  }

  /** The longest fitting prefix is unique, and every fitting prefix is part of it. */
  lemma LongestFitIsLongest(posts: seq<Post>, budget: nat, k: nat, j: nat)
    requires LongestFit(posts, budget, k) && j <= |posts|
    ensures Size(posts[..j]) <= budget <==> j <= k
  {
    if j <= k {
      SizeGrows(posts, j, k);
    } else {
      SizeGrows(posts, k + 1, j);
    }
  }

  /** A digest's input is determined by its posts and the budget. */
  lemma RenderingUnique(posts: seq<Post>, budget: nat, a: seq<Byte>, b: seq<Byte>)
    requires Rendering(posts, budget, a) && Rendering(posts, budget, b)
    ensures a == b
  {
    var k: nat :| RenderedBy(posts, budget, k, a);
    var j: nat :| RenderedBy(posts, budget, j, b);
    LongestFitUnique(posts, budget, j, k);
  }

  lemma LongestFitUnique(posts: seq<Post>, budget: nat, j: nat, k: nat)
    requires LongestFit(posts, budget, j) && LongestFit(posts, budget, k)
    ensures j == k
  {
    LongestFitIsLongest(posts, budget, k, j);
    LongestFitIsLongest(posts, budget, j, k);
  }

  lemma {:induction false} JoinSize(posts: seq<Post>)
    ensures |Join(posts)| == Size(posts)
  {
    if posts != [] {
      JoinSize(posts[..|posts| - 1]);
    }
  }

  /** It never exceeds the budget. */
  lemma RenderingFits(posts: seq<Post>, budget: nat, out: seq<Byte>)
    requires Rendering(posts, budget, out)
    ensures |out| <= budget
  {
    var k: nat :| RenderedBy(posts, budget, k, out);
    JoinSize(posts[..k]);
  }

  /** Once the budget is exceeded, older posts make no difference. */
  lemma OverflowIsFinal(posts: seq<Post>, all: seq<Post>, budget: nat, k: nat)
    requires LongestFit(posts, budget, k) && k < |posts| && posts <= all
    ensures LongestFit(all, budget, k)
  {
    assert all[..k] == posts[..k] && all[..k + 1] == posts[..k + 1];
  }

  function WindowScope(source: SourceId, start: Time, end: Time): Scope {
    Scope(Some(source), Some(start), Some(end))
  }

  /** The listing collectWindowPosts pages through: the window, newest first. */
  function WindowQuery(source: SourceId, start: Time, end: Time, pageSize: nat): Query<Post> {
    QueryFor(WindowScope(source, start, end), ByCreatedAt, Desc, pageSize)
  }

  /** The posts of the window, newest first. */
  ghost function NewestFirst(table: seq<Post>, source: SourceId, start: Time, end: Time): seq<Post> {
    Remaining(WindowQuery(source, start, end, 1), table, None)
  }

  function Reversed(pieces: seq<seq<Byte>>): seq<Byte> {
    if pieces == [] then [] else pieces[|pieces| - 1] + Reversed(pieces[..|pieces| - 1])
  }

  lemma {:induction false} ReversedIsJoin(posts: seq<Post>)
    ensures Reversed(Pieces(posts)) == Join(posts)
  {
    if posts != [] {
      var n := |posts| - 1;
      ReversedIsJoin(posts[..n]);
      assert Pieces(posts)[..n] == Pieces(posts[..n]);
    }
  }

  /** strings.Builder over the pieces, last one first. */
  method Concatenate(pieces: seq<seq<Byte>>) returns (out: seq<Byte>)
    ensures out == Reversed(pieces)
  {
    out := [];
    var i := |pieces|;
    assert pieces[..i] == pieces;
    while i > 0
      invariant 0 <= i <= |pieces| && out + Reversed(pieces[..i]) == Reversed(pieces)
      decreases i
    {
      i := i - 1;
      assert pieces[..i + 1][..i] == pieces[..i];
      out := out + pieces[i];
    }
  }

  /** What the loop has gathered: every post so far, within budget. */
  ghost predicate Gathered(items: seq<Post>, pieces: seq<seq<Byte>>, total: nat, budget: nat) {
    pieces == Pieces(items) && total == Size(items) <= budget
  }

  lemma GatherOne(items: seq<Post>, p: Post, pieces: seq<seq<Byte>>, total: nat, budget: nat)
    requires Gathered(items, pieces, total, budget)
    ensures Size(items + [p]) == total + |Piece(p)|
    ensures Pieces(items + [p]) == pieces + [Piece(p)]
  {
    assert (items + [p])[..|items|] == items;
  }

  /** The post that does not fit ends the gathering, whatever follows it. */
  lemma FirstOverflow(items: seq<Post>, p: Post, more: seq<Post>, pieces: seq<seq<Byte>>, total: nat, budget: nat)
    requires Gathered(items, pieces, total, budget) && total + |Piece(p)| > budget
    ensures LongestFit(items + [p] + more, budget, |items|)
  {
    GatherOne(items, p, pieces, total, budget);
    var all := items + [p] + more;
    assert all[..|items|] == items && all[..|items| + 1] == items + [p];
  }

  /** The gathered pieces are what the posts of the walk w render to. */
  ghost predicate Ready(w: Walk<Post>, pieces: seq<seq<Byte>>, budget: nat) {
    && Rendering(w.items, budget, Reversed(pieces))
    && (w.done || Size(w.items) > budget)
  }

  lemma ReadyAtEnd(w: Walk<Post>, pieces: seq<seq<Byte>>, total: nat, budget: nat)
    requires Gathered(w.items, pieces, total, budget) && w.done
    ensures Ready(w, pieces, budget)
  {
    ReversedIsJoin(w.items);
    assert w.items[..|w.items|] == w.items;
    assert RenderedBy(w.items, budget, |w.items|, Reversed(pieces));
  }

  lemma ReadyAtOverflow(items: seq<Post>, p: Post, more: seq<Post>, w: Walk<Post>, pieces: seq<seq<Byte>>, total: nat,
                        budget: nat, final: seq<seq<Byte>>)
    requires w.items == items + [p] + more
    requires Gathered(items, pieces, total, budget) && total + |Piece(p)| > budget
    requires final == if |pieces| == 0 then [Truncated(p.text, budget)] else pieces
    ensures Ready(w, final, budget)
  {
    FirstOverflow(items, p, more, pieces, total, budget);
    ReversedIsJoin(items);
    assert w.items[..|items|] == items;
    assert final[..|final| - 1] == [] || |pieces| > 0;
    assert RenderedBy(w.items, budget, |items|, Reversed(final));
    SizeGrows(w.items, |items| + 1, |w.items|);
    assert w.items[..|w.items|] == w.items;
  }

  /** Appending one page is one step of the walk. */
  lemma PageIsStep(q: Query<Post>, db: nat -> seq<Post>, n: nat, f: ListFilter, page: ListResult)
    requires q.pageSize >= 1 && !Follow(q, db, n).done && TokenKey(f) == Follow(q, db, n).next
    requires page.items == ListPage(q, db(n), TokenKey(f)).items
    requires TokenKey(f.(token := page.nextToken)) == ListPage(q, db(n), TokenKey(f)).next
    ensures Follow(q, db, n + 1) ==
      Walk(Follow(q, db, n).items + page.items, TokenKey(f.(token := page.nextToken)), page.nextToken.None?)
    ensures page.nextToken.Some? ==> page.items != []
  {
    PageFacts(q, db(n), TokenKey(f));
  }

  /** The posts seen when the loop stands at row i of a page. */
  ghost function SoFar(before: seq<Post>, page: seq<Post>, i: nat): seq<Post>
    requires i <= |page|
  {
    before + page[..i]
  }

  lemma SoFarBounds(before: seq<Post>, page: seq<Post>)
    ensures SoFar(before, page, 0) == before && SoFar(before, page, |page|) == before + page
  {
  }

  lemma NextFits(before: seq<Post>, page: seq<Post>, i: nat, pieces: seq<seq<Byte>>, total: nat, budget: nat)
    requires i < |page| && Gathered(SoFar(before, page, i), pieces, total, budget)
    requires total + |Piece(page[i])| <= budget
    ensures Gathered(SoFar(before, page, i + 1), pieces + [Piece(page[i])], total + |Piece(page[i])|, budget)
  {
    GatherOne(SoFar(before, page, i), page[i], pieces, total, budget);
    assert SoFar(before, page, i + 1) == SoFar(before, page, i) + [page[i]];
  }

  lemma NextOverflows(before: seq<Post>, page: seq<Post>, i: nat, w: Walk<Post>, pieces: seq<seq<Byte>>, total: nat,
                      budget: nat, final: seq<seq<Byte>>)
    requires w.items == before + page && i < |page| && Gathered(SoFar(before, page, i), pieces, total, budget)
    requires total + |Piece(page[i])| > budget
    requires final == if |pieces| == 0 then [Truncated(page[i].text, budget)] else pieces
    ensures Ready(w, final, budget)
  {
    assert page == page[..i] + [page[i]] + page[i + 1..];
    assert w.items == SoFar(before, page, i) + [page[i]] + page[i + 1..];
    ReadyAtOverflow(SoFar(before, page, i), page[i], page[i + 1..], w, pieces, total, budget, final);
  }

  /** The inner loop: takes rows of one page up to the first that does not fit. */
  method GatherPage(ghost before: seq<Post>, page: seq<Post>, pieces: seq<seq<Byte>>, total: nat, maxChars: nat)
    returns (newestFirst: seq<seq<Byte>>, total': nat, stopped: nat)
    requires Gathered(before, pieces, total, maxChars)
    ensures stopped <= |page| && Gathered(SoFar(before, page, stopped), newestFirst, total', maxChars)
    ensures stopped < |page| ==> total' + |Piece(page[stopped])| > maxChars
    ensures total' >= total + stopped
  {
    newestFirst, total' := pieces, total;
    SoFarBounds(before, page);
    for i := 0 to |page|
      invariant Gathered(SoFar(before, page, i), newestFirst, total', maxChars) && total' >= total + i
    {
      var piece := page[i].text + SEPARATOR;
      if total' + |piece| > maxChars {
        return newestFirst, total', i;
      }
      NextFits(before, page, i, newestFirst, total', maxChars);
      newestFirst := newestFirst + [piece];
      total' := total' + |piece|;
    }
    stopped := |page|;
  }

  function WindowFilter(source: SourceId, start: Time, end: Time, pageSize: nat, token: Option<Token>): ListFilter {
    ListFilter(WindowScope(source, start, end), pageSize, token, ByCreatedAt, Desc)
  }

  /** Where the loop stands after some fetches: everything so far was gathered, and more is to come. */
  ghost predicate Continuing(q: Query<Post>, db: nat -> seq<Post>, fetched: nat, f: ListFilter,
                             pieces: seq<seq<Byte>>, total: nat, budget: nat)
  {
    && q.pageSize >= 1 && !Follow(q, db, fetched).done && TokenKey(f) == Follow(q, db, fetched).next
    && Gathered(Follow(q, db, fetched).items, pieces, total, budget)
  }

  ghost predicate Finished(q: Query<Post>, db: nat -> seq<Post>, fetched: nat, pieces: seq<seq<Byte>>, budget: nat) {
    q.pageSize >= 1 && Ready(Follow(q, db, fetched), pieces, budget)
  }

  /** The rows of the next page, up to the first that does not fit; cut it if it is the newest of all. */
  method TakePage(page: ListResult, pieces: seq<seq<Byte>>, total: nat, maxChars: nat, ghost before: seq<Post>,
                  ghost w: Walk<Post>)
    returns (pieces': seq<seq<Byte>>, total': nat, finished: bool)
    requires Gathered(before, pieces, total, maxChars)
    requires w.items == before + page.items && (w.done <==> page.nextToken.None?)
    requires page.nextToken.Some? ==> page.items != []
    ensures finished ==> Ready(w, pieces', maxChars)
    ensures !finished ==> !w.done && Gathered(w.items, pieces', total', maxChars) && total' > total
  {
    var stopped;
    pieces', total', stopped := GatherPage(before, page.items, pieces, total, maxChars);
    SoFarBounds(before, page.items);
    if stopped < |page.items| {
      ghost var gathered := pieces';
      if |pieces'| == 0 {
        var cut := TruncateUTF8(page.items[stopped].text, maxChars);
        pieces' := [cut];
      }
      NextOverflows(before, page.items, stopped, w, gathered, total', maxChars, pieces');
      return pieces', total', true;
    }
    finished := page.nextToken.None?;
    if finished {
      ReadyAtEnd(w, pieces', total', maxChars);
    }
  }

  /** One turn of the outer loop. */
  method NextPage(db: nat -> seq<Post>, fetched: nat, f: ListFilter, pieces: seq<seq<Byte>>, total: nat, maxChars: nat)
    returns (pieces': seq<seq<Byte>>, total': nat, token: Option<Token>, finished: bool)
    requires f.pageSize >= 1 && Continuing(QueryOf(f), db, fetched, f, pieces, total, maxChars)
    ensures finished ==> Finished(QueryOf(f), db, fetched + 1, pieces', maxChars)
    ensures !finished ==>
      Continuing(QueryOf(f), db, fetched + 1, f.(token := token), pieces', total', maxChars) && total' > total
  {
    var page := List(db(fetched), f);
    PageIsStep(QueryOf(f), db, fetched, f, page);
    token := page.nextToken;
    pieces', total', finished := TakePage(page, pieces, total, maxChars,
                                          Follow(QueryOf(f), db, fetched).items, Follow(QueryOf(f), db, fetched + 1));
  }

  /**
    collectWindowPosts.  Fetch i of the listing sees the posts table as db(i).  The
    result is the rendering of the posts the walk returned, and the loop stops only
    at the end of the walk or once the budget is exceeded.
   */
  method CollectWindowPosts(db: nat -> seq<Post>, source: SourceId, start: Time, end: Time, maxChars: nat,
                            pageSize: nat)
    returns (out: seq<Byte>, fetched: nat)
    requires pageSize >= 1
    ensures var w := Follow(WindowQuery(source, start, end, pageSize), db, fetched);
      Rendering(w.items, maxChars, out) && (w.done || Size(w.items) > maxChars)
  {
    var newestFirst: seq<seq<Byte>> := [];
    var total: nat, token: Option<Token>, finished := 0, None, false;
    fetched := 0;
    ghost var q := WindowQuery(source, start, end, pageSize);
    while !finished
      invariant finished ==> Finished(q, db, fetched, newestFirst, maxChars)
      invariant !finished ==>
        Continuing(q, db, fetched, WindowFilter(source, start, end, pageSize, token), newestFirst, total, maxChars)
      decreases !finished, maxChars - total
    {
      var f := WindowFilter(source, start, end, pageSize, token);
      newestFirst, total, token, finished := NextPage(db, fetched, f, newestFirst, total, maxChars);
      fetched := fetched + 1;
    }
    out := Concatenate(newestFirst);
  }

  /** The posts a stopped loop has seen render like the whole window. */
  lemma SeenRendersLikeAll(seen: seq<Post>, all: seq<Post>, budget: nat, out: seq<Byte>)
    requires seen <= all && Rendering(seen, budget, out) && (seen == all || Size(seen) > budget)
    ensures Rendering(all, budget, out)
  {
    if seen != all {
      var k: nat :| RenderedBy(seen, budget, k, out);
      SeenRendersBy(seen, all, budget, k, out);
    }
  }

  lemma SeenRendersBy(seen: seq<Post>, all: seq<Post>, budget: nat, k: nat, out: seq<Byte>)
    requires seen <= all && Size(seen) > budget && RenderedBy(seen, budget, k, out)
    ensures RenderedBy(all, budget, k, out)
  {
    assert seen[..|seen|] == seen;
    OverflowIsFinal(seen, all, budget, k);
    assert all[..k] == seen[..k];
  }

  /**
    On an unchanged posts table the loop gathers exactly the rendering of the window,
    whatever the page size.
   */
  lemma CollectIsRendering(table: seq<Post>, db: nat -> seq<Post>, source: SourceId, start: Time, end: Time,
                           maxChars: nat, pageSize: nat, fetched: nat, out: seq<Byte>)
    requires pageSize >= 1 && UniqueIds(table) && Frozen(db, table)
    requires var w := Follow(WindowQuery(source, start, end, pageSize), db, fetched);
      Rendering(w.items, maxChars, out) && (w.done || Size(w.items) > maxChars)
    ensures Rendering(NewestFirst(table, source, start, end), maxChars, out)
  {
    var q := WindowQuery(source, start, end, pageSize);
    var all := Remaining(q, table, None);
    UniqueIdsKeyed(ListFilter(WindowScope(source, start, end), pageSize, None, ByCreatedAt, Desc), table);
    RemainingFacts(q, table, None);
    SortedSplits(q, all, fetched);
    WalkStatic(q, db, table, all, fetched);
    SeenRendersLikeAll(Follow(q, db, fetched).items, all, maxChars, out);
    SameWindow(table, source, start, end, pageSize);
  }

  /** The loop can end with this text: what CollectWindowPosts ensures of its result. */
  ghost predicate CollectsTo(db: nat -> seq<Post>, source: SourceId, start: Time, end: Time, maxChars: nat,
                             pageSize: nat, out: seq<Byte>)
  {
    pageSize >= 1 && exists fetched: nat :: CollectedIn(fetched, db, source, start, end, maxChars, pageSize, out)
  }

  ghost predicate CollectedIn(fetched: nat, db: nat -> seq<Post>, source: SourceId, start: Time, end: Time,
                              maxChars: nat, pageSize: nat, out: seq<Byte>)
    requires pageSize >= 1
  {
    var w := Follow(WindowQuery(source, start, end, pageSize), db, fetched);
    Rendering(w.items, maxChars, out) && (w.done || Size(w.items) > maxChars)
  }

  /** Two runs of the loop over the same posts agree, whatever page sizes they use. */
  lemma PageSizeIrrelevant(table: seq<Post>, db: nat -> seq<Post>, source: SourceId, start: Time, end: Time,
                           maxChars: nat, sizeA: nat, a: seq<Byte>, sizeB: nat, b: seq<Byte>)
    requires UniqueIds(table) && Frozen(db, table)
    requires CollectsTo(db, source, start, end, maxChars, sizeA, a)
    requires CollectsTo(db, source, start, end, maxChars, sizeB, b)
    ensures a == b
  {
    var n: nat :| CollectedIn(n, db, source, start, end, maxChars, sizeA, a);
    var m: nat :| CollectedIn(m, db, source, start, end, maxChars, sizeB, b);
    CollectIsRendering(table, db, source, start, end, maxChars, sizeA, n, a);
    CollectIsRendering(table, db, source, start, end, maxChars, sizeB, m, b);
    RenderingUnique(NewestFirst(table, source, start, end), maxChars, a, b);
  }

  lemma SameWindow(table: seq<Post>, source: SourceId, start: Time, end: Time, pageSize: nat)
    ensures Remaining(WindowQuery(source, start, end, pageSize), table, None) == NewestFirst(table, source, start, end)
  {
    SameRemaining(WindowQuery(source, start, end, pageSize), WindowQuery(source, start, end, 1), table, None);
  }

  /** NewestFirst is what it says: the posts of the window, strictly by (created_at, id) descending. */
  lemma NewestFirstFacts(table: seq<Post>, source: SourceId, start: Time, end: Time)
    requires UniqueIds(table)
    ensures var posts := NewestFirst(table, source, start, end);
      && (forall p :: p in posts <==> p in table && p.sourceId == source && start <= p.createdAt < end)
      && (forall i, j :: 0 <= i < j < |posts| ==>
            || posts[i].createdAt > posts[j].createdAt
            || (posts[i].createdAt == posts[j].createdAt && posts[i].id > posts[j].id))
  {
    var q := WindowQuery(source, start, end, 1);
    UniqueIdsKeyed(ListFilter(WindowScope(source, start, end), 1, None, ByCreatedAt, Desc), table);
    RemainingFacts(q, table, None);
    var posts := NewestFirst(table, source, start, end);
    forall i, j | 0 <= i < j < |posts|
      ensures
        || posts[i].createdAt > posts[j].createdAt
        || (posts[i].createdAt == posts[j].createdAt && posts[i].id > posts[j].id)
    {
      assert Before(q.ord(posts[i]), q.ord(posts[j]));
    }
  }

  /** An empty result means an empty window, unless the newest post's first character exceeds the budget. */
  lemma EmptyIff(posts: seq<Post>, budget: nat, out: seq<Byte>)
    requires Rendering(posts, budget, out)
    requires forall p :: p in posts ==> p.text != [] && Valid(p.text)
    ensures out == [] <==> posts == [] || FirstLen(posts[0].text) > budget
  {
    var k: nat :| RenderedBy(posts, budget, k, out);
    if posts != [] {
      assert posts[0] in posts;
      FirstCharacter(posts[0].text, budget);
      if k > 0 {
        FirstPostFits(posts, budget, k);
      }
    }
  }

  /** A cut text is empty exactly if its first character does not fit. */
  lemma FirstCharacter(text: seq<Byte>, budget: nat)
    requires text != [] && Valid(text)
    ensures Truncated(text, budget) == [] <==> FirstLen(text) > budget
  {
    var n, cut := FirstLen(text), Truncated(text, budget);
    FirstLenPrefix(text, n);
    assert text[..n][n..] == [];
    TruncatedIsLongestValid(text, budget, n);
    if cut != [] {
      FirstLenPrefix(text, |cut|);
      assert cut == text[..|cut|];
    }
  }

  lemma FirstPostFits(posts: seq<Post>, budget: nat, k: nat)
    requires 0 < k <= |posts| && Size(posts[..k]) <= budget
    ensures Join(posts[..k]) != [] && |posts[0].text| <= budget
  {
    SizeGrows(posts, 1, k);
    assert posts[..1][..0] == [] && posts[..1][0] == posts[0];
    JoinSize(posts[..k]);
    assert Size(posts[..1]) == |Piece(posts[0])|;
  }

  // ---------------------------------------------------------------- layout

  /** The bytes of the first n posts, two separators' bytes after each. */
  function Bytes(posts: seq<Post>, n: nat): nat
    requires n <= |posts|
  {
    if n == 0 then 0 else Bytes(posts, n - 1) + |posts[n - 1].text| + 2
  }

  /** Text i stands at this offset, with an empty line after it. */
  ghost predicate StandsAt(out: seq<Byte>, text: seq<Byte>, offset: int) {
    0 <= offset && offset + |text| + 2 <= |out| && out[offset..offset + |text| + 2] == text + [10, 10]
  }

  lemma {:induction false} SizeIsBytes(posts: seq<Post>, n: nat)
    requires n <= |posts|
    ensures Size(posts[..n]) == Bytes(posts, n)
  {
    if n > 0 {
      SizeIsBytes(posts, n - 1);
      assert posts[..n][..n - 1] == posts[..n - 1];
    }
  }

  /** In the joined text of the first n posts, post j comes after all that are older and before all that are newer. */
  lemma {:induction false} JoinLayout(posts: seq<Post>, n: nat, j: nat)
    requires j < n <= |posts|
    ensures StandsAt(Join(posts[..n]), posts[j].text, Bytes(posts, n) - Bytes(posts, j + 1))
  {
    var last := posts[n - 1];
    assert posts[..n][..n - 1] == posts[..n - 1];
    JoinSize(posts[..n]);
    JoinSize(posts[..n - 1]);
    SizeIsBytes(posts, n);
    SizeIsBytes(posts, n - 1);
    assert Join(posts[..n]) == Piece(last) + Join(posts[..n - 1]);
    if j < n - 1 {
      JoinLayout(posts, n - 1, j);
      ShiftedStands(Piece(last), Join(posts[..n - 1]), posts[j].text, Bytes(posts, n - 1) - Bytes(posts, j + 1));
    }
  }

  lemma ShiftedStands(front: seq<Byte>, out: seq<Byte>, text: seq<Byte>, offset: int)
    requires StandsAt(out, text, offset)
    ensures StandsAt(front + out, text, |front| + offset)
  {
    assert (front + out)[|front| + offset..|front| + offset + |text| + 2] == out[offset..offset + |text| + 2];
  }

  /**
    What the model reads, byte by byte.  For some k: the newest k posts fit the budget,
    with their separators, and k + 1 do not.  Their texts stand oldest first, an empty
    line after each, and nothing else; or, if not even the newest fits, its front does.
   */
  lemma Layout(posts: seq<Post>, budget: nat, out: seq<Byte>) returns (k: nat)
    requires Rendering(posts, budget, out)
    ensures k <= |posts| && Bytes(posts, k) <= budget && (k < |posts| ==> Bytes(posts, k + 1) > budget)
    ensures k > 0 || posts == [] ==> |out| == Bytes(posts, k)
    ensures k > 0 ==> forall j :: 0 <= j < k ==> StandsAt(out, posts[j].text, Bytes(posts, k) - Bytes(posts, j + 1))
    ensures k == 0 && posts != [] ==> out == Truncated(posts[0].text, budget) && out <= posts[0].text && |out| <= budget
  {
    k :| RenderedBy(posts, budget, k, out);
    FitInBytes(posts, budget, k);
    if k > 0 {
      JoinSize(posts[..k]);
      SizeIsBytes(posts, k);
      forall j | 0 <= j < k ensures StandsAt(out, posts[j].text, Bytes(posts, k) - Bytes(posts, j + 1)) {
        JoinLayout(posts, k, j);
      }
    }
  }

  lemma FitInBytes(posts: seq<Post>, budget: nat, k: nat)
    requires LongestFit(posts, budget, k)
    ensures Bytes(posts, k) <= budget && (k < |posts| ==> Bytes(posts, k + 1) > budget)
  {
    SizeIsBytes(posts, k);
    if k < |posts| {
      SizeIsBytes(posts, k + 1);
    }
  }

  /** The smallest such case: a post of one four-byte character reads as no posts under a budget of three. */
  lemma TinyBudgetReadsAsEmpty()
    ensures var p := Post(1, 1, "a", 0, 0, [0xF0, 0x9F, 0x98, 0x80]); Valid(p.text) && Rendering([p], 3, [])
  {
    var p := Post(1, 1, "a", 0, 0, [0xF0, 0x9F, 0x98, 0x80]);
    assert p.text[4..] == [];
    assert [p][..1] == [p] && [p][..0] == [];
    assert LongestFit([p], 3, 0);
    assert RenderedBy([p], 3, 0, []);
  }
}
