/**
  Turning collected material into posts: each item is one transaction that inserts
  the post and, for a self-contained source, its summary event.
 */
module Ingestion {
  import opened Prelude
  import opened Lease
  import opened LeaseQueue
  import opened Scheduler

  predicate SelfContained(t: SourceType) { !Cumulative(t) }

  /** unicode.IsSpace, the characters strings.TrimSpace removes. */
  predicate IsSpace(c: char) {
    || c == '\t' || c == '\n' || c == '\r' || c == ' '
    || c == '\U{b}' || c == '\U{c}' || c == '\U{85}' || c == '\U{a0}' || c == '\U{1680}'
    || '\U{2000}' <= c <= '\U{200a}'
    || c == '\U{2028}' || c == '\U{2029}' || c == '\U{202f}' || c == '\U{205f}' || c == '\U{3000}'
  }

  /** strings.TrimSpace would leave nothing. */
  predicate Blank(text: string) { text == "" || (IsSpace(text[0]) && Blank(text[1..])) }

  /** What an item says; publishedAt is None for the zero time. */
  datatype Content = Content(
    publishedAt: Option<Time>,
    author: Option<string>,
    text: string,
    metadata: map<string, string>)

  datatype Item = Item(externalId: string, content: Content)

  /** The natural key of a post. */
  datatype NaturalKey = NaturalKey(sourceId: SourceId, externalId: string)

  datatype PostRow = PostRow(id: PostId, content: Content, createdAt: Time)

  type Posts = map<NaturalKey, PostRow>

  datatype Error = InvalidArgument | SourceNotFound | PostSourceNotFound | Database

  /** What befalls one Create: nothing, a rival deleting the source before the insert, or a failed transaction. */
  datatype Fate = Quiet | SourceDeleted | DatabaseDown

  ghost predicate AllQuiet(fates: nat -> Fate) { forall i :: fates(i).Quiet? }

  predicate ValidItem(x: Item) {
    x.externalId != "" && !Blank(x.content.text) && x.content.publishedAt.Some?
  }

  /** The first n items are all valid. */
  predicate ValidUpTo(xs: seq<Item>, n: nat)
    requires n <= |xs|
  {
    n == 0 || (ValidUpTo(xs, n - 1) && ValidItem(xs[n - 1]))
  }

  lemma ValidNext(xs: seq<Item>, n: nat)
    requires n < |xs| && ValidUpTo(xs, n) && ValidItem(xs[n])
    ensures ValidUpTo(xs, n + 1)
  {
  }

  /** The first n items, without those that carry no text. */
  function TextItems(items: seq<Item>, n: nat): (out: seq<Item>)
    requires n <= |items|
  {
    if n == 0 then []
    else TextItems(items, n - 1) + if Blank(items[n - 1].content.text) then [] else [items[n - 1]]
  }

  function Texts(items: seq<Item>): seq<Item> { TextItems(items, |items|) }

  lemma {:induction false} BlankIff(text: string)
    ensures Blank(text) <==> forall i :: 0 <= i < |text| ==> IsSpace(text[i])
  {
    if text != "" {
      BlankIff(text[1..]);
      assert Blank(text) ==> forall i :: 0 < i < |text| ==> text[i] == text[1..][i - 1];
      assert forall i :: 0 <= i < |text| - 1 ==> text[1..][i] == text[i + 1];
    }
  }

  /** The characters with the Unicode property White_Space. */
  const WHITE_SPACE: set<char> := {
    '\U{9}', '\U{a}', '\U{b}', '\U{c}', '\U{d}', '\U{20}', '\U{85}', '\U{a0}', '\U{1680}', '\U{2000}',
    '\U{2001}', '\U{2002}', '\U{2003}', '\U{2004}', '\U{2005}', '\U{2006}', '\U{2007}', '\U{2008}', '\U{2009}',
    '\U{200a}', '\U{2028}', '\U{2029}', '\U{202f}', '\U{205f}', '\U{3000}'
  }

  lemma SpacesAreWhiteSpace(c: char)
    ensures IsSpace(c) <==> c in WHITE_SPACE
  {
  }

  /** Filtering two lists one after the other is filtering them together: order and repetitions stay. */
  lemma {:induction false} TextsOfBoth(a: seq<Item>, b: seq<Item>)
    ensures Texts(a + b) == Texts(a) + Texts(b)
  {
    if b == [] {
      assert a + b == a;
    } else {
      var n := |b| - 1;
      TextsOfBoth(a, b[..n]);
      TextItemsOfPrefix(a + b[..n], a + b, |a| + n);
      TextItemsOfPrefix(b[..n], b, n);
      assert (a + b)[|a| + n] == b[n];
    }
  }

  lemma {:induction false} TextItemsOfPrefix(items: seq<Item>, longer: seq<Item>, n: nat)
    requires n <= |items| && items[..n] <= longer
    ensures TextItems(items, n) == TextItems(longer, n)
  {
    if n > 0 {
      assert items[..n - 1] == items[..n][..n - 1] && longer[n - 1] == items[..n][n - 1];
      TextItemsOfPrefix(items, longer, n - 1);
    }
  }

  lemma TextsOfOne(x: Item)
    ensures Texts([x]) == if forall i :: 0 <= i < |x.content.text| ==> IsSpace(x.content.text[i]) then [] else [x]
  {
    BlankIff(x.content.text);
    assert TextItems([x], 0) == [];
  }

  /** What passes the filter has text and was there, and nothing with text is dropped. */
  lemma {:induction false} TextItemsExactly(items: seq<Item>, n: nat, x: Item)
    requires n <= |items|
    ensures x in TextItems(items, n) <==>
      x in items[..n] && exists i :: 0 <= i < |x.content.text| && !IsSpace(x.content.text[i])
  {
    BlankIff(x.content.text);
    if n > 0 {
      TextItemsExactly(items, n - 1, x);
      assert items[..n] == items[..n - 1] + [items[n - 1]];
    }
  }

  method FilterTextItems(items: seq<Item>) returns (out: seq<Item>)
    ensures out == Texts(items)
  {
    out := [];
    for i := 0 to |items|
      invariant out == TextItems(items, i)
    {
      if !Blank(items[i].content.text) {
        out := out + [items[i]];
      }
    }
  }

  // --------------------------------------------------- what a batch amounts to

  type Contents = map<NaturalKey, Content>

  function Put(t: Contents, key: NaturalKey, c: Content): Contents {
    if key in t then t else t[key := c]
  }

  /** The posts after the first n items of a batch, ids and times left out. */
  function Ingested(t: Contents, s: SourceId, xs: seq<Item>, n: nat): Contents
    requires n <= |xs|
  {
    if n == 0 then t else Put(Ingested(t, s, xs, n - 1), NaturalKey(s, xs[n - 1].externalId), xs[n - 1].content)
  }

  /** The first write wins: a stored post keeps its content, a new one takes its first item's. */
  lemma {:induction false} FirstWriteWins(t: Contents, s: SourceId, xs: seq<Item>, n: nat, i: nat)
    requires i < n <= |xs| && forall j :: 0 <= j < i ==> xs[j].externalId != xs[i].externalId
    ensures var key := NaturalKey(s, xs[i].externalId);
      key in Ingested(t, s, xs, n) && Ingested(t, s, xs, n)[key] == if key in t then t[key] else xs[i].content
  {
    if i < n - 1 {
      FirstWriteWins(t, s, xs, n - 1, i);
    } else {
      Untouched(t, s, xs, i, NaturalKey(s, xs[i].externalId));
    }
  }

  lemma {:induction false} Untouched(t: Contents, s: SourceId, xs: seq<Item>, n: nat, key: NaturalKey)
    requires n <= |xs| && forall j :: 0 <= j < n ==> key != NaturalKey(s, xs[j].externalId)
    ensures key in Ingested(t, s, xs, n) <==> key in t
    ensures key in t ==> Ingested(t, s, xs, n)[key] == t[key]
  {
    if n > 0 {
      Untouched(t, s, xs, n - 1, key);
    }
  }

  lemma {:induction false} KeysIngested(t: Contents, s: SourceId, xs: seq<Item>, n: nat, i: nat)
    requires i < n <= |xs|
    ensures NaturalKey(s, xs[i].externalId) in Ingested(t, s, xs, n)
  {
    if i < n - 1 {
      KeysIngested(t, s, xs, n - 1, i);
    }
  }

  /** Running j items again after k of them changes nothing up to k, and continues beyond. */
  lemma {:induction false} RerunAbsorbed(t: Contents, s: SourceId, xs: seq<Item>, k: nat, j: nat)
    requires k <= |xs| && j <= |xs|
    ensures Ingested(Ingested(t, s, xs, k), s, xs, j) == Ingested(t, s, xs, if j <= k then k else j)
  {
    if j > 0 {
      RerunAbsorbed(t, s, xs, k, j - 1);
      if j <= k {
        KeysIngested(t, s, xs, k, j - 1);
      }
    }
  }

  /** The posts of one source. */
  ghost function OfSource(t: Contents, s: SourceId): Contents { map key | key in t && key.sourceId == s :: t[key] }

  lemma {:induction false} IngestedOfSource(t: Contents, s: SourceId, xs: seq<Item>, n: nat)
    requires n <= |xs|
    ensures OfSource(Ingested(t, s, xs, n), s) == Ingested(OfSource(t, s), s, xs, n)
  {
    if n > 0 {
      IngestedOfSource(t, s, xs, n - 1);
    }
  }

  lemma {:induction false} IngestedElsewhere(t: Contents, other: SourceId, xs: seq<Item>, n: nat, s: SourceId)
    requires n <= |xs| && other != s
    ensures OfSource(Ingested(t, other, xs, n), s) == OfSource(t, s)
  {
    if n > 0 {
      IngestedElsewhere(t, other, xs, n - 1, s);
    }
  }

  /** What others do between two attempts at a batch: statements on the outbox, and a batch of another source. */
  datatype Errand = Errand(work: seq<Rival<Subject>>, source: SourceId, items: seq<Item>, fates: nat -> Fate)

  ghost predicate Elsewhere(e: Errand, s: SourceId) {
    e.source != s && forall i :: 0 <= i < |e.work| ==> LeavesPosts(e.work[i].op)
  }

  // ------------------------------------------------------------------ events

  /** The event row asks for a summary of this post. */
  predicate EventFor(rows: Table<Subject>, e: EventId, post: PostId) {
    e in rows && rows[e].subject == SummarizePost(post)
  }

  /** Every event of a post belongs to a stored post of a self-contained source. */
  ghost predicate EventsBelong(posts: Posts, sources: map<SourceId, SourceType>, rows: Table<Subject>) {
    forall e, p :: EventFor(rows, e, p) ==> HasPost(posts, sources, p)
  }

  ghost predicate HasPost(posts: Posts, sources: map<SourceId, SourceType>, p: PostId) {
    exists key :: key in posts && posts[key].id == p && key.sourceId in sources && SelfContained(sources[key.sourceId])
  }

  /** No post has two events, whatever has become of the first. */
  ghost predicate EventsUnique(rows: Table<Subject>) {
    forall e, f, p :: EventFor(rows, e, p) && EventFor(rows, f, p) ==> e == f
  }

  /** Every post of a self-contained source has an event. */
  ghost predicate EventsComplete(posts: Posts, sources: map<SourceId, SourceType>, rows: Table<Subject>)
  {
    forall key {:trigger HasEvent(rows, posts[key].id)} ::
      key in posts && key.sourceId in sources && SelfContained(sources[key.sourceId]) ==> HasEvent(rows, posts[key].id)
  }

  ghost predicate HasEvent(rows: Table<Subject>, p: PostId) { exists e :: EventFor(rows, e, p) }

  /** The two tables hold the same events of posts. */
  ghost predicate SamePostEvents(a: Table<Subject>, b: Table<Subject>) {
    forall e, p :: EventFor(a, e, p) <==> EventFor(b, e, p)
  }

  /** The statement is not an insert of a post's event; only Create runs those. */
  predicate LeavesPosts(op: Op<Subject>) { op.Insert? ==> !op.subject.SummarizePost? }

  /** Workers, reapers, the scheduler and the manual trigger leave the events of posts as they are. */
  lemma {:induction false} WorkKeepsPostEvents(h: History<Subject>, base: nat, n: nat)
    requires base <= n <= |h| && forall i :: base <= i < n ==> LeavesPosts(h[i].op)
    ensures SamePostEvents(At(h, n), At(h, base))
  {
    if base < n {
      WorkKeepsPostEvents(h, base, n - 1);
      assert LeavesPosts(h[n - 1].op);
      StepKeepsPostEvents(At(h, n - 1), h[n - 1].at, h[n - 1].op);
    }
  }

  lemma StepKeepsPostEvents(t: Table<Subject>, at: Time, op: Op<Subject>)
    requires LeavesPosts(op)
    ensures SamePostEvents(Apply(t, at, op), t)
  {
  }

  /** Above every id the steps insert. */
  function Above(steps: seq<Rival<Subject>>, floor: nat): (n: nat)
    ensures n >= floor
    ensures forall i :: 0 <= i < |steps| && steps[i].op.Insert? ==> steps[i].op.id < n
  {
    if steps == [] then floor
    else if steps[0].op.Insert? then Max(steps[0].op.id + 1, Above(steps[1..], floor))
    else Above(steps[1..], floor)
  }

  /** Every row was there before or was inserted since. */
  lemma {:induction false} WorkInserts(h: History<Subject>, base: nat, n: nat, e: EventId)
    requires base <= n <= |h| && e in At(h, n) && e !in At(h, base)
    ensures exists i :: base <= i < n && h[i].op.Insert? && h[i].op.id == e
  {
    if e in At(h, n - 1) {
      WorkInserts(h, base, n - 1, e);
    } else {
      assert h[n - 1].op.Insert? && h[n - 1].op.id == e;
    }
  }

  lemma AfterWork(h: History<Subject>, steps: seq<Rival<Subject>>, now: Time, longer: History<Subject>, floor: nat)
    requires longer == h + Stamped(steps, now) && forall i :: 0 <= i < |steps| ==> LeavesPosts(steps[i].op)
    requires forall e :: e in Replay(h) ==> e < floor
    ensures SamePostEvents(Replay(longer), Replay(h))
    ensures forall e :: e in Replay(longer) ==> e < Above(steps, floor)
  {
    forall i | |h| <= i < |longer| ensures longer[i].op == steps[i - |h|].op && LeavesPosts(longer[i].op) {
      StampedOps(steps, now, i - |h|);
      assert longer[i] == Stamped(steps, now)[i - |h|];
    }
    WorkKeepsPostEvents(longer, |h|, |longer|);
    AtPrefix(h, Stamped(steps, now), |h|);
    forall e | e in Replay(longer) ensures e < Above(steps, floor) {
      if e !in Replay(h) {
        WorkInserts(longer, |h|, |longer|, e);
      }
    }
  }

  lemma EventsAsBefore(posts: Posts, sources: map<SourceId, SourceType>, rows: Table<Subject>,
                       rows': Table<Subject>)
    requires EventsBelong(posts, sources, rows) && EventsUnique(rows) && EventsComplete(posts, sources, rows)
    requires SamePostEvents(rows', rows)
    ensures EventsBelong(posts, sources, rows') && EventsUnique(rows') && EventsComplete(posts, sources, rows')
  {
    forall p | HasEvent(rows, p) ensures HasEvent(rows', p) {
      var e :| EventFor(rows, e, p);
      assert EventFor(rows', e, p);
    }
  }

  /** What one Create reports, if the source is there (here) and has posts (had). */
  function VerdictOf(here: bool, had: bool, x: Item, fate: Fate): Option<Error> {
    if !ValidItem(x) then Some(InvalidArgument)
    else if !here then Some(Error.SourceNotFound)
    else if fate.SourceDeleted? && !had then Some(PostSourceNotFound)
    else if fate.DatabaseDown? then Some(Database)
    else None
  }

  /** Item i is stored if the batch comes to it; after the first, the source has a post and cannot be deleted. */
  predicate Storable(texts: seq<Item>, fates: nat -> Fate, had: bool, i: nat)
    requires i < |texts|
  {
    VerdictOf(true, had || i > 0, texts[i], fates(i)).None?
  }

  ghost predicate AllStorable(texts: seq<Item>, fates: nat -> Fate, had: bool, n: nat) {
    forall i: nat :: i < n && i < |texts| ==> Storable(texts, fates, had, i)
  }

  /** The first item finds its source deleted between the read and the insert. */
  predicate SkipsFirst(texts: seq<Item>, fates: nat -> Fate, had: bool) {
    texts != [] && VerdictOf(true, had, texts[0], fates(0)) == Some(PostSourceNotFound)
  }

  /** Exactly when a batch completes: one item may vanish with its source, but only if it is the whole batch. */
  ghost predicate Completes(texts: seq<Item>, fates: nat -> Fate, here: bool, had: bool) {
    || texts == []
    || (&& here && ValidUpTo(texts, |texts|)
        && if fates(0).SourceDeleted? && !had then |texts| == 1
           else forall i: nat :: i < |texts| ==> !fates(i).DatabaseDown?)
  }

  /** What a batch that does not complete reports. */
  function FailureOf(texts: seq<Item>, fates: nat -> Fate, here: bool, had: bool, done: nat): Option<Error> {
    if !here then if texts == [] then None else VerdictOf(false, had, texts[0], fates(0))
    else if SkipsFirst(texts, fates, had) then
      if |texts| == 1 then None else VerdictOf(false, had, texts[1], fates(1))
    else if done < |texts| then VerdictOf(true, had || done > 0, texts[done], fates(done)) else None
  }

  /** Done is the number of items up to the first that is not stored; the result is what the batch reports. */
  ghost predicate CourseOf(texts: seq<Item>, fates: nat -> Fate, here: bool, had: bool, r: Result<(), Error>, done: nat)
  {
    && (done > 0 ==> here) && AllStorable(texts, fates, had, done)
    && (done < |texts| ==> !here || !Storable(texts, fates, had, done))
    && (r.Ok? <==> Completes(texts, fates, here, had))
    && (r.Err? ==> Some(r.error) == FailureOf(texts, fates, here, had, done))
  }

  /** Where the loop stands after i turns: all items stored, or the very first skipped. */
  ghost predicate Reached(texts: seq<Item>, fates: nat -> Fate, here: bool, had: bool, i: nat, done: nat, hereNow: bool)
    requires i <= |texts|
  {
    if hereNow != here then here && done == 0 && i == 1 && SkipsFirst(texts, fates, had)
    else
      done == i && ValidUpTo(texts, i) && (i > 0 ==> here) && AllStorable(texts, fates, had, i)
  }

  /** One turn of the loop, from the verdict of one Create. */
  lemma ReachedNext(texts: seq<Item>, fates: nat -> Fate, here: bool, had: bool, i: nat, done: nat, hereNow: bool)
    requires i < |texts| && Reached(texts, fates, here, had, i, done, hereNow)
    ensures var error := VerdictOf(hereNow, had || done > 0, texts[i], fates(i));
      && (error.None? ==> hereNow && Reached(texts, fates, here, had, i + 1, i + 1, true))
      && (error == Some(PostSourceNotFound) ==>
            i == 0 && SkipsFirst(texts, fates, had) && Reached(texts, fates, here, had, i + 1, done, false))
      && (error.Some? && error.value != PostSourceNotFound ==>
            CourseOf(texts, fates, here, had, Err(error.value), done))
  {
    var error := VerdictOf(hereNow, had || done > 0, texts[i], fates(i));
    assert i > 0 && done > 0 ==> Storable(texts, fates, had, 0);
    if error.Some? && error.value != PostSourceNotFound && ValidUpTo(texts, |texts|) {
      ValidAt(texts, |texts|, i);
    }
  }

  lemma {:induction false} ValidAt(texts: seq<Item>, n: nat, i: nat)
    requires i < n <= |texts| && ValidUpTo(texts, n)
    ensures ValidItem(texts[i])
  {
    if i < n - 1 {
      ValidAt(texts, n - 1, i);
    }
  }

  lemma ReachedEnd(texts: seq<Item>, fates: nat -> Fate, here: bool, had: bool, done: nat, hereNow: bool)
    requires Reached(texts, fates, here, had, |texts|, done, hereNow)
    ensures CourseOf(texts, fates, here, had, Ok(()), done)
  {
    assert ValidUpTo(texts, 0);
    forall i: nat | i < |texts| && hereNow == here ensures !fates(i).DatabaseDown? {
      assert Storable(texts, fates, had, i);
    }
    if texts != [] && hereNow == here {
      assert Storable(texts, fates, had, 0);
    }
  }

  /** A batch that completes and keeps its source has stored every item. */
  lemma CompletedAll(texts: seq<Item>, fates: nat -> Fate, here: bool, had: bool, done: nat)
    requires CourseOf(texts, fates, here, had, Ok(()), done) && done <= |texts|
    requires here && !SkipsFirst(texts, fates, had)
    ensures done == |texts|
  {
    if done < |texts| {
      ValidAt(texts, |texts|, done);
      ValidAt(texts, |texts|, 0);
    }
  }

  // ------------------------------------------------------------------- store

  /** The posts without their ids and times. */
  ghost function ContentsOf(posts: Posts): Contents {
    map key | key in posts :: posts[key].content
  }

  lemma ContentsAfter(posts: Posts, key: NaturalKey, row: PostRow)
    ensures ContentsOf(posts[key := row]) == ContentsOf(posts)[key := row.content]
  {
  }

  /** Posts refer to sources that exist, ids are unique, and the events are the right ones. */
  ghost predicate Consistent(posts: Posts, sources: map<SourceId, SourceType>, rows: Table<Subject>,
                             nextId: nat)
  {
    && (forall key :: key in posts ==> key.sourceId in sources && posts[key].id < nextId)
    && (forall a, b {:trigger posts[a].id, posts[b].id} ::
          a in posts && b in posts && posts[a].id == posts[b].id ==> a == b)
    && (forall e :: e in rows ==> e < nextId)
    && EventsBelong(posts, sources, rows) && EventsUnique(rows) && EventsComplete(posts, sources, rows)
  }

  class Store {
    var sources: map<SourceId, SourceType>
    var posts: Posts
    const queue: Queue<Subject>
    /** uuid.NewV7 never repeats: every id in the store is below this one. */
    var nextId: nat

    ghost predicate Valid()
      reads this, queue
    {
      queue.Valid() && Consistent(posts, sources, queue.rows, nextId)
    }

    constructor (sources: map<SourceId, SourceType>)
      ensures Valid() && fresh(queue) && this.sources == sources && posts == map[]
    {
      this.sources, posts, nextId := sources, map[], 0;
      queue := new Queue<Subject>();
    }

    ghost function Erased(): Contents
      reads this`posts
    {
      ContentsOf(posts)
    }

    predicate HasPosts(s: SourceId)
      reads this`posts
    {
      exists key :: key in posts && key.sourceId == s
    }

    /** Deleting a source is refused while a post refers to it. */
    method DeleteSource(s: SourceId)
      requires Valid()
      modifies this`sources
      ensures Valid()
      ensures sources == if old(HasPosts(s)) then old(sources) else old(sources) - {s}
    {
      if !HasPosts(s) {
        sources := sources - {s};
      }
    }

    /** What one Create reports, and why. */
    lemma VerdictMeans(s: SourceId, x: Item, fate: Fate)
      ensures Verdict(s, x, fate) == Some(InvalidArgument) <==>
        || x.externalId == "" || x.content.publishedAt.None?
        || forall i :: 0 <= i < |x.content.text| ==> IsSpace(x.content.text[i])
      ensures Verdict(s, x, fate) != Some(InvalidArgument) ==>
        && (Verdict(s, x, fate) == Some(Error.SourceNotFound) <==> s !in sources)
        && (Verdict(s, x, fate) == Some(PostSourceNotFound) <==>
              s in sources && fate.SourceDeleted? && forall key :: key in posts ==> key.sourceId != s)
        && (Verdict(s, x, fate) == Some(Database) <==> s in sources && fate.DatabaseDown?)
    {
      BlankIff(x.content.text);
    }

    /** What one Create reports. */
    ghost function Verdict(s: SourceId, x: Item, fate: Fate): Option<Error>
      reads this
    {
      VerdictOf(s in sources, HasPosts(s), x, fate)
    }

    /**
      Create: validate, read the source, then one transaction that inserts the post
      unless it exists and, if it did not and its source is self-contained, its event.
     */
    method Create(s: SourceId, x: Item, fate: Fate, now: Time) returns (r: Result<PostRow, Error>)
      requires Valid() && NotBefore(queue.history, now)
      modifies this, queue
      ensures Valid() && NotBefore(queue.history, now)
      ensures r.Err? <==> old(Verdict(s, x, fate)).Some?
      ensures r.Err? ==>
        Some(r.error) == old(Verdict(s, x, fate)) && posts == old(posts) && queue.rows == old(queue.rows)
      ensures r.Ok? ==> NaturalKey(s, x.externalId) in posts && r.value == posts[NaturalKey(s, x.externalId)]
      ensures r.Ok? ==>
        Stored(old(posts), old(queue.rows), posts, queue.rows, NaturalKey(s, x.externalId),
               SelfContained(old(sources)[s]), now)
      ensures r.Ok? ==> Erased() == Put(old(Erased()), NaturalKey(s, x.externalId), x.content)
      ensures sources == if ValidItem(x) && s in old(sources) && fate.SourceDeleted? && !old(HasPosts(s))
                         then old(sources) - {s} else old(sources)
    {
      if !ValidItem(x) {
        return Err(InvalidArgument);
      }
      if s !in sources {
        return Err(Error.SourceNotFound);
      }
      var kind := sources[s];
      if fate.SourceDeleted? {
        DeleteSource(s);
      }
      if fate.DatabaseDown? {
        return Err(Database);
      }
      r := SaveWithEvent(s, x, kind, now);
    }

    method SaveEvent(event: EventId, p: PostId, now: Time)
      requires queue.Valid() && NotBefore(queue.history, now)
      requires event !in queue.rows && !HasActive(queue.rows, SummarizePost(p))
      modifies queue
      ensures queue.Valid() && NotBefore(queue.history, now)
      ensures queue.rows == old(queue.rows)[event := NewRow(SummarizePost(p), now)]
    {
      var saved := queue.Save(event, SummarizePost(p), now, now);
    }

    /** One pending event of the post was added if wanted, and nothing else changed. */
    static ghost predicate EventAdded(before: Table<Subject>, after: Table<Subject>, wanted: bool, post: PostId,
                                      now: Time)
    {
      if wanted then
        exists e :: EventFor(after, e, post) && e !in before && after == before[e := NewRow(SummarizePost(post), now)]
      else after == before
    }

    /** The post was there and nothing changed, or it was added now, with its event if its source wants one. */
    static ghost predicate Stored(posts: Posts, rows: Table<Subject>, posts': Posts,
                                  rows': Table<Subject>, key: NaturalKey, wanted: bool, now: Time)
    {
      && key in posts'
      && if key in posts then posts' == posts && rows' == rows
         else
           && posts' == posts[key := posts'[key]]
           && posts'[key].createdAt == now
           && EventAdded(rows, rows', wanted, posts'[key].id, now)
    }

    /** The two inserts for a post that does not exist yet. */
    method InsertPost(key: NaturalKey, content: Content, kind: SourceType, now: Time) returns (row: PostRow)
      requires Valid() && NotBefore(queue.history, now)
      requires key !in posts && key.sourceId in sources && sources[key.sourceId] == kind
      modifies this`posts, this`nextId, queue
      ensures Valid() && NotBefore(queue.history, now)
      ensures posts == old(posts)[key := row] && row.content == content && row.createdAt == now
      ensures EventAdded(old(queue.rows), queue.rows, SelfContained(kind), row.id, now)
    {
      row := PostRow(nextId, content, now);
      var event := nextId + 1;
      nextId := nextId + 2;
      ghost var rows := queue.rows;
      if SelfContained(kind) {
        NoEventYet(posts, sources, rows, row.id);
        SaveEvent(event, row.id, now);
      }
      EventsAfter(posts, sources, rows, key, row, event, queue.rows);
      assert SelfContained(kind) ==> EventFor(queue.rows, event, row.id);
      posts := posts[key := row];
    }

    /** The transaction of Create. */
    method SaveWithEvent(s: SourceId, x: Item, kind: SourceType, now: Time) returns (r: Result<PostRow, Error>)
      requires Valid() && NotBefore(queue.history, now) && ValidItem(x)
      requires s in sources ==> sources[s] == kind
      modifies this`posts, this`nextId, queue
      ensures Valid() && NotBefore(queue.history, now)
      ensures r.Err? <==> s !in sources
      ensures r.Err? ==> r == Err(PostSourceNotFound) && posts == old(posts) && queue.rows == old(queue.rows)
      ensures r.Ok? ==> NaturalKey(s, x.externalId) in posts && r.value == posts[NaturalKey(s, x.externalId)]
      ensures r.Ok? ==>
        Stored(old(posts), old(queue.rows), posts, queue.rows, NaturalKey(s, x.externalId), SelfContained(kind), now)
      ensures r.Ok? ==> Erased() == Put(old(Erased()), NaturalKey(s, x.externalId), x.content)
    {
      var key := NaturalKey(s, x.externalId);
      if key in posts {
        return Ok(posts[key]);
      }
      if s !in sources {
        return Err(PostSourceNotFound);
      }
      var row := InsertPost(key, x.content, kind, now);
      ContentsAfter(old(posts), key, row);
      r := Ok(row);
    }

    /** Nothing already stored was lost or rewritten. */
    twostate predicate Grown()
      reads this`posts
    {
      forall key :: key in old(posts) ==> key in posts && posts[key] == old(posts)[key]
    }

    /** No event that was in the outbox was lost or changed. */
    twostate predicate RowsKept()
      reads queue
    {
      forall e :: e in old(queue.rows) ==> e in queue.rows && queue.rows[e] == old(queue.rows)[e]
    }

    /** Create, as the loop sees it. */
    method CollectOne(s: SourceId, x: Item, fate: Fate, now: Time) returns (error: Option<Error>)
      requires Valid() && NotBefore(queue.history, now)
      modifies this, queue
      ensures Valid() && NotBefore(queue.history, now) && Grown() && RowsKept()
      ensures error == old(Verdict(s, x, fate))
      ensures Erased() == if error.None? then Put(old(Erased()), NaturalKey(s, x.externalId), x.content)
                          else old(Erased())
      ensures HasPosts(s) <==> error.None? || old(HasPosts(s))
      ensures sources == if error == Some(PostSourceNotFound) then old(sources) - {s} else old(sources)
    {
      var created := Create(s, x, fate, now);
      error := if created.Err? then Some(created.error) else None;
    }

    /** Where the loop stands after i turns, from the store as it was before the batch. */
    ghost predicate Standing(s: SourceId, texts: seq<Item>, fates: nat -> Fate, before: Contents,
                             first: map<SourceId, SourceType>, had: bool, i: nat, done: nat)
      requires i <= |texts|
      reads this
    {
      && Reached(texts, fates, s in first, had, i, done, s in sources)
      && done <= i && Erased() == Ingested(before, s, texts, done)
      && (HasPosts(s) <==> had || done > 0)
      && sources == if s in first && i > 0 && SkipsFirst(texts, fates, had) then first - {s} else first
    }

    /** What a batch leaves behind. */
    ghost predicate Finished(s: SourceId, texts: seq<Item>, fates: nat -> Fate, before: Contents,
                             first: map<SourceId, SourceType>, had: bool, r: Result<(), Error>, done: nat)
      reads this
    {
      && CourseOf(texts, fates, s in first, had, r, done)
      && done <= |texts| && Erased() == Ingested(before, s, texts, done)
      && sources == if s in first && SkipsFirst(texts, fates, had) then first - {s} else first
    }

    lemma EndOfLoop(s: SourceId, texts: seq<Item>, fates: nat -> Fate, before: Contents,
                    first: map<SourceId, SourceType>, had: bool, done: nat)
      requires Standing(s, texts, fates, before, first, had, |texts|, done)
      ensures Finished(s, texts, fates, before, first, had, Ok(()), done)
    {
      ReachedEnd(texts, fates, s in first, had, done, s in sources);
    }

    /** The loop of CollectItems, over the items that have text. */
    method CollectTexts(s: SourceId, texts: seq<Item>, fates: nat -> Fate, now: Time)
      returns (r: Result<(), Error>, ghost done: nat)
      requires Valid() && NotBefore(queue.history, now)
      modifies this, queue
      ensures Valid() && NotBefore(queue.history, now) && Grown() && RowsKept()
      ensures Finished(s, texts, fates, old(Erased()), old(sources), old(HasPosts(s)), r, done)
    {
      ghost var before, first, had := Erased(), sources, HasPosts(s);
      done := 0;
      for i := 0 to |texts|
        invariant Valid() && NotBefore(queue.history, now) && Grown() && RowsKept()
        invariant Standing(s, texts, fates, before, first, had, i, done)
      {
        var error;
        error, done := CollectNext(s, texts, i, fates, now, before, first, had, done);
        if error.Some? && error.value != PostSourceNotFound {
          return Err(error.value), done;
        }
      }
      EndOfLoop(s, texts, fates, before, first, had, done);
      r := Ok(());
    }

    /** One turn of the loop. */
    method CollectNext(s: SourceId, texts: seq<Item>, i: nat, fates: nat -> Fate, now: Time, ghost before: Contents,
                       ghost first: map<SourceId, SourceType>, ghost had: bool, ghost done: nat)
      returns (error: Option<Error>, ghost done': nat)
      requires Valid() && NotBefore(queue.history, now)
      requires i < |texts| && Standing(s, texts, fates, before, first, had, i, done)
      modifies this, queue
      ensures Valid() && NotBefore(queue.history, now) && Grown() && RowsKept()
      ensures error.None? || error == Some(PostSourceNotFound) ==>
        Standing(s, texts, fates, before, first, had, i + 1, done')
      ensures error.Some? && error.value != PostSourceNotFound ==>
        Finished(s, texts, fates, before, first, had, Err(error.value), done')
    {
      ReachedNext(texts, fates, s in first, had, i, done, s in sources);
      error := CollectOne(s, texts[i], fates(i), now);
      done' := if error.None? then i + 1 else done;
    }

    /**
      CollectItems: one Create per item with text.  A source deleted under the batch
      is skipped over, any other failure ends it.  Done counts the items stored.
     */
    method CollectItems(s: SourceId, items: seq<Item>, fates: nat -> Fate, now: Time)
      returns (r: Result<(), Error>, ghost done: nat)
      requires Valid() && NotBefore(queue.history, now)
      modifies this, queue
      ensures Valid() && NotBefore(queue.history, now) && Grown() && RowsKept()
      ensures Finished(s, Texts(items), fates, old(Erased()), old(sources), old(HasPosts(s)), r, done)
    {
      var texts := FilterTextItems(items);
      r, done := CollectTexts(s, texts, fates, now);
    }

    /** Everyone else takes any number of steps on the outbox; only Create inserts events of posts. */
    method Work(steps: seq<Rival<Subject>>, now: Time)
      requires Valid() && NotBefore(queue.history, now)
      requires forall i :: 0 <= i < |steps| ==> LeavesPosts(steps[i].op)
      modifies this`nextId, queue
      ensures Valid() && queue.history == old(queue.history) + Stamped(steps, now)
      ensures NotBefore(queue.history, now + TotalWait(steps))
    {
      ghost var h, rows := queue.history, queue.rows;
      queue.Interleave(steps, now);
      AfterWork(h, steps, now, queue.history, nextId);
      EventsAsBefore(posts, sources, rows, queue.rows);
      nextId := Above(steps, nextId);
    }

    /**
      The same batch over and over, each attempt cut short wherever fate decides, with
      everyone else at work in between: on the outbox, and collecting other sources.
      Once one attempt completes, the source's posts are those of a single uninterrupted
      run, whatever the earlier attempts got done.
     */
    method CollectAgain(s: SourceId, items: seq<Item>, attempts: seq<nat -> Fate>, between: nat -> Errand, now: Time)
      returns (r: Result<(), Error>, ghost done: nat)
      requires Valid() && NotBefore(queue.history, now) && attempts != []
      requires forall k: nat :: Elsewhere(between(k), s)
      modifies this, queue
      ensures Valid() && Grown()
      ensures done <= |Texts(items)|
      ensures OfSource(Erased(), s) == Ingested(old(OfSource(Erased(), s)), s, Texts(items), done)
      ensures r.Ok? && s in sources ==> done == |Texts(items)|
    {
      ghost var before, texts := OfSource(Erased(), s), Texts(items);
      var clock := now;
      done, r := 0, Err(Database);
      for k := 0 to |attempts|
        invariant Valid() && NotBefore(queue.history, clock) && Grown()
        invariant done <= |texts| && OfSource(Erased(), s) == Ingested(before, s, texts, done)
        invariant r.Ok? && s in sources ==> done == |texts|
      {
        r, done := Attempt(s, items, attempts[k], clock, before, done);
        clock := RunErrand(between(k), clock, s);
      }
    }

    /** One attempt after others that got done items stored. */
    method Attempt(s: SourceId, items: seq<Item>, fates: nat -> Fate, now: Time, ghost before: Contents,
                   ghost done: nat)
      returns (r: Result<(), Error>, ghost done': nat)
      requires Valid() && NotBefore(queue.history, now)
      requires done <= |Texts(items)| && OfSource(Erased(), s) == Ingested(before, s, Texts(items), done)
      modifies this, queue
      ensures Valid() && NotBefore(queue.history, now) && Grown()
      ensures done' <= |Texts(items)| && OfSource(Erased(), s) == Ingested(before, s, Texts(items), done')
      ensures r.Ok? && s in sources ==> done' == |Texts(items)|
    {
      ghost var erased, texts, d := Erased(), Texts(items), 0;
      ghost var first, had := sources, HasPosts(s);
      r, d := CollectItems(s, items, fates, now);
      if r.Ok? && s in sources {
        CompletedAll(texts, fates, s in first, had, d);
      }
      IngestedOfSource(erased, s, texts, d);
      RerunAbsorbed(before, s, texts, done, d);
      done' := if d <= done then done else d;
    }

    /** What others do between two attempts leaves the posts of the source alone. */
    method RunErrand(e: Errand, now: Time, ghost s: SourceId) returns (later: Time)
      requires Valid() && NotBefore(queue.history, now) && Elsewhere(e, s)
      modifies this, queue
      ensures Valid() && NotBefore(queue.history, later) && Grown()
      ensures OfSource(Erased(), s) == old(OfSource(Erased(), s)) && (s in sources <==> s in old(sources))
    {
      ghost var erased := Erased();
      Work(e.work, now);
      later := now + TotalWait(e.work);
      var r;
      ghost var d;
      r, d := CollectItems(e.source, e.items, e.fates, later);
      IngestedElsewhere(erased, e.source, Texts(e.items), d, s);
    }
  }

  /** An id no post has is an id no event is about. */
  lemma NoEventYet(posts: Posts, sources: map<SourceId, SourceType>, rows: Table<Subject>, p: PostId)
    requires EventsBelong(posts, sources, rows) && forall key :: key in posts ==> posts[key].id != p
    ensures !HasActive(rows, SummarizePost(p))
  {
    if HasActive(rows, SummarizePost(p)) {
      var e :| e in rows && rows[e].subject == SummarizePost(p) && Active(rows[e].status);
      assert EventFor(rows, e, p);
    }
  }

  /** A new post and, if its source asks for one, its event keep the three event properties. */
  lemma EventsAfter(posts: Posts, sources: map<SourceId, SourceType>, rows: Table<Subject>,
                    key: NaturalKey, row: PostRow, event: EventId, rows': Table<Subject>)
    requires EventsBelong(posts, sources, rows) && EventsUnique(rows) && EventsComplete(posts, sources, rows)
    requires key !in posts && key.sourceId in sources && event !in rows
    requires forall other :: other in posts ==> posts[other].id != row.id
    requires if SelfContained(sources[key.sourceId])
             then rows' == rows[event := NewRow(SummarizePost(row.id), row.createdAt)] else rows' == rows
    ensures EventsBelong(posts[key := row], sources, rows')
    ensures EventsUnique(rows')
    ensures EventsComplete(posts[key := row], sources, rows')
  {
    var posts' := posts[key := row];
    forall e, p | EventFor(rows', e, p)
      ensures HasPost(posts', sources, p) && (e != event ==> EventFor(rows, e, p) && p != row.id)
    {
      if e != event {
        assert EventFor(rows, e, p) && HasPost(posts, sources, p);
        var k :| k in posts && posts[k].id == p && k.sourceId in sources && SelfContained(sources[k.sourceId]);
        assert posts'[k].id == p;
      } else {
        assert posts'[key].id == p;
      }
    }
    forall k | k in posts' && k.sourceId in sources && SelfContained(sources[k.sourceId])
      ensures HasEvent(rows', posts'[k].id)
    {
      if k == key {
        assert EventFor(rows', event, row.id);
      } else {
        assert HasEvent(rows, posts[k].id);
        var e :| EventFor(rows, e, posts[k].id);
        assert EventFor(rows', e, posts[k].id);
      }
    }
  }
}
