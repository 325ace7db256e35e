/**
  A batch while others create posts, of its own source too, between any two of its
  items: the first write of each key wins, whoever made it.
 */
module SharedIngestion {
  import opened Prelude
  import opened Lease
  import opened LeaseQueue
  import opened Ingestion

  /** One Create that reached the posts table; own if it was the batch's. */
  datatype Write = Write(own: bool, key: NaturalKey, content: Content)

  /** A Create by somebody else. */
  datatype Intrusion = Intrusion(source: SourceId, item: Item, fate: Fate)

  function PutAll(t: Contents, ws: seq<Write>): Contents {
    if ws == [] then t else Put(PutAll(t, ws[..|ws| - 1]), ws[|ws| - 1].key, ws[|ws| - 1].content)
  }

  /** The batch's own writes, in order. */
  function Own(ws: seq<Write>): seq<Write> {
    if ws == [] then [] else Own(ws[..|ws| - 1]) + if ws[|ws| - 1].own then [ws[|ws| - 1]] else []
  }

  /** What the first n items of the batch write. */
  function Batch(s: SourceId, texts: seq<Item>, n: nat): seq<Write>
    requires n <= |texts|
  {
    if n == 0 then []
    else Batch(s, texts, n - 1) + [Write(true, NaturalKey(s, texts[n - 1].externalId), texts[n - 1].content)]
  }

  lemma WriteSnoc(t: Contents, ws: seq<Write>, w: Write)
    ensures PutAll(t, ws + [w]) == Put(PutAll(t, ws), w.key, w.content)
    ensures Own(ws + [w]) == Own(ws) + if w.own then [w] else []
  {
    assert (ws + [w])[..|ws|] == ws;
  }

  /** The first write wins, whoever made it: a stored post keeps its content, a new one has that of its first write. */
  lemma {:induction false} FirstOfAll(t: Contents, ws: seq<Write>, i: nat)
    requires i < |ws| && forall j :: 0 <= j < i ==> ws[j].key != ws[i].key
    ensures var key := ws[i].key;
      key in PutAll(t, ws) && PutAll(t, ws)[key] == if key in t then t[key] else ws[i].content
  {
    var last := |ws| - 1;
    if i < last {
      FirstOfAll(t, ws[..last], i);
    } else {
      NotWritten(t, ws[..last], ws[i].key);
    }
  }

  /** And a key that nobody wrote is as it was. */
  lemma {:induction false} NotWritten(t: Contents, ws: seq<Write>, key: NaturalKey)
    requires forall j :: 0 <= j < |ws| ==> ws[j].key != key
    ensures key in PutAll(t, ws) <==> key in t
    ensures key in t ==> PutAll(t, ws)[key] == t[key]
  {
    if ws != [] {
      NotWritten(t, ws[..|ws| - 1], key);
    }
  }

  /** The posts are the old ones and these writes, of which the batch's own are those of its first done items. */
  ghost predicate Written(store: Store, before: Contents, s: SourceId, texts: seq<Item>, ws: seq<Write>, done: nat)
    reads store
  {
    && done <= |texts| && store.Erased() == PutAll(before, ws) && Own(ws) == Batch(s, texts, done)
  }

  /** One Create, entered in the list of writes if it reached the table. */
  method CreateAmong(store: Store, s: SourceId, x: Item, fate: Fate, now: Time, own: bool, ghost before: Contents,
                     ghost ws: seq<Write>)
    returns (error: Option<Error>, ghost ws': seq<Write>)
    requires store.Valid() && NotBefore(store.queue.history, now) && store.Erased() == PutAll(before, ws)
    modifies store, store.queue
    ensures store.Valid() && NotBefore(store.queue.history, now) && store.Grown() && store.RowsKept()
    ensures error == old(store.Verdict(s, x, fate))
    ensures store.Erased() == PutAll(before, ws')
    ensures Own(ws') == Own(ws) +
      if own && error.None? then [Write(own, NaturalKey(s, x.externalId), x.content)] else []
    ensures store.HasPosts(s) <==> error.None? || old(store.HasPosts(s))
    ensures store.sources == if error == Some(PostSourceNotFound) then old(store.sources) - {s} else old(store.sources)
  {
    var w := Write(own, NaturalKey(s, x.externalId), x.content);
    error := store.CollectOne(s, x, fate, now);
    ws' := if error.None? then ws + [w] else ws;
    WriteSnoc(before, ws, w);
  }

  /** Others create what they like. */
  method Intrude(store: Store, others: seq<Intrusion>, now: Time, ghost before: Contents, ghost ws: seq<Write>)
    returns (ghost ws': seq<Write>)
    requires store.Valid() && NotBefore(store.queue.history, now) && store.Erased() == PutAll(before, ws)
    modifies store, store.queue
    ensures store.Valid() && NotBefore(store.queue.history, now) && store.Grown() && store.RowsKept()
    ensures store.Erased() == PutAll(before, ws') && Own(ws') == Own(ws)
    ensures store.sources.Keys <= old(store.sources).Keys
  {
    ws' := ws;
    for i := 0 to |others|
      invariant store.Valid() && NotBefore(store.queue.history, now) && store.Grown() && store.RowsKept()
      invariant store.Erased() == PutAll(before, ws') && Own(ws') == Own(ws)
      invariant store.sources.Keys <= old(store.sources).Keys
    {
      var x := others[i];
      var error;
      error, ws' := CreateAmong(store, x.source, x.item, x.fate, now, false, before, ws');
    }
  }

  /**
    Where the batch stands: all its items written so far, or the very first skipped
    along with the source, which is so only if something befell a Create of its own.
   */
  predicate Underway(texts: seq<Item>, quiet: bool, i: nat, done: nat, here: bool, had: bool)
    requires i <= |texts|
  {
    && (done == i || (done == 0 && i == 1 && !here))
    && (done > 0 ==> had)
    && (quiet && here ==> done == i && ValidUpTo(texts, i))
  }

  /**
    A batch that completes has written all its items, unless its one item was skipped
    with the source; if nothing befalls its own Creates and its source stays, it
    completes if and only if all items are valid.
   */
  predicate Ends(texts: seq<Item>, quiet: bool, r: Result<(), Error>, done: nat, here: bool) {
    && (r.Ok? ==> done == |texts| || (done == 0 && |texts| == 1 && !here))
    && (r.Err? ==> done < |texts|)
    && (quiet && here ==> (r.Ok? <==> ValidUpTo(texts, |texts|)))
  }

  /** One turn, from the verdict of the batch's own Create. */
  lemma TurnTaken(texts: seq<Item>, quiet: bool, i: nat, done: nat, here: bool, had: bool, fate: Fate,
                  here': bool, had': bool)
    requires i < |texts| && Underway(texts, quiet, i, done, here, had) && (quiet ==> fate.Quiet?)
    requires var error := VerdictOf(here, had, texts[i], fate);
      (here' <==> here && error != Some(PostSourceNotFound)) && (had' <==> had || error.None?)
    ensures var error := VerdictOf(here, had, texts[i], fate);
      && (error.None? ==> done == i && Underway(texts, quiet, i + 1, i + 1, here', had'))
      && (error == Some(PostSourceNotFound) ==> Underway(texts, quiet, i + 1, done, here', had'))
      && (error.Some? && error.value != PostSourceNotFound ==> Ends(texts, quiet, Err(error.value), done, here'))
  {
    if ValidUpTo(texts, |texts|) {
      ValidAt(texts, |texts|, i);
    }
  }

  ghost predicate Standing(store: Store, s: SourceId, texts: seq<Item>, fates: nat -> Fate, i: nat, done: nat)
    requires i <= |texts|
    reads store
  {
    Underway(texts, AllQuiet(fates), i, done, s in store.sources, store.HasPosts(s))
  }

  /** What others create does not unsettle the batch. */
  method OthersFirst(store: Store, others: seq<Intrusion>, now: Time, ghost s: SourceId, ghost texts: seq<Item>,
                     ghost fates: nat -> Fate, ghost i: nat, ghost done: nat, ghost before: Contents,
                     ghost ws: seq<Write>)
    returns (ghost ws': seq<Write>)
    requires store.Valid() && NotBefore(store.queue.history, now) && i <= |texts|
    requires Written(store, before, s, texts, ws, done) && Standing(store, s, texts, fates, i, done)
    modifies store, store.queue
    ensures store.Valid() && NotBefore(store.queue.history, now) && store.Grown() && store.RowsKept()
    ensures Written(store, before, s, texts, ws', done) && Standing(store, s, texts, fates, i, done)
  {
    ghost var posts := store.posts;
    ws' := Intrude(store, others, now, before, ws);
    if key :| key in posts && key.sourceId == s {
      assert key in store.posts;
    }
  }

  /** The batch's next item. */
  method OwnTurn(store: Store, s: SourceId, texts: seq<Item>, i: nat, fates: nat -> Fate, now: Time,
                 ghost before: Contents, ghost ws: seq<Write>, ghost done: nat)
    returns (error: Option<Error>, ghost ws': seq<Write>, ghost done': nat)
    requires store.Valid() && NotBefore(store.queue.history, now) && i < |texts|
    requires Written(store, before, s, texts, ws, done) && Standing(store, s, texts, fates, i, done)
    modifies store, store.queue
    ensures store.Valid() && NotBefore(store.queue.history, now) && store.Grown() && store.RowsKept()
    ensures Written(store, before, s, texts, ws', done')
    ensures error.None? || error == Some(PostSourceNotFound) ==> Standing(store, s, texts, fates, i + 1, done')
    ensures error.Some? && error.value != PostSourceNotFound ==>
      Ends(texts, AllQuiet(fates), Err(error.value), done', s in store.sources)
  {
    ghost var here, had := s in store.sources, store.HasPosts(s);
    error, ws' := CreateAmong(store, s, texts[i], fates(i), now, true, before, ws);
    done' := if error.None? then i + 1 else done;
    TurnTaken(texts, AllQuiet(fates), i, done, here, had, fates(i), s in store.sources, store.HasPosts(s));
  }

  /** One turn of the loop: the others, then the batch. */
  method CollectTurn(store: Store, s: SourceId, texts: seq<Item>, i: nat, fates: nat -> Fate, others: seq<Intrusion>,
                     now: Time, ghost before: Contents, ghost ws: seq<Write>, ghost done: nat)
    returns (error: Option<Error>, ghost ws': seq<Write>, ghost done': nat)
    requires store.Valid() && NotBefore(store.queue.history, now) && i < |texts|
    requires Written(store, before, s, texts, ws, done) && Standing(store, s, texts, fates, i, done)
    modifies store, store.queue
    ensures store.Valid() && NotBefore(store.queue.history, now) && store.Grown() && store.RowsKept()
    ensures Written(store, before, s, texts, ws', done')
    ensures error.None? || error == Some(PostSourceNotFound) ==> Standing(store, s, texts, fates, i + 1, done')
    ensures error.Some? && error.value != PostSourceNotFound ==>
      Ends(texts, AllQuiet(fates), Err(error.value), done', s in store.sources)
  {
    ws' := OthersFirst(store, others, now, s, texts, fates, i, done, before, ws);
    error, ws', done' := OwnTurn(store, s, texts, i, fates, now, before, ws', done);
  }

  /** The loop of CollectItems with others at work before every item. */
  method CollectTextsAmong(store: Store, s: SourceId, texts: seq<Item>, fates: nat -> Fate,
                           others: nat -> seq<Intrusion>, now: Time)
    returns (r: Result<(), Error>, ghost ws: seq<Write>, ghost done: nat)
    requires store.Valid() && NotBefore(store.queue.history, now)
    modifies store, store.queue
    ensures store.Valid() && NotBefore(store.queue.history, now) && store.Grown() && store.RowsKept()
    ensures Written(store, old(store.Erased()), s, texts, ws, done)
    ensures Ends(texts, AllQuiet(fates), r, done, s in store.sources)
  {
    ghost var before := store.Erased();
    ws, done := [], 0;
    for i := 0 to |texts|
      invariant store.Valid() && NotBefore(store.queue.history, now) && store.Grown() && store.RowsKept()
      invariant Written(store, before, s, texts, ws, done) && Standing(store, s, texts, fates, i, done)
    {
      var error;
      error, ws, done := CollectTurn(store, s, texts, i, fates, others(i), now, before, ws, done);
      if error.Some? && error.value != PostSourceNotFound {
        return Err(error.value), ws, done;
      }
    }
    r := Ok(());
  }

  /** CollectItems among others: the posts are those of all writes in their order, the batch's own among them. */
  method CollectAmong(store: Store, s: SourceId, items: seq<Item>, fates: nat -> Fate, others: nat -> seq<Intrusion>,
                      now: Time)
    returns (r: Result<(), Error>, ghost ws: seq<Write>, ghost done: nat)
    requires store.Valid() && NotBefore(store.queue.history, now)
    modifies store, store.queue
    ensures store.Valid() && NotBefore(store.queue.history, now) && store.Grown() && store.RowsKept()
    ensures Written(store, old(store.Erased()), s, Texts(items), ws, done)
    ensures r.Ok? ==> done == |Texts(items)| || (done == 0 && |Texts(items)| == 1 && s !in store.sources)
    ensures r.Err? ==> done < |Texts(items)|
    ensures AllQuiet(fates) && s in store.sources ==> (r.Ok? <==> ValidUpTo(Texts(items), |Texts(items)|))
  {
    var texts := FilterTextItems(items);
    r, ws, done := CollectTextsAmong(store, s, texts, fates, others, now);
  }
}
