/**
  ProcessSourceEvent over the life of one cumulative source: which stretch of time
  each digest covers, and which posts fall between digests.
 */
module DigestWindows {
  import opened Prelude
  import opened Utf8
  import opened Keyset
  import opened PostRepo
  import opened Digest

  const DEFAULT_EVENT_TTL := 86_400_000_000
  const DEFAULT_WINDOW := 259_200_000_000
  const DEFAULT_MAX_CHARS: nat := 50_000

  datatype Summary = Summary(text: seq<Byte>, createdAt: Time)

  datatype Error = EventExpired | NoPosts | SummarizeFailed | Database | Interrupted

  /**
    What goes wrong in one execution: reading the last digest, reading posts or saving
    the digest fails, or the execution is cancelled before it saves.
   */
  datatype Fault = LastUnread | PostsUnread | NotSaved | Cancelled

  /** What the execution then reports, whatever there was to summarize. */
  function Broken(fault: Option<Fault>): Option<Error> {
    match fault
    case Some(LastUnread) => Some(Database)
    case Some(PostsUnread) => Some(Database)
    case Some(Cancelled) => Some(Interrupted)
    case _ => None
  }

  datatype Config = Config(eventTtl: Duration, maxWindow: Duration, maxInputChars: int)

  function EventTtl(c: Config): (d: Duration)
    ensures if c.eventTtl > 0 then d == c.eventTtl else d == 24 * 3_600_000_000
  {
    if c.eventTtl <= 0 then DEFAULT_EVENT_TTL else c.eventTtl
  }

  function MaxWindow(c: Config): (d: Duration)
    ensures if c.maxWindow > 0 then d == c.maxWindow else d == 72 * 3_600_000_000
  {
    if c.maxWindow <= 0 then DEFAULT_WINDOW else c.maxWindow
  }

  function MaxChars(c: Config): (n: nat)
    ensures n > 0 && if c.maxInputChars > 0 then n == c.maxInputChars else n == 50_000
  {
    if c.maxInputChars <= 0 then DEFAULT_MAX_CHARS else c.maxInputChars
  }

  /**
    What a saved digest covered: posts created in [start, end).  Its execution had read
    the first seen digests when it chose start; saved is the clock when it saved.
   */
  datatype Window = Window(start: Time, end: Time, saved: Time, seen: nat)

  predicate Covers(w: Window, t: Time) { w.start <= t < w.end }

  /** The end of the oldest stretch a digest at this instant may still reach, or of the last digest if later. */
  function WindowStart(last: Option<Time>, now: Time, maxWindow: Duration): Time {
    if last.Some? && last.value > now - maxWindow then last.value else now - maxWindow
  }

  /** The greatest save time among the first n digests. */
  function Latest(ws: seq<Window>, n: nat): Option<Time>
    requires n <= |ws|
  {
    if n == 0 then None
    else
      var before := Latest(ws, n - 1);
      if before.Some? && before.value > ws[n - 1].saved then before else Some(ws[n - 1].saved)
  }

  lemma {:induction false} LatestIsGreatest(ws: seq<Window>, n: nat)
    requires n <= |ws|
    ensures Latest(ws, n).None? <==> n == 0
    ensures forall i :: 0 <= i < n ==> ws[i].saved <= Latest(ws, n).value
    ensures n > 0 ==> exists i :: 0 <= i < n && ws[i].saved == Latest(ws, n).value
  {
    if n > 0 {
      LatestIsGreatest(ws, n - 1);
    }
  }

  lemma {:induction false} LatestOfPrefix(ws: seq<Window>, longer: seq<Window>, n: nat)
    requires n <= |ws| && ws <= longer
    ensures Latest(longer, n) == Latest(ws, n)
  {
    if n > 0 {
      LatestOfPrefix(ws, longer, n - 1);
    }
  }

  /** The window starts where the digests its execution had read left off. */
  predicate InPlace(ws: seq<Window>, maxWindow: Duration, i: nat)
    requires i < |ws|
  {
    ws[i].seen <= i && ws[i].start == WindowStart(Latest(ws, ws[i].seen), ws[i].end, maxWindow)
  }

  /** The windows of one source's digests, in the order they were saved. */
  ghost predicate Chained(ws: seq<Window>, maxWindow: Duration) {
    forall i :: 0 <= i < |ws| ==> InPlace(ws, maxWindow, i)
  }

  /** What is made of a digest's input. */
  function ResultOf(input: seq<Byte>, llm: seq<Byte> -> Option<seq<Byte>>): Result<seq<Byte>, Error> {
    if input == [] then Err(NoPosts) else if llm(input).None? then Err(SummarizeFailed) else Ok(llm(input).value)
  }

  /** The result is what becomes of the rendering of these posts. */
  ghost predicate Digested(posts: seq<Post>, budget: nat, llm: seq<Byte> -> Option<seq<Byte>>,
                           r: Result<seq<Byte>, Error>)
  {
    exists input :: Rendering(posts, budget, input) && r == ResultOf(input, llm)
  }

  /** Gather the window's posts and ask the model. */
  method MakeDigest(db: nat -> seq<Post>, source: SourceId, start: Time, end: Time, budget: nat,
                    llm: seq<Byte> -> Option<seq<Byte>>)
    returns (r: Result<seq<Byte>, Error>)
    ensures r != Err(EventExpired) && r != Err(Database) && r != Err(Interrupted)
    ensures forall table :: Frozen(db, table) && UniqueIds(table) ==>
      Digested(NewestFirst(table, source, start, end), budget, llm, r)
  {
    var input, fetched := CollectWindowPosts(db, source, start, end, budget, DEFAULT_LIST_PAGE_SIZE);
    forall table | Frozen(db, table) && UniqueIds(table)
      ensures Rendering(NewestFirst(table, source, start, end), budget, input)
    {
      CollectIsRendering(table, db, source, start, end, budget, DEFAULT_LIST_PAGE_SIZE, fetched, input);
    }
    r := ResultOf(input, llm);
  }

  /** The same with the outcome lost if saving it fails. */
  ghost predicate DigestedUnless(fault: Option<Fault>, posts: seq<Post>, budget: nat,
                                 llm: seq<Byte> -> Option<seq<Byte>>, r: Result<seq<Byte>, Error>)
  {
    exists made: Result<seq<Byte>, Error> ::
      Digested(posts, budget, llm, made) && r == if made.Ok? && fault == Some(NotSaved) then Err(Database) else made
  }

  /**
    What an execution reports, from the one rendering of its posts: nothing to summarize
    if that is empty; else the model's answer to it, if it gives one and that is saved.
   */
  lemma ReportMeans(fault: Option<Fault>, posts: seq<Post>, budget: nat, llm: seq<Byte> -> Option<seq<Byte>>,
                    r: Result<seq<Byte>, Error>, input: seq<Byte>)
    requires DigestedUnless(fault, posts, budget, llm, r) && Rendering(posts, budget, input)
    ensures r == Err(NoPosts) <==> input == []
    ensures r == Err(SummarizeFailed) <==> input != [] && llm(input).None?
    ensures r == Err(Database) <==> input != [] && llm(input).Some? && fault == Some(NotSaved)
    ensures r.Ok? <==> input != [] && llm(input).Some? && fault != Some(NotSaved)
    ensures r.Ok? ==> llm(input) == Some(r.value)
  {
    var made: Result<seq<Byte>, Error> :|
      Digested(posts, budget, llm, made) && r == if made.Ok? && fault == Some(NotSaved) then Err(Database) else made;
    var same :| Rendering(posts, budget, same) && made == ResultOf(same, llm);
    RenderingUnique(posts, budget, input, same);
  }

  class CumulativeSource {
    const source: SourceId
    const config: Config
    var summaries: seq<Summary>
    ghost var windows: seq<Window>

    ghost predicate Valid()
      reads this
    {
      Recorded(summaries, windows) && Chained(windows, MaxWindow(config))
    }

    constructor (source: SourceId, config: Config)
      ensures Valid() && summaries == [] && this.source == source && this.config == config
    {
      this.source := source;
      this.config := config;
      summaries := [];
      windows := [];
    }

    /** GetLastBySource: the row with the greatest created_at. */
    method GetLastBySource() returns (last: Option<Summary>)
      ensures last.None? <==> summaries == []
      ensures last.Some? ==>
        last.value in summaries && forall s :: s in summaries ==> s.createdAt <= last.value.createdAt
    {
      last := None;
      for i := 0 to |summaries|
        invariant last.None? <==> i == 0
        invariant last.Some? ==> last.value in summaries
        invariant last.Some? ==> forall j :: 0 <= j < i ==> summaries[j].createdAt <= last.value.createdAt
      {
        if last.None? || summaries[i].createdAt > last.value.createdAt {
          last := Some(summaries[i]);
        }
      }
    }

    /**
      ProcessSourceEvent.  The clock is read three times: for the event's age, for the
      window's end, and, after the model has answered, for the digest's created_at.
      Overlapping executions may save their digests in between (meanwhile).
     */
    method ProcessSourceEvent(eventCreatedAt: Time, checkedAt: Time, now: Time, savedAt: Time,
                              db: nat -> seq<Post>, llm: seq<Byte> -> Option<seq<Byte>>, fault: Option<Fault>,
                              meanwhile: seq<Summary>, ghost others: seq<Window>)
      returns (r: Result<seq<Byte>, Error>)
      requires Valid() && Recorded(meanwhile, others) && Chained(windows + others, MaxWindow(config))
      modifies this
      ensures Valid()
      ensures r == Err(EventExpired) <==> checkedAt - eventCreatedAt > EventTtl(config)
      ensures r == Err(EventExpired) ==> summaries == old(summaries) && windows == old(windows)
      ensures r.Err? && r != Err(EventExpired) ==>
        summaries == old(summaries) + meanwhile && windows == old(windows) + others
      ensures r.Ok? ==> summaries == old(summaries) + meanwhile + [Summary(r.value, savedAt)]
      ensures r.Ok? ==>
        windows == old(windows) + others + [Window(old(NextStart(now)), now, savedAt, |old(windows)|)]
      ensures r != Err(EventExpired) && Broken(fault).Some? ==> r == Err(Broken(fault).value)
      ensures r == Err(Database) ==> fault.Some?
      ensures r == Err(Interrupted) ==> fault == Some(Cancelled)
      ensures forall table :: Frozen(db, table) && UniqueIds(table) && r != Err(EventExpired) ==>
        || Broken(fault).Some?
        || DigestedUnless(fault, NewestFirst(table, source, old(NextStart(now)), now), MaxChars(config), llm, r)
    {
      if checkedAt - eventCreatedAt > EventTtl(config) {
        return Err(EventExpired);
      }
      if fault == Some(LastUnread) {
        summaries, windows := summaries + meanwhile, windows + others;
        return Err(Database);
      }
      var last := GetLastBySource();
      var windowStart := now - MaxWindow(config);
      if last.Some? && last.value.createdAt > windowStart {
        windowStart := last.value.createdAt;
      }
      LastIsLatest(summaries, windows, last);
      ghost var w := Window(windowStart, now, savedAt, |windows|);
      ChainSnoc(windows, others, w, MaxWindow(config));
      summaries, windows := summaries + meanwhile, windows + others;
      if Broken(fault).Some? {
        return Err(Broken(fault).value);
      }
      r := MakeDigest(db, source, windowStart, now, MaxChars(config), llm);
      if r.Ok? && fault == Some(NotSaved) {
        r := Err(Database);
      }
      if r.Ok? {
        summaries := summaries + [Summary(r.value, savedAt)];
        windows := windows + [w];
      }
    }

    /** That is the newest digest or the cutoff, whichever is later. */
    lemma NextStartMeans(now: Time)
      requires Valid()
      ensures NextStart(now) >= now - MaxWindow(config) && forall s :: s in summaries ==> s.createdAt <= NextStart(now)
      ensures NextStart(now) > now - MaxWindow(config) ==>
        exists i :: 0 <= i < |summaries| && summaries[i].createdAt == NextStart(now)
    {
      LatestIsGreatest(windows, |windows|);
      forall s | s in summaries ensures s.createdAt <= NextStart(now) {
        var i :| 0 <= i < |summaries| && summaries[i] == s;
        assert windows[i].saved <= Latest(windows, |windows|).value;
      }
    }

    /** Where the next digest's window will start if it ends now. */
    ghost function NextStart(now: Time): Time
      reads this
    {
      WindowStart(Latest(windows, |windows|), now, MaxWindow(config))
    }
  }

  /** Each digest carries the save time of its window. */
  ghost predicate Recorded(summaries: seq<Summary>, ws: seq<Window>) {
    |ws| == |summaries| && forall i :: 0 <= i < |ws| ==> summaries[i].createdAt == ws[i].saved
  }

  /** The greatest created_at is the greatest save time. */
  lemma LastIsLatest(summaries: seq<Summary>, ws: seq<Window>, last: Option<Summary>)
    requires Recorded(summaries, ws)
    requires last.None? <==> summaries == []
    requires last.Some? ==>
      last.value in summaries && forall s :: s in summaries ==> s.createdAt <= last.value.createdAt
    ensures Latest(ws, |ws|) == if last.None? then None else Some(last.value.createdAt)
  {
    LatestIsGreatest(ws, |ws|);
    if last.Some? {
      var i :| 0 <= i < |summaries| && summaries[i] == last.value;
      var j :| 0 <= j < |ws| && ws[j].saved == Latest(ws, |ws|).value;
      assert summaries[j] in summaries;
      assert ws[i].saved <= Latest(ws, |ws|).value;
    }
  }

  lemma ChainSnoc(ws: seq<Window>, others: seq<Window>, w: Window, maxWindow: Duration)
    requires Chained(ws + others, maxWindow) && w.seen == |ws|
    requires w.start == WindowStart(Latest(ws, |ws|), w.end, maxWindow)
    ensures Chained(ws + others + [w], maxWindow)
  {
    var all, longer := ws + others, ws + others + [w];
    LatestOfPrefix(ws, longer, |ws|);
    forall i | 0 <= i < |longer| ensures InPlace(longer, maxWindow, i) {
      if i < |all| {
        assert InPlace(all, maxWindow, i) && longer[i] == all[i];
        LatestOfPrefix(all, longer, all[i].seen);
      }
    }
  }

  /** One of the first n digests was saved at this instant or later. */
  ghost predicate SavedSince(ws: seq<Window>, n: nat, t: Time) {
    exists k :: 0 <= k < n && k < |ws| && ws[k].saved >= t
  }

  ghost predicate Share(v: Window, w: Window) { exists t :: Covers(v, t) && Covers(w, t) }

  /**
    Exactly when two windows share an instant: the later one reaches back past the end
    of the earlier, and neither execution had read a digest saved at that end or after.
   */
  lemma SharedIff(ws: seq<Window>, maxWindow: Duration, i: nat, j: nat)
    requires Chained(ws, maxWindow) && i < |ws| && j < |ws| && ws[i].end <= ws[j].end
    ensures Share(ws[i], ws[j]) <==>
      && ws[j].end - ws[i].end < maxWindow
      && !SavedSince(ws, ws[i].seen, ws[i].end) && !SavedSince(ws, ws[j].seen, ws[i].end)
  {
    assert InPlace(ws, maxWindow, i) && InPlace(ws, maxWindow, j);
    StartsBefore(ws, maxWindow, i, ws[i].end);
    StartsBefore(ws, maxWindow, j, ws[i].end);
    assert ws[i].start < ws[i].end && ws[j].start < ws[i].end ==>
      Covers(ws[i], ws[i].end - 1) && Covers(ws[j], ws[i].end - 1);
  }

  /** Where a window starts, seen from an instant up to its end. */
  lemma StartsBefore(ws: seq<Window>, maxWindow: Duration, j: nat, t: Time)
    requires Chained(ws, maxWindow) && j < |ws|
    ensures ws[j].start < t <==> ws[j].end - t < maxWindow && !SavedSince(ws, ws[j].seen, t)
  {
    assert InPlace(ws, maxWindow, j);
    LatestIsGreatest(ws, ws[j].seen);
  }

  /** Windows of executions that do not overlap share no instant, whatever the clock did between them. */
  lemma WindowsDisjoint(ws: seq<Window>, maxWindow: Duration, i: nat, j: nat, t: Time)
    requires Chained(ws, maxWindow) && i < |ws| && j < |ws| && i < ws[j].seen && ws[i].end <= ws[i].saved
    ensures !(Covers(ws[i], t) && Covers(ws[j], t))
  {
    assert InPlace(ws, maxWindow, i) && InPlace(ws, maxWindow, j);
    if ws[i].end <= ws[j].end {
      SharedIff(ws, maxWindow, i, j);
    } else {
      SharedIff(ws, maxWindow, j, i);
    }
  }

  /** So overlapping executions can share: both read before either saved. */
  lemma OverlapShares()
    ensures exists ws, maxWindow :: Chained(ws, maxWindow) && |ws| == 2 && Share(ws[0], ws[1])
  {
    var ws := [Window(0, 10, 11, 0), Window(1, 11, 12, 0)];
    assert InPlace(ws, 10, 0) && InPlace(ws, 10, 1);
    assert Chained(ws, 10) && Covers(ws[0], 5) && Covers(ws[1], 5);
  }

  /** A post is not input to two digests, as the table stood at each, one of which was begun after the other. */
  lemma NoPostFeedsTwoDigests(ws: seq<Window>, maxWindow: Duration, source: SourceId,
                              i: nat, tableI: seq<Post>, p: Post, j: nat, tableJ: seq<Post>, p': Post)
    requires Chained(ws, maxWindow) && i < |ws| && j < |ws| && i < ws[j].seen && ws[i].end <= ws[i].saved
    requires UniqueIds(tableI) && UniqueIds(tableJ)
    requires p in NewestFirst(tableI, source, ws[i].start, ws[i].end)
    requires p' in NewestFirst(tableJ, source, ws[j].start, ws[j].end)
    requires p.id == p'.id ==> p.createdAt == p'.createdAt
    ensures p.id != p'.id
  {
    NewestFirstFacts(tableI, source, ws[i].start, ws[i].end);
    NewestFirstFacts(tableJ, source, ws[j].start, ws[j].end);
    WindowsDisjoint(ws, maxWindow, i, j, p.createdAt);
  }

  // --------------------------------------------------------- what is missed

  /** None of the first n digests covers the instant. */
  ghost predicate Missed(ws: seq<Window>, n: nat, t: Time)
    requires n <= |ws|
  {
    forall i :: 0 <= i < n ==> !Covers(ws[i], t)
  }

  /** Digest j ended too early or too late for the instant, or had read of one saved after it. */
  ghost predicate PassedOver(ws: seq<Window>, maxWindow: Duration, j: nat, t: Time)
    requires j < |ws|
  {
    ws[j].end <= t || t < ws[j].end - maxWindow || SavedSince(ws, ws[j].seen, t + 1)
  }

  /** Exactly which instants are missed, executions overlapping or not, clocks stepping back or not. */
  lemma MissedAnyhowIff(ws: seq<Window>, maxWindow: Duration, n: nat, t: Time)
    requires Chained(ws, maxWindow) && n <= |ws|
    ensures Missed(ws, n, t) <==> forall j :: 0 <= j < n ==> PassedOver(ws, maxWindow, j, t)
  {
    forall j: nat | j < n ensures Covers(ws[j], t) <==> !PassedOver(ws, maxWindow, j, t) {
      StartsBefore(ws, maxWindow, j, t + 1);
    }
  }

  /** Each execution ran after its predecessor, on a clock that never stepped back. */
  ghost predicate Serial(ws: seq<Window>) { forall i :: 0 <= i < |ws| ==> InTurn(ws, i) }

  predicate InTurn(ws: seq<Window>, i: nat)
    requires i < |ws|
  {
    ws[i].seen == i && ws[i].end <= ws[i].saved && (i > 0 ==> ws[i - 1].saved <= ws[i].end)
  }

  /** One more execution, begun when all before it were saved, keeps a serial run serial. */
  lemma SerialSnoc(ws: seq<Window>, w: Window)
    requires Serial(ws) && w.seen == |ws| && w.end <= w.saved
    requires ws != [] ==> ws[|ws| - 1].saved <= w.end
    ensures Serial([]) && Serial(ws + [w])
  {
    forall i | 0 <= i < |ws| + 1 ensures InTurn(ws + [w], i) {
      assert i < |ws| ==> InTurn(ws, i);
    }
  }

  /** The end of the digest before the i-th, if any. */
  function SavedBefore(ws: seq<Window>, i: nat): Option<Time>
    requires i <= |ws|
  {
    if i == 0 then None else Some(ws[i - 1].saved)
  }

  lemma {:induction false} SerialLatest(ws: seq<Window>, n: nat)
    requires Serial(ws) && n <= |ws|
    ensures Latest(ws, n) == SavedBefore(ws, n)
  {
    if n > 0 {
      SerialLatest(ws, n - 1);
      assert InTurn(ws, n - 1);
    }
  }

  /** In a serial chain each window starts at its predecessor's save, or at the cutoff if that is later. */
  lemma SerialStart(ws: seq<Window>, maxWindow: Duration, i: nat)
    requires Serial(ws) && Chained(ws, maxWindow) && maxWindow > 0 && i < |ws|
    ensures ws[i].start == WindowStart(SavedBefore(ws, i), ws[i].end, maxWindow)
    ensures ws[i].start <= ws[i].end <= ws[i].saved
  {
    assert InTurn(ws, i) && InPlace(ws, maxWindow, i);
    SerialLatest(ws, i);
  }

  lemma {:induction false} SavedInOrder(ws: seq<Window>, maxWindow: Duration, i: nat, j: nat)
    requires Serial(ws) && Chained(ws, maxWindow) && maxWindow > 0 && i <= j < |ws|
    ensures ws[i].saved <= ws[j].saved
    ensures i < j ==> ws[i].saved <= ws[j].start
  {
    SerialStart(ws, maxWindow, j);
    if i < j {
      SavedInOrder(ws, maxWindow, i, j - 1);
    }
  }

  /** The instant lies between the end of window i and the moment its digest was saved. */
  predicate InSavingGap(w: Window, t: Time) { w.end <= t < w.saved }

  /** The instant is too old for window i, and its predecessor (if any) was saved by then. */
  predicate BeyondCutoff(ws: seq<Window>, maxWindow: Duration, i: nat, t: Time)
    requires i < |ws|
  {
    t < ws[i].end - maxWindow && (i == 0 || ws[i - 1].saved <= t)
  }

  /** The instant fell while some digest was being written, or was too old for the next one. */
  ghost predicate FellBetween(ws: seq<Window>, maxWindow: Duration, n: nat, t: Time)
    requires n <= |ws|
  {
    || (exists i :: 0 <= i < n - 1 && InSavingGap(ws[i], t))
    || (exists i :: 0 <= i < n && BeyondCutoff(ws, maxWindow, i, t))
  }

  /**
    Exactly which instants up to the latest digest's window no digest covers: those
    between a window's end and its digest's save, and those already older than
    maxWindow when the next window was taken.
   */
  lemma {:induction false} MissedIff(ws: seq<Window>, maxWindow: Duration, n: nat, t: Time)
    requires Serial(ws) && Chained(ws, maxWindow) && maxWindow > 0 && 0 < n <= |ws| && t < ws[n - 1].end
    ensures Missed(ws, n, t) <==> FellBetween(ws, maxWindow, n, t)
  {
    var last := n - 1;
    SerialStart(ws, maxWindow, last);
    if last == 0 {
      assert Covers(ws[0], t) <==> !BeyondCutoff(ws, maxWindow, 0, t);
    } else if t < ws[last - 1].end {
      SerialStart(ws, maxWindow, last - 1);
      MissedIff(ws, maxWindow, last, t);
      assert !Covers(ws[last], t) && !InSavingGap(ws[last - 1], t) && !BeyondCutoff(ws, maxWindow, last, t);
    } else {
      forall i | 0 <= i < last
        ensures !Covers(ws[i], t) && !BeyondCutoff(ws, maxWindow, i, t) && (i < last - 1 ==> !InSavingGap(ws[i], t))
      {
        SavedInOrder(ws, maxWindow, i, last - 1);
        SerialStart(ws, maxWindow, i);
        SerialStart(ws, maxWindow, last - 1);
      }
      assert Covers(ws[last], t) <==> !InSavingGap(ws[last - 1], t) && !BeyondCutoff(ws, maxWindow, last, t);
    }
  }
}
