/**
  What one enqueueing call does to an outbox, as a history: before each of its inserts
  rivals may run any statements.  Everything here is about values; the loops that
  produce such histories are in module ScoreOutbox.
 */
module EnqueueCall {
  import opened Prelude
  import opened Lease
  import opened LeaseQueue
  import opened EmbeddingCache

  type Events = Table<ScoreKey>

  type Log = History<ScoreKey>

  type Rivals = nat -> seq<Rival<ScoreKey>>

  type Supply = nat -> EventId

  /** The entities to enqueue, the ids for their events, the rivals before each insert, and the clock at the start. */
  datatype Call = Call(keys: seq<ScoreKey>, ids: Supply, rivals: Rivals, now: Time)

  // -------------------------------------------------------------------- ids

  ghost predicate NoRepeats(ids: Supply) { forall i: nat, j: nat :: i < j ==> ids(i) != ids(j) }

  /** From the start-th on, no id of the supply has a row. */
  ghost predicate UnusedFrom(ids: Supply, start: nat, rows: Events) { forall i: nat :: i >= start ==> ids(i) !in rows }

  /** The ids of one call are new, distinct, and nobody else's. */
  ghost predicate FreshIds(ids: Supply, rows: Events) { NoRepeats(ids) && UnusedFrom(ids, 0, rows) }

  /** The first n ids of the supply. */
  ghost function Own(ids: Supply, n: nat): set<EventId> { set j: nat | j < n :: ids(j) }

  ghost predicate Avoids(op: Op<ScoreKey>, ids: Supply) {
    op.Insert? ==> forall j: nat :: ids(j) != op.id
  }

  /** No rival inserts a row under one of these ids. */
  ghost predicate ClearOf(steps: seq<Rival<ScoreKey>>, ids: Supply) {
    forall i :: 0 <= i < |steps| ==> Avoids(steps[i].op, ids)
  }

  ghost predicate KeepsClear(rivals: Rivals, ids: Supply) { forall k: nat :: ClearOf(rivals(k), ids) }

  ghost predicate Quiet(rivals: Rivals) { forall k: nat :: rivals(k) == [] }

  function Nobody(): Rivals { (j: nat) => [] }

  function Shifted(ids: Supply, n: nat): Supply { (j: nat) => ids(n + j) }

  function ShiftedRivals(rivals: Rivals, n: nat): Rivals { (j: nat) => rivals(n + j) }

  /** The rest of a supply is as fresh as the whole was. */
  lemma ShiftedFresh(ids: Supply, n: nat, rows: Events)
    requires NoRepeats(ids) && UnusedFrom(ids, n, rows)
    ensures FreshIds(Shifted(ids, n), rows)
  {
    var own := Shifted(ids, n);
    forall i: nat, j: nat | i < j ensures own(i) != own(j) {
      assert ids(n + i) != ids(n + j);
    }
  }

  lemma ShiftedClear(rivals: Rivals, ids: Supply, n: nat)
    requires KeepsClear(rivals, ids)
    ensures KeepsClear(ShiftedRivals(rivals, n), Shifted(ids, n))
  {
    forall k: nat ensures ClearOf(ShiftedRivals(rivals, n)(k), Shifted(ids, n)) {
      ClearOfFewer(rivals(n + k), ids, n);
    }
  }

  lemma ClearOfFewer(steps: seq<Rival<ScoreKey>>, ids: Supply, n: nat)
    requires ClearOf(steps, ids)
    ensures ClearOf(steps, Shifted(ids, n))
  {
    forall i | 0 <= i < |steps| ensures Avoids(steps[i].op, Shifted(ids, n)) {
      assert Avoids(steps[i].op, ids);
    }
  }

  // ---------------------------------------------------------------- history

  /** The clock when n inserts have run, each after its rivals. */
  ghost function Clock(c: Call, n: nat): Time {
    if n == 0 then c.now else Clock(c, n - 1) + TotalWait(c.rivals(n - 1))
  }

  ghost function InsertEntry(c: Call, n: nat): Entry<ScoreKey>
    requires n < |c.keys|
  {
    Entry(Clock(c, n + 1), Insert(c.ids(n), c.keys[n], Clock(c, n + 1)))
  }

  /** The history after n inserts: before each its rivals' statements, then the one insert, and nothing else. */
  ghost function AfterInserts(c: Call, h: Log, n: nat): Log
    requires n <= |c.keys|
    decreases n, 0
  {
    if n == 0 then h else AfterRivals(c, h, n - 1) + [InsertEntry(c, n - 1)]
  }

  /** The same when the rivals of insert n have run as well. */
  ghost function AfterRivals(c: Call, h: Log, n: nat): Log
    requires n <= |c.keys|
    decreases n, 1
  {
    AfterInserts(c, h, n) + Stamped(c.rivals(n), Clock(c, n))
  }

  /** What is left of n inserts and their rivals if the inserts are rolled back. */
  ghost function RivalsOnly(c: Call, h: Log, n: nat): Log {
    if n == 0 then h else RivalsOnly(c, h, n - 1) + Stamped(c.rivals(n - 1), Clock(c, n - 1))
  }

  /** With no rivals there is nothing left of it. */
  lemma {:induction false} NothingLeft(c: Call, h: Log, n: nat)
    requires Quiet(c.rivals)
    ensures RivalsOnly(c, h, n) == h
  {
    if n > 0 {
      NothingLeft(c, h, n - 1);
      assert c.rivals(n - 1) == [];
    }
  }

  /** The call starts from a proper history with ids of its own. */
  ghost predicate Legal(c: Call, h: Log) {
    Chronological(h) && NotBefore(h, c.now) && FreshIds(c.ids, Replay(h)) && KeepsClear(c.rivals, c.ids)
  }

  ghost predicate Proper(h: Log, now: Time) { Chronological(h) && NotBefore(h, now) }

  lemma {:induction false} InsertsProper(c: Call, h: Log, n: nat)
    requires n <= |c.keys| && Legal(c, h)
    ensures h <= AfterInserts(c, h, n) && Proper(AfterInserts(c, h, n), Clock(c, n))
    decreases n, 0
  {
    if n > 0 {
      var i: nat := n - 1;
      RivalsProper(c, h, i);
      ReplaySnoc(AfterRivals(c, h, i), InsertEntry(c, i));
    }
  }

  lemma {:induction false} RivalsProper(c: Call, h: Log, n: nat)
    requires n <= |c.keys| && Legal(c, h)
    ensures h <= AfterRivals(c, h, n) && Proper(AfterRivals(c, h, n), Clock(c, n + 1))
    decreases n, 1
  {
    InsertsProper(c, h, n);
    StampedInOrder(AfterInserts(c, h, n), c.rivals(n), Clock(c, n));
  }

  /** Insert n, as a step on the table its rivals leave. */
  lemma InsertStep(c: Call, h: Log, n: nat)
    requires n < |c.keys| && Legal(c, h)
    ensures Replay(AfterInserts(c, h, n + 1)) ==
      Apply(Replay(AfterRivals(c, h, n)), InsertEntry(c, n).at, InsertEntry(c, n).op)
  {
    RivalsProper(c, h, n);
    ReplaySnoc(AfterRivals(c, h, n), InsertEntry(c, n));
  }

  // -------------------------------------------------------- one event's fate

  /** Event e is in one table if and only if it is in the other, and about the same entity. */
  ghost predicate SameEvent(a: Events, b: Events, e: EventId) {
    && (e in a <==> e in b)
    && (e in a ==> a[e].subject == b[e].subject)
  }

  ghost predicate Inserts(op: Op<ScoreKey>, e: EventId) { op.Insert? && op.id == e }

  lemma {:induction false} OthersKeep(h: Log, base: nat, n: nat, e: EventId)
    requires base <= n <= |h| && forall i :: base <= i < n ==> !Inserts(h[i].op, e)
    ensures SameEvent(At(h, base), At(h, n), e)
  {
    if base < n {
      OthersKeep(h, base, n - 1, e);
      assert !Inserts(h[n - 1].op, e);
    }
  }

  /** Rivals that keep clear of the supply leave its events in or out of the table. */
  lemma RivalsKeep(h: Log, steps: seq<Rival<ScoreKey>>, now: Time, ids: Supply, j: nat)
    requires ClearOf(steps, ids)
    ensures SameEvent(Replay(h), Replay(h + Stamped(steps, now)), ids(j))
  {
    var longer := h + Stamped(steps, now);
    forall i | |h| <= i < |longer| ensures !Inserts(longer[i].op, ids(j)) {
      StampedOps(steps, now, i - |h|);
      assert longer[i] == Stamped(steps, now)[i - |h|];
      assert Avoids(steps[i - |h|].op, ids);
    }
    OthersKeep(longer, |h|, |longer|, ids(j));
    AtPrefix(h, Stamped(steps, now), |h|);
  }

  lemma RivalsKeepOwn(c: Call, h: Log, n: nat, j: nat)
    requires n <= |c.keys| && Legal(c, h)
    ensures SameEvent(Replay(AfterInserts(c, h, n)), Replay(AfterRivals(c, h, n)), c.ids(j))
  {
    assert ClearOf(c.rivals(n), c.ids);
    RivalsKeep(AfterInserts(c, h, n), c.rivals(n), Clock(c, n), c.ids, j);
  }

  /** An insert under a new id adds its row iff the entity is idle, and leaves it active either way. */
  lemma InsertActive(t: Events, at: Time, op: Op<ScoreKey>)
    requires op.Insert? && op.id !in t
    ensures HasActive(Apply(t, at, op), op.subject)
    ensures Apply(t, at, op).Keys == t.Keys + if HasActive(t, op.subject) then {} else {op.id}
    ensures op.id in Apply(t, at, op) ==> Apply(t, at, op)[op.id].subject == op.subject
  {
    var after := Apply(t, at, op);
    if Accepts(t, at, op) {
      assert after[op.id].status.Pending?;
    }
  }

  lemma InsertLeavesOthers(t: Events, at: Time, op: Op<ScoreKey>, e: EventId)
    requires op.Insert? && e != op.id
    ensures SameEvent(t, Apply(t, at, op), e)
  {
  }

  /** Until its turn comes, no row has the j-th id. */
  lemma {:induction false} NotYetUsed(c: Call, h: Log, n: nat, j: nat)
    requires n <= |c.keys| && Legal(c, h) && j >= n
    ensures c.ids(j) !in Replay(AfterInserts(c, h, n)) && c.ids(j) !in Replay(AfterRivals(c, h, n))
  {
    RivalsKeepOwn(c, h, n, j);
    if n > 0 {
      var i: nat := n - 1;
      NotYetUsed(c, h, i, j);
      InsertStep(c, h, i);
      assert c.ids(i) != c.ids(j);
      InsertLeavesOthers(Replay(AfterRivals(c, h, i)), InsertEntry(c, i).at, InsertEntry(c, i).op, c.ids(j));
    }
  }

  lemma RestUnused(c: Call, h: Log, n: nat)
    requires n <= |c.keys| && Legal(c, h)
    ensures UnusedFrom(c.ids, n, Replay(AfterInserts(c, h, n)))
  {
    forall j: nat | j >= n ensures c.ids(j) !in Replay(AfterInserts(c, h, n)) {
      NotYetUsed(c, h, n, j);
    }
  }

  /** Later turns leave the events of earlier ones alone. */
  lemma NextTurnKeeps(c: Call, h: Log, n: nat, j: nat)
    requires j < n < |c.keys| && Legal(c, h)
    ensures SameEvent(Replay(AfterInserts(c, h, n)), Replay(AfterInserts(c, h, n + 1)), c.ids(j))
  {
    RivalsKeepOwn(c, h, n, j);
    InsertStep(c, h, n);
    assert c.ids(j) != c.ids(n);
    InsertLeavesOthers(Replay(AfterRivals(c, h, n)), InsertEntry(c, n).at, InsertEntry(c, n).op, c.ids(j));
  }

  /** Statement p tried to insert the event; from then on its entity had an active one. */
  ghost predicate CoveredAt(h: Log, p: nat, e: EventId, key: ScoreKey)
    requires p < |h|
  {
    h[p].op.Insert? && h[p].op.id == e && h[p].op.subject == key && HasActive(At(h, p + 1), key)
  }

  /** The event is about the entity, if it made it into the table. */
  ghost predicate OwnSubject(rows: Events, e: EventId, key: ScoreKey) { e in rows ==> rows[e].subject == key }

  /**
    What turn j of a call comes to, whatever rivals do: its entity had an active event
    right after the insert, and if the event was added it is about that entity.
   */
  lemma {:induction false} TurnEffect(c: Call, h: Log, n: nat, j: nat) returns (p: nat)
    requires j < n <= |c.keys| && Legal(c, h)
    ensures |h| <= p < |AfterInserts(c, h, n)| && CoveredAt(AfterInserts(c, h, n), p, c.ids(j), c.keys[j])
    ensures OwnSubject(Replay(AfterInserts(c, h, n)), c.ids(j), c.keys[j])
  {
    var i: nat := n - 1;
    RivalsProper(c, h, i);
    if j == i {
      NotYetUsed(c, h, i, i);
      InsertStep(c, h, i);
      InsertActive(Replay(AfterRivals(c, h, i)), InsertEntry(c, i).at, InsertEntry(c, i).op);
      p := |AfterRivals(c, h, i)|;
    } else {
      p := TurnEffect(c, h, i, j);
      NextTurnKeeps(c, h, i, j);
      CoveredLater(AfterInserts(c, h, i), AfterInserts(c, h, n), p, c.ids(j), c.keys[j]);
    }
  }

  lemma CoveredLater(h: Log, longer: Log, p: nat, e: EventId, key: ScoreKey)
    requires p < |h| && h <= longer && CoveredAt(h, p, e, key)
    ensures CoveredAt(longer, p, e, key)
  {
    StablePrefix(h, longer, p + 1);
  }

  // ------------------------------------------------------------------ counts

  /** How many of the first n ids made it into the table. */
  ghost function Present(ids: Supply, n: nat, rows: Events): nat {
    if n == 0 then 0 else Present(ids, n - 1, rows) + if ids(n - 1) in rows then 1 else 0
  }

  lemma {:induction false} SamePresent(ids: Supply, n: nat, a: Events, b: Events)
    requires forall j: nat :: j < n ==> (ids(j) in a <==> ids(j) in b)
    ensures Present(ids, n, a) == Present(ids, n, b)
  {
    if n > 0 {
      SamePresent(ids, n - 1, a, b);
    }
  }

  lemma {:induction false} AllPresent(ids: Supply, n: nat, rows: Events)
    requires Own(ids, n) <= rows.Keys
    ensures Present(ids, n, rows) == n
  {
    if n > 0 {
      assert Own(ids, n) == Own(ids, n - 1) + {ids(n - 1)};
      AllPresent(ids, n - 1, rows);
    }
  }

  /** The count grows by one exactly if insert n met no active event. */
  lemma CountGrows(c: Call, h: Log, n: nat)
    requires n < |c.keys| && Legal(c, h)
    ensures Present(c.ids, n + 1, Replay(AfterInserts(c, h, n + 1))) ==
      Present(c.ids, n, Replay(AfterInserts(c, h, n))) +
      if HasActive(Replay(AfterRivals(c, h, n)), c.keys[n]) then 0 else 1
  {
    var before, after := Replay(AfterInserts(c, h, n)), Replay(AfterInserts(c, h, n + 1));
    forall j: nat | j < n ensures c.ids(j) in before <==> c.ids(j) in after {
      NextTurnKeeps(c, h, n, j);
    }
    SamePresent(c.ids, n, before, after);
    NotYetUsed(c, h, n, n);
    InsertStep(c, h, n);
    InsertActive(Replay(AfterRivals(c, h, n)), InsertEntry(c, n).at, InsertEntry(c, n).op);
  }

  // ------------------------------------------------------ nobody interfering

  ghost predicate Distinct(keys: seq<ScoreKey>) { forall i, j :: 0 <= i < j < |keys| ==> keys[i] != keys[j] }

  ghost predicate AllIdle(keys: seq<ScoreKey>, rows: Events) { forall key :: key in keys ==> !HasActive(rows, key) }

  ghost function AsSet(keys: seq<ScoreKey>): set<ScoreKey> { set k | k in keys }

  /** The entities with an active event are those that had one, and these. */
  ghost predicate Activated(before: Events, after: Events, keys: set<ScoreKey>) {
    forall key :: HasActive(after, key) <==> HasActive(before, key) || key in keys
  }

  lemma InsertActivates(t: Events, at: Time, op: Op<ScoreKey>)
    requires op.Insert? && op.id !in t
    ensures Activated(t, Apply(t, at, op), {op.subject})
  {
    var after := Apply(t, at, op);
    InsertActive(t, at, op);
    forall key | HasActive(t, key) ensures HasActive(after, key) {
      var e :| e in t && t[e].subject == key && Active(t[e].status);
      assert after[e] == t[e];
    }
  }

  /** The first n keys are active now, nothing else is that was not, and just their n rows were added. */
  ghost predicate AllTaken(before: Events, after: Events, c: Call, n: nat)
    requires n <= |c.keys|
  {
    Activated(before, after, AsSet(c.keys[..n])) && after.Keys == before.Keys + Own(c.ids, n)
  }

  lemma TakenSnoc(before: Events, middle: Events, after: Events, c: Call, i: nat)
    requires i < |c.keys| && Distinct(c.keys) && AllIdle(c.keys, before) && AllTaken(before, middle, c, i)
    requires Activated(middle, after, {c.keys[i]})
    requires after.Keys == middle.Keys + if HasActive(middle, c.keys[i]) then {} else {c.ids(i)}
    ensures AllTaken(before, after, c, i + 1)
  {
    assert c.keys[..i + 1] == c.keys[..i] + [c.keys[i]];
    assert AsSet(c.keys[..i + 1]) == AsSet(c.keys[..i]) + {c.keys[i]};
    assert c.keys[i] in c.keys && c.keys[i] !in AsSet(c.keys[..i]);
    assert Own(c.ids, i + 1) == Own(c.ids, i) + {c.ids(i)};
  }

  /** Undisturbed inserts of distinct idle entities all take effect, and touch nothing else. */
  lemma {:induction false} QuietInserts(c: Call, h: Log, n: nat)
    requires n <= |c.keys| && Legal(c, h) && Quiet(c.rivals) && Distinct(c.keys) && AllIdle(c.keys, Replay(h))
    ensures Clock(c, n) == c.now && AllTaken(Replay(h), Replay(AfterInserts(c, h, n)), c, n)
  {
    if n == 0 {
      assert AsSet(c.keys[..0]) == {} && Own(c.ids, 0) == {};
    } else {
      var i: nat := n - 1;
      QuietInserts(c, h, i);
      QuietTurn(c, h, i);
      TakenSnoc(Replay(h), Replay(AfterInserts(c, h, i)), Replay(AfterInserts(c, h, n)), c, i);
    }
  }

  lemma QuietTurn(c: Call, h: Log, i: nat)
    requires i < |c.keys| && Legal(c, h) && Quiet(c.rivals)
    ensures Clock(c, i + 1) == Clock(c, i)
    ensures var middle, after := Replay(AfterInserts(c, h, i)), Replay(AfterInserts(c, h, i + 1));
      && Activated(middle, after, {c.keys[i]})
      && after.Keys == middle.Keys + if HasActive(middle, c.keys[i]) then {} else {c.ids(i)}
  {
    assert c.rivals(i) == [] && AfterRivals(c, h, i) == AfterInserts(c, h, i);
    NotYetUsed(c, h, i, i);
    InsertStep(c, h, i);
    var op := InsertEntry(c, i).op;
    InsertActivates(Replay(AfterInserts(c, h, i)), InsertEntry(c, i).at, op);
    InsertActive(Replay(AfterInserts(c, h, i)), InsertEntry(c, i).at, op);
  }
}
