/**
  Any number of workers scoring at once.  Each attempt advances stage by stage, and
  between any two stages other workers, new texts and new interests may come.
 */
module ScoringRuns {
  import opened Prelude
  import opened Scoring
  import opened EmbeddingCache

  /** What a worker holds between two stages of its attempt; Missed is about to pay for a vector. */
  datatype Progress =
    | Loaded(key: ScoreKey, model: Model, text: Text)
    | Listed(key: ScoreKey, model: Model, text: Text, interests: seq<Interest>)
    | Missed(key: ScoreKey, model: Model, text: Text, interests: seq<Interest>)
    | Vectored(key: ScoreKey, model: Model, text: Text, interests: seq<Interest>, vector: Vector)

  datatype Step =
    | SetSummary(postId: PostId, text: Text)
    | SetDigest(summaryId: SummaryId, text: Text)
    | SetInterests(interests: seq<Interest>)
    | Begin(worker: WorkerId, key: ScoreKey, model: Model)
    | Advance(worker: WorkerId, newId: ScoreId, now: Time)
    | Die(worker: WorkerId)

  /** The step changes the entity's text, or begins scoring it under another model. */
  predicate Disturbs(step: Step, key: ScoreKey, model: Model) {
    match step
    case SetSummary(p, _) => key == PostKey(p)
    case SetDigest(s, _) => key == DigestKey(s)
    case Begin(_, k, m) => k == key && m != model
    case _ => false
  }

  /** The worker holds interests of one model, and the vector of its text under that model. */
  ghost predicate Sound(embed: (Model, Text) -> Vector, p: Progress) {
    && (!p.Loaded? ==> SameModel(p.interests, p.model))
    && (p.Vectored? ==> p.vector == embed(p.model, p.text))
  }

  ghost predicate AllSound(embed: (Model, Text) -> Vector, attempts: map<WorkerId, Progress>) {
    forall w :: w in attempts ==> Sound(embed, attempts[w])
  }

  /** Whoever is scoring the entity does so from this text under this model. */
  ghost predicate AllFrom(attempts: map<WorkerId, Progress>, key: ScoreKey, text: Option<Text>, model: Model) {
    forall w :: w in attempts && attempts[w].key == key ==> Some(attempts[w].text) == text && attempts[w].model == model
  }

  /** How far an attempt has come. */
  function StageOf(p: Progress): nat {
    match p
    case Loaded(_, _, _) => 0
    case Listed(_, _, _, _) => 1
    case Missed(_, _, _, _) => 2
    case Vectored(_, _, _, _, _) => 3
  }

  class Pool {
    const scorer: Scorer
    var attempts: map<WorkerId, Progress>

    ghost predicate Valid()
      reads this, scorer
    {
      scorer.Valid() && AllSound(scorer.embed, attempts)
    }

    constructor (scorer: Scorer)
      requires scorer.Valid()
      ensures Valid() && this.scorer == scorer && attempts == map[]
    {
      this.scorer := scorer;
      attempts := map[];
    }

    /** Nobody in flight holds another text or model of the entity. */
    ghost predicate Calm(key: ScoreKey, model: Model)
      reads this, scorer
    {
      AllFrom(attempts, key, scorer.TextOf(key), model)
    }

    ghost predicate Cached(key: ScoreKey, model: Model)
      reads scorer
    {
      scorer.TextOf(key).Some? && scorer.Reusable(key, scorer.TextOf(key).value, model)
    }

    /** The entity's text and a matching vector, if there was one, are still there; nobody threatens them. */
    twostate predicate Undisturbed(key: ScoreKey, model: Model)
      reads this, scorer
    {
      && scorer.TextOf(key) == old(scorer.TextOf(key)) && Calm(key, model)
      && (old(Cached(key, model)) ==> Cached(key, model))
    }

    method SetSummary(p: PostId, text: Text, ghost key: ScoreKey, ghost model: Model)
      requires Valid()
      modifies scorer`summaries
      ensures Valid() && scorer.TextOf(PostKey(p)) == Some(text)
      ensures key != PostKey(p) && old(Calm(key, model)) ==> Undisturbed(key, model)
    {
      var older := if p in scorer.summaries then scorer.summaries[p] else [];
      scorer.summaries := scorer.summaries[p := [text] + older];
    }

    method SetDigest(s: SummaryId, text: Text, ghost key: ScoreKey, ghost model: Model)
      requires Valid()
      modifies scorer`digests
      ensures Valid() && scorer.TextOf(DigestKey(s)) == Some(text)
      ensures key != DigestKey(s) && old(Calm(key, model)) ==> Undisturbed(key, model)
    {
      scorer.digests := scorer.digests[s := text];
    }

    /** resolveScoreInput: the attempt starts from the text of now, or ends for want of one. */
    method Begin(w: WorkerId, key: ScoreKey, model: Model)
      requires Valid()
      modifies this`attempts
      ensures Valid()
      ensures attempts == if scorer.TextOf(key).None? then old(attempts) - {w}
                          else old(attempts)[w := Loaded(key, model, scorer.TextOf(key).value)]
    {
      var text := scorer.TextOf(key);
      attempts := if text.None? then attempts - {w} else attempts[w := Loaded(key, model, text.value)];
    }

    /** The interests of now, or the end of the attempt if one is of another model. */
    method ListInterests(w: WorkerId, ghost key: ScoreKey, ghost model: Model)
      requires Valid() && w in attempts && attempts[w].Loaded?
      modifies this`attempts
      ensures Valid()
      ensures var a := old(attempts)[w];
        attempts == if SameModel(scorer.interests, a.model)
                    then old(attempts)[w := Listed(a.key, a.model, a.text, scorer.interests)]
                    else old(attempts) - {w}
      ensures old(Calm(key, model)) ==> Undisturbed(key, model)
    {
      var p := attempts[w];
      var vectors, same := scorer.CollectVectors(p.model);
      attempts := if same then attempts[w := Listed(p.key, p.model, p.text, scorer.interests)] else attempts - {w};
    }

    /** The cache read: the stored vector if it matches, else the decision to pay. */
    method LookUp(w: WorkerId, ghost key: ScoreKey, ghost model: Model)
      requires Valid() && w in attempts && attempts[w].Listed?
      modifies this`attempts
      ensures Valid() && w in attempts && attempts.Keys == old(attempts).Keys
      ensures forall v :: v in attempts && v != w ==> attempts[v] == old(attempts)[v]
      ensures attempts[w].key == old(attempts)[w].key && attempts[w].model == old(attempts)[w].model
      ensures !attempts[w].Loaded?
      ensures attempts[w].text == old(attempts)[w].text && attempts[w].interests == old(attempts)[w].interests
      ensures attempts[w].Vectored? <==> scorer.Reusable(attempts[w].key, attempts[w].text, attempts[w].model)
      ensures attempts[w].Missed? <==> !attempts[w].Vectored?
      ensures old(Calm(key, model)) ==> Undisturbed(key, model)
    {
      var p := attempts[w];
      if scorer.Reusable(p.key, p.text, p.model) {
        var row := scorer.embeddings[p.key];
        ReusedIsExact(scorer.embed, scorer.hash, row, p.text);
        attempts := attempts[w := Vectored(p.key, p.model, p.text, p.interests, row.vector)];
      } else {
        attempts := attempts[w := Missed(p.key, p.model, p.text, p.interests)];
      }
    }

    /** Embed and the upsert of the vector. */
    method Pay(w: WorkerId, ghost key: ScoreKey, ghost model: Model)
      requires Valid() && w in attempts && attempts[w].Missed?
      modifies this`attempts, scorer`embeddings, scorer`embedCalls
      ensures Valid() && scorer.embedCalls == old(scorer.embedCalls) + 1
      ensures var p := old(attempts)[w];
        && attempts == old(attempts)[w := Vectored(p.key, p.model, p.text, p.interests, scorer.embed(p.model, p.text))]
        && scorer.embeddings == old(scorer.embeddings)[
             p.key := Embedding(scorer.embed(p.model, p.text), p.model, scorer.hash(p.text))]
      ensures old(Calm(key, model)) ==> Undisturbed(key, model)
    {
      var p := attempts[w];
      var vector := scorer.StoreVector(p.key, p.text, p.model);
      attempts := attempts[w := Vectored(p.key, p.model, p.text, p.interests, vector)];
    }

    /** The relevance, and its upsert unless the vectors cannot be compared. */
    method Finish(w: WorkerId, newId: ScoreId, now: Time, ghost key: ScoreKey, ghost model: Model)
      requires Valid() && w in attempts
      requires attempts[w].Vectored? || (attempts[w].Listed? && attempts[w].interests == [])
      modifies this`attempts, scorer`scores, scorer`basis
      ensures Valid() && attempts == old(attempts) - {w}
      ensures var p := old(attempts)[w];
        if Comparable(scorer.embed(p.model, p.text), Vectors(p.interests))
        then
          && scorer.basis == old(scorer.basis)[p.key := Basis(p.text, p.interests)]
          && p.key in scorer.scores && scorer.scores == old(scorer.scores)[p.key := scorer.scores[p.key]]
          && scorer.scores[p.key].model == p.model && scorer.scores[p.key].updatedAt == now
        else scorer.scores == old(scorer.scores) && scorer.basis == old(scorer.basis)
      ensures old(Calm(key, model)) ==> Undisturbed(key, model)
    {
      var p := attempts[w];
      attempts := attempts - {w};
      var value := 0.0;
      if |p.interests| > 0 {
        var relevance := Relevance(scorer.sqrt, p.vector, Vectors(p.interests));
        if relevance.Err? {
          return;
        }
        value := relevance.value;
      }
      var id := scorer.StoreScore(p.key, p.text, p.interests, value, p.model, newId, now);
    }

    /** The next stage of the worker's attempt, whatever that is. */
    method Advance(w: WorkerId, newId: ScoreId, now: Time, ghost key: ScoreKey, ghost model: Model)
      requires Valid()
      modifies this`attempts, scorer
      ensures Valid() && scorer.interests == old(scorer.interests)
      ensures w in old(attempts) && w in attempts ==> StageOf(attempts[w]) > StageOf(old(attempts)[w])
      ensures old(Calm(key, model)) ==> Undisturbed(key, model)
    {
      if w !in attempts {
        return;
      }
      var p := attempts[w];
      if p.Loaded? {
        ListInterests(w, key, model);
      } else if p.Listed? && |p.interests| > 0 {
        LookUp(w, key, model);
      } else if p.Missed? {
        Pay(w, key, model);
      } else {
        Finish(w, newId, now, key, model);
      }
    }

    method Do(step: Step, ghost key: ScoreKey, ghost model: Model)
      requires Valid()
      modifies this`attempts, scorer
      ensures Valid() && scorer.interests == if step.SetInterests? then step.interests else old(scorer.interests)
      ensures !Disturbs(step, key, model) && old(Calm(key, model)) ==> Undisturbed(key, model)
    {
      match step
      case SetSummary(p, text) => SetSummary(p, text, key, model);
      case SetDigest(s, text) => SetDigest(s, text, key, model);
      case SetInterests(all) => scorer.interests := all;
      case Begin(w, k, m) => Begin(w, k, m);
      case Advance(w, newId, now) => Advance(w, newId, now, key, model);
      case Die(w) => attempts := attempts - {w};
    }

    /**
      Any run, however the stages of the workers' attempts and the changes of texts and
      interests interleave, keeps every cached vector the provider's own and every
      stored score the direct relevance of the text and interests its attempt read.
     */
    method Run(steps: seq<Step>, ghost key: ScoreKey, ghost model: Model)
      requires Valid()
      modifies this`attempts, scorer
      ensures Valid()
      ensures (forall i :: 0 <= i < |steps| ==> !Disturbs(steps[i], key, model)) && old(Calm(key, model)) ==>
        Undisturbed(key, model)
    {
      for i := 0 to |steps|
        invariant Valid()
        invariant (forall j :: 0 <= j < i ==> !Disturbs(steps[j], key, model)) && old(Calm(key, model)) ==>
          Undisturbed(key, model)
      {
        Do(steps[i], key, model);
      }
    }

    /**
      An attempt gets its vector but may die before its score is stored; anything
      happens that leaves the entity's text and model alone.  No retry then pays for
      the vector again, however that retry ends.
     */
    method CrashThenRun(key: ScoreKey, model: Model, newId: ScoreId, stop: Option<Stage>, between: seq<Step>, now: Time)
      requires Valid() && Calm(key, model)
      requires scorer.Reaches(key, model, GetVector) && (stop.None? || stop == Some(PersistScore))
      requires forall i :: 0 <= i < |between| ==> !Disturbs(between[i], key, model)
      modifies this`attempts, scorer
      ensures Valid() && scorer.TextOf(key) == old(scorer.TextOf(key))
      ensures forall again :: !scorer.Pays(key, model, again)
    {
      scorer.Fill(key, model, newId, stop, now);
      Run(between, key, model);
    }
  }
}
