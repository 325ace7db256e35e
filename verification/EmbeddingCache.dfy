/**
  Scoring one post or digest with its persisted embedding as a cache.  The paid
  Embed call and the content hash are parameters; an attempt may die before any
  of its stages, in particular between the vector upsert and the score upsert.
 */
module EmbeddingCache {
  import opened Prelude
  import opened Scoring

  type Model = string
  type Text = string
  type Hash = string
  type SummaryId = nat
  type ScoreId = nat

  /** Exactly one of a post and a digest. */
  datatype ScoreKey = PostKey(postId: PostId) | DigestKey(summaryId: SummaryId)

  datatype Embedding = Embedding(vector: Vector, model: Model, inputHash: Hash)

  datatype Score = Score(id: ScoreId, value: real, model: Model, createdAt: Time, updatedAt: Time)

  datatype Interest = Interest(embedding: Vector, model: Model)

  /** Where an attempt can be cut short by a provider, a database or a crash. */
  datatype Stage = ListInterests | GetVector | EmbedText | PersistVector | PersistScore

  datatype Error = NoSummary | SummaryNotFound | StaleInterest | BadVector(fault: Fault) | Interrupted(stage: Stage)

  ghost predicate Injective(hash: Text -> Hash) {
    forall t, u :: hash(t) == hash(u) ==> t == u
  }

  predicate SameModel(interests: seq<Interest>, model: Model) {
    forall i :: 0 <= i < |interests| ==> interests[i].model == model
  }

  function Vectors(interests: seq<Interest>): (vs: seq<Vector>)
    ensures |vs| == |interests|
  {
    seq(|interests|, i requires 0 <= i < |interests| => interests[i].embedding)
  }

  /** What a stored score was computed from. */
  datatype Basis = Basis(text: Text, interests: seq<Interest>)

  /** The vector is what the provider returns for a text with this hash. */
  ghost predicate Faithful(embed: (Model, Text) -> Vector, hash: Text -> Hash, e: Embedding) {
    exists t :: hash(t) == e.inputHash && e.vector == embed(e.model, t)
  }

  ghost predicate AllFaithful(embed: (Model, Text) -> Vector, hash: Text -> Hash, embeddings: map<ScoreKey, Embedding>)
  {
    forall key :: key in embeddings ==> Faithful(embed, hash, embeddings[key])
  }

  /** The score is the relevance computed directly, under one model throughout. */
  ghost predicate Justified(embed: (Model, Text) -> Vector, s: Score, b: Basis) {
    && SameModel(b.interests, s.model)
    && Comparable(embed(s.model, b.text), Vectors(b.interests))
    && IsRelevance(s.value, embed(s.model, b.text), Vectors(b.interests))
  }

  ghost predicate AllJustified(embed: (Model, Text) -> Vector, scores: map<ScoreKey, Score>,
                               basis: map<ScoreKey, Basis>)
  {
    && scores.Keys == basis.Keys
    && forall key :: key in scores ==> Justified(embed, scores[key], basis[key])
  }

  /** A matching cache row holds the vector the provider would return again. */
  lemma ReusedIsExact(embed: (Model, Text) -> Vector, hash: Text -> Hash, e: Embedding, text: Text)
    requires Injective(hash) && Faithful(embed, hash, e) && e.inputHash == hash(text)
    ensures e.vector == embed(e.model, text)
  {
    var t :| hash(t) == e.inputHash && e.vector == embed(e.model, t);
    assert hash(t) == hash(text);
  }

  lemma JustifiedAfter(embed: (Model, Text) -> Vector, scores: map<ScoreKey, Score>, basis: map<ScoreKey, Basis>,
                       key: ScoreKey, s: Score, b: Basis)
    requires AllJustified(embed, scores, basis) && Justified(embed, s, b)
    ensures AllJustified(embed, scores[key := s], basis[key := b])
  {
  }

  class Scorer {
    const sqrt: real -> real
    const embed: (Model, Text) -> Vector
    const hash: Text -> Hash
    var summaries: map<PostId, seq<Text>>
    var digests: map<SummaryId, Text>
    var interests: seq<Interest>
    var embeddings: map<ScoreKey, Embedding>
    var scores: map<ScoreKey, Score>
    ghost var basis: map<ScoreKey, Basis>
    ghost var embedCalls: nat

    ghost predicate Valid()
      reads this
    {
      CacheValid() && AllJustified(embed, scores, basis)
    }

    /** The part of the invariant that reading and filling the cache depends on. */
    ghost predicate CacheValid()
      reads this`embeddings
    {
      IsSqrt(sqrt) && Injective(hash) && AllFaithful(embed, hash, embeddings)
    }

    constructor (sqrt: real -> real, embed: (Model, Text) -> Vector, hash: Text -> Hash)
      requires IsSqrt(sqrt) && Injective(hash)
      ensures Valid() && this.sqrt == sqrt && this.embed == embed && this.hash == hash
      ensures embeddings == map[] && scores == map[] && embedCalls == 0
    {
      this.sqrt, this.embed, this.hash := sqrt, embed, hash;
      summaries, digests, interests, embeddings, scores := map[], map[], [], map[], map[];
      basis, embedCalls := map[], 0;
    }

    /**
      A stored score in plain terms: it was computed from interests of its own model, none
      is closer to the text than it says, and unless it is 0 one is just that close.
     */
    lemma StoredScoreMeans(key: ScoreKey)
      requires Valid() && key in scores
      ensures key in basis && scores[key].value >= 0.0
      ensures var s, b := scores[key], basis[key];
        && (forall i :: 0 <= i < |b.interests| ==> b.interests[i].model == s.model)
        && (forall i, c :: 0 <= i < |b.interests| && HasCosine(c, embed(s.model, b.text), b.interests[i].embedding) ==>
              c <= s.value)
      ensures var s, b := scores[key], basis[key];
        s.value > 0.0 ==>
          exists i :: 0 <= i < |b.interests| && HasCosine(s.value, embed(s.model, b.text), b.interests[i].embedding)
    {
      var s, b := scores[key], basis[key];
      var v, vs := embed(s.model, b.text), Vectors(b.interests);
      assert Justified(embed, s, b);
      RelevanceIsLargest(s.value, v, vs);
      forall i, c | 0 <= i < |b.interests| && HasCosine(c, v, b.interests[i].embedding) ensures c <= s.value {
        assert vs[i] == b.interests[i].embedding;
      }
      if s.value > 0.0 {
        var i :| 0 <= i < |vs| && HasCosine(s.value, v, vs[i]);
        assert b.interests[i].embedding == vs[i];
      }
    }

    /** The text to score: a post's newest summary, or the digest itself. */
    function TextOf(key: ScoreKey): Option<Text>
      reads this`summaries, this`digests
    {
      match key
      case PostKey(p) => if p in summaries && summaries[p] != [] then Some(summaries[p][0]) else None
      case DigestKey(s) => if s in digests then Some(digests[s]) else None
    }

    predicate Reusable(key: ScoreKey, text: Text, model: Model)
      reads this`embeddings
    {
      key in embeddings && embeddings[key].model == model && embeddings[key].inputHash == hash(text)
    }

    /** Whether an attempt that nothing cuts short gets to the stage. */
    ghost predicate Reaches(key: ScoreKey, model: Model, stage: Stage)
      reads this
    {
      && TextOf(key).Some?
      && (!stage.ListInterests? ==> SameModel(interests, model))
      && (match stage
          case ListInterests => true
          case GetVector => interests != []
          case EmbedText => interests != [] && !Reusable(key, TextOf(key).value, model)
          case PersistVector => interests != [] && !Reusable(key, TextOf(key).value, model)
          case PersistScore => Comparable(embed(model, TextOf(key).value), Vectors(interests)))
    }

    ghost predicate CutShort(key: ScoreKey, model: Model, stop: Option<Stage>)
      reads this
    {
      stop.Some? && Reaches(key, model, stop.value)
    }

    /** Getting the vector is cut short: a cached one needs only the read. */
    predicate Fails(reusable: bool, stop: Option<Stage>) {
      stop == Some(GetVector) || (!reusable && (stop == Some(EmbedText) || stop == Some(PersistVector)))
    }

    /** The cached vector if it still matches, else a fresh one, stored before it is returned. */
    method ResolveVector(key: ScoreKey, text: Text, model: Model, stop: Option<Stage>)
      returns (r: Result<Vector, Error>)
      requires CacheValid()
      modifies this`embeddings, this`embedCalls
      ensures CacheValid()
      ensures r.Err? <==> Fails(old(Reusable(key, text, model)), stop)
      ensures r.Ok? ==> r.value == embed(model, text)
      ensures r.Err? ==> stop.Some? && r == Err(Interrupted(stop.value))
      ensures embedCalls ==
        old(embedCalls) + if stop != Some(GetVector) && !old(Reusable(key, text, model)) then 1 else 0
      ensures embeddings == if r.Ok? && !old(Reusable(key, text, model))
                            then old(embeddings)[key := Embedding(embed(model, text), model, hash(text))]
                            else old(embeddings)
    {
      var inputHash := hash(text);
      if stop == Some(GetVector) {
        return Err(Interrupted(GetVector));
      }
      if key in embeddings && embeddings[key].model == model && embeddings[key].inputHash == inputHash {
        ReusedIsExact(embed, hash, embeddings[key], text);
        return Ok(embeddings[key].vector);
      }
      if stop == Some(EmbedText) || stop == Some(PersistVector) {
        embedCalls := embedCalls + 1;
        return Err(Interrupted(stop.value));
      }
      var vector := StoreVector(key, text, model);
      r := Ok(vector);
    }

    /** The vectors of the interests, unless one was embedded by another model. */
    method CollectVectors(model: Model) returns (vectors: seq<Vector>, same: bool)
      ensures same <==> SameModel(interests, model)
      ensures same ==> vectors == Vectors(interests)
    {
      vectors := [];
      for i := 0 to |interests|
        invariant |vectors| == i && SameModel(interests[..i], model)
        invariant forall j :: 0 <= j < i ==> vectors[j] == interests[j].embedding
      {
        if interests[i].model != model {
          return [], false;
        }
        vectors := vectors + [interests[i].embedding];
      }
      same := true;
    }

    /** One row per entity: a second score keeps the id and the creation time of the first. */
    method UpsertScore(key: ScoreKey, newId: ScoreId, value: real, model: Model, now: Time) returns (id: ScoreId)
      modifies this`scores
      ensures id == if key in old(scores) then old(scores)[key].id else newId
      ensures scores ==
        old(scores)[key := Score(id, value, model, if key in old(scores) then old(scores)[key].createdAt else now, now)]
    {
      if key in scores {
        scores := scores[key := scores[key].(value := value, model := model, updatedAt := now)];
      } else {
        scores := scores[key := Score(newId, value, model, now, now)];
      }
      id := scores[key].id;
    }

    /** The attempt calls Embed. */
    ghost predicate Pays(key: ScoreKey, model: Model, stop: Option<Stage>)
      reads this
    {
      Reaches(key, model, EmbedText) && stop != Some(ListInterests) && stop != Some(GetVector)
    }

    /** The cache after the attempt. */
    ghost function Kept(key: ScoreKey, model: Model, stop: Option<Stage>): map<ScoreKey, Embedding>
      reads this
    {
      if Reaches(key, model, PersistVector) && (stop.None? || stop == Some(PersistScore)) then
        var text := TextOf(key).value;
        embeddings[key := Embedding(embed(model, text), model, hash(text))]
      else embeddings
    }

    /** The part of an attempt that needs the entity's vector. */
    method Compare(key: ScoreKey, text: Text, model: Model, vectors: seq<Vector>, stop: Option<Stage>)
      returns (r: Result<real, Error>)
      requires CacheValid() && TextOf(key) == Some(text)
      requires interests != [] && SameModel(interests, model) && vectors == Vectors(interests)
      requires stop != Some(ListInterests)
      modifies this`embeddings, this`embedCalls
      ensures CacheValid()
      ensures r.Ok? <==>
        old(Reaches(key, model, PersistScore)) && (stop == Some(PersistScore) || !old(CutShort(key, model, stop)))
      ensures r.Ok? ==> IsRelevance(r.value, embed(model, text), Vectors(interests))
      ensures r.Err? && r.error.Interrupted? <==> stop != Some(PersistScore) && old(CutShort(key, model, stop))
      ensures r.Err? ==> r.error.Interrupted? || r.error.BadVector?
      ensures embedCalls == old(embedCalls) + if old(Pays(key, model, stop)) then 1 else 0
      ensures embeddings == old(Kept(key, model, stop))
    {
      var vector := ResolveVector(key, text, model, stop);
      if vector.Err? {
        return Err(vector.error);
      }
      var relevance := Relevance(sqrt, vector.value, vectors);
      if relevance.Err? {
        return Err(BadVector(relevance.error));
      }
      r := Ok(relevance.value);
    }

    /** Everything of an attempt before the score is stored. */
    method Evaluate(key: ScoreKey, text: Text, model: Model, stop: Option<Stage>) returns (r: Result<real, Error>)
      requires CacheValid() && TextOf(key) == Some(text)
      modifies this`embeddings, this`embedCalls
      ensures CacheValid()
      ensures r.Ok? <==>
        old(Reaches(key, model, PersistScore)) && (stop == Some(PersistScore) || !old(CutShort(key, model, stop)))
      ensures r.Ok? ==> IsRelevance(r.value, embed(model, text), Vectors(interests))
      ensures r.Err? && r.error.Interrupted? <==> stop != Some(PersistScore) && old(CutShort(key, model, stop))
      ensures r.Err? ==> !r.error.NoSummary? && !r.error.SummaryNotFound?
      ensures r == Err(StaleInterest) <==> stop != Some(ListInterests) && !SameModel(interests, model)
      ensures embedCalls == old(embedCalls) + if old(Pays(key, model, stop)) then 1 else 0
      ensures embeddings == old(Kept(key, model, stop))
    {
      if stop == Some(ListInterests) {
        return Err(Interrupted(ListInterests));
      }
      var vectors, same := CollectVectors(model);
      if !same {
        return Err(StaleInterest);
      }
      if |vectors| == 0 {
        assert interests == [];
        return Ok(0.0);
      }
      r := Compare(key, text, model, vectors, stop);
    }

    /**
      ScorePost.  Whatever is cached, a success stores the relevance that direct
      computation gives; only a text or model that is not cached costs an Embed call.
     */
    method ScorePost(key: ScoreKey, model: Model, newId: ScoreId, stop: Option<Stage>, now: Time)
      returns (r: Result<ScoreId, Error>)
      requires Valid()
      modifies this`embeddings, this`scores, this`basis, this`embedCalls
      ensures Valid()
      ensures r.Ok? <==> old(Reaches(key, model, PersistScore)) && !old(CutShort(key, model, stop))
      ensures r.Err? && r.error.Interrupted? <==> old(CutShort(key, model, stop))
      ensures r == Err(NoSummary) <==> key.PostKey? && TextOf(key).None?
      ensures r == Err(SummaryNotFound) <==> key.DigestKey? && TextOf(key).None?
      ensures r == Err(StaleInterest) <==>
        TextOf(key).Some? && stop != Some(ListInterests) && !SameModel(interests, model)
      ensures r == Err(StaleInterest) ==> exists i :: 0 <= i < |interests| && interests[i].model != model
      ensures r.Ok? ==> key in scores && scores == old(scores)[key := Score(r.value, scores[key].value, model,
        if key in old(scores) then old(scores)[key].createdAt else now, now)]
      ensures r.Ok? ==> basis == old(basis[key := Basis(TextOf(key).value, interests)])
      ensures r.Ok? ==> r.value == if key in old(scores) then old(scores)[key].id else newId
      ensures r.Err? ==> scores == old(scores) && basis == old(basis)
      ensures embedCalls == old(embedCalls) + if old(Pays(key, model, stop)) then 1 else 0
      ensures embeddings == old(Kept(key, model, stop))
    {
      var text := TextOf(key);
      if text.None? {
        return Err(if key.PostKey? then NoSummary else SummaryNotFound);
      }
      var value := Evaluate(key, text.value, model, stop);
      if value.Err? {
        return Err(value.error);
      }
      if stop == Some(PersistScore) {
        return Err(Interrupted(PersistScore));
      }
      var id := StoreScore(key, text.value, interests, value.value, model, newId, now);
      r := Ok(id);
    }

    /** One score is stored with what it was computed from. */
    method StoreScore(key: ScoreKey, text: Text, interests: seq<Interest>, value: real, model: Model, newId: ScoreId,
                      now: Time)
      returns (id: ScoreId)
      requires Valid() && SameModel(interests, model) && Comparable(embed(model, text), Vectors(interests))
      requires IsRelevance(value, embed(model, text), Vectors(interests))
      modifies this`scores, this`basis
      ensures Valid() && id == if key in old(scores) then old(scores)[key].id else newId
      ensures scores ==
        old(scores)[key := Score(id, value, model, if key in old(scores) then old(scores)[key].createdAt else now, now)]
      ensures basis == old(basis)[key := Basis(text, interests)]
    {
      id := UpsertScore(key, newId, value, model, now);
      ghost var b := Basis(text, interests);
      JustifiedAfter(embed, old(scores), basis, key, scores[key], b);
      basis := basis[key := b];
    }

    /** The paid call, and the upsert of what it returns. */
    method StoreVector(key: ScoreKey, text: Text, model: Model) returns (vector: Vector)
      requires CacheValid()
      modifies this`embeddings, this`embedCalls
      ensures CacheValid() && vector == embed(model, text) && embedCalls == old(embedCalls) + 1
      ensures embeddings == old(embeddings)[key := Embedding(vector, model, hash(text))]
    {
      vector := embed(model, text);
      embedCalls := embedCalls + 1;
      var row := Embedding(vector, model, hash(text));
      assert Faithful(embed, hash, row);
      embeddings := embeddings[key := row];
    }

    /** An attempt that gets its vector leaves it reusable. */
    lemma FilledReusable(key: ScoreKey, model: Model, stop: Option<Stage>)
      requires Reaches(key, model, GetVector) && (stop.None? || stop == Some(PersistScore))
      ensures key in Kept(key, model, stop) && Kept(key, model, stop)[key].model == model
      ensures Kept(key, model, stop)[key].inputHash == hash(TextOf(key).value)
    {
    }

    /** The attempt alone: the entity's vector is there to be reused. */
    method Fill(key: ScoreKey, model: Model, newId: ScoreId, stop: Option<Stage>, now: Time)
      requires Valid() && Reaches(key, model, GetVector) && (stop.None? || stop == Some(PersistScore))
      modifies this`embeddings, this`scores, this`basis, this`embedCalls
      ensures Valid() && TextOf(key).Some? && Reusable(key, TextOf(key).value, model) && TextOf(key) == old(TextOf(key))
    {
      ghost var text := TextOf(key).value;
      FilledReusable(key, model, stop);
      var attempt := ScorePost(key, model, newId, stop, now);
      assert Reusable(key, text, model);
    }
  }
}
