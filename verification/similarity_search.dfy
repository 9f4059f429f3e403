/** The best-match search of `searchCache` (src/background.js): a linear scan
    that keeps the record with the highest similarity to the query, followed
    by a strict confidence threshold. Similarity is `cos_sim` over IEEE
    doubles in the source; here it is an abstract real-valued function. */
module SimilaritySearch {
  import opened Wrappers
  import opened CacheStore

  /** A match must score strictly above this to be reported. It is the
      value of the double literal `0.92` (the nearest binary64 number to
      0.92), so comparing a double score against it as a real gives the same
      answer as the double comparison. */
  const Threshold: real := 0.92000000000000003996802888650563545525074005126953125

  /** Starting value of the running maximum in the scan. */
  const Floor: real := -1.0

  /** Similarity of a query vector to a stored vector. */
  type Similarity = (Embedding, Embedding) -> real

  /** The `{match, similarity}` object returned on success. */
  datatype Match = Match(entry: Entry, similarity: real)

  /** State of the scan: the best record seen so far (`bestMatch`) and its
      score (`highestSimilarity`). */
  datatype Scanned = Scanned(best: Option<Entry>, highest: real)

  function Score(sim: Similarity, query: Embedding, e: Entry): real
  {
    sim(query, e.embedding)
  }

  /** `k` is the first position holding the highest score of the cache. */
  predicate IsFirstBest(cache: Cache, query: Embedding, sim: Similarity, k: int)
  {
    && 0 <= k < |cache|
    && (forall j | 0 <= j < |cache| :: Score(sim, query, cache[j]) <= Score(sim, query, cache[k]))
    && (forall j | 0 <= j < k :: Score(sim, query, cache[j]) < Score(sim, query, cache[k]))
  }

  /** The `for (const item of cache)` loop, as a left fold: the scan of a
      cache is the scan of all but its last record, updated by the last one
      only when that record scores strictly higher. */
  function Scan(cache: Cache, query: Embedding, sim: Similarity): (r: Scanned)
    ensures r.highest >= Floor
    ensures forall j | 0 <= j < |cache| :: Score(sim, query, cache[j]) <= r.highest
    ensures r.best.None? ==> r.highest == Floor
    ensures r.best.Some? <==> exists j | 0 <= j < |cache| :: Score(sim, query, cache[j]) > Floor
    ensures r.best.Some? ==>
      exists k :: IsFirstBest(cache, query, sim, k) && cache[k] == r.best.value
        && Score(sim, query, cache[k]) == r.highest
    decreases |cache|
  {
    if |cache| == 0 then Scanned(None, Floor)
    else
      var init := cache[..|cache| - 1];
      var prev := Scan(init, query, sim);
      assert forall j | 0 <= j < |init| :: init[j] == cache[j];
      var s := Score(sim, query, cache[|cache| - 1]);
      if s > prev.highest then
        NewBestAtEnd(cache, init, query, sim);
        Scanned(Some(cache[|cache| - 1]), s)
      else
        KeepBest(cache, init, query, sim, prev.highest, prev.best);
        prev
  }

  /** Scan step where the last record beats every earlier score: it is the
      first best record. */
  lemma NewBestAtEnd(cache: Cache, init: Cache, query: Embedding, sim: Similarity)
    requires |cache| > 0 && init == cache[..|cache| - 1]
    requires forall j | 0 <= j < |init| :: Score(sim, query, init[j]) < Score(sim, query, cache[|cache| - 1])
    ensures IsFirstBest(cache, query, sim, |cache| - 1)
  {
  }

  /** Scan step where the last record does not beat the running maximum:
      whatever was best for the earlier records stays best. */
  lemma KeepBest(cache: Cache, init: Cache, query: Embedding, sim: Similarity, highest: real, best: Option<Entry>)
    requires |cache| > 0 && init == cache[..|cache| - 1]
    requires forall j | 0 <= j < |init| :: Score(sim, query, init[j]) <= highest
    requires Score(sim, query, cache[|cache| - 1]) <= highest
    requires best.Some? ==>
      exists k :: IsFirstBest(init, query, sim, k) && init[k] == best.value
        && Score(sim, query, init[k]) == highest
    ensures forall j | 0 <= j < |cache| :: Score(sim, query, cache[j]) <= highest
    ensures best.Some? ==>
      exists k :: IsFirstBest(cache, query, sim, k) && cache[k] == best.value
        && Score(sim, query, cache[k]) == highest
  {
    assert forall j | 0 <= j < |init| :: init[j] == cache[j];
    if best.Some? {
      var k :| IsFirstBest(init, query, sim, k) && init[k] == best.value && Score(sim, query, init[k]) == highest;
      assert IsFirstBest(cache, query, sim, k);
    }
  }

  /** Scan, then apply the threshold: a match is reported only when the
      highest similarity is strictly above Threshold. */
  function Search(cache: Cache, query: Embedding, sim: Similarity): (r: Option<Match>)
    ensures |cache| == 0 ==> r == None
    ensures r.Some? <==> exists j | 0 <= j < |cache| :: Score(sim, query, cache[j]) > Threshold
    ensures r.Some? ==>
      exists k :: IsFirstBest(cache, query, sim, k)
        && r.value == Match(cache[k], Score(sim, query, cache[k]))
  {
    var scanned := Scan(cache, query, sim);
    if scanned.highest > Threshold then
      Some(Match(scanned.best.value, scanned.highest))
    else
      None
  }

  /** There is only one first best position, so the contract of Search pins
      its result down completely. */
  lemma FirstBestUnique(cache: Cache, query: Embedding, sim: Similarity, k1: int, k2: int)
    requires IsFirstBest(cache, query, sim, k1)
    requires IsFirstBest(cache, query, sim, k2)
    ensures k1 == k2
  {
    assert Score(sim, query, cache[k1]) == Score(sim, query, cache[k2]);
  }

  /** Any answer meeting the description "the first best record, when its
      score is strictly above Threshold, else none" is the one Search gives. */
  lemma SearchIsDetermined(cache: Cache, query: Embedding, sim: Similarity, r: Option<Match>)
    requires r.Some? <==> exists j | 0 <= j < |cache| :: Score(sim, query, cache[j]) > Threshold
    requires r.Some? ==>
      exists k :: IsFirstBest(cache, query, sim, k)
        && r.value == Match(cache[k], Score(sim, query, cache[k]))
    ensures r == Search(cache, query, sim)
  {
  }

  /** Threshold strictness: a lone record scoring exactly Threshold is not a
      match, while one scoring above it is. */
  lemma ThresholdIsStrict(e: Entry, query: Embedding, sim: Similarity)
    ensures Score(sim, query, e) == Threshold ==> Search([e], query, sim) == None
    ensures Score(sim, query, e) > Threshold ==>
      Search([e], query, sim) == Some(Match(e, Score(sim, query, e)))
  {
  }

  /** Tie-break: of two records with the same winning score, the earlier one
      is reported, even if the later one is a different record. */
  lemma TieGoesToEarliest(a: Entry, b: Entry, query: Embedding, sim: Similarity)
    requires Score(sim, query, a) == Score(sim, query, b) > Threshold
    ensures Search([a, b], query, sim) == Some(Match(a, Score(sim, query, a)))
  {
    var r := Search([a, b], query, sim);
    assert Score(sim, query, [a, b][0]) > Threshold;
    var k :| IsFirstBest([a, b], query, sim, k) && r.value == Match([a, b][k], Score(sim, query, [a, b][k]));
    assert k == 0;
  }

  /** Three records scoring 0.80, 0.95 and 0.93 in insertion order: the
      second is reported with similarity 0.95. */
  lemma ScenarioBestOfThree(a: Entry, b: Entry, c: Entry, query: Embedding, sim: Similarity)
    requires Score(sim, query, a) == 0.80
    requires Score(sim, query, b) == 0.95
    requires Score(sim, query, c) == 0.93
    ensures Search([a, b, c], query, sim) == Some(Match(b, 0.95))
  {
    var cache := [a, b, c];
    assert Score(sim, query, cache[1]) > Threshold;
    var r := Search(cache, query, sim);
    var k :| IsFirstBest(cache, query, sim, k) && r.value == Match(cache[k], Score(sim, query, cache[k]));
    assert k == 1;
  }

  /** A record just inserted that scores above Threshold and strictly above
      every record already stored is the one a search then reports. */
  lemma SearchFindsNewBest(cache: Cache, e: Entry, query: Embedding, sim: Similarity)
    requires Score(sim, query, e) > Threshold
    requires forall j | 0 <= j < |cache| :: Score(sim, query, cache[j]) < Score(sim, query, e)
    ensures Search(Insert(cache, e), query, sim) == Some(Match(e, Score(sim, query, e)))
  {
  }
}
