/** source/pre_filtering.cpp: the suffix automaton locates the state of the
    pattern, whose id list holds every string containing it; the query ranks
    those ids by distance and keeps k. The automaton is not part of this
    model: `located` is the id list of the state `gsa.query(s)` finds, or
    None when it answers -1. */
module PreFiltering {
  import opened Common
  import opened Ranking

  /** The query's outcome: the ids, or the `std::length_error` that
      `resize` throws when a negative `k` becomes a huge `size_t`. */
  datatype Outcome = Ids(ids: seq<int>) | LengthError

  /** `query`, stated without the copy loop: no state gives no ids; a
      negative `k` makes `resize` throw; otherwise the state's ids nearest
      first, `min(k, |ids|)` of them. `threshold` plays no part. */
  function Answer(located: Option<seq<int>>, key: int -> real, k: int32): Outcome
  {
    match located
    case None => Ids([])
    case Some(ids) => if k < 0 then LengthError else Ids(Nearest(ids, key, k))
  }

  /** `query`: copy the state's ids, sort them by distance, resize to
      `min(k, size)`. */
  method Query(located: Option<seq<int>>, vecs: seq<seq<real>>, vec: seq<real>, k: int32, threshold: int32,
               distance: (seq<real>, seq<real>) -> real)
    returns (out: Outcome)
    ensures out == Answer(located, DistanceKey(vecs, vec, distance), k)
  {
    if located.None? {
      return Ids([]);
    }
    var stateIds := located.value;
    var results := [];
    for j := 0 to |stateIds|
      invariant results == stateIds[..j]
    {
      results := results + [stateIds[j]];
    }
    assert results == stateIds;
    results := SortBy(results, DistanceKey(vecs, vec, distance));
    if k < 0 {
      return LengthError;
    }
    out := Ids(Truncate(results, k));
  }

  /** A pattern the automaton does not know gives no result, whatever `k`. */
  lemma UnknownPatternEmpty(key: int -> real, k: int32)
    ensures Answer(None, key, k) == Ids([])
  {
  }

  /** For `k >= 0` the result reorders part of the located ids, in
      non-decreasing distance, `min(k, |ids|)` of them; no id left out is
      closer than one kept. */
  lemma AnswerFacts(ids: seq<int>, key: int -> real, k: int32)
    requires k >= 0
    ensures Answer(Some(ids), key, k).Ids?
    ensures var r := Answer(Some(ids), key, k).ids;
      && multiset(r) <= multiset(ids)
      && SortedBy(r, key)
      && |r| == Min(k, |ids|)
      && (forall x, y | x in ids && x !in r && y in r :: key(y) <= key(x))
  {
    NearestFacts(ids, key, k);
    NearestClosest(ids, key, k);
  }
}
