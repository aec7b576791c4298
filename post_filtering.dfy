/** source/post_filtering.cpp: an approximate index over all vectors is
    searched first and its candidates are filtered by the substring
    afterwards. The HNSW graph is not part of this model: its answer to a
    search is the parameter `search`, and `points` records the labels added
    to it. */
module PostFiltering {
  import opened Common
  import opened Filtering

  /** The labels `build` adds: 0, 1, ..., n - 1. */
  function Labels(n: nat): (ls: seq<int>)
    ensures |ls| == n && forall i | 0 <= i < n :: ls[i] == i
  {
    if n == 0 then [] else Labels(n - 1) + [n - 1]
  }

  class PostFiltering {
    var strs: seq<string>
    /** `num_elements` */
    var numElements: int
    /** Whether `hnsw` is set. */
    var built: bool
    /** The labels added to the index, in order. */
    var points: seq<int>
    /** The index's search width. */
    var ef: int
    /** The build with `USE_HNSW`; without it `query` is a stub. */
    const useHnsw: bool

    constructor(strs: seq<string>, numElements: int, useHnsw: bool)
      ensures this.strs == strs && this.numElements == numElements && this.useHnsw == useHnsw
      ensures !built && points == []
    {
      this.strs := strs;
      this.numElements := numElements;
      this.useHnsw := useHnsw;
      built, points, ef := false, [], 10;
    }

    /** `build`: only when no index exists yet, create one and add every id
        from 0 to `num_elements - 1` once. */
    method Build()
      modifies this
      ensures old(built) ==> points == old(points)
      ensures !old(built) ==> points == Labels(if numElements > 0 then numElements else 0)
      ensures built && strs == old(strs) && numElements == old(numElements) && ef == old(ef)
    {
      if built {
        return;
      }
      built := true;
      points := [];
      var i := 0;
      while i < numElements
        invariant 0 <= i && (numElements > 0 ==> i <= numElements) && (numElements <= 0 ==> i == 0)
        invariant points == Labels(i)
        invariant built && strs == old(strs) && numElements == old(numElements) && ef == old(ef)
      {
        points := points + [i];
        i := i + 1;
      }
    }

    /** `set_ef` */
    method SetEf(newEf: int)
      modifies this
      ensures ef == newEf
      ensures strs == old(strs) && numElements == old(numElements) && built == old(built) && points == old(points)
    {
      ef := newEf;
    }

    /** `query`: `ef_search` replaces the index's width when it is not 0;
        the index is asked for `ef_search` candidates, or `k` when it is 0;
        the candidates containing `s` are kept in the index's order until
        there are `k`. */
    method Query(vec: seq<real>, s: string, k: int32, efSearch: int32, search: (seq<real>, int) -> seq<int>)
      returns (results: seq<int>)
      modifies this
      ensures useHnsw ==> results == FirstMatches(search(vec, Width(k, efSearch)), Keep(strs, s), k)
      ensures !useHnsw ==> results == []
      ensures efSearch != 0 && useHnsw ==> ef == efSearch
      ensures efSearch == 0 || !useHnsw ==> ef == old(ef)
      ensures strs == old(strs) && numElements == old(numElements) && built == old(built) && points == old(points)
    {
      if !useHnsw {
        return [];
      }
      if efSearch != 0 {
        SetEf(efSearch);
      }
      var candidates := search(vec, Width(k, efSearch));
      results := TakeMatching(candidates, Keep(strs, s), k);
    }
  }

  /** The number of candidates asked of the index. */
  function Width(k: int32, efSearch: int32): (w: int32)
    ensures efSearch != 0 ==> w == efSearch
    ensures efSearch == 0 ==> w == k
  {
    if efSearch != 0 then efSearch else k
  }

  /** The string test: a stored id whose string contains `s`. */
  function Keep(strs: seq<string>, s: string): int -> bool
  {
    id => 0 <= id < |strs| && Contains(strs[id], s)
  }

  /** Every result is a candidate whose string contains `s`, in the index's
      order; for `k >= 1` there are at most `k`, and exactly `k` when enough
      candidates pass. */
  lemma QueryFacts(cands: seq<int>, strs: seq<string>, s: string, k: int32)
    ensures var r := FirstMatches(cands, Keep(strs, s), k);
      && (forall i | 0 <= i < |r| :: 0 <= r[i] < |strs| && Contains(strs[r[i]], s))
      && multiset(r) <= multiset(cands)
      && r <= Filter(cands, Keep(strs, s))
      && (k >= 1 ==> |r| == Min(k, |Filter(cands, Keep(strs, s))|))
  {
    var r := FirstMatches(cands, Keep(strs, s), k);
    FirstMatchesFacts(cands, Keep(strs, s), k);
    forall i | 0 <= i < |r| ensures 0 <= r[i] < |strs| && Contains(strs[r[i]], s) {
      assert Keep(strs, s)(r[i]);
    }
  }
}
