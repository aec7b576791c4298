/** source/exact.cpp: the brute-force back-end. It stores every string and
    vector; a query scans all of them for the substring, sorts the matches by
    distance and keeps the first k. */
module Exact {
  import opened Common
  import opened Ranking

  /** The ids among the first `n` whose string contains `s`, in id order:
      the scan at the start of `query`. */
  function Matches(strs: seq<string>, s: string, n: nat): (ids: seq<int>)
    requires n <= |strs|
    ensures forall x :: x in ids <==> 0 <= x < n && Contains(strs[x], s)
    ensures forall i | 0 <= i < |ids| :: 0 <= ids[i] < n
    ensures Increasing(ids)
  {
    if n == 0 then []
    else
      var before := Matches(strs, s, n - 1);
      if Contains(strs[n - 1], s) then before + [n - 1] else before
  }

  class ExactSearch {
    var strs: seq<string>
    var vecs: seq<seq<real>>

    constructor()
      ensures strs == [] && vecs == []
    {
      strs, vecs := [], [];
    }

    /** `insert`: appends the pair; the id is the position of the new
        string. */
    method Insert(vec: seq<real>, s: string) returns (id: int)
      modifies this
      ensures strs == old(strs) + [s] && vecs == old(vecs) + [vec]
      ensures id == |old(strs)| && strs[id] == s
    {
      strs := strs + [s];
      vecs := vecs + [vec];
      id := |strs| - 1;
    }

    /** `remove` has no body yet: it changes nothing. */
    method Remove(id: int)
      ensures unchanged(this)
    {
    }

    /** `query`: the matches sorted by distance to `vec`, at most `k` of
        them. */
    method Query(vec: seq<real>, s: string, k: int32, distance: (seq<real>, seq<real>) -> real) returns (results: seq<int>)
      ensures results == Nearest(Matches(strs, s, |strs|), DistanceKey(vecs, vec, distance), k)
    {
      results := [];
      for i := 0 to |strs|
        invariant results == Matches(strs, s, i)
      {
        if Contains(strs[i], s) {
          results := results + [i];
        }
      }
      results := SortBy(results, DistanceKey(vecs, vec, distance));
      results := Truncate(results, k);
    }
  }

  /** What `query` answers, as a function of the stored data. */
  function Answer(strs: seq<string>, vecs: seq<seq<real>>, vec: seq<real>, s: string, k: int32, distance: (seq<real>, seq<real>) -> real): seq<int>
  {
    Nearest(Matches(strs, s, |strs|), DistanceKey(vecs, vec, distance), k)
  }

  /** Every answer is a stored id whose string contains `s`, with no repeat,
      in non-decreasing distance; for `k >= 0` there are min(k, matches) of
      them (all matches for a negative `k`), and no match left out is closer
      than one returned. */
  lemma AnswerFacts(strs: seq<string>, vecs: seq<seq<real>>, vec: seq<real>, s: string, k: int32, distance: (seq<real>, seq<real>) -> real)
    ensures var r := Answer(strs, vecs, vec, s, k, distance);
      var key := DistanceKey(vecs, vec, distance);
      && (forall x | x in r :: 0 <= x < |strs| && Contains(strs[x], s))
      && Distinct(r)
      && SortedBy(r, key)
      && |r| == (if k >= 0 then Min(k, |Matches(strs, s, |strs|)|) else |Matches(strs, s, |strs|)|)
      && (forall x, y | 0 <= x < |strs| && Contains(strs[x], s) && x !in r && y in r :: key(y) <= key(x))
  {
    var m := Matches(strs, s, |strs|);
    var key := DistanceKey(vecs, vec, distance);
    assert Distinct(m);
    NearestFacts(m, key, k);
    NearestDistinct(m, key, k);
    NearestClosest(m, key, k);
  }

  /** With at most `k` matches, every match is returned. */
  lemma AllMatchesWhenFew(strs: seq<string>, vecs: seq<seq<real>>, vec: seq<real>, s: string, k: int32, distance: (seq<real>, seq<real>) -> real, x: int)
    requires |Matches(strs, s, |strs|)| <= k
    requires 0 <= x < |strs| && Contains(strs[x], s)
    ensures x in Answer(strs, vecs, vec, s, k, distance)
  {
    var m := Matches(strs, s, |strs|);
    var key := DistanceKey(vecs, vec, distance);
    assert Truncate(SortBy(m, key), k) == SortBy(m, key);
    assert x in multiset(m);
  }

  /** The squared Euclidean distance: ordered as the distance itself. */
  function SquaredDistance(a: seq<real>, b: seq<real>): real
  {
    if a == [] || b == [] then 0.0 else (a[0] - b[0]) * (a[0] - b[0]) + SquaredDistance(a[1..], b[1..])
  }

  /** The five strings of the example in test_vector_db.cpp. */
  function ExampleStrings(): seq<string>
  {
    ["banana", "anana", "nana", "ana", "na"]
  }

  function ExampleVectors(): seq<seq<real>>
  {
    [[1.0, 2.0, 3.0], [4.0, 5.0, 6.0], [7.0, 8.0, 9.0], [10.0, 11.0, 12.0], [13.0, 14.0, 15.0]]
  }

  /** The 2 nearest of (9, 10, 11) among the strings containing "ana" are
      ids 3 and 2: the properties of `AnswerFacts` leave no other answer. */
  lemma ExampleAna()
    ensures Answer(ExampleStrings(), ExampleVectors(), [9.0, 10.0, 11.0], "ana", 2, SquaredDistance) == [3, 2]
  {
    var strs := ExampleStrings();
    var key := DistanceKey(ExampleVectors(), [9.0, 10.0, 11.0], SquaredDistance);
    var r := Answer(strs, ExampleVectors(), [9.0, 10.0, 11.0], "ana", 2, SquaredDistance);
    ExampleMatches();
    ExampleKeys();
    AnswerFacts(strs, ExampleVectors(), [9.0, 10.0, 11.0], "ana", 2, SquaredDistance);
    var m := Matches(strs, "ana", 5);
    assert forall x | x in r :: x in m;
    assert forall x | x in m :: 0 <= x < |strs| && Contains(strs[x], "ana");
    TwoNearest(r, key);
  }

  /** Among ids 0..3 with keys 192, 75, 12 and 3, the two nearest in order
      are 3 and 2. */
  lemma TwoNearest(r: seq<int>, key: int -> real)
    requires key(0) == 192.0 && key(1) == 75.0 && key(2) == 12.0 && key(3) == 3.0
    requires |r| == 2 && Distinct(r) && SortedBy(r, key)
    requires forall x | x in r :: x in [0, 1, 2, 3]
    requires forall x, y | x in [0, 1, 2, 3] && x !in r && y in r :: key(y) <= key(x)
    ensures r == [3, 2]
  {
    assert r[0] in r && r[1] in r;
  }

  lemma ExampleMatches()
    ensures Matches(ExampleStrings(), "ana", 5) == [0, 1, 2, 3]
  {
    var strs := ExampleStrings();
    assert OccursAt(strs[0], "ana", 1);
    assert OccursAt(strs[1], "ana", 0);
    assert OccursAt(strs[2], "ana", 1);
    assert OccursAt(strs[3], "ana", 0);
    assert !Contains(strs[4], "ana");
  }

  lemma ExampleKeys()
    ensures var key := DistanceKey(ExampleVectors(), [9.0, 10.0, 11.0], SquaredDistance);
      key(0) == 192.0 && key(1) == 75.0 && key(2) == 12.0 && key(3) == 3.0
  {
    var q := [9.0, 10.0, 11.0];
    assert SquaredDistance([1.0, 2.0, 3.0], q) == 192.0 by {
      assert [1.0, 2.0, 3.0][1..] == [2.0, 3.0] && q[1..] == [10.0, 11.0];
      assert [2.0, 3.0][1..] == [3.0] && [10.0, 11.0][1..] == [11.0];
      assert [3.0][1..] == [] && [11.0][1..] == [];
    }
    assert SquaredDistance([4.0, 5.0, 6.0], q) == 75.0 by {
      assert [4.0, 5.0, 6.0][1..] == [5.0, 6.0] && q[1..] == [10.0, 11.0];
      assert [5.0, 6.0][1..] == [6.0] && [10.0, 11.0][1..] == [11.0];
      assert [6.0][1..] == [] && [11.0][1..] == [];
    }
    assert SquaredDistance([7.0, 8.0, 9.0], q) == 12.0 by {
      assert [7.0, 8.0, 9.0][1..] == [8.0, 9.0] && q[1..] == [10.0, 11.0];
      assert [8.0, 9.0][1..] == [9.0] && [10.0, 11.0][1..] == [11.0];
      assert [9.0][1..] == [] && [11.0][1..] == [];
    }
    assert SquaredDistance([10.0, 11.0, 12.0], q) == 3.0 by {
      assert [10.0, 11.0, 12.0][1..] == [11.0, 12.0] && q[1..] == [10.0, 11.0];
      assert [11.0, 12.0][1..] == [12.0] && [10.0, 11.0][1..] == [11.0];
      assert [12.0][1..] == [] && [11.0][1..] == [];
    }
  }

  /** Only "banana" contains "banana": the answer is id 0 alone, fewer than
      the 2 asked for. */
  lemma ExampleBanana()
    ensures Answer(ExampleStrings(), ExampleVectors(), [9.0, 10.0, 11.0], "banana", 2, SquaredDistance) == [0]
  {
    var strs := ExampleStrings();
    assert OccursAt(strs[0], "banana", 0);
    assert !Contains(strs[1], "banana") && !Contains(strs[2], "banana");
    assert !Contains(strs[3], "banana") && !Contains(strs[4], "banana");
    assert Matches(strs, "banana", 5) == [0];
    var key := DistanceKey(ExampleVectors(), [9.0, 10.0, 11.0], SquaredDistance);
    assert SortBy([0], key) == [0] by {
      assert [0][1..] == [];
    }
  }
}
