/** The tail that ExactSearch::query and PreFiltering::query share: sort the
    candidate ids by distance to the query vector, then keep the first k. */
module Ranking {
  import opened Common

  /** The ordering key of stored id `i` for a query vector: its distance
      (the model's `distance` is any real-valued function). */
  function DistanceKey(vecs: seq<seq<real>>, vec: seq<real>, distance: (seq<real>, seq<real>) -> real): int -> real
  {
    i => if 0 <= i < |vecs| then distance(vecs[i], vec) else 0.0
  }

  /** `if (results.size() > k) results.resize(k);` with `k` an `int`: the
      comparison converts `k` to `size_t`, so a negative `k` keeps all (no
      vector reaches the wrapped size). */
  function Truncate<T>(s: seq<T>, k: int32): (r: seq<T>)
    ensures k >= 0 ==> |r| == Min(k, |s|)
    ensures k < 0 ==> r == s
    ensures r <= s
  {
    if k >= 0 && |s| > AsSize(k) then s[..k] else s
  }

  /** Sort by the distance key, then truncate to `k`. */
  function Nearest(ids: seq<int>, key: int -> real, k: int32): seq<int>
  {
    Truncate(SortBy(ids, key), k)
  }

  /** The answer to a k-nearest query over candidate ids is sorted by key,
      a reordering of part of the candidates, and as long as `k` allows. */
  lemma NearestFacts(ids: seq<int>, key: int -> real, k: int32)
    ensures SortedBy(Nearest(ids, key, k), key)
    ensures multiset(Nearest(ids, key, k)) <= multiset(ids)
    ensures |Nearest(ids, key, k)| == if k >= 0 then Min(k, |ids|) else |ids|
  {
    PrefixSorted(SortBy(ids, key), key, |Nearest(ids, key, k)|);
    PrefixPart(SortBy(ids, key), |Nearest(ids, key, k)|);
  }

  lemma PrefixSorted(p: seq<int>, key: int -> real, n: nat)
    requires SortedBy(p, key) && n <= |p|
    ensures SortedBy(p[..n], key)
  {
    var r := p[..n];
    forall i, j | 0 <= i < j < |r| ensures key(r[i]) <= key(r[j]) {
      assert r[i] == p[i] && r[j] == p[j];
    }
  }

  lemma PrefixPart(p: seq<int>, n: nat)
    requires n <= |p|
    ensures multiset(p[..n]) <= multiset(p)
  {
    assert p == p[..n] + p[n..];
  }

  /** Candidates without repeats give an answer without repeats. */
  lemma NearestDistinct(ids: seq<int>, key: int -> real, k: int32)
    requires Distinct(ids)
    ensures Distinct(Nearest(ids, key, k))
    ensures forall x | x in Nearest(ids, key, k) :: x in ids
  {
    var p := SortBy(ids, key);
    DistinctByMultiset(ids, p);
    SameMembers(ids, p);
    var r := Truncate(p, k);
    forall i, j | 0 <= i < j < |r| ensures r[i] != r[j] {
      assert r[i] == p[i] && r[j] == p[j];
    }
  }

  /** No candidate left out of the answer is strictly closer than one kept
      in it. */
  lemma NearestClosest(ids: seq<int>, key: int -> real, k: int32)
    ensures forall x, y | x in ids && x !in Nearest(ids, key, k) && y in Nearest(ids, key, k) :: key(y) <= key(x)
  {
    var p := SortBy(ids, key);
    var r := Truncate(p, k);
    SameMembers(ids, p);
    assert p == r + p[|r|..];
    forall x | x in ids && x !in r ensures x in p[|r|..] {
      assert x in p;
    }
    PrefixClosest(p, |r|, key);
  }

  lemma SameMembers(s: seq<int>, t: seq<int>)
    requires multiset(t) == multiset(s)
    ensures forall x :: x in t <==> x in s
  {
    forall x ensures x in t <==> x in s {
      assert x in t <==> x in multiset(t);
      assert x in s <==> x in multiset(s);
    }
  }

  /** In a sorted sequence nothing after position `n` is closer than
      anything before it. */
  lemma PrefixClosest(p: seq<int>, n: nat, key: int -> real)
    requires SortedBy(p, key) && n <= |p|
    ensures forall x, y | x in p[n..] && y in p[..n] :: key(y) <= key(x)
  {
    forall x, y | x in p[n..] && y in p[..n] ensures key(y) <= key(x) {
      var j :| 0 <= j < |p| - n && p[n..][j] == x;
      var i :| 0 <= i < n && p[..n][i] == y;
      assert p[i] == y && p[n + j] == x;
    }
  }

  /** A reordering of a sequence without repeats has no repeats. */
  lemma DistinctByMultiset(s: seq<int>, t: seq<int>)
    requires Distinct(s) && multiset(t) == multiset(s)
    ensures Distinct(t)
  {
    AtMostOnce(s);
    forall i, j | 0 <= i < j < |t| ensures t[i] != t[j] {
      if t[i] == t[j] {
        TwiceCounted(t, i, j);
        assert false;
      }
    }
  }

  lemma {:induction false} AtMostOnce(s: seq<int>)
    requires Distinct(s)
    ensures forall x :: multiset(s)[x] <= 1
  {
    if s != [] {
      AtMostOnce(s[1..]);
      assert s == [s[0]] + s[1..];
      assert s[0] !in s[1..];
    }
  }

  lemma TwiceCounted(t: seq<int>, i: nat, j: nat)
    requires i < j < |t| && t[i] == t[j]
    ensures multiset(t)[t[i]] >= 2
  {
    assert t == t[..i] + [t[i]] + t[i + 1..j] + [t[j]] + t[j + 1..];
  }
}
