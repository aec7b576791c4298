/** The scan that PostFiltering::query and Baseline::query share: walk the
    index's candidates closest first, keep the ones that pass the string
    test, and stop as soon as k are kept. The size test comes after every
    candidate, kept or not, and compares with `k` converted to `size_t`. */
module Filtering {
  import opened Common

  /** What the scan returns, stated without the loop: the first `k` passing
      candidates for `k >= 1`; for `k == 0` the test after the first
      candidate already stops it, so the first candidate if it passes; for a
      negative `k` (a huge `size_t`) every passing candidate. */
  function FirstMatches(cands: seq<int>, keep: int -> bool, k: int32): (r: seq<int>)
    ensures r <= Filter(cands, keep)
  {
    if k >= 1 then Prefix(Filter(cands, keep), k)
    else if k == 0 then
      (if cands != [] && keep(cands[0]) then [cands[0]] else [])
    else Filter(cands, keep)
  }

  /** The loop: push the candidate if it passes, then stop once there are
      `k` results. */
  method TakeMatching(cands: seq<int>, keep: int -> bool, k: int32) returns (results: seq<int>)
    ensures results == FirstMatches(cands, keep, k)
  {
    results := [];
    var i := 0;
    while i < |cands|
      invariant 0 <= i <= |cands|
      invariant results == Filter(cands[..i], keep)
      invariant k >= 1 ==> |results| < k
      invariant k == 0 ==> i == 0
    {
      FilterStep(cands, keep, i);
      if keep(cands[i]) {
        results := results + [cands[i]];
      }
      // no vector reaches the size a negative `k` wraps to
      if k >= 0 && |results| >= AsSize(k) {
        StopEarly(cands, keep, k, i + 1);
        return;
      }
      i := i + 1;
    }
    assert cands[..i] == cands;
  }

  /** The scan stopped after `n` candidates, with `k` passing ones for the
      first time (or after the first candidate for `k == 0`). */
  lemma StopEarly(cands: seq<int>, keep: int -> bool, k: int32, n: nat)
    requires 1 <= n <= |cands| && k >= 0
    requires |Filter(cands[..n], keep)| >= k
    requires k >= 1 ==> |Filter(cands[..n - 1], keep)| < k
    requires k == 0 ==> n == 1
    ensures Filter(cands[..n], keep) == FirstMatches(cands, keep, k)
  {
    FilterPrefix(cands, keep, n);
    FilterStep(cands, keep, n - 1);
    if k == 0 {
      assert cands[..1] == [cands[0]];
      assert [cands[0]][1..] == [];
    }
  }

  /** One more candidate scanned. */
  lemma FilterStep(cands: seq<int>, keep: int -> bool, i: nat)
    requires i < |cands|
    ensures Filter(cands[..i + 1], keep) == Filter(cands[..i], keep) + (if keep(cands[i]) then [cands[i]] else [])
  {
    assert cands[..i + 1] == cands[..i] + [cands[i]];
    FilterAppend(cands[..i], [cands[i]], keep);
    assert [cands[i]][1..] == [];
  }

  /** The passing candidates of a prefix are a prefix of all the passing
      candidates. */
  lemma FilterPrefix(cands: seq<int>, keep: int -> bool, n: nat)
    requires n <= |cands|
    ensures Filter(cands[..n], keep) <= Filter(cands, keep)
  {
    assert cands == cands[..n] + cands[n..];
    FilterAppend(cands[..n], cands[n..], keep);
  }

  /** Every result passes the test and is a candidate, in candidate order;
      for `k >= 1` there are min(k, passing candidates) of them. */
  lemma FirstMatchesFacts(cands: seq<int>, keep: int -> bool, k: int32)
    ensures forall i | 0 <= i < |FirstMatches(cands, keep, k)| :: keep(FirstMatches(cands, keep, k)[i])
    ensures multiset(FirstMatches(cands, keep, k)) <= multiset(cands)
    ensures k >= 1 ==> |FirstMatches(cands, keep, k)| == Min(k, |Filter(cands, keep)|)
    ensures k == 0 ==> |FirstMatches(cands, keep, k)| <= 1
    ensures k < 0 ==> FirstMatches(cands, keep, k) == Filter(cands, keep)
  {
    var f := Filter(cands, keep);
    var r := FirstMatches(cands, keep, k);
    FilterMembers(cands, keep);
    assert f == r + f[|r|..];
    assert multiset(f) == multiset(r) + multiset(f[|r|..]);
    forall i | 0 <= i < |r| ensures keep(r[i]) {
      assert r[i] == f[i];
    }
  }
}
