/** plot_sift.py `_clean_curve`: the reduction of a recall/throughput curve
    before it is plotted. Points are deleted in place from the paired qps
    and recall arrays by a dominance pass and a low-recall pass, and the
    survivors are reordered by ascending recall. */
module Curve {
  import opened Common

  /** One measured point: throughput and recall at one search width. */
  datatype Point = Point(qps: real, recall: real)

  /** The recall a point must exceed to be kept by the second pass. */
  const LOW_RECALL: real := 0.1
  /** The least recall gain that keeps a slower point in the first pass. */
  const MIN_GAIN: real := 0.01

  /** The two parallel arrays as one sequence of points. */
  function Zip(qps: seq<real>, recall: seq<real>): (ps: seq<Point>)
    requires |qps| == |recall|
    ensures |ps| == |qps|
    ensures forall i | 0 <= i < |ps| :: ps[i] == Point(qps[i], recall[i])
  {
    seq(|qps|, i requires 0 <= i < |qps| => Point(qps[i], recall[i]))
  }

  /** The qps and the recall arrays of a sequence of points. */
  function Unzip(ps: seq<Point>): (cols: (seq<real>, seq<real>))
    ensures |cols.0| == |cols.1| == |ps|
    ensures forall i | 0 <= i < |ps| :: cols.0[i] == ps[i].qps && cols.1[i] == ps[i].recall
  {
    (seq(|ps|, i requires 0 <= i < |ps| => ps[i].qps), seq(|ps|, i requires 0 <= i < |ps| => ps[i].recall))
  }

  lemma ZipDelete(qps: seq<real>, recall: seq<real>, j: nat)
    requires |qps| == |recall| && j < |qps|
    ensures Zip(Delete(qps, j), Delete(recall, j)) == Delete(Zip(qps, recall), j)
  {
  }

  /** Splitting a curve into its two arrays and pairing them again gives
      the curve back. */
  lemma ZipOfParts(ps: seq<Point>)
    ensures Zip(Unzip(ps).0, Unzip(ps).1) == ps
  {
  }

  /** Pairing two equally long arrays and splitting them again gives the
      arrays back. */
  lemma UnzipOfZip(qps: seq<real>, recall: seq<real>)
    requires |qps| == |recall|
    ensures Unzip(Zip(qps, recall)) == (qps, recall)
  {
    var cols := Unzip(Zip(qps, recall));
    assert cols.0 == qps && cols.1 == recall;
  }

  /** The first pass from position `i` on: a point is dropped when the next
      one is at least as fast, and a point is dropped when it is slower than
      its predecessor without gaining more than MIN_GAIN recall. */
  function FirstPass(ps: seq<Point>, i: nat): (r: seq<Point>)
    requires i >= 1
    ensures ps != [] ==> r != []
    decreases |ps|, |ps| - i
  {
    if i >= |ps| then ps
    else if ps[i].qps >= ps[i - 1].qps then FirstPass(Delete(ps, i - 1), i)
    else if ps[i].recall <= ps[i - 1].recall + MIN_GAIN then FirstPass(Delete(ps, i), i)
    else FirstPass(ps, i + 1)
  }

  /** Both arrays are always cut at the same index, so the first pass keeps
      a sub-multiset of the input points. */
  lemma {:induction false} FirstPassDeletesPoints(ps: seq<Point>, i: nat)
    requires i >= 1
    ensures multiset(FirstPass(ps, i)) <= multiset(ps)
    decreases |ps|, |ps| - i
  {
    if i >= |ps| {
    } else if ps[i].qps >= ps[i - 1].qps {
      FirstPassDeletesPoints(Delete(ps, i - 1), i);
      DeletedFromFirstPass(ps, i - 1, i);
    } else if ps[i].recall <= ps[i - 1].recall + MIN_GAIN {
      FirstPassDeletesPoints(Delete(ps, i), i);
      DeletedFromFirstPass(ps, i, i);
    } else {
      FirstPassDeletesPoints(ps, i + 1);
    }
  }

  /** One deletion step of the first pass keeps a sub-multiset. */
  lemma DeletedFromFirstPass(ps: seq<Point>, j: nat, i: nat)
    requires i >= 1 && j < |ps|
    requires multiset(FirstPass(Delete(ps, j), i)) <= multiset(Delete(ps, j))
    ensures multiset(FirstPass(Delete(ps, j), i)) <= multiset(ps)
  {
    DeleteMultiset(ps, j);
  }

  /** Every step is slower and gains more than MIN_GAIN recall. */
  predicate Improving(ps: seq<Point>)
  {
    forall j | 1 <= j < |ps| :: ps[j].qps < ps[j - 1].qps && ps[j].recall > ps[j - 1].recall + MIN_GAIN
  }

  /** A curve that already improves at every step loses nothing. */
  lemma {:induction false} ImprovingKept(ps: seq<Point>, i: nat)
    requires i >= 1 && Improving(ps)
    ensures FirstPass(ps, i) == ps
    decreases |ps| - i
  {
    if i < |ps| {
      ImprovingKept(ps, i + 1);
    }
  }

  /** The second pass from position `i` on: points with recall at most
      LOW_RECALL are dropped. */
  function SecondPass(ps: seq<Point>, i: nat): (r: seq<Point>)
    decreases |ps| - i
  {
    if i >= |ps| then ps
    else if ps[i].recall <= LOW_RECALL then SecondPass(Delete(ps, i), i)
    else SecondPass(ps, i + 1)
  }

  predicate AboveLow(p: Point) { p.recall > LOW_RECALL }

  /** The second pass keeps exactly the points above LOW_RECALL, in order. */
  lemma {:induction false} SecondPassFilters(ps: seq<Point>, i: nat)
    requires i <= |ps|
    requires forall j | 0 <= j < i :: AboveLow(ps[j])
    ensures SecondPass(ps, i) == Filter(ps, AboveLow)
    decreases |ps| - i
  {
    if i == |ps| {
      FilterAll(ps);
    } else if ps[i].recall <= LOW_RECALL {
      SecondPassFilters(Delete(ps, i), i);
      FilterDeleteRejected(ps, AboveLow, i);
    } else {
      SecondPassFilters(ps, i + 1);
    }
  }

  lemma {:induction false} FilterAll(ps: seq<Point>)
    requires forall j | 0 <= j < |ps| :: AboveLow(ps[j])
    ensures Filter(ps, AboveLow) == ps
  {
    if ps != [] {
      FilterAll(ps[1..]);
    }
  }

  /** What `_clean_curve` returns for the given arrays. */
  function Cleaned(qps: Option<seq<real>>, recall: Option<seq<real>>): (r: (Option<seq<real>>, Option<seq<real>>))
    requires qps.Some? && recall.Some? ==> |qps.value| == |recall.value|
    ensures qps.None? || recall.None? ==> r == (None, None)
    ensures r.0.Some? <==> r.1.Some?
    ensures r.0.Some? ==>
      |r.0.value| == |r.1.value| > 0 &&
      (forall i, j | 0 <= i < j < |r.1.value| :: r.1.value[i] <= r.1.value[j]) &&
      (forall i | 0 <= i < |r.1.value| :: r.1.value[i] > LOW_RECALL) &&
      multiset(Zip(r.0.value, r.1.value)) <= multiset(Zip(qps.value, recall.value))
  {
    if qps.None? || recall.None? then (None, None)
    else
      var input := Zip(qps.value, recall.value);
      var first := FirstPass(input, 1);
      var survivors := SecondPass(first, 0);
      if survivors == [] then (None, None)
      else
        var sorted := SortBy(survivors, (p: Point) => p.recall);
        FirstPassDeletesPoints(input, 1);
        SurvivorFacts(first);
        SortedFacts(survivors, sorted);
        (Some(Unzip(sorted).0), Some(Unzip(sorted).1))
  }

  lemma SurvivorFacts(first: seq<Point>)
    ensures SecondPass(first, 0) == Filter(first, AboveLow)
    ensures multiset(SecondPass(first, 0)) <= multiset(first)
    ensures forall i | 0 <= i < |SecondPass(first, 0)| :: AboveLow(SecondPass(first, 0)[i])
  {
    SecondPassFilters(first, 0);
    FilterMembers(first, AboveLow);
  }

  lemma SortedFacts(survivors: seq<Point>, sorted: seq<Point>)
    requires forall i | 0 <= i < |survivors| :: AboveLow(survivors[i])
    requires multiset(sorted) == multiset(survivors) && SortedBy(sorted, (p: Point) => p.recall)
    ensures Zip(Unzip(sorted).0, Unzip(sorted).1) == sorted
    ensures forall i, j | 0 <= i < j < |sorted| :: Unzip(sorted).1[i] <= Unzip(sorted).1[j]
    ensures forall i | 0 <= i < |sorted| :: Unzip(sorted).1[i] > LOW_RECALL
  {
    ZipOfParts(sorted);
    forall i | 0 <= i < |sorted| ensures sorted[i].recall > LOW_RECALL {
      assert sorted[i] in multiset(survivors);
    }
  }

  /** `_clean_curve` as written: two index walks that delete from both arrays
      at the same position, then the argsort by recall. */
  method CleanCurve(qps: Option<seq<real>>, recall: Option<seq<real>>)
      returns (outQps: Option<seq<real>>, outRecall: Option<seq<real>>)
    requires qps.Some? && recall.Some? ==> |qps.value| == |recall.value|
    ensures (outQps, outRecall) == Cleaned(qps, recall)
  {
    if qps.None? || recall.None? {
      return None, None;
    }
    var q, r := qps.value, recall.value;
    var i := 1;
    while i < |r|
      invariant |q| == |r| && i >= 1
      invariant FirstPass(Zip(q, r), i) == FirstPass(Zip(qps.value, recall.value), 1)
      decreases |r|, |r| - i
    {
      if q[i] >= q[i - 1] {
        ZipDelete(q, r, i - 1);
        r := Delete(r, i - 1);
        q := Delete(q, i - 1);
      } else if r[i] <= r[i - 1] + MIN_GAIN {
        ZipDelete(q, r, i);
        r := Delete(r, i);
        q := Delete(q, i);
      } else {
        i := i + 1;
      }
    }
    i := 0;
    while i < |r|
      invariant |q| == |r|
      invariant SecondPass(Zip(q, r), i) == SecondPass(FirstPass(Zip(qps.value, recall.value), 1), 0)
      decreases |r| - i
    {
      if r[i] <= LOW_RECALL {
        ZipDelete(q, r, i);
        r := Delete(r, i);
        q := Delete(q, i);
      } else {
        i := i + 1;
      }
    }
    if |r| == 0 {
      return None, None;
    }
    var sorted := SortBy(Zip(q, r), (p: Point) => p.recall);
    outQps, outRecall := Some(Unzip(sorted).0), Some(Unzip(sorted).1);
  }

  /** Points that pass the second pass: the only ones in the cleaned curve. */
  lemma CleanedKeepsSurvivors(qps: seq<real>, recall: seq<real>)
    requires |qps| == |recall|
    ensures var r := Cleaned(Some(qps), Some(recall));
      var survivors := Filter(FirstPass(Zip(qps, recall), 1), AboveLow);
      (r.0.None? <==> survivors == []) &&
      (r.0.Some? ==> multiset(Zip(r.0.value, r.1.value)) == multiset(survivors))
  {
    var first := FirstPass(Zip(qps, recall), 1);
    SurvivorFacts(first);
    if SecondPass(first, 0) != [] {
      ZipOfParts(SortBy(SecondPass(first, 0), (p: Point) => p.recall));
    }
  }

  /** A strictly improving curve loses nothing in the first pass:
      [(0.5,100), (0.6,90), (0.95,10)] as (recall, qps). */
  lemma ImprovingExample()
    ensures FirstPass([Point(100.0, 0.5), Point(90.0, 0.6), Point(10.0, 0.95)], 1)
      == [Point(100.0, 0.5), Point(90.0, 0.6), Point(10.0, 0.95)]
  {
    ImprovingKept([Point(100.0, 0.5), Point(90.0, 0.6), Point(10.0, 0.95)], 1);
  }

  /** Of [(0.5,100), (0.55,100), (0.9,5)] as (recall, qps), only the first
      point goes, dropped because the next one is as fast. */
  lemma EqualSpeedExample(ps: seq<Point>)
    requires ps == [Point(100.0, 0.5), Point(100.0, 0.55), Point(5.0, 0.9)]
    ensures FirstPass(ps, 1) == ps[1..]
  {
    calc {
      FirstPass(ps, 1);
    == { SpeedStep(ps, 1); }
      FirstPass(Delete(ps, 0), 1);
    == { assert Delete(ps, 0) == ps[1..]; }
      FirstPass(ps[1..], 1);
    == { ImprovingKept(ps[1..], 1); }
      ps[1..];
    }
  }

  lemma SpeedStep(ps: seq<Point>, i: nat)
    requires 1 <= i < |ps| && ps[i].qps >= ps[i - 1].qps
    ensures FirstPass(ps, i) == FirstPass(Delete(ps, i - 1), i)
  {
  }

  /** After a deletion in the speed branch the pair before the deleted point
      is not compared again, so the first pass can leave a faster point
      after a slower one: qps [10, 5, 20] keeps [10, 20]. */
  lemma NotMonotoneExample()
    ensures FirstPass([Point(10.0, 0.5), Point(5.0, 0.6), Point(20.0, 0.7)], 1)
      == [Point(10.0, 0.5), Point(20.0, 0.7)]
  {
    var ps := [Point(10.0, 0.5), Point(5.0, 0.6), Point(20.0, 0.7)];
    assert FirstPass(ps, 1) == FirstPass(ps, 2);
    assert Delete(ps, 1) == [Point(10.0, 0.5), Point(20.0, 0.7)];
  }
}
