/** source/baseline.cpp: one approximate index over every inserted vector;
    a query asks it for k * amplification candidates, filters them by the
    substring, and doubles the amplification until k are found or the
    threshold is passed. The index is not part of this model: `search(vec,
    n)` is its answer when asked for `n` candidates, and `points` records the
    labels added to it. */
module Baseline {
  import opened Common
  import opened Filtering
  import PostFiltering

  class Baseline {
    var strs: seq<string>
    var vecs: seq<seq<real>>
    /** Whether the index has been created. */
    var hasIndex: bool
    /** The labels added to the index, in order. */
    var points: seq<int>

    constructor()
      ensures strs == [] && vecs == [] && !hasIndex && points == []
    {
      strs, vecs, hasIndex, points := [], [], false, [];
    }

    /** `insert`: the first call creates the index; the pair is appended and
        added to the index under its position, which is returned. */
    method Insert(vec: seq<real>, s: string) returns (id: int)
      modifies this
      ensures strs == old(strs) + [s] && vecs == old(vecs) + [vec]
      ensures hasIndex && points == old(points) + [|old(strs)|]
      ensures id == |old(strs)| && strs[id] == s
    {
      hasIndex := true;
      strs := strs + [s];
      vecs := vecs + [vec];
      points := points + [|strs| - 1];
      id := |strs| - 1;
    }

    /** `remove` has no body yet: it changes nothing. */
    method Remove(id: int)
      ensures unchanged(this)
    {
    }

    /** `query`: the amplification loop. */
    method Query(vec: seq<real>, s: string, k: int32, threshold: int32, search: (seq<real>, int) -> seq<int>)
      returns (results: seq<int>)
      ensures results == Answer(search, vec, PostFiltering.Keep(strs, s), k, threshold)
    {
      var keep := PostFiltering.Keep(strs, s);
      results := [];
      var amplification := 2;
      if k == 0 {
        // 0 < 0 fails at once: the loop never runs
        return;
      }
      // the amplification of the round that produced `results` (1: none yet)
      ghost var previous := 1;
      while k < 0 || |results| < k
        invariant 2 <= amplification <= TWO_31
        invariant previous == 1 || previous >= 2
        invariant previous == 1 ==> amplification == 2 && results == []
        invariant previous >= 2 ==> amplification == 2 * previous <= threshold
        invariant previous >= 2 ==> results == FirstMatches(search(vec, k * previous), keep, k)
        invariant previous >= 2 ==> Rounds(search, vec, keep, k, threshold, 2) == Rounds(search, vec, keep, k, threshold, previous)
        decreases TWO_31 - amplification
      {
        if previous >= 2 {
          RoundsContinue(search, vec, keep, k, threshold, previous);
        }
        results := TakeMatching(search(vec, k * amplification), keep, k);
        previous := amplification;
        amplification := amplification * 2;
        if amplification > threshold {
          RoundsStop(search, vec, keep, k, threshold, previous);
          return;
        }
      }
      if previous >= 2 {
        RoundsStop(search, vec, keep, k, threshold, previous);
      }
    }
  }

  /** The last round's answer, from amplification `amp` on: a round that
      finds `k` ids, or after which the doubled amplification passes the
      threshold, is the last. */
  function Rounds(search: (seq<real>, int) -> seq<int>, vec: seq<real>, keep: int -> bool, k: int32, threshold: int32, amp: int): seq<int>
    requires amp >= 1
    decreases threshold - amp
  {
    var r := FirstMatches(search(vec, k * amp), keep, k);
    if 2 * amp > threshold || (k >= 0 && |r| >= k) then r
    else Rounds(search, vec, keep, k, threshold, 2 * amp)
  }

  /** A round after which the loop stops is the last. */
  lemma RoundsStop(search: (seq<real>, int) -> seq<int>, vec: seq<real>, keep: int -> bool, k: int32, threshold: int32, amp: int)
    requires amp >= 1
    requires var r := FirstMatches(search(vec, k * amp), keep, k);
      2 * amp > threshold || (k >= 0 && |r| >= k)
    ensures Rounds(search, vec, keep, k, threshold, amp) == FirstMatches(search(vec, k * amp), keep, k)
  {
  }

  /** A round after which the loop goes on hands over to the doubled
      amplification. */
  lemma RoundsContinue(search: (seq<real>, int) -> seq<int>, vec: seq<real>, keep: int -> bool, k: int32, threshold: int32, amp: int)
    requires amp >= 1
    requires var r := FirstMatches(search(vec, k * amp), keep, k);
      !(2 * amp > threshold || (k >= 0 && |r| >= k))
    ensures Rounds(search, vec, keep, k, threshold, amp) == Rounds(search, vec, keep, k, threshold, 2 * amp)
  {
  }

  /** `query`, stated without the loop: nothing for `k == 0`, otherwise the
      rounds from amplification 2. */
  function Answer(search: (seq<real>, int) -> seq<int>, vec: seq<real>, keep: int -> bool, k: int32, threshold: int32): seq<int>
  {
    if k == 0 then [] else Rounds(search, vec, keep, k, threshold, 2)
  }

  /** `amp` doubled `j` times. */
  function Doubled(amp: int, j: nat): (a: int)
    requires amp >= 1
    ensures a >= amp
    decreases j
  {
    if j == 0 then amp else Doubled(2 * amp, j - 1)
  }

  /** The last round is the one with `amp` doubled some `j` times (past
      the threshold only if it is the first); its answer is the scan of `k`
      times that many candidates; and the loop stopped there for one of its
      two reasons: `k` ids found, or the next amplification past the
      threshold. */
  lemma {:induction false} RoundsFacts(search: (seq<real>, int) -> seq<int>, vec: seq<real>, keep: int -> bool, k: int32, threshold: int32, amp: int)
    returns (j: nat)
    requires amp >= 1
    ensures var a := Doubled(amp, j);
      var r := Rounds(search, vec, keep, k, threshold, amp);
      && (j == 0 || a <= threshold)
      && r == FirstMatches(search(vec, k * a), keep, k)
      && (2 * a > threshold || (k >= 0 && |r| >= k))
    decreases threshold - amp
  {
    var r := FirstMatches(search(vec, k * amp), keep, k);
    if 2 * amp > threshold || (k >= 0 && |r| >= k) {
      RoundsStop(search, vec, keep, k, threshold, amp);
      j := 0;
    } else {
      RoundsContinue(search, vec, keep, k, threshold, amp);
      var i := RoundsFacts(search, vec, keep, k, threshold, 2 * amp);
      j := i + 1;
    }
  }

  /** For `k >= 1` at most `k` ids come back, each a candidate that passes
      the string test. */
  lemma AnswerFacts(search: (seq<real>, int) -> seq<int>, vec: seq<real>, keep: int -> bool, k: int32, threshold: int32)
    ensures var r := Answer(search, vec, keep, k, threshold);
      && (k >= 1 ==> |r| <= k)
      && (forall i | 0 <= i < |r| :: keep(r[i]))
  {
    if k != 0 {
      var j := RoundsFacts(search, vec, keep, k, threshold, 2);
      FirstMatchesFacts(search(vec, k * Doubled(2, j)), keep, k);
    }
  }
}
