/** source/vectormaton.cpp: one approximate (NSW) index per state of a
    generalized suffix automaton over the strings, shared between states
    with the same id set. The automaton is not part of this model: a
    `State` holds what the code reads of `gsa.st[i]`, its sorted `ids` and
    the targets of its transitions in key order. An index is keyed by the
    SHA-256 of its state's id list; the model keys it by the id list itself
    (no collisions) and records, as the value, the ids inserted into it in
    order. */
module VectorMaton {
  import opened Common
  import opened Filtering

  datatype State = State(ids: seq<int>, next: seq<int>)

  /** Every transition leads to a state. */
  predicate Linked(states: seq<State>)
  {
    forall i, e | 0 <= i < |states| && 0 <= e < |states[i].next| :: 0 <= states[i].next[e] < |states|
  }

  /** Every id list is sorted, as `std::binary_search` and the merge need. */
  predicate SortedIds(states: seq<State>)
  {
    forall i | 0 <= i < |states| :: Increasing(states[i].ids)
  }

  predicate SubsetOf(a: seq<int>, b: seq<int>)
  {
    forall x | x in a :: x in b
  }

  /** What a suffix automaton guarantees: a longer pattern occurs in no more
      strings, so a transition never gains ids. */
  predicate Nested(states: seq<State>)
    requires Linked(states)
  {
    forall i, e | 0 <= i < |states| && 0 <= e < |states[i].next| :: SubsetOf(states[states[i].next[e]].ids, states[i].ids)
  }

  /** The ids of `a` absent from `b`, in the order of `a`. */
  function Missing(a: seq<int>, b: seq<int>): seq<int>
  {
    Filter(a, x => x !in b)
  }

  /** An id is missing exactly when it is in `a` and not in `b`. */
  lemma MissingMembers(a: seq<int>, b: seq<int>)
    ensures forall x :: x in Missing(a, b) <==> x in a && x !in b
  {
    var r := Missing(a, b);
    FilterMembers(a, x => x !in b);
    forall x | x in r ensures x in a && x !in b {
      var i :| 0 <= i < |r| && r[i] == x;
      assert x in multiset(r);
    }
  }

  /** The merge loop of `build`: walk the sorted ids of the state (`a`) and
      of the reused successor (`b`) with two cursors, inserting the state's
      ids the successor lacks. The warning fires when the state's ids run
      out first, which is exactly when the successor has an id above all of
      the state's. */
  method MergeMissing(a: seq<int>, b: seq<int>) returns (inserted: seq<int>, warned: bool)
    requires Increasing(a) && Increasing(b)
    ensures inserted == Missing(a, b)
    ensures warned <==> b != [] && (a == [] || a[|a| - 1] < b[|b| - 1])
  {
    inserted, warned := [], false;
    var l, r := 0, 0;
    while l < |a| || r < |b|
      invariant 0 <= l <= |a| && 0 <= r <= |b|
      invariant inserted == Filter(a[..l], x => x !in b)
      invariant l < |a| ==> forall j | 0 <= j < r :: b[j] < a[l]
      invariant 0 < l == |a| ==> forall j | 0 <= j < r :: b[j] <= a[l - 1]
      invariant a == [] ==> r == 0
      invariant 0 < l && r < |b| ==> a[l - 1] < b[r]
      decreases |a| - l + |b| - r
    {
      if r == |b| {
        NotInLater(a, b, l, r);
        FilterStep(a, x => x !in b, l);
        inserted := inserted + [a[l]];
        l := l + 1;
      } else if l == |a| {
        warned := true;
        break;
      } else if a[l] < b[r] {
        NotInLater(a, b, l, r);
        FilterStep(a, x => x !in b, l);
        inserted := inserted + [a[l]];
        l := l + 1;
      } else if a[l] > b[r] {
        r := r + 1;
      } else {
        FilterStep(a, x => x !in b, l);
        l, r := l + 1, r + 1;
      }
    }
    assert a[..|a|] == a;
    if !warned {
      if a != [] && b != [] {
        assert b[|b| - 1] <= a[|a| - 1];
      }
    } else if a != [] {
      assert a[|a| - 1] < b[r] <= b[|b| - 1];
    }
  }

  /** An id of `a` below every id of `b` from `r` on, and above every id
      before `r`, is not in `b`. */
  lemma NotInLater(a: seq<int>, b: seq<int>, l: nat, r: nat)
    requires Increasing(b) && l < |a| && r <= |b|
    requires forall j | 0 <= j < r :: b[j] < a[l]
    requires r < |b| ==> a[l] < b[r]
    ensures a[l] !in b
  {
    forall j | 0 <= j < |b| ensures b[j] != a[l] {
      if j >= r {
        assert b[r] <= b[j];
      }
    }
  }

  /** The successor `build` reuses after scanning the first `n` transitions
      of a state `i`: a later state with the most ids, the first one on
      ties; -1 when there is none yet. */
  function Largest(states: seq<State>, succ: seq<int>, i: int, n: nat): (r: int)
    requires n <= |succ| && forall e | 0 <= e < |succ| :: 0 <= succ[e] < |states|
    ensures r == -1 || (0 <= r < |states| && i < r)
  {
    if n == 0 then -1
    else
      var best := Largest(states, succ, i, n - 1);
      var v := succ[n - 1];
      if v > i && (best == -1 || |states[v].ids| > |states[best].ids|) then v else best
  }

  /** The chosen successor is -1 exactly when no transition leads past `i`;
      otherwise it is a transition target past `i`, has at least as many
      ids as every such target, and more than every one before it. */
  lemma {:induction false} LargestFacts(states: seq<State>, succ: seq<int>, i: int, n: nat) returns (q: nat)
    requires n <= |succ| && forall e | 0 <= e < |succ| :: 0 <= succ[e] < |states|
    ensures var r := Largest(states, succ, i, n);
      && (r == -1 <==> forall e | 0 <= e < n :: succ[e] <= i)
      && (r != -1 ==> q < n && succ[q] == r && r > i)
      && (r != -1 ==> forall e | 0 <= e < n && succ[e] > i :: |states[succ[e]].ids| <= |states[r].ids|)
      && (r != -1 ==> forall e | 0 <= e < q && succ[e] > i :: |states[succ[e]].ids| < |states[r].ids|)
  {
    q := 0;
    if n > 0 {
      var q' := LargestFacts(states, succ, i, n - 1);
      var best := Largest(states, succ, i, n - 1);
      var v := succ[n - 1];
      if v > i && (best == -1 || |states[v].ids| > |states[best].ids|) {
        q := n - 1;
      } else {
        q := q';
      }
    }
  }

  /** The transition loop of `build` that picks the successor to reuse. */
  method ReusedSuccessor(states: seq<State>, i: nat) returns (largest: int)
    requires i < |states| && Linked(states)
    ensures largest == Largest(states, states[i].next, i, |states[i].next|)
  {
    var succ := states[i].next;
    largest := -1;
    for e := 0 to |succ|
      invariant largest == Largest(states, succ, i, e)
    {
      var v := succ[e];
      if v > i && (largest == -1 || |states[v].ids| > |states[largest].ids|) {
        largest := v;
      }
    }
  }

  /** The fallback scan of `query`: keep the candidates found in the
      state's sorted ids; the size test follows each kept candidate only,
      so `k == 0` keeps the first found one. */
  function FoundUpTo(cands: seq<int>, ids: seq<int>, k: int32): (r: seq<int>)
    ensures r <= Filter(cands, x => x in ids)
  {
    if k >= 1 then Prefix(Filter(cands, x => x in ids), k)
    else if k == 0 then Prefix(Filter(cands, x => x in ids), 1)
    else Filter(cands, x => x in ids)
  }

  method TakeFound(cands: seq<int>, ids: seq<int>, k: int32) returns (results: seq<int>)
    ensures results == FoundUpTo(cands, ids, k)
  {
    results := [];
    var i := 0;
    while i < |cands|
      invariant 0 <= i <= |cands|
      invariant results == Filter(cands[..i], x => x in ids)
      invariant k >= 1 ==> |results| < k
      invariant k == 0 ==> results == []
    {
      FilterStep(cands, x => x in ids, i);
      if cands[i] in ids {
        results := results + [cands[i]];
        // no vector reaches the size a negative `k` wraps to
        if k >= 0 && |results| >= AsSize(k) {
          StopFound(cands, ids, k, i + 1);
          return;
        }
      }
      i := i + 1;
    }
    assert cands[..i] == cands;
  }

  /** The scan kept its `max(k, 1)`-th found candidate at position
      `n - 1`. */
  lemma StopFound(cands: seq<int>, ids: seq<int>, k: int32, n: nat)
    requires 1 <= n <= |cands| && k >= 0 && cands[n - 1] in ids
    requires |Filter(cands[..n], x => x in ids)| == Max(k, 1)
    ensures Filter(cands[..n], x => x in ids) == FoundUpTo(cands, ids, k)
  {
    FilterPrefix(cands, x => x in ids, n);
  }

  /** The fallback returns candidates found in the state, in candidate
      order, at most `max(k, 1)` of them when `k >= 0`, and as many as it
      can: fewer only when the candidates run out of found ones. */
  lemma FoundUpToFacts(cands: seq<int>, ids: seq<int>, k: int32)
    ensures var r := FoundUpTo(cands, ids, k);
      && (forall x | x in r :: x in ids && x in cands)
      && (k >= 0 ==> |r| == Min(Max(k, 1), |Filter(cands, x => x in ids)|))
      && (k < 0 ==> |r| == |Filter(cands, x => x in ids)|)
  {
    var f := Filter(cands, x => x in ids);
    FilterMembers(cands, x => x in ids);
    var r := FoundUpTo(cands, ids, k);
    forall x | x in r ensures x in ids && x in cands {
      var i :| 0 <= i < |r| && r[i] == x;
      assert f[i] == x;
      assert x in multiset(f);
    }
  }

  /** `build_threshold[i] > gsa.st[i].ids.size()`: the `int` threshold is
      converted to `size_t` for the comparison, so a negative threshold
      exceeds every id count. */
  predicate Exceeds(threshold: int, count: nat)
  {
    threshold < 0 || threshold > count
  }

  class VectorMaton {
    /** `gsa.st`, as adding every string leaves it. */
    const states: seq<State>
    /** `last_state_in_gsa` */
    var lastState: array<int>
    /** `nsws`: per id list, the ids inserted into its index. */
    var nsws: map<seq<int>, seq<int>>

    /** Every index holds the ids of the states it serves, and, when the
        automaton is nested, nothing else. */
    predicate IndexesCover()
      reads this
    {
      && Linked(states)
      && forall key | key in nsws :: SubsetOf(key, nsws[key]) && (Nested(states) ==> SubsetOf(nsws[key], key))
    }

    constructor(states: seq<State>)
      requires Linked(states)
      ensures this.states == states && nsws == map[] && IndexesCover()
    {
      this.states := states;
      lastState := new int[0];
      nsws := map[];
    }

    /** State `j` has no index of its own but `last_state_in_gsa[j]` is a
        visited state whose index holds every id of `j`, with threshold
        `shrunk(|ids of that state|)`. */
    ghost predicate Inherits(threshold: array<int>, shrunk: nat -> int32, j: int, visited: int)
      reads this, threshold, lastState
      requires Linked(states) && threshold.Length == lastState.Length == |states| && 0 <= j < |states|
    {
      var last := lastState[j];
      && 0 <= last < visited && last < |states|
      && states[last].ids in nsws
      && threshold[j] == shrunk(|states[last].ids|)
      && (Nested(states) ==> SubsetOf(states[j].ids, states[last].ids))
    }

    /** One step of `build_partial`: state `i` gets an index exactly when its
        threshold exceeds its id count (`Exceeds`); then each successor whose threshold
        is above the bound, `(int)(|ids| * shrink_factor)` after a build and
        the state's own threshold otherwise, takes that bound and the state
        it comes from (`i` after a build, the state's own last state
        otherwise). `threshold[i]` and `last_state_in_gsa[i]` cannot change
        during the transition loop, since an update needs a strict `>`. */
    method Visit(i: nat, threshold: array<int>, shrunk: nat -> int32)
      requires i < |states| && Linked(states)
      requires threshold.Length == |states| && lastState.Length == |states| && threshold != lastState
      modifies this, threshold, lastState
      ensures lastState == old(lastState)
      ensures Exceeds(old(threshold[i]), |states[i].ids|) ==> nsws == old(nsws)[states[i].ids := states[i].ids]
      ensures !Exceeds(old(threshold[i]), |states[i].ids|) ==> nsws == old(nsws)
      ensures var ids := states[i].ids;
        var built := Exceeds(old(threshold[i]), |ids|);
        var bound := if built then shrunk(|ids|) as int else old(threshold[i]);
        var from := if built then i else old(lastState[i]);
        forall v | 0 <= v < |states| ::
          if v in states[i].next && old(threshold[v]) > bound
          then threshold[v] == bound && lastState[v] == from
          else threshold[v] == old(threshold[v]) && lastState[v] == old(lastState[v])
    {
      var ids := states[i].ids;
      var succ := states[i].next;
      var bound, from;
      if Exceeds(threshold[i], |ids|) {
        // the new index gets every id of the state
        nsws := nsws[ids := ids];
        bound, from := shrunk(|ids|) as int, i;
      } else {
        bound, from := threshold[i], lastState[i];
      }
      ghost var indexes := nsws;
      for e := 0 to |succ|
        invariant lastState == old(lastState) && nsws == indexes
        invariant forall v | 0 <= v < |states| ::
          if v in succ[..e] && old(threshold[v]) > bound
          then threshold[v] == bound && lastState[v] == from
          else threshold[v] == old(threshold[v]) && lastState[v] == old(lastState[v])
      {
        var v := succ[e];
        assert succ[..e + 1] == succ[..e] + [v];
        if threshold[v] > bound {
          threshold[v] := bound;
          lastState[v] := from;
        }
      }
      assert succ[..|succ|] == succ;
    }

    /** `build_partial` (the NSW build): thresholds start at `INT_MAX` and
        the states are visited in order. Afterwards every state with fewer
        than `INT_MAX` ids has an index of its own, or inherits one that
        holds its ids and whose shrunk size is at most its own id count. */
    method BuildPartial(shrunk: nat -> int32)
      requires IndexesCover()
      modifies this
      ensures IndexesCover() && fresh(lastState) && lastState.Length == |states|
      ensures forall key | key in old(nsws) :: key in nsws
      ensures forall j | 0 <= j < |states| && |states[j].ids| < INT_MAX ::
        || states[j].ids in nsws
        || (&& 0 <= lastState[j] < |states|
            && states[lastState[j]].ids in nsws
            && shrunk(|states[lastState[j]].ids|) <= |states[j].ids|
            && (Nested(states) ==> SubsetOf(states[j].ids, states[lastState[j]].ids)))
    {
      var threshold := new int[|states|](_ => INT_MAX);
      lastState := new int[|states|];
      for i := 0 to |states|
        invariant fresh(lastState) && lastState.Length == |states| && IndexesCover()
        invariant threshold != lastState
        invariant forall key | key in old(nsws) :: key in nsws
        invariant forall v | 0 <= v < |states| :: threshold[v] <= INT_MAX
        invariant forall v | 0 <= v < |states| && threshold[v] < INT_MAX :: Inherits(threshold, shrunk, v, i)
        invariant forall v | 0 <= v < i :: states[v].ids in nsws || threshold[v] <= |states[v].ids|
      {
        VisitKeeps(i, threshold, shrunk);
      }
      forall j | 0 <= j < |states| && |states[j].ids| < INT_MAX && states[j].ids !in nsws
        ensures Inherits(threshold, shrunk, j, |states|)
      {
      }
    }

    /** `Visit` keeps the loop invariants of `BuildPartial`. */
    method VisitKeeps(i: nat, threshold: array<int>, shrunk: nat -> int32)
      requires i < |states| && IndexesCover()
      requires threshold.Length == |states| && lastState.Length == |states| && threshold != lastState
      requires forall v | 0 <= v < |states| :: threshold[v] <= INT_MAX
      requires forall v | 0 <= v < |states| && threshold[v] < INT_MAX :: Inherits(threshold, shrunk, v, i)
      requires forall v | 0 <= v < i :: states[v].ids in nsws || threshold[v] <= |states[v].ids|
      modifies this, threshold, lastState
      ensures lastState == old(lastState) && IndexesCover()
      ensures forall key | key in old(nsws) :: key in nsws
      ensures forall v | 0 <= v < |states| :: threshold[v] <= old(threshold[v])
      ensures forall v | 0 <= v < |states| && threshold[v] < INT_MAX :: Inherits(threshold, shrunk, v, i + 1)
      ensures forall v | 0 <= v < i + 1 :: states[v].ids in nsws || threshold[v] <= |states[v].ids|
    {
      ghost var t0 := threshold[..];
      ghost var l0 := lastState[..];
      ghost var built := Exceeds(threshold[i], |states[i].ids|);
      Visit(i, threshold, shrunk);
      forall v | 0 <= v < |states| && threshold[v] < INT_MAX
        ensures Inherits(threshold, shrunk, v, i + 1)
      {
        if v in states[i].next && threshold[v] != t0[v] {
          var e :| 0 <= e < |states[i].next| && states[i].next[e] == v;
          if !built {
            assert old(Inherits(threshold, shrunk, i, i));
          }
        } else {
          assert old(Inherits(threshold, shrunk, v, i));
        }
      }
    }
  
    /** What `build` puts in the index of state `i` when none exists for
        its id list: a copy of the reused successor's index plus the ids it
        lacks, or a new index with every id. */
    function NewIndex(i: nat): seq<int>
      reads this
      requires i < |states| && Linked(states)
      requires forall v | i < v < |states| :: states[v].ids in nsws
    {
      var largest := Largest(states, states[i].next, i, |states[i].next|);
      if largest == -1 then states[i].ids
      else nsws[states[largest].ids] + Missing(states[i].ids, states[largest].ids)
    }

    /** One step of `build`, from the last state down: a state whose id
        list already has an index reuses it; otherwise it gets `NewIndex`. */
    method BuildState(i: nat)
      requires i < |states| && IndexesCover() && SortedIds(states)
      requires forall v | i < v < |states| :: states[v].ids in nsws
      modifies this
      ensures states[i].ids in old(nsws) ==> nsws == old(nsws)
      ensures states[i].ids !in old(nsws) ==> nsws == old(nsws)[states[i].ids := old(NewIndex(i))]
      ensures lastState == old(lastState)
    {
      var ids := states[i].ids;
      if ids !in nsws {
        var largest := ReusedSuccessor(states, i);
        if largest != -1 {
          var succIds := states[largest].ids;
          var added, warned := MergeMissing(ids, succIds);
          nsws := nsws[ids := nsws[succIds] + added];
        } else {
          nsws := nsws[ids := ids];
        }
      }
    }

    /** A new index holds every id of its state, and, in a nested automaton,
        nothing else. */
    lemma NewIndexCovers(i: nat)
      requires i < |states| && IndexesCover()
      requires forall v | i < v < |states| :: states[v].ids in nsws
      ensures SubsetOf(states[i].ids, NewIndex(i))
      ensures Nested(states) ==> SubsetOf(NewIndex(i), states[i].ids)
    {
      var ids := states[i].ids;
      var q := LargestFacts(states, states[i].next, i, |states[i].next|);
      var largest := Largest(states, states[i].next, i, |states[i].next|);
      if largest != -1 {
        var succIds := states[largest].ids;
        MissingMembers(ids, succIds);
        if Nested(states) {
          assert SubsetOf(succIds, ids);
        }
      }
    }

    /** `build` (the NSW build): visit the states from the last to the
        first. Afterwards every state's id list has an index holding its
        ids, and the indexes that existed before are untouched. */
    method Build()
      requires IndexesCover() && SortedIds(states)
      modifies this
      ensures IndexesCover() && lastState == old(lastState)
      ensures forall j | 0 <= j < |states| :: states[j].ids in nsws
      ensures forall key | key in old(nsws) :: key in nsws && nsws[key] == old(nsws)[key]
    {
      var i := |states|;
      while i > 0
        invariant 0 <= i <= |states| && IndexesCover() && lastState == old(lastState)
        invariant forall v | i <= v < |states| :: states[v].ids in nsws
        invariant forall key | key in old(nsws) :: key in nsws && nsws[key] == old(nsws)[key]
      {
        i := i - 1;
        NewIndexCovers(i);
        BuildState(i);
      }
    }

    /** `query`: the automaton's state for `s` (`gsa.query`) is `located`.
        Without a state the answer is empty. A state with an index of its
        own is answered by it. Otherwise the index of its last state is
        asked for `width` candidates (`k` times the expansion factor, a
        floating-point product), and the fallback scan keeps those in the
        state's ids. */
    method Query(vec: seq<real>, located: Option<nat>, k: int32, width: int,
                 search: (seq<int>, seq<real>, int) -> seq<int>)
      returns (results: seq<int>)
      requires located.Some? ==> located.value < |states|
      requires located.Some? && states[located.value].ids !in nsws ==>
        0 <= located.value < lastState.Length && 0 <= lastState[located.value] < |states|
        && states[lastState[located.value]].ids in nsws
      ensures located.None? ==> results == []
      ensures located.Some? && states[located.value].ids in nsws ==>
        results == search(nsws[states[located.value].ids], vec, k)
      ensures located.Some? && states[located.value].ids !in nsws ==>
        var i := located.value;
        results == FoundUpTo(search(nsws[states[lastState[i]].ids], vec, width), states[i].ids, k)
    {
      if located.None? {
        return [];
      }
      var i := located.value;
      var ids := states[i].ids;
      if ids !in nsws {
        var candidates := search(nsws[states[lastState[i]].ids], vec, width);
        results := TakeFound(candidates, ids, k);
        return;
      }
      results := search(nsws[ids], vec, k);
    }
  }
}
