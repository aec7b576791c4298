/** source/opt_query.cpp: one approximate index per distinct non-empty
    substring of the stored strings, each holding the ids of the strings
    that contain it. The HNSW graphs are not part of this model: an `Index`
    records the labels added to it and its search width `ef`, and `search`
    stands for its answer. */
module OptQuery {
  import opened Common

  datatype Index = Index(points: seq<int>, ef: int)

  /** hnswlib's initial search width. */
  const DEFAULT_EF: int := 10

  /** The non-empty substrings of `s`. */
  function Substrings(s: string): set<string>
  {
    set a, b | 0 <= a < b <= |s| :: s[a..b]
  }

  /** The substrings the enumeration of `build` has visited before start
      `j` and length `len`, in its own order: by start, then by length. */
  function Reached(s: string, j: nat, len: nat): set<string>
    requires 1 <= len && j + len <= |s| + 1
    decreases j, len
  {
    if len > 1 then Reached(s, j, len - 1) + {s[j..j + len - 1]}
    else if j == 0 then {}
    else Reached(s, j - 1, |s| - j + 2)
  }

  /** The substrings at smaller starts than `j`, and the shorter ones than
      `len` at start `j`. */
  function Before(s: string, j: nat, len: nat): set<string>
  {
    (set a, b | 0 <= a < j && a < b <= |s| :: s[a..b]) + (set b | j < b < j + len && b <= |s| :: s[j..b])
  }

  /** The index of `t`, or a fresh one. */
  function IndexOf(hnsw: map<string, Index>, t: string): Index
  {
    if t in hnsw then hnsw[t] else Index([], DEFAULT_EF)
  }

  /** The ids recorded for `t`, or none. */
  function IdsOf(ids: map<string, set<int>>, t: string): set<int>
  {
    if t in ids then ids[t] else {}
  }

  /** `idx` with `i` added when `add` holds. */
  function Extended(idx: Index, i: int, add: bool): Index
  {
    if add then idx.(points := idx.points + [i]) else idx
  }

  /** `ids0` after id `i` is recorded for every string of `subs`. */
  function RecordIds(ids0: map<string, set<int>>, i: int, subs: set<string>): map<string, set<int>>
  {
    map t | t in ids0.Keys + subs :: IdsOf(ids0, t) + (if t in subs then {i} else {})
  }

  /** `hnsw0` after id `i` is added to the index of every string of `subs`,
      which is created where missing. */
  function RecordIndexes(hnsw0: map<string, Index>, i: int, subs: set<string>): map<string, Index>
  {
    map t | t in hnsw0.Keys + subs :: Extended(IndexOf(hnsw0, t), i, t in subs)
  }

  /** The scratch sets after the strings below `n` are enumerated. */
  function IdsAfter(strs: seq<string>, n: nat): map<string, set<int>>
    requires n <= |strs|
  {
    if n == 0 then map[] else RecordIds(IdsAfter(strs, n - 1), n - 1, Substrings(strs[n - 1]))
  }

  /** The indexes after the strings below `n` are enumerated, from `hnsw0`. */
  function IndexesAfter(hnsw0: map<string, Index>, strs: seq<string>, n: nat): map<string, Index>
    requires n <= |strs|
  {
    if n == 0 then hnsw0 else RecordIndexes(IndexesAfter(hnsw0, strs, n - 1), n - 1, Substrings(strs[n - 1]))
  }

  /** The ids below `n` whose string contains the non-empty `t`, in
      increasing order: the labels `build` adds to the index of `t`. */
  function Holders(strs: seq<string>, t: string, n: nat): seq<int>
    requires n <= |strs|
  {
    if n == 0 then []
    else Holders(strs, t, n - 1) + (if t != [] && Contains(strs[n - 1], t) then [n - 1] else [])
  }

  /** Some id below `n` holds the non-empty `t`. */
  predicate HeldBelow(strs: seq<string>, t: string, n: nat)
    requires n <= |strs|
  {
    t != [] && exists x | 0 <= x < n :: Contains(strs[x], t)
  }

  /** The substrings are exactly the non-empty strings `s` contains. */
  lemma SubstringsContained(s: string, t: string)
    ensures t in Substrings(s) <==> t != [] && Contains(s, t)
  {
    if t in Substrings(s) {
      var a, b :| 0 <= a < b <= |s| && s[a..b] == t;
      assert OccursAt(s, t, a);
    }
    if t != [] && Contains(s, t) {
      var a :| 0 <= a <= |s| - |t| && OccursAt(s, t, a);
      assert s[a..a + |t|] == t;
    }
  }

  /** The enumeration has visited exactly the substrings that come before
      its current start and length. */
  lemma {:induction false} ReachedBefore(s: string, j: nat, len: nat)
    requires 1 <= len && j + len <= |s| + 1
    ensures Reached(s, j, len) == Before(s, j, len)
    decreases j, len
  {
    if len > 1 {
      ReachedBefore(s, j, len - 1);
      BeforeStep(s, j, len - 1);
    } else if j > 0 {
      ReachedBefore(s, j - 1, |s| - j + 2);
      BeforeRow(s, j - 1, |s| - j + 2);
    }
  }

  lemma BeforeStep(s: string, j: nat, len: nat)
    requires 1 <= len && j + len <= |s|
    ensures Before(s, j, len + 1) == Before(s, j, len) + {s[j..j + len]}
  {
    assert s[j..j + len] in Before(s, j, len + 1);
  }

  lemma BeforeRow(s: string, j: nat, full: nat)
    requires j < |s| && full == |s| - j + 1
    ensures Before(s, j, full) == Before(s, j + 1, 1)
  {
    var next := Before(s, j + 1, 1);
    forall t | t in next ensures t in Before(s, j, full) {
      var a, b :| 0 <= a < j + 1 && a < b <= |s| && s[a..b] == t;
      if a == j {
        assert t in (set b | j < b < j + full && b <= |s| :: s[j..b]);
      }
    }
  }

  /** Every start visited: all the substrings. */
  lemma ReachedAll(s: string)
    ensures Reached(s, |s|, 1) == Substrings(s)
  {
    ReachedBefore(s, |s|, 1);
  }

  /** Recording for no string changes nothing. */
  lemma RecordNothing(ids0: map<string, set<int>>, hnsw0: map<string, Index>, i: int)
    ensures RecordIds(ids0, i, {}) == ids0 && RecordIndexes(hnsw0, i, {}) == hnsw0
  {
    var ids, hnsw := RecordIds(ids0, i, {}), RecordIndexes(hnsw0, i, {});
    assert ids.Keys == ids0.Keys && hnsw.Keys == hnsw0.Keys;
    assert forall t | t in ids :: ids[t] == ids0[t];
    assert forall t | t in hnsw :: hnsw[t] == hnsw0[t];
  }

  /** One more substring handled as `AddSubstring` does: the scratch set
      of `sub` gains `i`. */
  lemma RecordIdsStep(ids0: map<string, set<int>>, i: int, subs: set<string>, sub: string)
    ensures var ids := RecordIds(ids0, i, subs);
      ids[sub := IdsOf(ids, sub) + {i}] == RecordIds(ids0, i, subs + {sub})
  {
    var ids := RecordIds(ids0, i, subs);
    assert IdsOf(ids, sub) + {i} == IdsOf(ids0, sub) + {i};
  }

  /** One more substring handled as `AddSubstring` does: the index of `sub`
      gains `i` at its first visit only, since `i` was in no scratch set
      before. */
  lemma RecordIndexesStep(ids0: map<string, set<int>>, hnsw0: map<string, Index>, i: int, subs: set<string>, sub: string)
    requires forall t | t in ids0 :: i !in ids0[t]
    ensures var ids := RecordIds(ids0, i, subs);
      var hnsw := RecordIndexes(hnsw0, i, subs);
      hnsw[sub := Extended(IndexOf(hnsw, sub), i, i !in IdsOf(ids, sub))] == RecordIndexes(hnsw0, i, subs + {sub})
  {
    var ids := RecordIds(ids0, i, subs);
    assert i in IdsOf(ids, sub) <==> sub in subs;
  }

  /** One turn of the innermost loop of `build`, stated on the states the
      enumeration describes. */
  lemma AddStep(ids0: map<string, set<int>>, hnsw0: map<string, Index>, i: int, s: string, j: nat, len: nat)
    requires 1 <= len && j + len <= |s|
    requires forall t | t in ids0 :: i !in ids0[t]
    ensures var sub := s[j..j + len];
      var ids := RecordIds(ids0, i, Reached(s, j, len));
      var hnsw := RecordIndexes(hnsw0, i, Reached(s, j, len));
      && ids[sub := IdsOf(ids, sub) + {i}] == RecordIds(ids0, i, Reached(s, j, len + 1))
      && hnsw[sub := Extended(IndexOf(hnsw, sub), i, i !in IdsOf(ids, sub))] == RecordIndexes(hnsw0, i, Reached(s, j, len + 1))
  {
    RecordIdsStep(ids0, i, Reached(s, j, len), s[j..j + len]);
    RecordIndexesStep(ids0, hnsw0, i, Reached(s, j, len), s[j..j + len]);
  }

  /** Every id in the scratch sets is below the number of strings
      enumerated. */
  lemma {:induction false} IdsAfterBelow(strs: seq<string>, n: nat)
    requires n <= |strs|
    ensures forall t | t in IdsAfter(strs, n) :: forall x | x in IdsAfter(strs, n)[t] :: x < n
  {
    if n > 0 {
      IdsAfterBelow(strs, n - 1);
    }
  }

  /** The labels of `t` are exactly the ids below `n` whose string holds
      `t`, each once, in increasing order. */
  lemma {:induction false} HoldersFacts(strs: seq<string>, t: string, n: nat)
    requires n <= |strs|
    ensures forall x :: x in Holders(strs, t, n) <==> 0 <= x < n && t != [] && Contains(strs[x], t)
    ensures forall p | 0 <= p < |Holders(strs, t, n)| :: 0 <= Holders(strs, t, n)[p] < n
    ensures Increasing(Holders(strs, t, n))
  {
    if n > 0 {
      HoldersFacts(strs, t, n - 1);
      var before := Holders(strs, t, n - 1);
      if t != [] && Contains(strs[n - 1], t) {
        var h := before + [n - 1];
        assert forall p | 0 <= p < |before| :: h[p] == before[p];
      }
    }
  }

  /** A substring has labels exactly when some string holds it. */
  lemma HoldersNonEmpty(strs: seq<string>, t: string, n: nat)
    requires n <= |strs|
    ensures Holders(strs, t, n) != [] <==> HeldBelow(strs, t, n)
  {
    var h := Holders(strs, t, n);
    HoldersFacts(strs, t, n);
    if h != [] {
      assert h[0] in h;
    }
    if HeldBelow(strs, t, n) {
      var x :| 0 <= x < n && Contains(strs[x], t);
      assert x in h;
    }
  }

  lemma HeldBelowStep(strs: seq<string>, t: string, n: nat)
    requires n < |strs|
    ensures HeldBelow(strs, t, n + 1) <==> HeldBelow(strs, t, n) || (t != [] && Contains(strs[n], t))
  {
    if HeldBelow(strs, t, n + 1) && !(t != [] && Contains(strs[n], t)) {
      var x :| 0 <= x < n + 1 && Contains(strs[x], t);
      assert x < n;
    }
  }

  /** From `hnsw0` to `hnsw`, exactly the substrings of the first `n`
      strings gained an index, and each index gained, in order, the ids of
      the strings that hold its substring. */
  ghost predicate Built(hnsw0: map<string, Index>, hnsw: map<string, Index>, strs: seq<string>, n: nat)
    requires n <= |strs|
  {
    && (forall t :: t in hnsw <==> t in hnsw0 || HeldBelow(strs, t, n))
    && (forall t | t in hnsw :: hnsw[t] == IndexOf(hnsw0, t).(points := IndexOf(hnsw0, t).points + Holders(strs, t, n)))
  }

  /** What the enumeration builds is what `Built` describes. */
  lemma {:induction false} IndexesAfterBuilt(hnsw0: map<string, Index>, strs: seq<string>, n: nat)
    requires n <= |strs|
    ensures Built(hnsw0, IndexesAfter(hnsw0, strs, n), strs, n)
  {
    if n > 0 {
      IndexesAfterBuilt(hnsw0, strs, n - 1);
      var hnsw := IndexesAfter(hnsw0, strs, n - 1);
      var hnsw' := IndexesAfter(hnsw0, strs, n);
      forall t ensures t in hnsw' <==> t in hnsw0 || HeldBelow(strs, t, n) {
        HeldBelowStep(strs, t, n - 1);
        SubstringsContained(strs[n - 1], t);
      }
      forall t | t in hnsw'
        ensures hnsw'[t] == IndexOf(hnsw0, t).(points := IndexOf(hnsw0, t).points + Holders(strs, t, n))
      {
        BuiltAt(hnsw0, hnsw, strs, n - 1, t);
      }
    }
  }

  /** The index of `t` after string `n` is added. */
  lemma BuiltAt(hnsw0: map<string, Index>, hnsw: map<string, Index>, strs: seq<string>, n: nat, t: string)
    requires n < |strs| && Built(hnsw0, hnsw, strs, n)
    requires t in RecordIndexes(hnsw, n, Substrings(strs[n]))
    ensures RecordIndexes(hnsw, n, Substrings(strs[n]))[t]
      == IndexOf(hnsw0, t).(points := IndexOf(hnsw0, t).points + Holders(strs, t, n + 1))
  {
    HoldersNonEmpty(strs, t, n);
    SubstringsContained(strs[n], t);
    var base := IndexOf(hnsw0, t);
    var before := Holders(strs, t, n);
    if t !in hnsw {
      assert before == [];
    }
    assert IndexOf(hnsw, t) == base.(points := base.points + before);
    if t in Substrings(strs[n]) {
      assert Holders(strs, t, n + 1) == before + [n];
      assert (base.points + before) + [n] == base.points + (before + [n]);
    }
  }

  class OptQuery {
    var strs: seq<string>
    /** `num_elements` */
    var numElements: int
    /** `hnsw`: the index of each substring. */
    var hnsw: map<string, Index>
    /** `str_to_ids`: the ids already added to each substring's index. */
    var strToIds: map<string, set<int>>

    /** No index for the empty string, and no scratch sets between
        builds. */
    predicate Valid()
      reads this
    {
      [] !in hnsw && strToIds == map[]
    }

    constructor(strs: seq<string>, numElements: int)
      ensures this.strs == strs && this.numElements == numElements
      ensures hnsw == map[] && Valid()
    {
      this.strs, this.numElements := strs, numElements;
      hnsw, strToIds := map[], map[];
    }

    /** `set_ef`: every index takes the width `ef`. */
    method SetEf(ef: int)
      modifies this
      ensures hnsw.Keys == old(hnsw).Keys
      ensures forall t | t in hnsw :: hnsw[t] == old(hnsw)[t].(ef := ef)
      ensures strs == old(strs) && numElements == old(numElements) && strToIds == old(strToIds)
    {
      hnsw := map t | t in hnsw :: hnsw[t].(ef := ef);
    }

    /** The body of the innermost loop of `build`, for string `i` and its
        substring `sub`: create the index if needed, and add `i` to it
        unless it is already recorded. */
    method AddSubstring(i: int, sub: string)
      modifies this
      ensures strToIds == old(strToIds)[sub := IdsOf(old(strToIds), sub) + {i}]
      ensures hnsw == old(hnsw)[sub := Extended(IndexOf(old(hnsw), sub), i, i !in IdsOf(old(strToIds), sub))]
      ensures strs == old(strs) && numElements == old(numElements)
    {
      var ids := IdsOf(strToIds, sub);
      if i !in ids {
        var idx := IndexOf(hnsw, sub);
        hnsw := hnsw[sub := idx.(points := idx.points + [i])];
      } else if sub !in hnsw {
        hnsw := hnsw[sub := Index([], DEFAULT_EF)];
      }
      strToIds := strToIds[sub := ids + {i}];
    }

    /** The two inner loops of `build` for string `i`: every non-empty
        substring of it gets an index and, at its first occurrence, the
        id `i`. */
    method AddString(i: nat)
      requires i < |strs|
      requires forall t | t in strToIds :: i !in strToIds[t]
      modifies this
      ensures strs == old(strs) && numElements == old(numElements)
      ensures strToIds == RecordIds(old(strToIds), i, Substrings(strs[i]))
      ensures hnsw == RecordIndexes(old(hnsw), i, Substrings(strs[i]))
    {
      var s := strs[i];
      RecordNothing(strToIds, hnsw, i);
      for j := 0 to |s|
        invariant strs == old(strs) && numElements == old(numElements)
        invariant strToIds == RecordIds(old(strToIds), i, Reached(s, j, 1))
        invariant hnsw == RecordIndexes(old(hnsw), i, Reached(s, j, 1))
      {
        AddFrom(i, j, old(strToIds), old(hnsw));
      }
      ReachedAll(s);
    }

    /** The innermost loop of `build`: the substrings of string `i` that
        start at `j`, shortest first. */
    method AddFrom(i: nat, j: nat, ghost ids0: map<string, set<int>>, ghost hnsw0: map<string, Index>)
      requires i < |strs| && j < |strs[i]|
      requires forall t | t in ids0 :: i !in ids0[t]
      requires strToIds == RecordIds(ids0, i, Reached(strs[i], j, 1))
      requires hnsw == RecordIndexes(hnsw0, i, Reached(strs[i], j, 1))
      modifies this
      ensures strs == old(strs) && numElements == old(numElements)
      ensures strToIds == RecordIds(ids0, i, Reached(strs[i], j + 1, 1))
      ensures hnsw == RecordIndexes(hnsw0, i, Reached(strs[i], j + 1, 1))
    {
      var s := strs[i];
      for len := 1 to |s| - j + 1
        invariant strs == old(strs) && numElements == old(numElements)
        invariant strToIds == RecordIds(ids0, i, Reached(s, j, len))
        invariant hnsw == RecordIndexes(hnsw0, i, Reached(s, j, len))
      {
        AddStep(ids0, hnsw0, i, s, j, len);
        AddSubstring(i, s[j..j + len]);
      }
    }

    /** `build`: enumerate every substring of every string below
        `num_elements`, then drop the scratch sets. */
    method Build()
      requires Valid() && numElements <= |strs|
      modifies this
      ensures Valid() && strs == old(strs) && numElements == old(numElements)
      ensures hnsw == IndexesAfter(old(hnsw), strs, Max(numElements, 0))
    {
      var n := Max(numElements, 0);
      for i := 0 to n
        invariant strs == old(strs) && numElements == old(numElements)
        invariant strToIds == IdsAfter(strs, i)
        invariant hnsw == IndexesAfter(old(hnsw), strs, i)
      {
        IdsAfterBelow(strs, i);
        AddString(i);
      }
      strToIds := map[];
      IndexesAfterBuilt(old(hnsw), strs, n);
      assert [] !in hnsw by {
        HoldersNonEmpty(strs, [], n);
      }
    }

    /** `query`: no index for `s` gives no ids; otherwise a non-zero
        `ef_search` becomes that index's width and the index answers. */
    method Query(vec: seq<real>, s: string, k: int32, efSearch: int32, search: (Index, seq<real>, int) -> seq<int>)
      returns (results: seq<int>)
      modifies this
      ensures s !in old(hnsw) ==> results == [] && hnsw == old(hnsw)
      ensures s in old(hnsw) && efSearch != 0 ==> hnsw == old(hnsw)[s := old(hnsw)[s].(ef := efSearch)]
      ensures s in old(hnsw) && efSearch == 0 ==> hnsw == old(hnsw)
      ensures s in old(hnsw) ==> results == search(hnsw[s], vec, k)
      ensures strs == old(strs) && numElements == old(numElements) && strToIds == old(strToIds)
    {
      if s !in hnsw {
        return [];
      }
      if efSearch != 0 {
        hnsw := hnsw[s := hnsw[s].(ef := efSearch)];
      }
      var found := search(hnsw[s], vec, k);
      results := [];
      for p := 0 to |found|
        invariant results == found[..p]
      {
        results := results + [found[p]];
      }
    }
  }

  /** A build from no indexes leaves exactly one index per non-empty
      substring of the enumerated strings, holding in increasing order the
      ids of the strings that contain it, with the initial width. */
  lemma BuildFacts(strs: seq<string>, n: nat, t: string)
    requires n <= |strs|
    ensures var hnsw := IndexesAfter(map[], strs, n);
      && (t in hnsw <==> t != [] && exists x | 0 <= x < n :: Contains(strs[x], t))
      && (t in hnsw ==> hnsw[t] == Index(Holders(strs, t, n), DEFAULT_EF))
      && (t in hnsw ==> Increasing(hnsw[t].points))
      && (t in hnsw ==> forall x :: x in hnsw[t].points <==> 0 <= x < n && Contains(strs[x], t))
  {
    IndexesAfterBuilt(map[], strs, n);
    HoldersFacts(strs, t, n);
  }
}
