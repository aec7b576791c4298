/** scripts/generate_queries.py: the query generator with an optional mixed
    length. Without it the generator draws exactly as generate_queries.py
    does; with it every query is 2 to 4 characters long, cut from any
    string of length at least 2. */
module QueryGenMixed {
  import opened Common
  import opened Rng
  import opened QueryGen

  /** The number of queries the generator receives and what it does in
      each mode: without mixed_length it is the loop of generate_queries.py
      draw for draw (min_s and curr_s both stay s); with it, see
      `MixedQueriesFrom`. */
  function GeneratedWith(draw: Tape, pos: nat, strings: seq<string>, vectorSize: int, s: int, n: int, mixed: bool): Generated
  {
    if mixed then MixedQueriesFrom(draw, pos, strings, vectorSize, n) else QueriesFrom(draw, pos, strings, vectorSize, s, n)
  }

  /** Raw draws one mixed-length query consumes: the discarded length, the
      choice, the length, the offset, then one per vector component. */
  function DrawsPerMixedQuery(vectorSize: int): nat
  {
    4 + Max(vectorSize, 0)
  }

  /** Raw draws n mixed-length queries consume. */
  function MixedDrawsFor(n: int, vectorSize: int): nat
    decreases Max(n, 0)
  {
    if n <= 0 then 0 else DrawsPerMixedQuery(vectorSize) + MixedDrawsFor(n - 1, vectorSize)
  }

  /** The mixed-length query drawn at `pos` from a non-empty list of
      strings of length at least 2. The draw at `pos` is the length
      `randint(2, 4)` that is overwritten before use. */
  function MakeMixedQuery(draw: Tape, pos: nat, candidates: seq<string>, vectorSize: int): (q: Query)
    requires candidates != [] && AllLongEnough(candidates, 2)
  {
    var base := candidates[IntIn(Draw(draw, pos + 1), 0, |candidates| - 1)];
    var len := IntIn(Draw(draw, pos + 2), 2, Min(4, |base|));
    var start := IntIn(Draw(draw, pos + 3), 0, |base| - len);
    Query(base[start..start + len], UnitVector(draw, pos + 4, vectorSize))
  }

  /** `n` mixed-length queries drawn one after the other, the first at
      draw `pos`. */
  function MixedList(draw: Tape, pos: nat, candidates: seq<string>, vectorSize: int, n: nat): (qs: seq<Query>)
    requires candidates != [] && AllLongEnough(candidates, 2)
    ensures |qs| == n
    decreases n
  {
    if n == 0 then []
    else
      [MakeMixedQuery(draw, pos, candidates, vectorSize)]
        + MixedList(draw, pos + DrawsPerMixedQuery(vectorSize), candidates, vectorSize, n - 1)
  }

  /** The result of `generate_queries(..., mixed_length=True)` when the
      generator is at draw `pos`; `s` plays no part. */
  function MixedQueriesFrom(draw: Tape, pos: nat, strings: seq<string>, vectorSize: int, n: int): Generated
  {
    if n <= 0 then Queries([])
    else
      var candidates := Candidates(strings, 2);
      if candidates == [] then NoLongEnoughString
      else Queries(MixedList(draw, pos, candidates, vectorSize, n))
  }

  /** `generate_queries(string_list, vector_size, s, num_queries,
      mixed_length)`. */
  method GenerateQueriesWith(rng: Rng, strings: seq<string>, vectorSize: int, s: int, numQueries: int, mixed: bool)
      returns (result: Generated)
    modifies rng
    ensures result == GeneratedWith(rng.draw, old(rng.pos), strings, vectorSize, s, numQueries, mixed)
  {
    if mixed {
      result := GenerateMixedQueries(rng, strings, vectorSize, numQueries);
    } else {
      result := GenerateQueries(rng, strings, vectorSize, s, numQueries);
    }
  }

  /** The loop of `generate_queries` in mixed mode: each iteration draws
      the discarded length, recomputes the candidates of length at least 2,
      then draws the choice, the length, the offset and the vector. */
  method GenerateMixedQueries(rng: Rng, strings: seq<string>, vectorSize: int, numQueries: int)
      returns (result: Generated)
    modifies rng
    ensures result == MixedQueriesFrom(rng.draw, old(rng.pos), strings, vectorSize, numQueries)
    ensures result.Queries? ==> rng.pos == old(rng.pos) + MixedDrawsFor(numQueries, vectorSize)
  {
    ghost var draw, start, n := rng.draw, rng.pos, Max(numQueries, 0);
    ghost var cands := Candidates(strings, 2);
    var queries: seq<Query> := [];
    var i: nat := 0;
    while i < numQueries
      invariant i <= n
      invariant rng.draw == draw && rng.pos == start + MixedDrawsFor(i, vectorSize)
      invariant cands == [] ==> i == 0 && queries == []
      invariant cands != [] ==> PendingMixed(draw, start, rng.pos, cands, vectorSize, n, i, queries)
    {
      ghost var here := rng.pos;
      var next := NextMixedQuery(rng, strings, vectorSize);
      if next.None? {
        return NoLongEnoughString;
      }
      TakeFirstMixed(draw, start, here, cands, vectorSize, n, i, queries, next.value);
      queries := queries + [next.value];
      i := i + 1;
    }
    if cands != [] {
      assert queries + MixedList(draw, rng.pos, cands, vectorSize, 0) == MixedList(draw, start, cands, vectorSize, n);
    }
    result := Queries(queries);
  }

  /** One iteration of the mixed-mode loop: the discarded length, the
      candidates of length at least 2 (none: the ValueError), then the
      query. */
  method NextMixedQuery(rng: Rng, strings: seq<string>, vectorSize: int) returns (next: Option<Query>)
    modifies rng
    ensures next.None? <==> Candidates(strings, 2) == []
    ensures next.Some? ==> Candidates(strings, 2) != [] && AllLongEnough(Candidates(strings, 2), 2)
    ensures next.Some? ==> next.value == MakeMixedQuery(rng.draw, old(rng.pos), Candidates(strings, 2), vectorSize)
    ensures next.Some? ==> rng.pos == old(rng.pos) + DrawsPerMixedQuery(vectorSize)
  {
    ghost var first := rng.pos;
    var ignored := rng.RandInt(2, 4);
    var candidates := Candidates(strings, 2);
    if candidates == [] {
      return None;
    }
    var q := DrawMixedQuery(rng, candidates, vectorSize, first);
    next := Some(q);
  }

  /** The rest of one mixed-mode iteration, after the discarded length:
      choice, final length `randint(2, min(4, len(base)))`, offset, vector. */
  method DrawMixedQuery(rng: Rng, candidates: seq<string>, vectorSize: int, ghost first: nat) returns (q: Query)
    requires candidates != [] && AllLongEnough(candidates, 2)
    requires rng.pos == first + 1
    modifies rng
    ensures q == MakeMixedQuery(rng.draw, first, candidates, vectorSize)
    ensures rng.pos == first + DrawsPerMixedQuery(vectorSize)
  {
    var choice := rng.ChoiceIndex(|candidates|);
    var base := candidates[choice];
    var len := rng.RandInt(2, Min(4, |base|));
    var offset := rng.RandInt(0, |base| - len);
    var substring := base[offset..offset + len];
    var vector := rng.RandomVector(vectorSize);
    DrawnMixedQuery(rng.draw, first, candidates, vectorSize, choice, len, offset, vector);
    q := Query(substring, vector);
  }

  /** The draws of one mixed-mode iteration build the query
      `MakeMixedQuery` describes. */
  lemma DrawnMixedQuery(draw: Tape, pos: nat, candidates: seq<string>, vectorSize: int,
                        choice: int, len: int, offset: int, vector: seq<real>)
    requires candidates != [] && AllLongEnough(candidates, 2)
    requires choice == IntIn(Draw(draw, pos + 1), 0, |candidates| - 1)
    requires len == IntIn(Draw(draw, pos + 2), 2, Min(4, |candidates[choice]|))
    requires offset == IntIn(Draw(draw, pos + 3), 0, |candidates[choice]| - len)
    requires vector == UnitVector(draw, pos + 4, vectorSize)
    ensures Query(candidates[choice][offset..offset + len], vector) == MakeMixedQuery(draw, pos, candidates, vectorSize)
  {
  }

  /** After `i` of `n` queries, the queries drawn so far followed by the
      ones still to be drawn from `pos` are the whole list. */
  predicate PendingMixed(draw: Tape, start: nat, pos: nat, candidates: seq<string>, vectorSize: int,
                         n: nat, i: nat, done: seq<Query>)
    requires candidates != [] && AllLongEnough(candidates, 2) && i <= n
  {
    done + MixedList(draw, pos, candidates, vectorSize, n - i) == MixedList(draw, start, candidates, vectorSize, n)
  }

  /** Taking the first of the queries still to be drawn. */
  lemma TakeFirstMixed(draw: Tape, start: nat, pos: nat, candidates: seq<string>, vectorSize: int,
                       n: nat, i: nat, done: seq<Query>, q: Query)
    requires candidates != [] && AllLongEnough(candidates, 2) && i < n
    requires PendingMixed(draw, start, pos, candidates, vectorSize, n, i, done)
    requires q == MakeMixedQuery(draw, pos, candidates, vectorSize)
    ensures PendingMixed(draw, start, pos + DrawsPerMixedQuery(vectorSize), candidates, vectorSize, n, i + 1, done + [q])
  {
    var rest := MixedList(draw, pos + DrawsPerMixedQuery(vectorSize), candidates, vectorSize, n - i - 1);
    assert MixedList(draw, pos, candidates, vectorSize, n - i) == [q] + rest;
    AppendAssociative(done, [q], rest);
  }

  /** What the source promises of a mixed-length query: 2 to 4 characters
      cut from a listed string of length at least 2, and a vector of
      vector_size components in [0, 1). */
  predicate MixedShape(q: Query, strings: seq<string>, vectorSize: int)
  {
    2 <= |q.text| <= 4 && SliceOfSome(q.text, strings, 2) &&
    |q.vector| == Max(vectorSize, 0) && (forall j | 0 <= j < |q.vector| :: 0.0 <= q.vector[j] < 1.0)
  }

  predicate AllMixedShape(qs: seq<Query>, strings: seq<string>, vectorSize: int)
  {
    forall i | 0 <= i < |qs| :: MixedShape(qs[i], strings, vectorSize)
  }

  lemma MixedQueryShape(draw: Tape, pos: nat, strings: seq<string>, vectorSize: int)
    requires Candidates(strings, 2) != []
    ensures MixedShape(MakeMixedQuery(draw, pos, Candidates(strings, 2), vectorSize), strings, vectorSize)
  {
    var candidates := Candidates(strings, 2);
    var c, start, len := MixedTextAt(draw, pos, candidates, vectorSize);
    CandidateListed(strings, 2, c);
    SliceOfListed(candidates[c], strings, start, len, 2);
  }

  /** Where the text of a mixed-length query comes from: a slice of 2 to 4
      characters of one candidate. */
  lemma MixedTextAt(draw: Tape, pos: nat, candidates: seq<string>, vectorSize: int) returns (c: nat, start: nat, len: nat)
    requires candidates != [] && AllLongEnough(candidates, 2)
    ensures c < |candidates| && 2 <= len <= 4 && start + len <= |candidates[c]|
    ensures MakeMixedQuery(draw, pos, candidates, vectorSize).text == candidates[c][start..start + len]
  {
    c := IntIn(Draw(draw, pos + 1), 0, |candidates| - 1);
    len := IntIn(Draw(draw, pos + 2), 2, Min(4, |candidates[c]|));
    start := IntIn(Draw(draw, pos + 3), 0, |candidates[c]| - len);
  }

  /** Every mixed-length query has the promised shape, and there are as
      many as requested. */
  lemma MixedQueriesShape(draw: Tape, pos: nat, strings: seq<string>, vectorSize: int, n: int)
    requires MixedQueriesFrom(draw, pos, strings, vectorSize, n).Queries?
    ensures var qs := MixedQueriesFrom(draw, pos, strings, vectorSize, n).queries;
      |qs| == Max(n, 0) && AllMixedShape(qs, strings, vectorSize)
  {
    if n > 0 {
      MixedListShape(draw, pos, strings, vectorSize, n);
    }
  }

  lemma {:induction false} MixedListShape(draw: Tape, pos: nat, strings: seq<string>, vectorSize: int, n: nat)
    requires Candidates(strings, 2) != []
    ensures AllMixedShape(MixedList(draw, pos, Candidates(strings, 2), vectorSize, n), strings, vectorSize)
    decreases n
  {
    if n > 0 {
      var candidates := Candidates(strings, 2);
      var rest := MixedList(draw, pos + DrawsPerMixedQuery(vectorSize), candidates, vectorSize, n - 1);
      var q := MakeMixedQuery(draw, pos, candidates, vectorSize);
      MixedListShape(draw, pos + DrawsPerMixedQuery(vectorSize), strings, vectorSize, n - 1);
      MixedQueryShape(draw, pos, strings, vectorSize);
      assert MixedList(draw, pos, candidates, vectorSize, n) == [q] + rest;
      AllMixedShapeCons(q, rest, strings, vectorSize);
    }
  }

  lemma AllMixedShapeCons(q: Query, rest: seq<Query>, strings: seq<string>, vectorSize: int)
    requires MixedShape(q, strings, vectorSize) && AllMixedShape(rest, strings, vectorSize)
    ensures AllMixedShape([q] + rest, strings, vectorSize)
  {
    var qs := [q] + rest;
    forall i | 0 <= i < |qs| ensures MixedShape(qs[i], strings, vectorSize) {
      if i > 0 {
        assert qs[i] == rest[i - 1];
      }
    }
  }

  /** In mixed mode the ValueError is raised exactly when at least one
      query is requested and no string has two characters. */
  lemma MixedFailsExactly(draw: Tape, pos: nat, strings: seq<string>, vectorSize: int, n: int)
    ensures MixedQueriesFrom(draw, pos, strings, vectorSize, n) == NoLongEnoughString
      <==> n > 0 && forall i | 0 <= i < |strings| :: |strings[i]| < 2
  {
    CandidatesFacts(strings, 2);
  }

  /** The first length drawn in mixed mode is overwritten before use: the
      query does not depend on it. */
  lemma DiscardedDraw(d1: Tape, d2: Tape, pos: nat, candidates: seq<string>, vectorSize: int)
    requires candidates != [] && AllLongEnough(candidates, 2)
    requires forall j | pos < j < pos + DrawsPerMixedQuery(vectorSize) :: Draw(d1, j) == Draw(d2, j)
    ensures MakeMixedQuery(d1, pos, candidates, vectorSize) == MakeMixedQuery(d2, pos, candidates, vectorSize)
  {
    assert Draw(d1, pos + 1) == Draw(d2, pos + 1) && Draw(d1, pos + 2) == Draw(d2, pos + 2);
    assert Draw(d1, pos + 3) == Draw(d2, pos + 3);
    assert UnitVector(d1, pos + 4, vectorSize) == UnitVector(d2, pos + 4, vectorSize);
  }

  const MIXED_FLAG := "--mixed-length"

  /** `"--mixed-length" in sys.argv` */
  function MixedFlag(argv: seq<string>): bool
  {
    MIXED_FLAG in argv
  }

  /** `[arg for arg in sys.argv[1:] if arg != "--mixed-length"]` */
  function PositionalArgs(argv: seq<string>): (args: seq<string>)
  {
    if argv == [] then [] else Without(argv[1..], MIXED_FLAG)
  }

  /** `xs` without any occurrence of `flag`, the rest in order. */
  function Without(xs: seq<string>, flag: string): (r: seq<string>)
    ensures |r| <= |xs|
  {
    if xs == [] then []
    else if xs[0] == flag then Without(xs[1..], flag)
    else [xs[0]] + Without(xs[1..], flag)
  }

  /** Removing a flag leaves no occurrence of it, keeps every other
      argument, and removes nothing else. */
  lemma {:induction false} WithoutFacts(xs: seq<string>, flag: string)
    ensures flag !in Without(xs, flag)
    ensures forall x | x in xs && x != flag :: x in Without(xs, flag)
    ensures forall x | x in Without(xs, flag) :: x in xs
    ensures flag !in xs ==> Without(xs, flag) == xs
  {
    if xs != [] {
      WithoutFacts(xs[1..], flag);
      assert xs == [xs[0]] + xs[1..];
    }
  }

  /** The other arguments keep their order: removing the flag distributes
      over concatenation. */
  lemma {:induction false} WithoutAppend(a: seq<string>, b: seq<string>, flag: string)
    ensures Without(a + b, flag) == Without(a, flag) + Without(b, flag)
  {
    if a == [] {
      assert a + b == b;
    } else {
      assert (a + b)[0] == a[0];
      assert (a + b)[1..] == a[1..] + b;
      WithoutAppend(a[1..], b, flag);
    }
  }

  /** The file-name suffix: `"_" + argv[6]` when there are more than six
      positional arguments, otherwise empty. */
  function Suffix(args: seq<string>): (r: string)
    ensures |args| > 6 ==> r == "_" + args[6]
    ensures |args| <= 6 ==> r == ""
  {
    if |args| > 6 then "_" + args[6] else ""
  }

  /** The three output file names. */
  function OutputNames(args: seq<string>): (names: (string, string, string))
    ensures names.0 == "strings" + Suffix(args) + ".txt"
    ensures names.1 == "vectors" + Suffix(args) + ".txt"
    ensures names.2 == "k" + Suffix(args) + ".txt"
    ensures names.0 != names.1 && names.1 != names.2 && names.0 != names.2
  {
    var suffix := Suffix(args);
    var names := ("strings" + suffix + ".txt", "vectors" + suffix + ".txt", "k" + suffix + ".txt");
    assert names.0[0] == 's' && names.1[0] == 'v' && names.2[0] == 'k';
    names
  }

  /** Where `--mixed-length` sits on the command line changes neither the
      positional arguments nor the output names. */
  lemma FlagPlacementIrrelevant(a: seq<string>, b: seq<string>)
    requires a != []
    ensures PositionalArgs(a + [MIXED_FLAG] + b) == PositionalArgs(a + b)
    ensures OutputNames(PositionalArgs(a + [MIXED_FLAG] + b)) == OutputNames(PositionalArgs(a + b))
  {
    assert (a + [MIXED_FLAG] + b)[1..] == a[1..] + ([MIXED_FLAG] + b);
    assert (a + b)[1..] == a[1..] + b;
    WithoutAppend(a[1..], [MIXED_FLAG] + b, MIXED_FLAG);
    WithoutAppend(a[1..], b, MIXED_FLAG);
    assert ([MIXED_FLAG] + b)[1..] == b;
  }
}
