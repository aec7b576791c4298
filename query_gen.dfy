/** generate_queries.py: fixed-length query generation. Each query is a
    random substring of length s of a random base string that is long
    enough, paired with a random vector; `__main__` cuts the string list
    and writes three line-aligned files. */
module QueryGen {
  import opened Common
  import opened Text
  import opened Rng

  /** One query: the substring filter and the query vector. */
  datatype Query = Query(text: string, vector: seq<real>)

  /** The list of queries, or the ValueError raised when no string is long
      enough. */
  datatype Generated = Queries(queries: seq<Query>) | NoLongEnoughString

  predicate LongEnough(minLen: int, st: string) { |st| >= minLen }

  /** Every string in `c` is at least `minLen` long. */
  predicate AllLongEnough(c: seq<string>, minLen: int)
  {
    forall i | 0 <= i < |c| :: |c[i]| >= minLen
  }

  /** `[st for st in string_list if len(st) >= s]` */
  function Candidates(strings: seq<string>, minLen: int): (c: seq<string>)
    ensures AllLongEnough(c, minLen)
  {
    var c := Filter(strings, st => LongEnough(minLen, st));
    FilterMembers(strings, st => LongEnough(minLen, st));
    c
  }

  /** The candidates are listed strings, and there are none exactly when
      every string is too short. */
  lemma CandidatesFacts(strings: seq<string>, minLen: int)
    ensures forall i | 0 <= i < |Candidates(strings, minLen)| :: Candidates(strings, minLen)[i] in strings
    ensures Candidates(strings, minLen) == [] <==> forall i | 0 <= i < |strings| :: |strings[i]| < minLen
  {
    var c := Candidates(strings, minLen);
    FilterMembers(strings, st => LongEnough(minLen, st));
    forall i | 0 <= i < |c| ensures c[i] in strings {
      assert c[i] in multiset(strings);
    }
    if c == [] {
      forall i | 0 <= i < |strings| ensures |strings[i]| < minLen {
        assert strings[i] in strings;
      }
    } else {
      assert c[0] in strings;
    }
  }

  /** Raw draws one query consumes: the choice, the start offset, and one
      per vector component. */
  function DrawsPerQuery(vectorSize: int): nat { 2 + Max(vectorSize, 0) }

  /** Raw draws n queries consume. */
  function DrawsFor(n: int, vectorSize: int): nat
    decreases Max(n, 0)
  {
    if n <= 0 then 0 else DrawsPerQuery(vectorSize) + DrawsFor(n - 1, vectorSize)
  }

  /** Every query consumes the same number of draws. */
  lemma {:induction false} DrawsForCount(n: int, vectorSize: int)
    ensures DrawsFor(n, vectorSize) == Max(n, 0) * DrawsPerQuery(vectorSize)
    decreases Max(n, 0)
  {
    if n > 0 {
      DrawsForCount(n - 1, vectorSize);
    }
  }

  /** The query drawn at `pos` from a non-empty candidate list. */
  function MakeQuery(draw: Tape, pos: nat, candidates: seq<string>, vectorSize: int, s: int): (q: Query)
    requires candidates != []
    requires AllLongEnough(candidates, s)
  {
    var base := candidates[IntIn(Draw(draw, pos), 0, |candidates| - 1)];
    var start := IntIn(Draw(draw, pos + 1), 0, |base| - s);
    Query(PySlice(base, start, start + s), UnitVector(draw, pos + 2, vectorSize))
  }

  /** `n` queries drawn one after the other from a fixed non-empty
      candidate list, the first at draw `pos`. */
  function QueryList(draw: Tape, pos: nat, candidates: seq<string>, vectorSize: int, s: int, n: nat): (qs: seq<Query>)
    requires candidates != []
    requires AllLongEnough(candidates, s)
    ensures |qs| == n
    decreases n
  {
    if n == 0 then []
    else
      [MakeQuery(draw, pos, candidates, vectorSize, s)]
        + QueryList(draw, pos + DrawsPerQuery(vectorSize), candidates, vectorSize, s, n - 1)
  }

  /** The result of `generate_queries(string_list, vector_size, s, n)` when
      the generator is at draw `pos`. */
  function QueriesFrom(draw: Tape, pos: nat, strings: seq<string>, vectorSize: int, s: int, n: int): Generated
  {
    if n <= 0 then Queries([])
    else
      var candidates := Candidates(strings, s);
      if candidates == [] then NoLongEnoughString
      else Queries(QueryList(draw, pos, candidates, vectorSize, s, n))
  }

  /** `generate_queries` as written: one loop iteration per query, each
      recomputing the candidates, drawing the base string, the offset and
      the vector from the shared generator. */
  method GenerateQueries(rng: Rng, strings: seq<string>, vectorSize: int, s: int, numQueries: int)
      returns (result: Generated)
    modifies rng
    ensures result == QueriesFrom(rng.draw, old(rng.pos), strings, vectorSize, s, numQueries)
    ensures result.Queries? ==> rng.pos == old(rng.pos) + DrawsFor(numQueries, vectorSize)
  {
    ghost var draw, start, n := rng.draw, rng.pos, Max(numQueries, 0);
    ghost var cands := Candidates(strings, s);
    var queries: seq<Query> := [];
    var i: nat := 0;
    while i < numQueries
      invariant i <= n
      invariant rng.draw == draw && rng.pos == start + DrawsFor(i, vectorSize)
      invariant cands == [] ==> i == 0 && queries == []
      invariant cands != [] ==> Pending(draw, start, rng.pos, cands, vectorSize, s, n, i, queries)
    {
      var candidates := Candidates(strings, s);
      if candidates == [] {
        return NoLongEnoughString;
      }
      ghost var here := rng.pos;
      var q := DrawQuery(rng, candidates, vectorSize, s);
      TakeFirst(draw, start, here, cands, vectorSize, s, n, i, queries, q);
      queries := queries + [q];
      i := i + 1;
    }
    if cands != [] {
      assert queries + QueryList(draw, rng.pos, cands, vectorSize, s, 0) == QueryList(draw, start, cands, vectorSize, s, n);
    }
    result := Queries(queries);
  }

  /** One iteration of the loop in `generate_queries`: pick a candidate,
      pick an offset that leaves room for s characters, cut the substring,
      draw the vector. */
  method DrawQuery(rng: Rng, candidates: seq<string>, vectorSize: int, s: int) returns (q: Query)
    requires candidates != [] && AllLongEnough(candidates, s)
    modifies rng
    ensures q == MakeQuery(rng.draw, old(rng.pos), candidates, vectorSize, s)
    ensures rng.pos == old(rng.pos) + DrawsPerQuery(vectorSize)
  {
    ghost var here := rng.pos;
    var choice := rng.ChoiceIndex(|candidates|);
    var base := candidates[choice];
    var offset := rng.RandInt(0, |base| - s);
    var substring := PySlice(base, offset, offset + s);
    var vector := rng.RandomVector(vectorSize);
    DrawnQuery(rng.draw, here, candidates, vectorSize, s, choice, offset, vector);
    q := Query(substring, vector);
  }

  /** After `i` of `n` queries, the queries drawn so far followed by the
      ones still to be drawn from `pos` are the whole list. */
  predicate Pending(draw: Tape, start: nat, pos: nat, candidates: seq<string>, vectorSize: int, s: int,
                    n: nat, i: nat, done: seq<Query>)
    requires candidates != [] && AllLongEnough(candidates, s) && i <= n
  {
    done + QueryList(draw, pos, candidates, vectorSize, s, n - i) == QueryList(draw, start, candidates, vectorSize, s, n)
  }

  /** Taking the first of the queries still to be drawn. */
  lemma TakeFirst(draw: Tape, start: nat, pos: nat, candidates: seq<string>, vectorSize: int, s: int,
                  n: nat, i: nat, done: seq<Query>, q: Query)
    requires candidates != [] && AllLongEnough(candidates, s) && i < n
    requires Pending(draw, start, pos, candidates, vectorSize, s, n, i, done)
    requires q == MakeQuery(draw, pos, candidates, vectorSize, s)
    ensures Pending(draw, start, pos + DrawsPerQuery(vectorSize), candidates, vectorSize, s, n, i + 1, done + [q])
  {
    assert done + QueryList(draw, pos, candidates, vectorSize, s, n - i)
      == (done + [q]) + QueryList(draw, pos + DrawsPerQuery(vectorSize), candidates, vectorSize, s, n - i - 1);
  }

  /** The draws one loop iteration makes build the query `MakeQuery`
      describes. */
  lemma DrawnQuery(draw: Tape, pos: nat, candidates: seq<string>, vectorSize: int, s: int,
                   choice: int, offset: int, vector: seq<real>)
    requires candidates != [] && AllLongEnough(candidates, s)
    requires choice == IntIn(Draw(draw, pos), 0, |candidates| - 1)
    requires offset == IntIn(Draw(draw, pos + 1), 0, |candidates[choice]| - s)
    requires vector == UnitVector(draw, pos + 2, vectorSize)
    ensures Query(PySlice(candidates[choice], offset, offset + s), vector) == MakeQuery(draw, pos, candidates, vectorSize, s)
  {
  }

  /** What the source promises of one query: the substring has length
      exactly s and is a slice of a listed string that is long enough; the
      vector has vector_size components in [0, 1). */
  predicate WellFormed(q: Query, strings: seq<string>, vectorSize: int, s: int)
  {
    |q.text| == s && SliceOfSome(q.text, strings, s) &&
    |q.vector| == Max(vectorSize, 0) && (forall j | 0 <= j < |q.vector| :: 0.0 <= q.vector[j] < 1.0)
  }

  predicate AllWellFormed(qs: seq<Query>, strings: seq<string>, vectorSize: int, s: int)
  {
    forall i | 0 <= i < |qs| :: WellFormed(qs[i], strings, vectorSize, s)
  }

  /** `t` is a contiguous slice of some listed string of length at least
      `minLen`. */
  predicate SliceOfSome(t: string, strings: seq<string>, minLen: int)
  {
    exists j | 0 <= j < |strings| :: |strings[j]| >= minLen && Contains(strings[j], t)
  }

  lemma MakeQueryFacts(draw: Tape, pos: nat, strings: seq<string>, vectorSize: int, s: int)
    requires s >= 0 && Candidates(strings, s) != []
    ensures WellFormed(MakeQuery(draw, pos, Candidates(strings, s), vectorSize, s), strings, vectorSize, s)
  {
    var candidates := Candidates(strings, s);
    var c, start := TextAt(draw, pos, candidates, vectorSize, s);
    CandidateListed(strings, s, c);
    SliceOfListed(candidates[c], strings, start, s, s);
  }

  /** Where the text of a query comes from: the slice of length `s` at
      `start` of one candidate. */
  lemma TextAt(draw: Tape, pos: nat, candidates: seq<string>, vectorSize: int, s: int) returns (c: nat, start: nat)
    requires s >= 0 && candidates != [] && AllLongEnough(candidates, s)
    ensures c < |candidates| && start + s <= |candidates[c]|
    ensures MakeQuery(draw, pos, candidates, vectorSize, s).text == candidates[c][start..start + s]
  {
    c := IntIn(Draw(draw, pos), 0, |candidates| - 1);
    start := IntIn(Draw(draw, pos + 1), 0, |candidates[c]| - s);
  }

  /** A candidate is a listed string of the required length. */
  lemma CandidateListed(strings: seq<string>, minLen: int, c: nat)
    requires c < |Candidates(strings, minLen)|
    ensures Candidates(strings, minLen)[c] in strings && |Candidates(strings, minLen)[c]| >= minLen
  {
    CandidatesFacts(strings, minLen);
  }

  /** A slice of a listed string of length at least `minLen` is a slice of
      some listed string. */
  lemma SliceOfListed(base: string, strings: seq<string>, start: int, len: int, minLen: int)
    requires base in strings && |base| >= minLen
    requires 0 <= start && 0 <= len && start + len <= |base|
    ensures SliceOfSome(base[start..start + len], strings, minLen)
  {
    var j := ListedAt(base, strings);
    assert OccursAt(strings[j], base[start..start + len], start);
  }

  /** An index at which a listed string occurs. */
  lemma ListedAt(x: string, strings: seq<string>) returns (j: nat)
    requires x in strings
    ensures j < |strings| && strings[j] == x
  {
    j :| j < |strings| && strings[j] == x;
  }

  /** Every generated list has one query per requested query, and every
      query is well formed. */
  lemma GeneratedQueries(draw: Tape, pos: nat, strings: seq<string>, vectorSize: int, s: int, n: int)
    requires s >= 0 && QueriesFrom(draw, pos, strings, vectorSize, s, n).Queries?
    ensures var qs := QueriesFrom(draw, pos, strings, vectorSize, s, n).queries;
      |qs| == Max(n, 0) && AllWellFormed(qs, strings, vectorSize, s)
  {
    if n > 0 {
      QueryListFacts(draw, pos, strings, vectorSize, s, n);
    }
  }

  lemma {:induction false} QueryListFacts(draw: Tape, pos: nat, strings: seq<string>, vectorSize: int, s: int, n: nat)
    requires s >= 0 && Candidates(strings, s) != []
    ensures AllWellFormed(QueryList(draw, pos, Candidates(strings, s), vectorSize, s, n), strings, vectorSize, s)
    decreases n
  {
    if n > 0 {
      var candidates := Candidates(strings, s);
      var qs := QueryList(draw, pos, candidates, vectorSize, s, n);
      var rest := QueryList(draw, pos + DrawsPerQuery(vectorSize), candidates, vectorSize, s, n - 1);
      QueryListFacts(draw, pos + DrawsPerQuery(vectorSize), strings, vectorSize, s, n - 1);
      MakeQueryFacts(draw, pos, strings, vectorSize, s);
      var q := MakeQuery(draw, pos, candidates, vectorSize, s);
      assert qs == [q] + rest;
      AllWellFormedCons(q, rest, strings, vectorSize, s);
    }
  }

  lemma AllWellFormedCons(q: Query, rest: seq<Query>, strings: seq<string>, vectorSize: int, s: int)
    requires WellFormed(q, strings, vectorSize, s)
    requires AllWellFormed(rest, strings, vectorSize, s)
    ensures AllWellFormed([q] + rest, strings, vectorSize, s)
  {
    var qs := [q] + rest;
    forall i | 0 <= i < |qs| ensures WellFormed(qs[i], strings, vectorSize, s) {
      if i > 0 {
        assert qs[i] == rest[i - 1];
      }
    }
  }

  /** The ValueError is raised exactly when at least one query is requested
      and no string is long enough. */
  lemma FailsExactlyWithoutCandidates(draw: Tape, pos: nat, strings: seq<string>, vectorSize: int, s: int, n: int)
    ensures QueriesFrom(draw, pos, strings, vectorSize, s, n) == NoLongEnoughString
      <==> n > 0 && forall i | 0 <= i < |strings| :: |strings[i]| < s
  {
    CandidatesFacts(strings, s);
  }

  /** The queries depend only on the draws they consume: two generators
      that agree on those draws give the same queries. */
  lemma UsesOnlyItsDraws(d1: Tape, d2: Tape, pos: nat, strings: seq<string>, vectorSize: int, s: int, n: int)
    requires forall j | pos <= j < pos + DrawsFor(n, vectorSize) :: Draw(d1, j) == Draw(d2, j)
    ensures QueriesFrom(d1, pos, strings, vectorSize, s, n) == QueriesFrom(d2, pos, strings, vectorSize, s, n)
  {
    if n > 0 && Candidates(strings, s) != [] {
      QueryListSameDraws(d1, d2, pos, Candidates(strings, s), vectorSize, s, n);
    }
  }

  lemma {:induction false} QueryListSameDraws(d1: Tape, d2: Tape, pos: nat, candidates: seq<string>, vectorSize: int, s: int, n: nat)
    requires candidates != [] && AllLongEnough(candidates, s)
    requires forall j | pos <= j < pos + DrawsFor(n, vectorSize) :: Draw(d1, j) == Draw(d2, j)
    ensures QueryList(d1, pos, candidates, vectorSize, s, n) == QueryList(d2, pos, candidates, vectorSize, s, n)
    decreases n
  {
    if n > 0 {
      QueryListSameDraws(d1, d2, pos + DrawsPerQuery(vectorSize), candidates, vectorSize, s, n - 1);
      SameDrawsSameQuery(d1, d2, pos, candidates, vectorSize, s);
    }
  }

  lemma SameDrawsSameQuery(d1: Tape, d2: Tape, pos: nat, candidates: seq<string>, vectorSize: int, s: int)
    requires candidates != [] && AllLongEnough(candidates, s)
    requires forall j | pos <= j < pos + DrawsPerQuery(vectorSize) :: Draw(d1, j) == Draw(d2, j)
    ensures MakeQuery(d1, pos, candidates, vectorSize, s) == MakeQuery(d2, pos, candidates, vectorSize, s)
  {
    assert Draw(d1, pos) == Draw(d2, pos) && Draw(d1, pos + 1) == Draw(d2, pos + 1);
    assert UnitVector(d1, pos + 2, vectorSize) == UnitVector(d2, pos + 2, vectorSize);
  }

  /** `string_list[:truncate_len]` unless truncate_len is -1. */
  function TruncateStrings(strings: seq<string>, truncateLen: int): (r: seq<string>)
    ensures truncateLen == -1 ==> r == strings
    ensures truncateLen >= 0 ==> r == Prefix(strings, truncateLen)
    ensures truncateLen < -1 ==> r == strings[..Max(|strings| + truncateLen, 0)]
  {
    if truncateLen != -1 then PySlice(strings, 0, truncateLen) else strings
  }

  /** The three output files, one line per query: the substring, the
      vector's components (written by `showReal`, Python's float `str`)
      separated by spaces, and k. */
  function OutputFiles(queries: seq<Query>, k: int, showReal: real -> string): (files: (seq<string>, seq<string>, seq<string>))
    ensures |files.0| == |queries| && |files.1| == |queries| && |files.2| == |queries|
    ensures forall i | 0 <= i < |queries| ::
      files.0[i] == queries[i].text + "\n" && files.2[i] == IntToString(k) + "\n"
  {
    (seq(|queries|, i requires 0 <= i < |queries| => queries[i].text + "\n"),
     seq(|queries|, i requires 0 <= i < |queries| => VectorLine(queries[i].vector, showReal)),
     seq(|queries|, i requires 0 <= i < |queries| => IntToString(k) + "\n"))
  }

  /** `" ".join(map(str, vec)) + "\n"` */
  function VectorLine(vec: seq<real>, showReal: real -> string): string
  {
    Join(" ", seq(|vec|, i requires 0 <= i < |vec| => showReal(vec[i]))) + "\n"
  }
}
