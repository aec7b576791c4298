/** test_elasticsearch.py: the index name, the loaders, the wildcard
    escaping and the parameter sweep of the Elasticsearch benchmark. The
    client calls are left to the caller: a search is the list of hits the
    server answers for a request. */
module Elastic {
  import opened Common
  import opened Text
  import opened Recall

  /** A character of `[a-zA-Z0-9_]`. */
  predicate IsWordChar(c: char)
  {
    'a' <= c <= 'z' || 'A' <= c <= 'Z' || '0' <= c <= '9' || c == '_'
  }

  predicate AllWordChars(s: string)
  {
    forall i | 0 <= i < |s| :: IsWordChar(s[i])
  }

  /** `s` without its leading run of characters outside `[a-zA-Z0-9_]`. */
  function DropRun(s: string): (r: string)
    ensures |r| <= |s| && (r == [] || IsWordChar(r[0]))
    ensures s != [] && !IsWordChar(s[0]) ==> |r| < |s|
  {
    if s != [] && !IsWordChar(s[0]) then DropRun(s[1..]) else s
  }

  /** `re.sub(r"[^a-zA-Z0-9_]+", "_", s)`: every maximal run of other
      characters becomes one underscore. */
  function ReplaceRuns(s: string): (r: string)
    ensures AllWordChars(r) && |r| <= |s|
    decreases |s|
  {
    if s == [] then []
    else if IsWordChar(s[0]) then [s[0]] + ReplaceRuns(s[1..])
    else "_" + ReplaceRuns(DropRun(s))
  }

  /** ASCII lower-casing; only word characters reach it, so Python's
      Unicode `str.lower` acts the same on them. */
  function LowerChar(c: char): char
  {
    if 'A' <= c <= 'Z' then (c as int + 32) as char else c
  }

  function Lower(s: string): (r: string)
    ensures |r| == |s| && forall i | 0 <= i < |s| :: r[i] == LowerChar(s[i])
  {
    if s == [] then [] else [LowerChar(s[0])] + Lower(s[1..])
  }

  /** `s.lstrip("_")` */
  function StripLeading(s: string): (r: string)
    ensures |r| <= |s| && r == s[|s| - |r|..] && (r == [] || r[0] != '_')
  {
    if s != [] && s[0] == '_' then StripLeading(s[1..]) else s
  }

  /** `s.rstrip("_")` */
  function StripTrailing(s: string): (r: string)
    ensures |r| <= |s| && r == s[..|r|] && (r == [] || r[|r| - 1] != '_')
  {
    if s != [] && s[|s| - 1] == '_' then StripTrailing(s[..|s| - 1]) else s
  }

  /** `sanitize_name(path)`: runs of other characters to one underscore,
      lower case, no underscore at either end. */
  function SanitizeName(path: string): string
  {
    StripTrailing(StripLeading(Lower(ReplaceRuns(path))))
  }

  /** A character the index name may hold. */
  predicate IsNameChar(c: char)
  {
    'a' <= c <= 'z' || '0' <= c <= '9' || c == '_'
  }

  predicate IsName(s: string)
  {
    (forall i | 0 <= i < |s| :: IsNameChar(s[i])) && (s == [] || (s[0] != '_' && s[|s| - 1] != '_'))
  }

  /** The sanitized name holds only lower-case letters, digits and
      underscores, and neither starts nor ends with an underscore. */
  lemma SanitizedIsName(path: string)
    ensures IsName(SanitizeName(path))
  {
    var w := ReplaceRuns(path);
    var l := Lower(w);
    assert forall i | 0 <= i < |l| :: IsNameChar(l[i]) by {
      forall i | 0 <= i < |l| ensures IsNameChar(l[i]) {
        assert IsWordChar(w[i]);
      }
    }
    var a := StripLeading(l);
    var r := StripTrailing(a);
    forall i | 0 <= i < |r| ensures IsNameChar(r[i]) {
      assert r[i] == a[i] == l[|l| - |a| + i];
    }
  }

  /** A name is left as it is: sanitizing is idempotent. */
  lemma NameUnchanged(s: string)
    requires IsName(s)
    ensures SanitizeName(s) == s
  {
    WordsUnchanged(s);
    LowerUnchanged(s);
    assert StripLeading(s) == s;
    assert StripTrailing(s) == s;
  }

  lemma SanitizeIdempotent(path: string)
    ensures SanitizeName(SanitizeName(path)) == SanitizeName(path)
  {
    SanitizedIsName(path);
    NameUnchanged(SanitizeName(path));
  }

  lemma {:induction false} WordsUnchanged(s: string)
    requires forall i | 0 <= i < |s| :: IsNameChar(s[i])
    ensures ReplaceRuns(s) == s
    decreases |s|
  {
    if s != [] {
      WordsUnchanged(s[1..]);
    }
  }

  lemma LowerUnchanged(s: string)
    requires forall i | 0 <= i < |s| :: IsNameChar(s[i])
    ensures Lower(s) == s
  {
  }

  /** A maximal run of other characters, however long, becomes a single
      underscore. */
  lemma {:induction false} RunBecomesOneUnderscore(run: string, rest: string)
    requires run != [] && forall i | 0 <= i < |run| :: !IsWordChar(run[i])
    requires rest == [] || IsWordChar(rest[0])
    ensures ReplaceRuns(run + rest) == "_" + ReplaceRuns(rest)
  {
    DropRunOf(run, rest);
  }

  lemma {:induction false} DropRunOf(run: string, rest: string)
    requires forall i | 0 <= i < |run| :: !IsWordChar(run[i])
    requires rest == [] || IsWordChar(rest[0])
    ensures DropRun(run + rest) == rest
    decreases |run|
  {
    if run == [] {
      assert run + rest == rest;
    } else {
      assert (run + rest)[1..] == run[1..] + rest;
      DropRunOf(run[1..], rest);
    }
  }

  /** `s.replace(c, repl)` for a one-character pattern. */
  function ReplaceAll(s: string, c: char, repl: string): string
  {
    if s == [] then [] else (if s[0] == c then repl else [s[0]]) + ReplaceAll(s[1..], c, repl)
  }

  lemma {:induction false} ReplaceAllAppend(a: string, b: string, c: char, repl: string)
    ensures ReplaceAll(a + b, c, repl) == ReplaceAll(a, c, repl) + ReplaceAll(b, c, repl)
  {
    if a == [] {
      assert a + b == b;
    } else {
      assert (a + b)[1..] == a[1..] + b;
      ReplaceAllAppend(a[1..], b, c, repl);
    }
  }

  /** `escape_wildcard_value(value)`: backslashes doubled first, then a
      backslash put before every `*` and `?`. */
  function EscapeWildcard(value: string): string
  {
    ReplaceAll(ReplaceAll(ReplaceAll(value, '\\', "\\\\"), '*', "\\*"), '?', "\\?")
  }

  /** The escape of one character. */
  function EscapeChar(c: char): (r: string)
  {
    if c == '\\' || c == '*' || c == '?' then ['\\', c] else [c]
  }

  /** Escaping character by character. */
  function EscapeEach(value: string): string
  {
    if value == [] then [] else EscapeChar(value[0]) + EscapeEach(value[1..])
  }

  /** The three replacements in a row escape each character on its own: the
      backslashes the later ones add are not doubled again. */
  lemma {:induction false} EscapeIsEachChar(value: string)
    ensures EscapeWildcard(value) == EscapeEach(value)
  {
    if value != [] {
      var c, rest := value[0], value[1..];
      assert value == [c] + rest;
      ReplaceAllAppend([c], rest, '\\', "\\\\");
      var r1, s1 := ReplaceAll([c], '\\', "\\\\"), ReplaceAll(rest, '\\', "\\\\");
      ReplaceAllAppend(r1, s1, '*', "\\*");
      var r2, s2 := ReplaceAll(r1, '*', "\\*"), ReplaceAll(s1, '*', "\\*");
      ReplaceAllAppend(r2, s2, '?', "\\?");
      EscapeOneChar(c);
      EscapeIsEachChar(rest);
    }
  }

  lemma EscapeOneChar(c: char)
    ensures ReplaceAll(ReplaceAll(ReplaceAll([c], '\\', "\\\\"), '*', "\\*"), '?', "\\?") == EscapeChar(c)
  {
    ReplaceSingle(c, '\\', "\\\\");
    if c == '\\' {
      ReplacePair('\\', '\\', '*', "\\*");
      ReplacePair('\\', '\\', '?', "\\?");
    } else if c == '*' {
      ReplaceSingle(c, '*', "\\*");
      ReplacePair('\\', '*', '?', "\\?");
    } else {
      ReplaceSingle(c, '*', "\\*");
      ReplaceSingle(c, '?', "\\?");
    }
  }

  lemma ReplaceSingle(x: char, c: char, repl: string)
    ensures ReplaceAll([x], c, repl) == if x == c then repl else [x]
  {
    assert [x][1..] == [];
  }

  lemma ReplacePair(x: char, y: char, c: char, repl: string)
    requires x != c && y != c
    ensures ReplaceAll([x, y], c, repl) == [x, y]
  {
    assert [x, y] == [x] + [y];
    ReplaceAllAppend([x], [y], c, repl);
    ReplaceSingle(x, c, repl);
    ReplaceSingle(y, c, repl);
  }

  /** How many characters of `value` need a backslash. */
  function Specials(value: string): nat
  {
    if value == [] then 0 else (if value[0] in "\\*?" then 1 else 0) + Specials(value[1..])
  }

  /** The escaped value is one character longer per backslash, `*` and
      `?`. */
  lemma {:induction false} EscapedLength(value: string)
    ensures |EscapeWildcard(value)| == |value| + Specials(value)
  {
    EscapeIsEachChar(value);
    EachLength(value);
  }

  lemma {:induction false} EachLength(value: string)
    ensures |EscapeEach(value)| == |value| + Specials(value)
  {
    if value != [] {
      EachLength(value[1..]);
    }
  }

  /** Reading an escaped value: a backslash stands for the character after
      it. */
  function Unescape(s: string): string
    decreases |s|
  {
    if s == [] then []
    else if s[0] == '\\' && |s| >= 2 then [s[1]] + Unescape(s[2..])
    else [s[0]] + Unescape(s[1..])
  }

  /** Escaping loses nothing: the escaped value reads back as the value. */
  lemma {:induction false} EscapeRoundTrip(value: string)
    ensures Unescape(EscapeWildcard(value)) == value
  {
    EscapeIsEachChar(value);
    UnescapeEach(value);
  }

  lemma {:induction false} UnescapeEach(value: string)
    ensures Unescape(EscapeEach(value)) == value
  {
    if value != [] {
      var e := EscapeEach(value);
      var rest := EscapeEach(value[1..]);
      UnescapeEach(value[1..]);
      if value[0] in "\\*?" {
        assert e == ['\\', value[0]] + rest;
        assert e[2..] == rest;
      } else {
        assert e == [value[0]] + rest;
        assert e[1..] == rest;
      }
    }
  }

  /** The wildcard pattern of a query string: anything, the escaped string,
      anything. */
  function WildcardValue(qstr: string): string
  {
    "*" + EscapeWildcard(qstr) + "*"
  }

  /** `load_vectors_and_strings` on the parsed lines: both lists cut to the
      shorter length. */
  function LoadVectorsAndStrings(vectors: seq<seq<real>>, strings: seq<string>): (r: (seq<seq<real>>, seq<string>))
    ensures |r.0| == |r.1| == Min(|vectors|, |strings|)
    ensures r.0 <= vectors && r.1 <= strings
  {
    var n := Min(|vectors|, |strings|);
    (vectors[..n], strings[..n])
  }

  /** `int(line.strip())`: the line must hold exactly one integer token. */
  function KValue(line: string): Option<int>
  {
    var toks := Split(line);
    if |toks| == 1 then ParseInt(toks[0]) else None
  }

  /** The k of every line, or None when one of them is not an integer (the
      ValueError happens before any truncation). */
  function KValues(lines: seq<string>): (r: Option<seq<int>>)
    ensures r.Some? <==> forall i | 0 <= i < |lines| :: KValue(lines[i]).Some?
    ensures r.Some? ==> |r.value| == |lines| && forall i | 0 <= i < |lines| :: KValue(lines[i]) == Some(r.value[i])
  {
    if lines == [] then Some([])
    else if KValue(lines[0]).None? then None
    else
      var rest := KValues(lines[1..]);
      if rest.None? then
        assert exists i | 0 <= i < |lines| :: KValue(lines[i]).None? by {
          var j :| 0 <= j < |lines| - 1 && KValue(lines[1..][j]).None?;
          assert lines[1..][j] == lines[j + 1];
        }
        None
      else Some([KValue(lines[0]).value] + rest.value)
  }

  /** A bad k line is the ValueError `load_queries` raises; otherwise the
      three lists cut to the shortest. */
  function LoadQueries(vectors: seq<seq<real>>, strings: seq<string>, kLines: seq<string>): (r: Option<(seq<seq<real>>, seq<string>, seq<int>)>)
    ensures r.None? <==> KValues(kLines).None?
    ensures r.Some? ==> |r.value.0| == |r.value.1| == |r.value.2| == Min(Min(|vectors|, |strings|), |kLines|)
    ensures r.Some? ==> r.value.0 <= vectors && r.value.1 <= strings && r.value.2 <= KValues(kLines).value
  {
    match KValues(kLines)
    case None => None
    case Some(ks) =>
      var n := Min(Min(|vectors|, |strings|), |ks|);
      Some((vectors[..n], strings[..n], ks[..n]))
  }

  /** `load_ground_truth`: one id list per line, or None when a token is not
      an integer. */
  function LoadGroundTruth(lines: seq<string>): (r: Option<seq<seq<int>>>)
    ensures r.Some? <==> forall i | 0 <= i < |lines| :: ParseIds(lines[i]).Some?
    ensures r.Some? ==> |r.value| == |lines| && forall i | 0 <= i < |lines| :: ParseIds(lines[i]) == Some(r.value[i])
  {
    if lines == [] then Some([])
    else if ParseIds(lines[0]).None? then None
    else
      var rest := LoadGroundTruth(lines[1..]);
      if rest.None? then
        assert exists i | 0 <= i < |lines| :: ParseIds(lines[i]).None? by {
          var j :| 0 <= j < |lines| - 1 && ParseIds(lines[1..][j]).None?;
          assert lines[1..][j] == lines[j + 1];
        }
        None
      else Some([ParseIds(lines[0]).value] + rest.value)
  }

  /** A blank line (only whitespace) is a query with no true neighbours. */
  lemma BlankLineNoTruth(line: string)
    requires forall i | 0 <= i < |line| :: IsSpace(line[i])
    ensures ParseIds(line) == Some([])
  {
    if line != [] {
      assert DropSpaces(line) == [] by {
        BlankDrops(line);
      }
    }
  }

  lemma {:induction false} BlankDrops(line: string)
    requires forall i | 0 <= i < |line| :: IsSpace(line[i])
    ensures DropSpaces(line) == []
  {
    if line != [] {
      BlankDrops(line[1..]);
    }
  }

  /** A ground-truth line written as main.cpp writes results reads back as
      the same ids. */
  lemma TruthLineRoundTrip(ids: seq<int>)
    ensures LoadGroundTruth([FormatIds(ids)]) == Some([ids])
  {
    IdsRoundTrip(ids);
    assert [FormatIds(ids)][1..] == [];
    assert [ids] + [] == [ids];
  }

  /** The query workload `run_queries` receives. */
  datatype Workload = Workload(vectors: seq<seq<real>>, strings: seq<string>, ks: seq<int>, truth: seq<seq<int>>)

  /** All four lists of the same length. */
  predicate Aligned(w: Workload)
  {
    |w.vectors| == |w.strings| == |w.ks| == |w.truth|
  }

  /** The first lines of `run_queries`: all four lists cut to the shortest. */
  function Truncate(w: Workload): (t: Workload)
    ensures Aligned(t)
    ensures |t.ks| == Min(Min(|w.vectors|, |w.strings|), Min(|w.ks|, |w.truth|))
    ensures t.vectors <= w.vectors && t.strings <= w.strings && t.ks <= w.ks && t.truth <= w.truth
  {
    var n := Min(Min(|w.vectors|, |w.strings|), Min(|w.ks|, |w.truth|));
    Workload(w.vectors[..n], w.strings[..n], w.ks[..n], w.truth[..n])
  }

  /** The kNN request with a wildcard filter that one query sends. */
  datatype Request = Request(vector: seq<real>, wildcard: string, k: int, numCandidates: int)

  /** The request for query `i` in the round with `numCandidates`: never
      fewer candidates than neighbours asked for. */
  function RequestFor(w: Workload, i: nat, numCandidates: int): (req: Request)
    requires Aligned(w) && i < |w.ks|
    ensures req.k == w.ks[i] && req.wildcard == WildcardValue(w.strings[i])
    ensures req.numCandidates >= req.k && req.numCandidates >= numCandidates
    ensures req.numCandidates == numCandidates || req.numCandidates == req.k
  {
    Request(w.vectors[i], WildcardValue(w.strings[i]), w.ks[i], Max(numCandidates, w.ks[i]))
  }

  /** A query that is not skipped: k > 0. */
  predicate Active(w: Workload, i: nat)
    requires Aligned(w) && i < |w.ks|
  {
    w.ks[i] > 0
  }

  /** A query that counts towards the recall: not skipped, and with a
      non-empty set of true neighbours. */
  predicate Counted(w: Workload, i: nat)
    requires Aligned(w) && i < |w.ks|
  {
    Active(w, i) && w.truth[i] != []
  }

  /** The recall of query `i`: |set(hits) & true_ids| / |true_ids|. */
  function QueryRecall(w: Workload, i: nat, hits: seq<int>): (r: real)
    requires Aligned(w) && i < |w.ks| && w.truth[i] != []
    ensures 0.0 <= r <= 1.0
    ensures IdSet(w.truth[i]) != {}
    ensures r == Ratio(|IdSet(w.truth[i]) * IdSet(hits)|, |IdSet(w.truth[i])|)
  {
    assert w.truth[i][0] in IdSet(w.truth[i]);
    Recall.Recall(IdSet(w.truth[i]), IdSet(hits))
  }

  /** `total_time` after the first `i` queries of round `round`: the
      elapsed time of every query that was not skipped. */
  function TotalTime(w: Workload, elapsed: (nat, nat) -> real, round: nat, i: nat): real
    requires Aligned(w) && i <= |w.ks|
  {
    if i == 0 then 0.0
    else TotalTime(w, elapsed, round, i - 1) + (if Active(w, i - 1) then elapsed(round, i - 1) else 0.0)
  }

  /** `effective` after the first `i` queries. */
  function Effective(w: Workload, i: nat): (e: nat)
    requires Aligned(w) && i <= |w.ks|
    ensures e <= i
  {
    if i == 0 then 0 else Effective(w, i - 1) + (if Counted(w, i - 1) then 1 else 0)
  }

  /** `total_recall` after the first `i` queries of the round with
      `numCandidates`. */
  function TotalRecall(w: Workload, search: Request -> seq<int>, numCandidates: int, i: nat): real
    requires Aligned(w) && i <= |w.ks|
  {
    if i == 0 then 0.0
    else
      TotalRecall(w, search, numCandidates, i - 1) +
      (if Counted(w, i - 1) then QueryRecall(w, i - 1, search(RequestFor(w, i - 1, numCandidates))) else 0.0)
  }

  /** `avg_time` of a round, in microseconds: the total over the queries
      run, divided by all `n` queries, skipped ones included; 0 when there
      are none. */
  function AverageTime(w: Workload, elapsed: (nat, nat) -> real, round: nat): real
    requires Aligned(w)
  {
    var n := |w.ks|;
    if n > 0 then (TotalTime(w, elapsed, round, n) / n as real) * 1000000.0 else 0.0
  }

  /** `avg_recall` of a round: the mean over the counted queries; 0 when
      none counts. */
  function AverageRecall(w: Workload, search: Request -> seq<int>, numCandidates: int): real
    requires Aligned(w)
  {
    var e := Effective(w, |w.ks|);
    if e > 0 then TotalRecall(w, search, numCandidates, |w.ks|) / e as real else 0.0
  }

  /** `run_queries`: one round per value of `candidates`, in order. The
      server's answer to a request is `search`, and `elapsed(r, i)` is what
      the clock measures around query `i` of round `r`. */
  method RunQueries(w: Workload, candidates: seq<int>, search: Request -> seq<int>, elapsed: (nat, nat) -> real)
    returns (timesUs: seq<real>, recalls: seq<real>)
    ensures |timesUs| == |recalls| == |candidates|
    ensures forall r | 0 <= r < |candidates| ::
      timesUs[r] == AverageTime(Truncate(w), elapsed, r) && recalls[r] == AverageRecall(Truncate(w), search, candidates[r])
  {
    var t := Truncate(w);
    timesUs, recalls := [], [];
    for r := 0 to |candidates|
      invariant |timesUs| == |recalls| == r
      invariant forall j | 0 <= j < r ::
        timesUs[j] == AverageTime(t, elapsed, j) && recalls[j] == AverageRecall(t, search, candidates[j])
    {
      var avgTime, avgRecall := RunRound(t, search, elapsed, r, candidates[r]);
      timesUs, recalls := timesUs + [avgTime], recalls + [avgRecall];
    }
  }

  /** One round of `run_queries`: the loop over the queries, then the two
      averages. */
  method RunRound(w: Workload, search: Request -> seq<int>, elapsed: (nat, nat) -> real, round: nat, numCandidates: int)
    returns (avgTime: real, avgRecall: real)
    requires Aligned(w)
    ensures avgTime == AverageTime(w, elapsed, round)
    ensures avgRecall == AverageRecall(w, search, numCandidates)
  {
    var n := |w.ks|;
    var totalTime, totalRecall, effective := 0.0, 0.0, 0;
    for i := 0 to n
      invariant totalTime == TotalTime(w, elapsed, round, i)
      invariant totalRecall == TotalRecall(w, search, numCandidates, i)
      invariant effective == Effective(w, i)
    {
      if w.ks[i] <= 0 {
        continue;
      }
      var hits := search(RequestFor(w, i, numCandidates));
      totalTime := totalTime + elapsed(round, i);
      if w.truth[i] != [] {
        effective := effective + 1;
        totalRecall := totalRecall + QueryRecall(w, i, hits);
      }
    }
    avgTime := if n > 0 then (totalTime / n as real) * 1000000.0 else 0.0;
    avgRecall := if effective > 0 then totalRecall / effective as real else 0.0;
  }

  /** The recall sum never exceeds the number of counted queries. */
  lemma {:induction false} TotalRecallBounds(w: Workload, search: Request -> seq<int>, numCandidates: int, i: nat)
    requires Aligned(w) && i <= |w.ks|
    ensures 0.0 <= TotalRecall(w, search, numCandidates, i) <= Effective(w, i) as real
  {
    if i > 0 {
      TotalRecallBounds(w, search, numCandidates, i - 1);
    }
  }

  /** Every reported recall is in [0, 1]. */
  lemma AverageRecallBounds(w: Workload, search: Request -> seq<int>, numCandidates: int)
    requires Aligned(w)
    ensures 0.0 <= AverageRecall(w, search, numCandidates) <= 1.0
  {
    var e := Effective(w, |w.ks|);
    if e > 0 {
      TotalRecallBounds(w, search, numCandidates, |w.ks|);
      MeanBounds(TotalRecall(w, search, numCandidates, |w.ks|), e as real);
    }
  }

  /** A server that returns every true neighbour of every counted query
      gives recall 1 (or 0 when no query counts). */
  lemma {:induction false} PerfectSearchTotal(w: Workload, search: Request -> seq<int>, numCandidates: int, i: nat)
    requires Aligned(w) && i <= |w.ks|
    requires forall j | 0 <= j < |w.ks| :: IdSet(w.truth[j]) <= IdSet(search(RequestFor(w, j, numCandidates)))
    ensures TotalRecall(w, search, numCandidates, i) == Effective(w, i) as real
  {
    if i > 0 {
      PerfectSearchTotal(w, search, numCandidates, i - 1);
      if Counted(w, i - 1) {
        FullRecall(IdSet(w.truth[i - 1]), IdSet(search(RequestFor(w, i - 1, numCandidates))));
      }
    }
  }

  lemma PerfectSearchFullRecall(w: Workload, search: Request -> seq<int>, numCandidates: int)
    requires Aligned(w)
    requires forall j | 0 <= j < |w.ks| :: IdSet(w.truth[j]) <= IdSet(search(RequestFor(w, j, numCandidates)))
    ensures AverageRecall(w, search, numCandidates) == if Effective(w, |w.ks|) > 0 then 1.0 else 0.0
  {
    PerfectSearchTotal(w, search, numCandidates, |w.ks|);
    var e := Effective(w, |w.ks|) as real;
    if e > 0.0 {
      DivideSelf(e);
    }
  }

  lemma DivideSelf(x: real)
    requires x > 0.0
    ensures x / x == 1.0
  {
  }

  /** How many of the first `i` queries are not skipped. */
  function ActiveCount(w: Workload, i: nat): (c: nat)
    requires Aligned(w) && i <= |w.ks|
    ensures Effective(w, i) <= c <= i
  {
    if i == 0 then 0 else ActiveCount(w, i - 1) + (if Active(w, i - 1) then 1 else 0)
  }

  /** `n` times `t`, as repeated addition. */
  function Repeat(t: real, n: nat): real
  {
    if n == 0 then 0.0 else Repeat(t, n - 1) + t
  }

  lemma {:induction false} RepeatIsProduct(t: real, n: nat)
    ensures Repeat(t, n) == t * n as real
  {
    if n > 0 {
      RepeatIsProduct(t, n - 1);
      ScaleStep(t, (n - 1) as real);
    }
  }

  lemma ScaleStep(t: real, c: real)
    ensures t * c + t == t * (c + 1.0)
  {
  }

  /** With every query taking the same time `t`, a round's total is `t` per
      query run: skipped queries add no time, yet `avg_time` still divides by
      all `n` of them. */
  lemma {:induction false} SkippedAddNoTime(w: Workload, elapsed: (nat, nat) -> real, round: nat, t: real, i: nat)
    requires Aligned(w) && i <= |w.ks|
    requires forall j | 0 <= j < |w.ks| :: elapsed(round, j) == t
    ensures TotalTime(w, elapsed, round, i) == Repeat(t, ActiveCount(w, i))
  {
    if i > 0 {
      SkippedAddNoTime(w, elapsed, round, t, i - 1);
    }
  }

  lemma UniformTimeAverage(w: Workload, elapsed: (nat, nat) -> real, round: nat, t: real)
    requires Aligned(w) && |w.ks| > 0
    requires forall j | 0 <= j < |w.ks| :: elapsed(round, j) == t
    ensures AverageTime(w, elapsed, round) == (t * ActiveCount(w, |w.ks|) as real / |w.ks| as real) * 1000000.0
  {
    SkippedAddNoTime(w, elapsed, round, t, |w.ks|);
    RepeatIsProduct(t, ActiveCount(w, |w.ks|));
  }
}
