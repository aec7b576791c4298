/** source/main.cpp: the benchmark driver. It checks the argument count,
    drops the first `--debug`, reads the data and query files, aligns their
    lengths, checks that every vector has the dimension of the first one,
    answers every query with the back-end named by the last argument and
    writes one result line per query. Files are given by their contents;
    vector files come already parsed into rows of reals. */
module BenchMain {
  import opened Common
  import opened Text
  import Exact

  const DEBUG_FLAG: string := "--debug"
  const EXACT: string := "Exact"
  const BASELINE: string := "Baseline"
  const VECTOR_DB: string := "VectorDB"

  /** A back-end's answer, after all data pairs were inserted, to one
      query: data strings, data vectors, query vector, pattern, `k`. */
  type Engine = (seq<string>, seq<seq<real>>, seq<real>, string, int32) -> seq<int>

  /** The distance ExactSearch ranks by, and the Baseline and VectorDB
      back-ends, whose indexes are not part of this driver. */
  datatype Backends = Backends(distance: (seq<real>, seq<real>) -> real, baseline: Engine, vectorDb: Engine)

  /** The contents of the five input files. */
  datatype Inputs = Inputs(dataText: string, dataVectors: seq<seq<real>>,
                           queryText: string, queryVectors: seq<seq<real>>, kText: string)

  /** What a run ends with: its exit code and, when one was written, the
      result file; or undefined behaviour, when the first data vector is
      read from an empty list. */
  datatype Outcome = Exit(code: int, output: Option<string>) | Undefined

  // ---------------------------------------------------------------- argv

  /** `args` without the first occurrence of `flag`. */
  function WithoutFirst(args: seq<string>, flag: string): seq<string>
  {
    if args == [] then []
    else if args[0] == flag then args[1..]
    else [args[0]] + WithoutFirst(args[1..], flag)
  }

  /** Removing the first `flag` at position `i` keeps everything else in
      order. */
  lemma {:induction false} WithoutFirstAt(args: seq<string>, flag: string, i: nat)
    requires i <= |args| && flag !in args[..i]
    requires i < |args| ==> args[i] == flag
    ensures i < |args| ==> WithoutFirst(args, flag) == args[..i] + args[i + 1..]
    ensures i == |args| ==> WithoutFirst(args, flag) == args
  {
    if i > 0 {
      assert args[0] in args[..i];
      assert args[1..][..i - 1] == args[1..i];
      WithoutFirstAt(args[1..], flag, i - 1);
      if i < |args| {
        assert args[1..][i - 1 + 1..] == args[i + 1..];
        assert [args[0]] + args[1..i] == args[..i];
      }
    }
  }

  /** Exactly one argument, a `flag`, goes when there is one; nothing goes
      otherwise. */
  lemma {:induction false} WithoutFirstFacts(args: seq<string>, flag: string)
    ensures flag !in args ==> WithoutFirst(args, flag) == args
    ensures flag in args ==> |WithoutFirst(args, flag)| == |args| - 1
    ensures flag in args ==> multiset(WithoutFirst(args, flag)) == multiset(args) - multiset{flag}
  {
    if args != [] {
      WithoutFirstFacts(args[1..], flag);
      assert args == [args[0]] + args[1..];
      if args[0] != flag && flag in args {
        assert flag in args[1..];
      }
    }
  }

  /** The `--debug` rewrite: with more than eight arguments, the first
      `--debug`, the program name included, is overwritten by shifting the
      later entries one place left, and the count drops by one. Entries from
      the new count on keep their old values. */
  method StripDebug(argv: array<string>, argc: int) returns (n: int)
    requires 0 <= argc <= argv.Length
    modifies argv
    ensures n == (if argc > 8 && DEBUG_FLAG in old(argv[..argc]) then argc - 1 else argc)
    ensures argv[..n] == (if argc > 8 then WithoutFirst(old(argv[..argc]), DEBUG_FLAG) else old(argv[..argc]))
    ensures argv[n..] == old(argv[n..])
  {
    n := argc;
    if argc <= 8 {
      return;
    }
    ghost var args := argv[..argc];
    var i := 0;
    while i < argc
      invariant 0 <= i <= argc
      invariant DEBUG_FLAG !in args[..i]
      invariant argv[..] == old(argv[..])
    {
      if argv[i] == DEBUG_FLAG {
        ShiftLeft(argv, i, argc);
        n := argc - 1;
        WithoutFirstAt(args, DEBUG_FLAG, i);
        assert args[..i] == old(argv[..i]) && args[i + 1..] == old(argv[i + 1..argc]);
        assert DEBUG_FLAG in args by {
          assert args[i] == DEBUG_FLAG;
        }
        return;
      }
      assert args[..i + 1] == args[..i] + [argv[i]];
      i := i + 1;
    }
    WithoutFirstAt(args, DEBUG_FLAG, argc);
    assert args[..argc] == args;
  }

  /** `argv[j] = argv[j + 1]` for `j` from `i` up to `argc - 2`: entry `i`
      is overwritten and the later ones move one place left. */
  method ShiftLeft(argv: array<string>, i: int, argc: int)
    requires 0 <= i < argc <= argv.Length
    modifies argv
    ensures argv[..argc - 1] == old(argv[..i]) + old(argv[i + 1..argc])
    ensures argv[argc - 1..] == old(argv[argc - 1..])
  {
    for j := i to argc - 1
      invariant argv[..j] == old(argv[..i]) + old(argv[i + 1..j + 1])
      invariant argv[j..] == old(argv[j..])
    {
      argv[j] := argv[j + 1];
      assert old(argv[i + 1..j + 2]) == old(argv[i + 1..j + 1]) + [old(argv[j + 1])];
    }
  }

  // ---------------------------------------------------------------- k file

  /** The number of leading decimal digits of `s`. */
  function DigitRun(s: string): (n: nat)
    ensures n <= |s| && AllDigits(s[..n])
    ensures n < |s| ==> !IsDigit(s[n])
  {
    if s == [] || !IsDigit(s[0]) then 0
    else
      var m := DigitRun(s[1..]);
      assert s[..m + 1] == [s[0]] + s[1..][..m];
      1 + m
  }

  /** `>>` into an `int` at the start of a token: an optional sign, then at
      least one digit, the value within `int`. It gives the value and how
      many characters it consumed; it fails (`None`) otherwise. */
  function ReadInt(tok: string): (r: Option<(int32, nat)>)
    ensures r.Some? ==> 1 <= r.value.1 <= |tok|
  {
    var sign := if |tok| >= 1 && (tok[0] == '-' || tok[0] == '+') then 1 else 0;
    var digits := DigitRun(tok[sign..]);
    if digits == 0 then None
    else
      var magnitude := DigitsValue(tok[sign..][..digits]);
      var v := if sign == 1 && tok[0] == '-' then 0 - magnitude else magnitude;
      if -TWO_31 <= v < TWO_31 then Some((v as int32, sign + digits)) else None
  }

  /** `while (f_queried_k >> k) queried_k.emplace_back(k);` over the file's
      whitespace-separated tokens: reading stops at the first failure, and
      what follows a number inside a token is read next. */
  function ReadKs(toks: seq<string>): seq<int32>
    decreases |toks|, if toks == [] then 0 else |toks[0]|
  {
    if toks == [] then []
    else match ReadInt(toks[0])
      case None => []
      case Some((v, used)) =>
        if used == |toks[0]| then [v] + ReadKs(toks[1..])
        else [v] + ReadKs([toks[0][used..]] + toks[1..])
  }

  /** A printed `int` reads back whole. */
  lemma ReadPrinted(v: int32)
    ensures ReadInt(IntToString(v)) == Some((v, |IntToString(v)|))
  {
    if v < 0 {
      ReadPrintedNegative(v);
    } else {
      var digits := NatToString(v);
      DigitsRoundTrip(v);
      assert IsDigit(digits[0]);
      DigitRunAll(digits);
      assert digits[0..] == digits && digits[..|digits|] == digits;
    }
  }

  lemma ReadPrintedNegative(v: int32)
    requires v < 0
    ensures ReadInt(IntToString(v)) == Some((v, |IntToString(v)|))
  {
    var digits := NatToString(0 - v as int);
    DigitsRoundTrip(0 - v as int);
    var tok := IntToString(v);
    assert tok == "-" + digits;
    assert tok[1..] == digits;
    DigitRunAll(digits);
    assert digits[..|digits|] == digits;
  }

  /** A string of digits is one run. */
  lemma {:induction false} DigitRunAll(s: string)
    requires AllDigits(s)
    ensures DigitRun(s) == |s|
  {
    if s != [] {
      DigitRunAll(s[1..]);
    }
  }

  /** A k file written one `int` per token reads back as written, and a
      token that does not start with a number ends the reading there. */
  lemma {:induction false} ReadKsPrinted(ks: seq<int32>, rest: seq<string>)
    requires rest != [] ==> ReadInt(rest[0]) == None
    ensures ReadKs(Show(ks) + rest) == ks
  {
    if ks == [] {
      ReadKsRest(rest);
    } else {
      ReadKsPrinted(ks[1..], rest);
      ReadKsNext(ks, rest);
    }
  }

  /** After the last printed value, the reading stops at `rest`. */
  lemma ReadKsRest(rest: seq<string>)
    requires rest != [] ==> ReadInt(rest[0]) == None
    ensures ReadKs(Show([]) + rest) == []
  {
    assert Show([]) + rest == rest;
    if rest != [] {
      ReadKsFails(rest[0], rest[1..]);
      assert [rest[0]] + rest[1..] == rest;
    }
  }

  /** One more printed value in front reads back in front. */
  lemma ReadKsNext(ks: seq<int32>, rest: seq<string>)
    requires ks != [] && ReadKs(Show(ks[1..]) + rest) == ks[1..]
    ensures ReadKs(Show(ks) + rest) == ks
  {
    var tok, more := IntToString(ks[0]), Show(ks[1..]) + rest;
    assert Show(ks) + rest == [tok] + more;
    assert ReadInt(tok) == Some((ks[0], |tok| as nat)) by {
      ReadPrinted(ks[0]);
    }
    ReadKsWhole(tok, more, ks[0], ks[1..]);
    assert [ks[0]] + ks[1..] == ks;
  }

  /** A token read whole contributes its value and reading goes on. */
  lemma ReadKsWhole(tok: string, toks: seq<string>, v: int32, vs: seq<int32>)
    requires ReadInt(tok) == Some((v, |tok|)) && ReadKs(toks) == vs
    ensures ReadKs([tok] + toks) == [v] + vs
  {
    assert ([tok] + toks)[1..] == toks;
  }

  /** A token that does not start with a number ends the reading. */
  lemma ReadKsFails(tok: string, toks: seq<string>)
    requires ReadInt(tok) == None
    ensures ReadKs([tok] + toks) == []
  {
  }

  // ---------------------------------------------------------------- checks

  /** Every vector from position `from` on has `dim` components. */
  predicate SameDim(vectors: seq<seq<real>>, from: nat, dim: nat)
  {
    forall i | from <= i < |vectors| :: |vectors[i]| == dim
  }

  /** The dimension loops of `main`: stop at the first vector of another
      dimension. */
  method CheckDims(vectors: seq<seq<real>>, from: nat, dim: nat) returns (ok: bool)
    ensures ok <==> SameDim(vectors, from, dim)
  {
    var i := from;
    while i < |vectors|
      invariant from <= i
      invariant forall p | from <= p < i && p < |vectors| :: |vectors[p]| == dim
    {
      if |vectors[i]| != dim {
        return false;
      }
      i := i + 1;
    }
    return true;
  }

  // ---------------------------------------------------------------- results

  /** The back-end's answer to one query; `name` is one of the three
      method names. */
  function Respond(name: string, b: Backends, strs: seq<string>, vecs: seq<seq<real>>, vec: seq<real>, s: string, k: int32): seq<int>
  {
    if name == EXACT then Exact.Answer(strs, vecs, vec, s, k, b.distance)
    else if name == BASELINE then b.baseline(strs, vecs, vec, s, k)
    else b.vectorDb(strs, vecs, vec, s, k)
  }

  /** The answers to the first `n` queries, in query order. */
  function Answers(name: string, b: Backends, strs: seq<string>, vecs: seq<seq<real>>,
                   qs: seq<string>, qv: seq<seq<real>>, ks: seq<int32>, n: nat): (r: seq<seq<int>>)
    requires n <= |qs| && n <= |qv| && n <= |ks|
    ensures |r| == n
  {
    if n == 0 then [] else Answers(name, b, strs, vecs, qs, qv, ks, n - 1) + [Respond(name, b, strs, vecs, qv[n - 1], qs[n - 1], ks[n - 1])]
  }

  lemma {:induction false} AnswersAt(name: string, b: Backends, strs: seq<string>, vecs: seq<seq<real>>,
                                     qs: seq<string>, qv: seq<seq<real>>, ks: seq<int32>, n: nat, i: nat)
    requires n <= |qs| && n <= |qv| && n <= |ks| && i < n
    ensures Answers(name, b, strs, vecs, qs, qv, ks, n)[i] == Respond(name, b, strs, vecs, qv[i], qs[i], ks[i])
  {
    var prev := Answers(name, b, strs, vecs, qs, qv, ks, n - 1);
    assert Answers(name, b, strs, vecs, qs, qv, ks, n) == prev + [Respond(name, b, strs, vecs, qv[n - 1], qs[n - 1], ks[n - 1])];
    if i < n - 1 {
      AnswersAt(name, b, strs, vecs, qs, qv, ks, n - 1, i);
    }
  }

  /** The query loop of each branch: one answer per query, in order. */
  method AnswerAll(name: string, b: Backends, strs: seq<string>, vecs: seq<seq<real>>,
                   qs: seq<string>, qv: seq<seq<real>>, ks: seq<int32>) returns (all: seq<seq<int>>)
    requires |qs| == |qv| == |ks|
    ensures all == Answers(name, b, strs, vecs, qs, qv, ks, |qs|)
  {
    all := [];
    for i := 0 to |qs|
      invariant all == Answers(name, b, strs, vecs, qs, qv, ks, i)
    {
      var res := Respond(name, b, strs, vecs, qv[i], qs[i], ks[i]);
      all := all + [res];
    }
  }

  /** The result file: one `FormatIds` line per answer. */
  function ResultsText(all: seq<seq<int>>): string
  {
    if all == [] then "" else FormatIds(all[0]) + ResultsText(all[1..])
  }

  /** The writing loop of each branch: every id followed by one space, then
      a newline, answer after answer. */
  method WriteResults(all: seq<seq<int>>) returns (text: string)
    ensures text == ResultsText(all)
  {
    text := "";
    for r := 0 to |all|
      invariant text == ResultsText(all[..r])
    {
      var row := WriteRow(all[r]);
      RowNoNewline(all[r]);
      assert all[..r + 1] == all[..r] + [all[r]];
      ResultsTextSnoc(all[..r], all[r]);
      text := text + row + "\n";
    }
    assert all[..|all|] == all;
  }

  lemma {:induction false} ResultsTextSnoc(all: seq<seq<int>>, ids: seq<int>)
    ensures ResultsText(all + [ids]) == ResultsText(all) + FormatIds(ids)
  {
    if all == [] {
      assert all + [ids] == [ids];
      assert [ids][1..] == [];
    } else {
      assert (all + [ids])[1..] == all[1..] + [ids];
      ResultsTextSnoc(all[1..], ids);
    }
  }

  /** The inner loop: each id of one answer followed by a space. */
  method WriteRow(ids: seq<int>) returns (row: string)
    ensures row == Row(ids)
  {
    row := "";
    for p := 0 to |ids|
      invariant row == Row(ids[..p])
    {
      assert ids[..p + 1] == ids[..p] + [ids[p]];
      RowSnoc(ids[..p], ids[p]);
      row := row + (IntToString(ids[p]) + " ");
    }
    assert ids[..|ids|] == ids;
  }

  lemma {:induction false} RowSnoc(ids: seq<int>, id: int)
    ensures Row(ids + [id]) == Row(ids) + (IntToString(id) + " ")
  {
    var word := IntToString(id) + " ";
    if ids == [] {
      assert ids + [id] == [id];
      assert [id][1..] == [];
    } else {
      var first := IntToString(ids[0]) + " ";
      assert (ids + [id])[1..] == ids[1..] + [id];
      RowSnoc(ids[1..], id);
      var r := Row(ids[1..]);
      assert Row(ids + [id]) == first + (r + word);
      assert first + (r + word) == (first + r) + word;
    }
  }

  /** The lines of a text as Python iterates a file: each keeps its
      newline; a last line without one is kept as is. */
  function Lines(text: string): seq<string>
    decreases |text|
  {
    if text == [] then []
    else
      var n := LineLength(text);
      [text[..n]] + Lines(text[n..])
  }

  /** The length of the first line, its newline included. */
  function LineLength(text: string): (n: nat)
    requires text != []
    ensures 1 <= n <= |text|
  {
    if text[0] == '\n' || |text| == 1 then 1 else 1 + LineLength(text[1..])
  }

  /** The ids and their spaces, without the newline. */
  function Row(ids: seq<int>): string
  {
    if ids == [] then "" else IntToString(ids[0]) + " " + Row(ids[1..])
  }

  lemma {:induction false} RowNoNewline(ids: seq<int>)
    ensures FormatIds(ids) == Row(ids) + "\n"
    ensures '\n' !in Row(ids)
  {
    if ids != [] {
      RowNoNewline(ids[1..]);
      IntToStringNoSpace(ids[0]);
      var w := IntToString(ids[0]);
      assert forall p | 0 <= p < |w| :: w[p] != '\n';
    }
  }

  lemma {:induction false} LineLengthOf(a: string, rest: string)
    requires '\n' !in a
    ensures LineLength(a + "\n" + rest) == |a| + 1
  {
    if a != [] {
      assert (a + "\n" + rest)[1..] == a[1..] + "\n" + rest;
      assert a[0] in a;
      LineLengthOf(a[1..], rest);
    }
  }

  /** Every answer is one line of the result file. */
  lemma {:induction false} ResultLines(all: seq<seq<int>>)
    ensures |Lines(ResultsText(all))| == |all|
    ensures forall i | 0 <= i < |all| :: Lines(ResultsText(all))[i] == FormatIds(all[i])
  {
    if all != [] {
      ResultLines(all[1..]);
      RowNoNewline(all[0]);
      var text := ResultsText(all);
      var row := Row(all[0]);
      assert text == row + "\n" + ResultsText(all[1..]);
      LineLengthOf(row, ResultsText(all[1..]));
      assert text[..|row| + 1] == FormatIds(all[0]);
      assert text[|row| + 1..] == ResultsText(all[1..]);
    }
  }

  /** What the Python scripts read back from a result file is exactly the
      answers, one line each, in query order. */
  lemma ResultsReadBack(all: seq<seq<int>>)
    ensures |Lines(ResultsText(all))| == |all|
    ensures forall i | 0 <= i < |all| :: ParseIds(Lines(ResultsText(all))[i]) == Some(all[i])
  {
    ResultLines(all);
    forall i | 0 <= i < |all| ensures ParseIds(Lines(ResultsText(all))[i]) == Some(all[i]) {
      IdsRoundTrip(all[i]);
    }
  }

  // ---------------------------------------------------------------- main

  /** The arguments after the `--debug` rewrite. */
  function Rewritten(args: seq<string>): (r: seq<string>)
    requires |args| >= 8
    ensures |r| >= 8
  {
    if |args| > 8 then
      WithoutFirstFacts(args, DEBUG_FLAG);
      WithoutFirst(args, DEBUG_FLAG)
    else args
  }

  /** The data pairs after alignment: both lists cut to the shorter. */
  function DataStrings(io: Inputs): seq<string>
  {
    var strings := Split(io.dataText);
    strings[..Min(|strings|, |io.dataVectors|)]
  }

  function DataVectors(io: Inputs): seq<seq<real>>
  {
    io.dataVectors[..Min(|Split(io.dataText)|, |io.dataVectors|)]
  }

  /** The number of queries after alignment: the least of the three
      counts. */
  function QueryCount(io: Inputs): nat
  {
    Min(Min(|Split(io.queryText)|, |io.queryVectors|), |ReadKs(Split(io.kText))|)
  }

  /** The query lists after alignment: each cut to the query count. */
  function QueryStrings(io: Inputs): seq<string>
  {
    Split(io.queryText)[..QueryCount(io)]
  }

  function QueryVectors(io: Inputs): seq<seq<real>>
  {
    io.queryVectors[..QueryCount(io)]
  }

  function QueryKs(io: Inputs): seq<int32>
  {
    ReadKs(Split(io.kText))[..QueryCount(io)]
  }

  /** The answers `main` writes when the last argument is `name`. */
  function Results(name: string, io: Inputs, b: Backends): seq<seq<int>>
  {
    Answers(name, b, DataStrings(io), DataVectors(io), QueryStrings(io), QueryVectors(io), QueryKs(io), QueryCount(io))
  }

  /** The whole run, from the arguments (program name first) and the file
      contents. */
  function Expected(args: seq<string>, io: Inputs, b: Backends): Outcome
  {
    if |args| < 8 then Exit(1, None)
    else Checked(Rewritten(args)[|Rewritten(args)| - 1], io, b)
  }

  /** The run after the argument checks, with `name` the last argument. */
  function Checked(name: string, io: Inputs, b: Backends): Outcome
  {
    var vecs := DataVectors(io);
    if vecs == [] then Undefined
    else if !SameDim(vecs, 1, |vecs[0]|) then Exit(1, None)
    else if !SameDim(QueryVectors(io), 0, |vecs[0]|) then Exit(1, None)
    else if name == EXACT || name == BASELINE || name == VECTOR_DB then Exit(0, Some(ResultsText(Results(name, io, b))))
    else Exit(0, None)
  }

  /** `main`. */
  method Run(argv: array<string>, argc: int, io: Inputs, b: Backends) returns (out: Outcome)
    requires 0 <= argc <= argv.Length
    modifies argv
    ensures out == Expected(old(argv[..argc]), io, b)
  {
    if argc < 8 {
      return Exit(1, None);
    }
    var n := StripDebug(argv, argc);
    var name := argv[n - 1];
    assert argv[..n] == Rewritten(old(argv[..argc]));
    out := RunChecked(name, io, b);
  }

  /** `main` after the argument checks: read, align, check the dimensions,
      answer and write. */
  method RunChecked(name: string, io: Inputs, b: Backends) returns (out: Outcome)
    ensures out == Checked(name, io, b)
  {
    var strings, vectors := LoadData(io);
    if |vectors| == 0 {
      return Undefined;
    }
    var ok := CheckDims(vectors, 1, |vectors[0]|);
    if !ok {
      return Exit(1, None);
    }
    var qs, qv, ks := LoadQueries(io);
    ok := CheckDims(qv, 0, |vectors[0]|);
    if !ok {
      return Exit(1, None);
    }
    if name == EXACT || name == BASELINE || name == VECTOR_DB {
      var all := AnswerAll(name, b, strings, vectors, qs, qv, ks);
      var text := WriteResults(all);
      return Exit(0, Some(text));
    }
    return Exit(0, None);
  }

  /** Read the data files and cut both lists to the shorter. */
  method LoadData(io: Inputs) returns (strings: seq<string>, vectors: seq<seq<real>>)
    ensures strings == DataStrings(io) && vectors == DataVectors(io)
  {
    strings := Split(io.dataText);
    vectors := io.dataVectors;
    if |strings| != |vectors| {
      var m := Min(|strings|, |vectors|);
      strings, vectors := strings[..m], vectors[..m];
    }
  }

  /** Read the query files and cut the three lists to the shortest. */
  method LoadQueries(io: Inputs) returns (qs: seq<string>, qv: seq<seq<real>>, ks: seq<int32>)
    ensures qs == QueryStrings(io) && qv == QueryVectors(io) && ks == QueryKs(io)
    ensures |qs| == |qv| == |ks| == QueryCount(io)
  {
    qs := Split(io.queryText);
    qv := io.queryVectors;
    ks := ReadKs(Split(io.kText));
    if |qs| != |qv| || |qs| != |ks| {
      var m := Min(Min(|qs|, |qv|), |ks|);
      qs, qv, ks := qs[..m], qv[..m], ks[..m];
    }
  }

  /** A successful run writes one line per aligned query, which reads back
      as the back-end's answer to that query; an unknown method name writes
      nothing. */
  lemma RunOutput(args: seq<string>, io: Inputs, b: Backends)
    requires |args| >= 8
    ensures var out := Expected(args, io, b);
      var name := Rewritten(args)[|Rewritten(args)| - 1];
      && (out.Exit? && out.output.Some? ==>
            && out.code == 0
            && (name == EXACT || name == BASELINE || name == VECTOR_DB)
            && |Lines(out.output.value)| == QueryCount(io)
            && forall i | 0 <= i < QueryCount(io) ::
                 ParseIds(Lines(out.output.value)[i]) == Some(Respond(name, b, DataStrings(io), DataVectors(io),
                                                                       io.queryVectors[i], Split(io.queryText)[i], ReadKs(Split(io.kText))[i])))
      && (name != EXACT && name != BASELINE && name != VECTOR_DB ==> out == Undefined || out.output.None?)
  {
    var name := Rewritten(args)[|Rewritten(args)| - 1];
    var all := Results(name, io, b);
    ResultsReadBack(all);
    forall i | 0 <= i < QueryCount(io)
      ensures all[i] == Respond(name, b, DataStrings(io), DataVectors(io), io.queryVectors[i], Split(io.queryText)[i], ReadKs(Split(io.kText))[i])
    {
      AnswersAt(name, b, DataStrings(io), DataVectors(io), QueryStrings(io), QueryVectors(io), QueryKs(io), QueryCount(io), i);
    }
  }
}
