# VectorMaton benchmarks, modelled in Dafny

VectorMaton answers *pattern-filtered nearest-neighbour* queries. Each stored item pairs a
string with a vector. A query gives a vector, a substring and `k`, and asks for the `k`
stored items nearest to the vector among those whose string contains the substring. The
repository holds several C++ back-ends for such queries: exact scan, pre-filtering,
post-filtering, amplification baseline, per-substring indexes (OptQuery) and VectorMaton
itself. It also holds the Python and C++ benchmark code that generates workloads, runs the
back-ends, writes their answers and scores them.

This project models the logic of that code that sits above the approximate indexes and the
suffix automaton: sequences, strings, sets and integers. Every index is a parameter. It is
either a function from a query to its candidate ids, or a record of the labels added to it.
Distance is an ordering key per id.

One module per source file:

- `Common` (shared): Option, machine integer ranges, substring containment, Python slicing, a stable sort by key, filter
- `Text` (shared): decimal printing and parsing, whitespace tokens, the result-line format
- `Recall` (compute_recall.py): one line's recall and the averaging loop
- `Curve` (scripts/plot_sift.py): `_clean_curve`: the two deleting walks over paired recall/qps arrays, then the sort
- `Rng` (generate_queries.py): Python's `random.Random`, as a stream of raw draws
- `QueryGen` (generate_queries.py): fixed-length query generation, truncation, output files
- `QueryGenMixed` (scripts/generate_queries.py): the mixed-length variant, the argv filter, the file suffix
- `Scalability` (scripts/generate_scalability.py): argument checks, random strings and vectors, item files
- `Datasets` (scripts/download_datasets.py): the LCG string generator, the fvecs loader's checks, `format_time`
- `TimeFormat` (source/headers.h): `timeFormatting` (source/main.cpp:6-21 is a copy of it)
- `Elastic` (test_elasticsearch.py): `sanitize_name`, `escape_wildcard_value`, the loaders, the `run_queries` sweep
- `Ranking`, `Exact` (source/exact.cpp): sort by distance and truncate; `ExactSearch`
- `PreFiltering` (source/pre_filtering.cpp): the query over the automaton state's ids
- `Filtering`, `PostFiltering` (source/post_filtering.cpp): the filter-and-stop scan; `PostFiltering`
- `Baseline` (source/baseline.cpp): the amplification-doubling loop
- `OptQuery` (source/opt_query.cpp): the substring enumeration that fills one index per substring
- `VectorMaton` (source/vectormaton.cpp): threshold propagation, index reuse with the two-cursor merge, query fallback
- `SetHash` (source/set_hash.cpp): `xor_hash`, `sum_hash`, `poly_hash`
- `BenchMain` (source/main.cpp): argument rewrite, file alignment, dimension checks, dispatch, result serialisation

## Model

| member | source | states |
|---|---|---|
| Recall.Recall | compute_recall.py:3-10 | an empty truth set gives 1.0; otherwise the result is |truth ∩ prediction| / |truth|, always in [0, 1] |
| Recall.Ratio | compute_recall.py:10 | the division `len(intersection) / len(ground_truth)`: result times total equals hits; 1 exactly when all hit, 0 exactly when none |
| Recall.RatioMonotone | compute_recall.py:10 | more hits over the same total never give a smaller ratio |
| Recall.RecallExtremes | compute_recall.py:7-10 | recall(G, G) = 1, and recall(G, ∅) = 0 for non-empty G |
| Recall.FullRecall | compute_recall.py:7-10 | recall is 1 exactly when every true id is predicted |
| Recall.MissedIdLowersRecall | compute_recall.py:9-10 | one true id missing from the prediction keeps recall below 1 |
| Recall.RecallMonotone | compute_recall.py:9-10 | predicting a superset never lowers recall |
| Recall.IdSetSize | compute_recall.py:24-25 | the set built from a line has at most one element per token, and exactly one per token if and only if no id repeats on the line |
| Recall.DuplicatesCollapse | compute_recall.py:24-25 | repeating an id on a line does not change its score |
| Recall.SumBounds | compute_recall.py:29 | the sum of n scores in [0, 1] lies in [0, n] |
| Recall.SumOfOnes | compute_recall.py:29 | n scores of 1 sum to n |
| Recall.Mean | compute_recall.py:29 | the mean of scores in [0, 1] is in [0, 1], and all-ones average to 1 |
| Recall.MeanFacts | compute_recall.py:29 | the same bounds stated on `sum(recalls) / len(recalls)` |
| Recall.LineRecall | compute_recall.py:24-26 | a line pair scores exactly when both lines parse as integers, and the score is in [0, 1] |
| Recall.LineRecalls | compute_recall.py:23-26 | one score per line pair among the first n, in order, each the pair's recall |
| Recall.AverageRecall | compute_recall.py:13-32 | usage error exactly when the argument count is not 3; lines are paired up to the shorter file; a parse error exactly when some paired line does not parse; "No data found." exactly when no pair exists; otherwise the mean of the per-line recalls, in [0, 1] |
| Recall.SelfLine | compute_recall.py:24-26 | a parsed line scored against itself gives 1 |
| Recall.SelfScoreIsOne | compute_recall.py:20-29 | a file scored against itself has mean recall 1 |
| Recall.WrittenLinesScore | compute_recall.py:24-26 | a result line in main.cpp's format scores as the recall of its id sets |
| Curve.UnzipOfZip | scripts/plot_sift.py:40-67 | pairing the qps and recall arrays and splitting the pairs again gives both arrays back |
| Curve.ZipOfParts | scripts/plot_sift.py:40-67 | splitting a curve into its qps and recall arrays and pairing them again gives the curve back |
| Curve.ZipDelete | scripts/plot_sift.py:47-48 | deleting the same index from both arrays deletes that point from the paired sequence |
| Curve.FirstPass | scripts/plot_sift.py:44-53 | the first pass as a function; it never empties a non-empty curve |
| Curve.FirstPassDeletesPoints | scripts/plot_sift.py:46-53 | the first pass keeps a sub-multiset of the input points (both arrays are cut at the same index) |
| Curve.ImprovingKept | scripts/plot_sift.py:44-53 | a curve strictly slower at every step, each step gaining more than 0.01 recall, passes the first pass unchanged |
| Curve.SpeedStep | scripts/plot_sift.py:46-48 | when point i is at least as fast as point i-1, point i-1 is deleted and the walk stays at i |
| Curve.SecondPassFilters | scripts/plot_sift.py:55-61 | the second pass keeps exactly the points with recall above 0.1, in order |
| Curve.Cleaned | scripts/plot_sift.py:40-67 | a None input gives (None, None); both outputs are present or both absent; a present result is non-empty, sorted by ascending recall, every recall above 0.1, and a sub-multiset of the input points |
| Curve.CleanCurve | scripts/plot_sift.py:40-67 | the two index walks and the argsort compute `Cleaned` |
| Curve.CleanedKeepsSurvivors | scripts/plot_sift.py:55-67 | the result is (None, None) exactly when no point survives both passes; otherwise it holds exactly the survivors |
| Curve.ImprovingExample | scripts/plot_sift.py:44-53 | [(0.5,100),(0.6,90),(0.95,10)] passes the first pass unchanged |
| Curve.EqualSpeedExample | scripts/plot_sift.py:46-48 | [(0.5,100),(0.55,100),(0.9,5)] loses only (0.5,100), by the speed branch |
| Curve.NotMonotoneExample | scripts/plot_sift.py:46-48 | qps [10, 5, 20] keeps [10, 20]: the output need not be monotone in qps |
| Rng.IntIn | generate_queries.py:26 | the value `randint(lo, hi)` gives for one raw draw lies in [lo, hi] |
| Rng.ReduceIsRemainder | generate_queries.py:26 | the range reduction behind `randint` is the remainder of the raw draw |
| Rng.Unit | generate_queries.py:30 | the value `random()` gives for one raw draw lies in [0, 1) |
| Rng.UnitVector | generate_queries.py:30 | `[random() for _ in range(dim)]` has max(dim, 0) components, component i taken from the i-th next draw, each in [0, 1) |
| Rng.Rng.constructor | generate_queries.py:1 | a generator starts at the first draw of its stream |
| Rng.Rng.RandInt | generate_queries.py:26 | `randint(lo, hi)` consumes one draw and returns a value in [lo, hi] |
| Rng.Rng.ChoiceIndex | generate_queries.py:25 | `choice` consumes one draw and picks a valid index |
| Rng.Rng.Random | generate_queries.py:30 | `random()` consumes one draw and returns a value in [0, 1) |
| Rng.Rng.RandomVector | generate_queries.py:30 | the vector comprehension consumes max(dim, 0) draws and returns `UnitVector` |
| QueryGen.Candidates | generate_queries.py:21 | every candidate is at least s long |
| QueryGen.CandidatesFacts | generate_queries.py:21-23 | candidates are listed strings, and there are none exactly when every string is shorter than s |
| QueryGen.DrawsForCount | generate_queries.py:19-30 | n queries consume n·(2 + vector_size) draws |
| QueryGen.QueryList | generate_queries.py:18-34 | n queries drawn one after the other give exactly n queries |
| QueryGen.GenerateQueries | generate_queries.py:5-34 | the loop computes `QueriesFrom`: the ValueError or the query list, having consumed exactly the draws of the queries |
| QueryGen.DrawQuery | generate_queries.py:25-32 | one iteration draws the base string, the offset and the vector, in that order, and builds `MakeQuery` |
| QueryGen.DrawnQuery | generate_queries.py:25-32 | the draws of one iteration build the query `MakeQuery` describes |
| QueryGen.MakeQueryFacts | generate_queries.py:21-30 | each query's substring has length exactly s and is a slice of a listed string of length at least s; its vector has vector_size components in [0, 1) |
| QueryGen.TextAt | generate_queries.py:25-27 | the substring is `base[start:start+s]` for a candidate base and a start in [0, len(base) - s] |
| QueryGen.GeneratedQueries | generate_queries.py:18-34 | a successful call returns max(n, 0) queries, every one well formed |
| QueryGen.QueryListFacts | generate_queries.py:18-34 | every query of the list is well formed |
| QueryGen.FailsExactlyWithoutCandidates | generate_queries.py:21-23 | the ValueError is raised exactly when at least one query is asked for and no string is s long |
| QueryGen.UsesOnlyItsDraws | generate_queries.py:18-34 | the queries are a function of the draws they consume: equal draws give equal queries |
| QueryGen.QueryListSameDraws | generate_queries.py:19-32 | the same for the query list of a fixed candidate list |
| QueryGen.SameDrawsSameQuery | generate_queries.py:25-30 | the same for one query |
| QueryGen.TruncateStrings | generate_queries.py:59-60 | the string list is left whole for -1 and cut to its first truncate_len entries for a non-negative value (Python's negative-index slice otherwise) |
| QueryGen.OutputFiles | generate_queries.py:104-108 | three files of one line per query: the substring, the vector, and the same k on every line |
| QueryGenMixed.GenerateQueriesWith | scripts/generate_queries.py:5-43 | the generator in both modes: without mixed_length it is `QueriesFrom` of generate_queries.py draw for draw (min_s and curr_s stay s); with it, the mixed list |
| QueryGenMixed.GenerateMixedQueries | scripts/generate_queries.py:19-43 | the mixed-mode loop computes `MixedQueriesFrom` and consumes exactly the draws of the queries |
| QueryGenMixed.NextMixedQuery | scripts/generate_queries.py:23-41 | one iteration fails exactly when no string has length at least 2; otherwise it returns `MakeMixedQuery` and consumes 4 + vector_size draws |
| QueryGenMixed.DrawMixedQuery | scripts/generate_queries.py:32-41 | after the discarded length: choice, the length `randint(2, min(4, len(base)))`, offset, vector, giving `MakeMixedQuery` |
| QueryGenMixed.DrawnMixedQuery | scripts/generate_queries.py:32-36 | the draws of one iteration build the query `MakeMixedQuery` describes |
| QueryGenMixed.MixedList | scripts/generate_queries.py:19-43 | n mixed queries drawn in a row give exactly n queries |
| QueryGenMixed.MixedQueryShape | scripts/generate_queries.py:23-39 | a mixed query is 2 to 4 characters cut from a listed string of length at least 2, with vector_size components in [0, 1) |
| QueryGenMixed.MixedTextAt | scripts/generate_queries.py:33-36 | the text is `base[start:start+len]` with len in [2, min(4, len(base))] and start in [0, len(base) - len] |
| QueryGenMixed.MixedQueriesShape | scripts/generate_queries.py:19-43 | a successful call returns max(n, 0) queries of that shape |
| QueryGenMixed.MixedListShape | scripts/generate_queries.py:19-41 | every query of the mixed list has that shape |
| QueryGenMixed.MixedFailsExactly | scripts/generate_queries.py:28-30 | in mixed mode the ValueError is raised exactly when a query is asked for and no string has 2 characters |
| QueryGenMixed.DiscardedDraw | scripts/generate_queries.py:25-34 | the length drawn at line 25 is overwritten: the query does not depend on that draw |
| QueryGenMixed.Without | scripts/generate_queries.py:55 | removing the flag never lengthens the argument list |
| QueryGenMixed.WithoutFacts | scripts/generate_queries.py:54-55 | no "--mixed-length" is left, every other argument is kept and nothing else is added; without the flag the list is unchanged |
| QueryGenMixed.WithoutAppend | scripts/generate_queries.py:55 | the other arguments keep their order: removal distributes over concatenation |
| QueryGenMixed.FlagPlacementIrrelevant | scripts/generate_queries.py:54-55 | wherever `--mixed-length` appears after the program name, the positional arguments, and so the output names, are those of the command line without it |
| QueryGenMixed.OutputNames | scripts/generate_queries.py:119 | the strings, vectors and k files carry the same suffix and are three different names |
| Scalability.Validate | scripts/generate_scalability.py:37-44 | the checks in order: num_items <= 0, else dim <= 0, else min_str_len <= 0, else max_str_len < min_str_len each name their ValueError; none fails exactly when all four bounds hold |
| Scalability.LowercaseLetter | scripts/generate_scalability.py:8 | every letter of `ascii_lowercase` is in 'a'..'z' |
| Scalability.Letter | scripts/generate_scalability.py:9 | `rng.choice(alphabet)` gives a lowercase letter |
| Scalability.Letters | scripts/generate_scalability.py:9 | n letters, one per draw, all lowercase |
| Scalability.StringAt | scripts/generate_scalability.py:6-9 | `random_string` has length in [min_len, max_len] and only lowercase letters |
| Scalability.RandomString | scripts/generate_scalability.py:6-9 | the method draws the length, then one letter per character: one draw plus one per letter |
| Scalability.ItemsFrom | scripts/generate_scalability.py:49-51 | n items generated in a row give exactly n items |
| Scalability.Generate | scripts/generate_scalability.py:37-53 | a failed check raises its ValueError; otherwise the items of one seeded generator are written, num_items of them |
| Scalability.GenerateItems | scripts/generate_scalability.py:46-53 | the loop computes `ItemsFrom` on the seeded generator |
| Scalability.DrawItem | scripts/generate_scalability.py:50-51 | each item draws its vector before its string |
| Scalability.ItemsShape | scripts/generate_scalability.py:7-13 | every item has a vector of dim components in [0, 1) and a lowercase string of length between the bounds |
| Scalability.WrittenItems | scripts/generate_scalability.py:46-53 | a valid run writes exactly num_items items, all of that shape |
| Scalability.Files | scripts/generate_scalability.py:52-53 | one vector line and one string line per item, in item order |
| Datasets.AlphaChar | scripts/download_datasets.py:21 | `chr(ord('a') + x % 26)` is a lowercase letter |
| Datasets.SyntheticAlpha | scripts/download_datasets.py:15-22 | exactly n characters, character j taken from the LCG state after j + 1 steps (start `((seed+1)·2654435761) mod 2^32`, step `(1664525·x + 1013904223) mod 2^32`), each in 'a'..'z' |
| Datasets.SyntheticAlphaString | scripts/download_datasets.py:15-22 | the loop that steps the state and appends a letter computes `SyntheticAlpha(seed, max(length, 0))` |
| Datasets.SyntheticAlphaPrefix | scripts/download_datasets.py:15-22 | the output is a function of the seed and the length only: a longer string extends a shorter one |
| Datasets.AsInt32 | scripts/download_datasets.py:27-39 | reading a word as int32 is undone by storing it back |
| Datasets.Int32RoundTrip | scripts/download_datasets.py:27-39 | an int32 stored as a word reads back unchanged |
| Datasets.Records | scripts/download_datasets.py:38 | the file cut into records of dim + 1 words |
| Datasets.Payloads | scripts/download_datasets.py:42 | every record without its header word |
| Datasets.LoadFvecs | scripts/download_datasets.py:25-42 | an empty file fails; with dim >= 0 a size that is not a multiple of 4·(dim+1) fails; with dim >= 0 and a whole number of records, the load fails with the inconsistent-dimensions error exactly when some record's header word is not dim; a loaded file has nvecs = size / (4·(dim+1)) records, dim is the first word, every header equals dim, and the data are exactly each record's trailing dim words |
| Datasets.WholeRecords | scripts/download_datasets.py:32-37 | a size that is a multiple of the record size holds size / (4·(dim+1)) whole records |
| Datasets.RecordsCount | scripts/download_datasets.py:37-38 | such a file cuts into exactly nvecs full records |
| Datasets.RecordsOfEncode | scripts/download_datasets.py:38-42 | a file in the fvecs layout cuts back into one record per vector, header then vector |
| Datasets.FvecsRoundTrip | scripts/download_datasets.py:25-42 | a file written in the fvecs layout loads back as its vectors, its dimension and its count |
| Datasets.FormatTimeFields | scripts/download_datasets.py:130-142 | from 3600 s: "{h}h {m}min {s}s" with m, s below 60 adding back up; from 60 s: "{m}min {s}s"; below 60 s: "{sec}s" |
| TimeFormat.TimeFormatting | source/headers.h:40-55 | the text starts with the decimal microseconds and "μs (", and ends with ")" |
| TimeFormat.BracketIsFormatTime | source/headers.h:43-52 | the bracket is `format_time` of the whole seconds, `microSeconds / 1000000` |
| TimeFormat.TimeFormattingFields | source/headers.h:50-52 | from an hour on, hours, minutes below 60 and seconds below 60 add back up to the whole seconds |
| Elastic.DropRun | test_elasticsearch.py:12 | dropping a leading run of other characters leaves a word character or nothing, and shortens a string that starts with one |
| Elastic.ReplaceRuns | test_elasticsearch.py:12 | `re.sub` leaves only characters of [A-Za-z0-9_] and never lengthens the string |
| Elastic.RunBecomesOneUnderscore | test_elasticsearch.py:12 | a maximal run of other characters, however long, becomes exactly one "_" |
| Elastic.Lower | test_elasticsearch.py:13 | lower-casing maps each character on its own, keeping the length |
| Elastic.StripLeading | test_elasticsearch.py:13 | the result is a suffix of the input that does not start with "_" |
| Elastic.StripTrailing | test_elasticsearch.py:13 | the result is a prefix of the input that does not end with "_" |
| Elastic.SanitizedIsName | test_elasticsearch.py:11-13 | a sanitized name holds only lower-case letters, digits and "_", and neither starts nor ends with "_" |
| Elastic.NameUnchanged | test_elasticsearch.py:11-13 | a string that is already such a name is left as it is |
| Elastic.SanitizeIdempotent | test_elasticsearch.py:11-13 | sanitizing twice is sanitizing once |
| Elastic.ReplaceAllAppend | test_elasticsearch.py:45 | `str.replace` of one character distributes over concatenation |
| Elastic.EscapeIsEachChar | test_elasticsearch.py:44-45 | the three replacements in a row escape each character on its own: backslashes added later are not doubled again |
| Elastic.EscapeOneChar | test_elasticsearch.py:45 | the three replacements applied to one character give its escape |
| Elastic.EscapedLength | test_elasticsearch.py:44-45 | the output length is the input length plus the count of '\', '*' and '?' |
| Elastic.EscapeRoundTrip | test_elasticsearch.py:44-45 | the escaped value reads back as the value when a backslash stands for the character after it |
| Elastic.LoadVectorsAndStrings | test_elasticsearch.py:16-22 | both lists cut to prefixes of the shorter length |
| Elastic.KValues | test_elasticsearch.py:29 | every k line parses, or the ValueError is raised; each parsed k is its line's integer |
| Elastic.LoadQueries | test_elasticsearch.py:25-32 | a bad k line raises; otherwise the three lists are cut to prefixes of the shortest length |
| Elastic.LoadGroundTruth | test_elasticsearch.py:35-41 | one id list per line, each its line's integers, or the ValueError when a token is not an integer |
| Elastic.BlankLineNoTruth | test_elasticsearch.py:39-40 | a blank line gives [] |
| Elastic.TruthLineRoundTrip | test_elasticsearch.py:35-41 | a truth line in main.cpp's result format reads back as the same ids |
| Elastic.Truncate | test_elasticsearch.py:119-120 | vectors, strings, ks and truth are cut to prefixes of their common length n |
| Elastic.RequestFor | test_elasticsearch.py:133-149 | the request asks for qk neighbours with the wildcard `*escaped*` and max(num_candidates, qk) candidates |
| Elastic.QueryRecall | test_elasticsearch.py:157-160 | the recall of one query is |set(hits) ∩ truth| / |truth|, in [0, 1] |
| Elastic.Effective | test_elasticsearch.py:126-159 | `effective` never exceeds the number of queries seen |
| Elastic.RunQueries | test_elasticsearch.py:114-168 | one (time, recall) pair per candidates value, in list order, each the average of its round over the truncated workload |
| Elastic.RunRound | test_elasticsearch.py:124-165 | the loop over the queries (k <= 0 skipped; only non-empty truth counted) produces `AverageTime` and `AverageRecall` |
| Elastic.TotalRecallBounds | test_elasticsearch.py:157-160 | the recall sum lies between 0 and the number of counted queries |
| Elastic.AverageRecallBounds | test_elasticsearch.py:163 | every reported recall is in [0, 1]; 0 when no query counts |
| Elastic.PerfectSearchTotal | test_elasticsearch.py:157-160 | when every answer contains its truth, the recall sum equals `effective` |
| Elastic.PerfectSearchFullRecall | test_elasticsearch.py:157-163 | then avg_recall is 1, or 0 when no query counts |
| Elastic.ActiveCount | test_elasticsearch.py:128-130 | the queries run number at least the counted ones and at most all |
| Elastic.SkippedAddNoTime | test_elasticsearch.py:129-152 | with a constant time t per query, total_time is t times the queries run: skipped queries add nothing |
| Elastic.UniformTimeAverage | test_elasticsearch.py:162 | with a constant time t, avg_time is t·(queries run)/n·10^6: the division is by all n queries, skipped ones included |
| Common.AsSize | source/post_filtering.cpp:69 | an `int` converted to `size_t` keeps a non-negative value and wraps a negative one to at least 2^64 - 2^31 |
| Common.SortBy | source/exact.cpp:20-22 | the sort by distance returns a reordering of its input in non-decreasing key order |
| Common.FilterMembers | source/post_filtering.cpp:64-68 | the string filter keeps exactly the elements that pass, each at most as often as it occurs |
| Ranking.Truncate | source/exact.cpp:23-25 | `if (results.size() > k) results.resize(k)`: a prefix of length min(k, size) for k >= 0; a negative k (a huge `size_t`) keeps everything |
| Ranking.NearestFacts | source/exact.cpp:20-25 | the sorted and truncated answer is in non-decreasing distance, a sub-multiset of the candidates, of length min(k, n) for k >= 0 |
| Ranking.NearestDistinct | source/exact.cpp:20-25 | candidates without repeats give an answer without repeats, all of them candidates |
| Ranking.NearestClosest | source/exact.cpp:20-25 | no candidate left out is strictly closer than one kept |
| Exact.Matches | source/exact.cpp:14-19 | the scan collects exactly the ids whose string contains s, in increasing order |
| Exact.ExactSearch.constructor | source/exact.h:6-18 | an empty store |
| Exact.ExactSearch.Insert | source/exact.cpp:3-7 | the string and the vector are appended, and the returned id is the previous size, at which the string now sits |
| Exact.ExactSearch.Remove | source/exact.cpp:9-11 | `remove` changes nothing |
| Exact.ExactSearch.Query | source/exact.cpp:13-27 | the loop, the sort and the resize compute the matches nearest first, truncated to k |
| Exact.AnswerFacts | source/exact.cpp:13-27 | every answer is a stored id whose string contains s, without repeats, in non-decreasing distance; min(k, matches) of them for k >= 0; no match left out is closer than one returned |
| Exact.AllMatchesWhenFew | source/exact.cpp:23-25 | with at most k matches, every match is returned |
| Exact.ExampleAna | source/test_vector_db.cpp:5-26 | on the test's five strings and vectors, the exact back-end's 2 nearest to (9,10,11) containing "ana" are ids 3 and 2, the set the test expects, nearest first |
| Exact.ExampleBanana | source/test_vector_db.cpp:5-32 | on the same data, "banana" with k = 2 gives only id 0, as the test expects |
| PreFiltering.Query | source/pre_filtering.cpp:46-58 | the copy loop, the sort and the resize compute `Answer` (an unknown pattern gives no ids; a negative k makes `resize` throw) |
| PreFiltering.UnknownPatternEmpty | source/pre_filtering.cpp:47-48 | a pattern the automaton does not know gives an empty result, whatever k |
| PreFiltering.AnswerFacts | source/pre_filtering.cpp:46-58 | for k >= 0: a reordering of part of the located ids, in non-decreasing distance, min(k, ids) of them, none left out closer than one kept; `threshold` plays no part |
| Filtering.FirstMatches | source/post_filtering.cpp:64-72 | the scan's result is a prefix of the passing candidates |
| Filtering.TakeMatching | source/post_filtering.cpp:64-72 | the loop with its early break computes `FirstMatches`: the first k passing candidates for k >= 1, the first candidate if it passes for k = 0, all passing ones for a negative k |
| Filtering.StopEarly | source/post_filtering.cpp:69-71 | stopping at the first moment k results are held gives `FirstMatches` |
| Filtering.FirstMatchesFacts | source/post_filtering.cpp:64-72 | every result passes the test and is a candidate, in candidate order; min(k, passing) of them for k >= 1; at most one for k = 0 |
| PostFiltering.Labels | source/post_filtering.cpp:26-28 | labels 0 to n - 1, each once, in order |
| PostFiltering.PostFiltering.constructor | source/post_filtering.h:6-25 | no index yet and no labels added |
| PostFiltering.PostFiltering.Build | source/post_filtering.cpp:21-38 | an existing index is left alone; otherwise one is created and every id from 0 to num_elements - 1 is added exactly once |
| PostFiltering.PostFiltering.SetEf | source/post_filtering.cpp:13-19 | the search width becomes ef and nothing else changes |
| PostFiltering.PostFiltering.Query | source/post_filtering.cpp:59-77 | a non-zero ef_search becomes the width first; the index is asked for ef_search candidates, or k when it is 0; the candidates containing s are kept in index order until there are k; without HNSW the result is empty |
| PostFiltering.QueryFacts | source/post_filtering.cpp:64-71 | every result is a candidate whose string contains s, in candidate order; exactly min(k, passing) of them for k >= 1 |
| Baseline.Baseline.constructor | source/baseline.h:7-18 | an empty store with no index |
| Baseline.Baseline.Insert | source/baseline.cpp:3-28 | the first call creates the index; the pair is appended and added to the index under label size - 1, which is returned |
| Baseline.Baseline.Remove | source/baseline.cpp:30-32 | `remove` changes nothing |
| Baseline.Baseline.Query | source/baseline.cpp:34-67 | the amplification loop computes `Answer`: rounds from amplification 2, doubling after each |
| Baseline.RoundsStop | source/baseline.cpp:37-64 | a round that finds k ids, or after which the doubled amplification passes the threshold, is the last |
| Baseline.RoundsContinue | source/baseline.cpp:37-65 | otherwise the next round runs with double the amplification |
| Baseline.Doubled | source/baseline.cpp:61 | doubling never lowers the amplification |
| Baseline.RoundsFacts | source/baseline.cpp:36-65 | the last round uses amplification 2·2^j (past the threshold only if it is the first round), scans k times that many candidates, and stopped because k ids were found or the next amplification passes the threshold |
| Baseline.AnswerFacts | source/baseline.cpp:34-67 | for k >= 1 at most k ids come back, each a candidate whose string contains s |
| SetHash.XorHash | source/set_hash.cpp:12-18 | the loop returns the XOR of all elements (0 for an empty list), which fits in 32 bits |
| SetHash.SumHash | source/set_hash.cpp:23-29 | the loop returns the sum of all elements modulo 2^64, the wrap of the `uint64_t` accumulator |
| SetHash.PolyHash | source/set_hash.cpp:34-42 | the loop returns the product of (1000003 + x) over all elements modulo 2^61 - 1; the result is below 2^61 - 1 and is 1 for an empty list |
| SetHash.NoOverflow | source/set_hash.cpp:37-39 | a reduced accumulator times 1000003 + x stays below 2^128, so the `__uint128_t` product never wraps |
| SetHash.ModMul | source/set_hash.cpp:39 | reducing the accumulator after each step leaves the remainder of the whole product unchanged |
| SetHash.XorOfBound | source/set_hash.cpp:12-18 | the XOR of 32-bit elements is below 2^32 |
| SetHash.XorOrderFree | source/set_hash.cpp:12-18 | two lists with the same elements, in any order, have the same XOR |
| SetHash.SumOrderFree | source/set_hash.cpp:23-29 | two lists with the same elements, in any order, have the same sum |
| SetHash.HashesOrderFree | source/set_hash.cpp:12-29 | hence `xor_hash` and `sum_hash` give equal values for any two orderings of the same elements |
| SetHash.XorAppend | source/set_hash.cpp:14-16 | folding XOR over two lists one after the other is the XOR of their two folds |
| SetHash.SumAppend | source/set_hash.cpp:25-27 | the sum over two lists one after the other is the sum of their two sums |
| OptQuery.SubstringsContained | source/opt_query.cpp:21-23 | a string is among the enumerated substrings exactly when it is non-empty and contained |
| OptQuery.ReachedBefore | source/opt_query.cpp:21-23 | the enumeration by start, then by length, has visited exactly the substrings at smaller starts and the shorter ones at the current start |
| OptQuery.ReachedAll | source/opt_query.cpp:21-23 | once every start is visited, every non-empty substring has been |
| OptQuery.RecordIdsStep | source/opt_query.cpp:29-33 | one more substring: its scratch set gains the id, nothing else changes |
| OptQuery.RecordIndexesStep | source/opt_query.cpp:24-34 | one more substring: its index is created if missing and gains the id only at the first visit, since the id was in no scratch set before |
| OptQuery.AddStep | source/opt_query.cpp:22-35 | one turn of the innermost loop moves the scratch sets and the indexes to those of the next substring in the enumeration |
| OptQuery.IdsAfterBelow | source/opt_query.cpp:20-38 | after the first n strings, every scratch id is below n, so string n is in no scratch set yet |
| OptQuery.HoldersFacts | source/opt_query.cpp:32-34 | the labels of substring t are exactly the ids whose string contains it, each once, in increasing order |
| OptQuery.HoldersNonEmpty | source/opt_query.cpp:24-34 | a substring has labels exactly when some enumerated string holds it |
| OptQuery.IndexesAfterBuilt | source/opt_query.cpp:19-38 | after n strings, exactly the substrings of those strings gained an index, and each index gained, in order, the ids of the strings holding its substring |
| OptQuery.BuiltAt | source/opt_query.cpp:20-35 | adding string n appends n to the index of each of its substrings and to no other |
| OptQuery.OptQuery.constructor | source/opt_query.h:6-26 | no index and no scratch sets |
| OptQuery.OptQuery.SetEf | source/opt_query.cpp:13-17 | every existing index takes the new width; no index is added or removed |
| OptQuery.OptQuery.AddSubstring | source/opt_query.cpp:24-35 | the index of the substring is created if missing; the string's id is recorded and added to that index unless already recorded |
| OptQuery.OptQuery.AddFrom | source/opt_query.cpp:22-36 | the innermost loop takes the state from the enumeration's position (i, j, 1) to (i, j + 1, 1) |
| OptQuery.OptQuery.AddString | source/opt_query.cpp:21-37 | for string i, every non-empty substring gets an index, and i is recorded for each exactly once |
| OptQuery.OptQuery.Build | source/opt_query.cpp:19-40 | the indexes become those the enumeration of strings 0 to num_elements - 1 builds; the scratch sets are emptied |
| OptQuery.OptQuery.Query | source/opt_query.cpp:64-77 | a substring without an index gives no ids and changes nothing; otherwise a non-zero ef_search becomes that index's width and its answer for k is returned |
| OptQuery.BuildFacts | source/opt_query.cpp:19-40 | from no indexes, there is an index for t exactly when t is non-empty and some enumerated string contains it; it holds exactly those ids, in increasing order, with the initial width 10 |
| VectorMaton.MissingMembers | source/vectormaton.cpp:262-281 | an id is among those the merge must add exactly when the state has it and the reused successor does not |
| VectorMaton.MergeMissing | source/vectormaton.cpp:263-281 | the two-cursor merge inserts exactly the state's ids that the successor lacks, in increasing order; the "should not happen" warning fires exactly when the successor holds an id above all of the state's |
| VectorMaton.NotInLater | source/vectormaton.cpp:272-275 | an id of the state skipped past by the successor's cursor is not among the successor's ids |
| VectorMaton.Largest | source/vectormaton.cpp:253-258 | the reused successor is -1 or a later state |
| VectorMaton.LargestFacts | source/vectormaton.cpp:253-258 | the successor is -1 exactly when no transition leads to a later state; otherwise it is such a target with the most ids, the first on ties (the comparison is strict) |
| VectorMaton.ReusedSuccessor | source/vectormaton.cpp:253-258 | the transition loop computes `Largest` over all of the state's transitions |
| VectorMaton.FoundUpTo | source/vectormaton.cpp:355-364 | the fallback's answer is a prefix of the candidates found in the state's ids |
| VectorMaton.TakeFound | source/vectormaton.cpp:355-364 | the loop with `binary_search` and its early break computes `FoundUpTo` |
| VectorMaton.StopFound | source/vectormaton.cpp:357-361 | stopping when the max(k, 1)-th found candidate is kept gives `FoundUpTo` |
| VectorMaton.FoundUpToFacts | source/vectormaton.cpp:355-364 | every result is a candidate in the state's ids; min(max(k, 1), found) of them for k >= 0, all found ones for a negative k |
| VectorMaton.VectorMaton.constructor | source/vectormaton.h:9-40 | no indexes yet |
| VectorMaton.VectorMaton.Visit | source/vectormaton.cpp:145-175 | a state gets an index of its ids exactly when its threshold exceeds its id count, a negative threshold counting as exceeding because the `int` is converted to `size_t` for the comparison; each successor above the bound (the shrunk size after a build, the state's threshold otherwise) takes the bound and the state it inherits from, and every other threshold and last state is unchanged |
| VectorMaton.VectorMaton.VisitKeeps | source/vectormaton.cpp:145-175 | a visit keeps the loop invariants: thresholds only fall, and every state below INT_MAX inherits an index holding its ids |
| VectorMaton.VectorMaton.BuildPartial | source/vectormaton.cpp:140-176 | afterwards every state with fewer than INT_MAX ids has an index of its own or inherits, through `last_state_in_gsa`, an index whose shrunk size is at most its own id count, and that holds its ids in a nested automaton; no index is lost |
| VectorMaton.NewIndexCovers | source/vectormaton.cpp:259-288 | a new index holds every id of its state and, in a nested automaton, nothing else |
| VectorMaton.VectorMaton.BuildState | source/vectormaton.cpp:249-289 | an id list that already has an index reuses it unchanged; otherwise it gets `NewIndex` |
| VectorMaton.VectorMaton.Build | source/vectormaton.cpp:244-291 | visiting the states from the last down, every state's id list ends with an index that holds its ids; indexes that existed before are untouched |
| VectorMaton.VectorMaton.Query | source/vectormaton.cpp:323-366 | no state gives no ids; a state with its own index is answered by it with k; otherwise the last state's index is asked for the widened count and the fallback scan keeps those in the state's ids |
| Text.Split | source/main.cpp:133-135 | every token `>>` reads into a string is non-empty and free of whitespace |
| Text.SplitEmpty | source/main.cpp:133-135 | a text yields no token exactly when it is all whitespace |
| Text.SplitOneWord | source/main.cpp:133-135 | a non-empty text without whitespace is read as one token, itself |
| Text.SplitAtSpace | source/main.cpp:133-135 | any whitespace character separates: the tokens of a + c + b are those of a followed by those of b, so with the two rows above the tokens are the maximal whitespace-free runs, in order, with nothing lost |
| Text.ParseIntRoundTrip | compute_recall.py:24-25 | an integer printed in decimal reads back, through `int(x)`, as itself |
| Text.IdsRoundTrip | source/main.cpp:239-244 | a result line as the driver writes it (each id followed by a space, then a newline) reads back through the Python scripts' `int`/`strip`/`split` as exactly the ids written |
| Text.SplitFormatted | source/main.cpp:239-244 | the tokens of a written result line are the printed ids, in order |
| BenchMain.WithoutFirstAt | source/main.cpp:115-124 | removing the first `--debug`, found at position i, keeps the entries before and after it in order |
| BenchMain.WithoutFirstFacts | source/main.cpp:114-126 | exactly one `--debug` goes when there is one, and nothing otherwise |
| BenchMain.ShiftLeft | source/main.cpp:119-121 | the entries after position i move one place left over it; the last one stays where it was |
| BenchMain.StripDebug | source/main.cpp:114-126 | with more than eight arguments, the first `--debug` (program name included) is removed and the count drops by one; with eight or fewer, or no `--debug`, nothing changes |
| BenchMain.ReadPrinted | source/main.cpp:196-198 | `>>` into an int reads a printed `int` back whole |
| BenchMain.ReadKsPrinted | source/main.cpp:193-198 | a k file written one int per token reads back as written, and reading stops at the first token that does not start with a number |
| BenchMain.ReadKsFails | source/main.cpp:196 | a token that does not start with a number ends the reading |
| BenchMain.CheckDims | source/main.cpp:166-171 | the dimension loop succeeds exactly when every vector from the given position on has the first vector's dimension (also the query loop at 213-218) |
| BenchMain.AnswersAt | source/main.cpp:231-235 | the i-th collected answer is the back-end's answer to the i-th query |
| BenchMain.AnswerAll | source/main.cpp:231-235 | the query loop collects one answer per query, in query order |
| BenchMain.WriteResults | source/main.cpp:238-244 | the writing loop produces the result file of all answers, one formatted line after another |
| BenchMain.WriteRow | source/main.cpp:240-242 | the inner loop writes each id of one answer followed by a space |
| BenchMain.ResultsTextSnoc | source/main.cpp:239-244 | one more answer appends exactly its line to the result file |
| BenchMain.RowSnoc | source/main.cpp:240-242 | one more id appends exactly its digits and a space to the line |
| BenchMain.RowNoNewline | source/main.cpp:240-243 | a line is its ids and spaces, then the one newline, which occurs nowhere else |
| BenchMain.ResultLines | source/main.cpp:239-244 | the result file has exactly one line per answer, the i-th being the i-th answer's line |
| BenchMain.ResultsReadBack | source/main.cpp:239-244 | the Python scripts read back from the result file exactly the answers, one line each, in query order |
| BenchMain.LoadData | source/main.cpp:128-162 | the data strings and vectors are read and both cut to the shorter list |
| BenchMain.LoadQueries | source/main.cpp:173-211 | the query strings, vectors and ks are read and all three cut to the shortest, which sets the query count |
| BenchMain.RunChecked | source/main.cpp:128-303 | after the argument checks: an empty data set is undefined (`vectors[0]`); a data or query vector of another dimension exits with 1; a known back-end name writes the result file of all answers and exits with 0; an unknown name writes nothing and exits with 0 |
| BenchMain.Run | source/main.cpp:108-306 | fewer than 8 arguments exit with 1; otherwise `--debug` is stripped and the run is that of the last argument's back-end |
| BenchMain.RunOutput | source/main.cpp:108-306 | a written result file has code 0, a known back-end name, one line per aligned query, and line i reads back as the back-end's answer to query i (its string, vector and k); an unknown name writes nothing or is undefined |

## Left out

- File, console and network I/O. A file is given by its contents: a string of text, or rows of reals for a vector file. The parsing of floats from text is not modelled. In source/main.cpp a file that cannot be opened reads as empty, which is what the C++ streams and the loops over them do. The Python scripts (compute_recall.py:22, test_elasticsearch.py:17, 26, 37) raise `FileNotFoundError` when a file cannot be opened; that failure is not modelled.
- Floating point. Recall, qps, times and vector components are reals. `distance` (source/headers.h:31-38) is an abstract ordering key per id. The `expand_factor` product in `VectorMaton::query` is the parameter `width`, and the shrink factor's `(int)` product is the parameter `shrunk`.
- Python's Mersenne Twister. `Rng` replays a supplied tape of raw draws: `randint`, `choice` and `random()` each reduce one draw into their range. The statistical distribution is not modelled.
- The approximate indexes (hnswlib, NSW) and the generalized suffix automaton (`sa.h` and `nsw.h` are not part of this model). An index is a search function plus the labels added to it, with its width. `gsa.query` is the located state or none. A VectorMaton `State` holds the sorted ids and transition targets of a finished automaton.
- VectorMaton.VectorMaton.Build and BuildPartial: the index of an id list is keyed by the list itself, not by its `sha256_hash`, so hash collisions are not modelled. `sha256_hash` (source/set_hash.cpp:47-70) is an OpenSSL call.
- The USE_HNSW branches (source/vectormaton.cpp:98-138 and 188-242) and `deepCopyHNSW` are not modelled. Only the NSW branches that the core names are.
- The progress logging in VectorMaton's builds. Its `i % ten_percent` divides by zero with fewer than ten states. The model visits the states without it.
- Baseline.Baseline.Query: `k * amplification` is taken as an unbounded integer. The C++ `int` product can overflow for huge `k`, and that is not modelled. The doubling `amplification *= 2` is unbounded too: once amplification is 2^30 and the threshold is at least 2^30, the C++ `int` doubling overflows (undefined behaviour). The model's next value 2^31 exceeds every 32-bit threshold, so its loop stops there instead.
- Every `size()` byte count, `load_index` / `save_index` (empty in the source), and the `set_vectors` / `set_strings` setters. The models take the strings and vectors as fields or parameters.
- source/vector_db.cpp is not part of this model. In `BenchMain`, the Baseline and VectorDB back-ends are parameters of `Backends`, because the calls in source/main.cpp do not match the signatures of those classes' files.
- The Logger classes, `currentTime`, and the timing lines the driver and the scripts print. These are output sinks and the wall clock.
- The Elasticsearch client (`build_client`, `ensure_index`, `main` of test_elasticsearch.py). The search inside `run_queries` is an abstract function from a request to ids. The measured time is the parameter `elapsed`.
- test_pgvector.py, the plotting and log-scraping scripts, dataset download and ETL, and generate_datasets.py.
- Common.SortBy: numpy's `argsort` (quicksort) and `std::sort` may order equal keys either way. The model sorts stably, which is one of the orders they may give. The `...Facts` and `...Closest` lemmas about sorted answers state only what holds for every such order.
- Exact.ExampleAna and Exact.ExampleBanana state two of the four fixture queries of source/test_vector_db.cpp for the exact back-end. The "nana" and "anana" queries are not stated.
- Text.ParseInt, Text.IsSpace, Text.Split: whitespace is the six ASCII characters space, tab, newline, carriage return, vertical tab and form feed, which is what C++ `>>` skips. Python's `str.split()` also splits on the separators \x1c to \x1f and on Unicode whitespace, and its `int()` also accepts underscores between digits and Unicode digits; texts with those characters are not modelled.
- PostFiltering.PostFiltering.SetEf: the source's `set_ef` changes the HNSW index's ef and does nothing without HNSW. The model keeps ef as a field and sets it in both cases. Nothing reads that field when HNSW is off, so the difference cannot be observed.

## Notes on behaviour

Where the code and its documentation read differently, the model follows the code:

- `_clean_curve` (scripts/plot_sift.py:40-67) does not always return a curve that is monotone in qps. After a deletion by the qps branch the walk does not step back, so the pair before the deleted point is never rechecked. `Curve.NotMonotoneExample` shows this: qps [10, 5, 20] keeps [10, 20].
- The merge in `VectorMaton::build` (source/vectormaton.cpp:263-281) inserts exactly the state's ids that the successor lacks, for any two sorted lists, including a successor that is not a subset. Its warning fires only when the successor holds an id above all of the state's ids. By then every id of the state has been handled, so the break loses nothing (`VectorMaton.MergeMissing`).
