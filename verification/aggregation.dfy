/**
  The summary of a batch (`GenerateSolutionSummary` and
  `GetTopOptimizationTypes` in SolutionOptimizerService.cs): counts, the
  mean improvement of the optimised files, the ten most frequent suggestion
  types and the five files with the most suggestions.

  A `Dictionary<string, int>` that only ever gains keys enumerates them in
  insertion order, so the histogram is a sequence of (type, count) entries
  in the order in which each type was first met.
*/
module Aggregation {
  import opened Models
  import opened StableSort

  type Histogram = seq<(string, int)>

  /** The suggestion types of one file, in order. */
  function TypesOf(suggestions: seq<Suggestion>): (r: seq<string>)
    ensures |r| == |suggestions|
    ensures forall i :: 0 <= i < |r| ==> r[i] == suggestions[i].suggestionType
  {
    seq(|suggestions|, i requires 0 <= i < |suggestions| => suggestions[i].suggestionType)
  }

  /** The suggestion types of every file, file after file. */
  function AllTypes(files: seq<FileResult>): seq<string> {
    if files == [] then []
    else AllTypes(files[..|files| - 1]) + TypesOf(files[|files| - 1].suggestions)
  }

  /** Position of the entry for `t`, or -1 (`ContainsKey` is `>= 0`). */
  function KeyIndex(d: Histogram, t: string): (r: int)
    ensures -1 <= r < |d|
    ensures r >= 0 ==> d[r].0 == t
    ensures r == -1 ==> forall i :: 0 <= i < |d| ==> d[i].0 != t
  {
    if d == [] then -1
    else if d[0].0 == t then 0
    else
      var i := KeyIndex(d[1..], t);
      if i == -1 then -1 else i + 1
  }

  /** One round of the inner loop: the entry of `t` goes up by one, or a new
      entry (t, 1) is added at the end. */
  function Increment(d: Histogram, t: string): Histogram {
    var i := KeyIndex(d, t);
    if i >= 0 then d[i := (t, d[i].1 + 1)] else d + [(t, 1)]
  }

  /** The histogram of a sequence of types, counted in order. */
  function Tally(types: seq<string>): Histogram {
    if types == [] then []
    else Increment(Tally(types[..|types| - 1]), types[|types| - 1])
  }

  /** `d` counts `types`: one entry per distinct type, holding the number of
      its occurrences. */
  ghost predicate Counts(d: Histogram, types: seq<string>) {
    && (forall i, j :: 0 <= i < j < |d| ==> d[i].0 != d[j].0)
    && (forall i :: 0 <= i < |d| ==> d[i].1 == multiset(types)[d[i].0] && d[i].0 in types)
    && (forall t :: t in types ==> exists i :: 0 <= i < |d| && d[i].0 == t)
  }

  /** The dictionary the loops build counts every type exactly. */
  lemma {:induction false} TallyCounts(types: seq<string>)
    ensures Counts(Tally(types), types)
    decreases |types|
  {
    if types != [] {
      var prefix := types[..|types| - 1];
      var t := types[|types| - 1];
      TallyCounts(prefix);
      assert types == prefix + [t];
      var d := Tally(prefix);
      var d' := Tally(types);
      assert types[..|types| - 1] == prefix;
      var i := KeyIndex(d, t);
      if i < 0 {
        assert t !in prefix;
        assert d' == d + [(t, 1)];
        forall u | u in types ensures exists k :: 0 <= k < |d'| && d'[k].0 == u {
          if u == t {
            assert d'[|d|].0 == t;
          } else {
            assert u in prefix;
            var k :| 0 <= k < |d| && d[k].0 == u;
            assert d'[k].0 == u;
          }
        }
      } else {
        assert d' == d[i := (t, d[i].1 + 1)];
        forall u | u in types ensures exists k :: 0 <= k < |d'| && d'[k].0 == u {
          if u == t {
            assert d'[i].0 == t;
          } else {
            assert u in prefix;
            var k :| 0 <= k < |d| && d[k].0 == u;
            assert d'[k].0 == u;
          }
        }
      }
    }
  }

  /** Position of the first occurrence of `t` in `types`, or `|types|` when
      it does not occur. */
  function FirstSeen(types: seq<string>, t: string): (r: nat)
    ensures r <= |types|
    ensures r < |types| <==> t in types
    ensures r < |types| ==> types[r] == t
    ensures forall j :: 0 <= j < r ==> types[j] != t
    decreases |types|
  {
    if types == [] then 0
    else if t in types[..|types| - 1] then FirstSeen(types[..|types| - 1], t)
    else if types[|types| - 1] == t then |types| - 1
    else |types|
  }

  /** The entries of `d` appear in the order their types were first met in
      `types`. */
  ghost predicate FirstSeenOrder(d: Histogram, types: seq<string>) {
    forall i, j :: 0 <= i < j < |d| ==> FirstSeen(types, d[i].0) < FirstSeen(types, d[j].0)
  }

  /** The dictionary lists its types in the order they were first met:
      `Dictionary` enumerates entries in insertion order when nothing is
      removed. */
  lemma {:induction false} TallyFirstSeen(types: seq<string>)
    ensures FirstSeenOrder(Tally(types), types)
    decreases |types|
  {
    if types != [] {
      var prefix := types[..|types| - 1];
      TallyFirstSeen(prefix);
      TallyCounts(prefix);
      assert types == prefix + [types[|types| - 1]];
      IncrementFirstSeen(Tally(prefix), prefix, types[|types| - 1]);
    }
  }

  /** One round of counting keeps the entries in first-seen order. */
  lemma IncrementFirstSeen(d: Histogram, prefix: seq<string>, t: string)
    requires Counts(d, prefix) && FirstSeenOrder(d, prefix)
    ensures FirstSeenOrder(Increment(d, t), prefix + [t])
  {
    var types := prefix + [t];
    var d' := Increment(d, t);
    var k := KeyIndex(d, t);
    assert |d'| == if k >= 0 then |d| else |d| + 1;
    forall i | 0 <= i < |d'|
      ensures i < |d| ==> FirstSeen(types, d'[i].0) == FirstSeen(prefix, d[i].0) < |prefix|
      ensures i == |d| ==> FirstSeen(types, d'[i].0) == |prefix|
    {
      if i < |d| {
        assert d'[i].0 == d[i].0 && d[i].0 in prefix;
        FirstSeenExtend(prefix, t, d[i].0);
      } else {
        assert d'[i].0 == t && t !in prefix;
        FirstSeenExtend(prefix, t, t);
      }
    }
  }

  /** Appending a type leaves the first occurrence of earlier types alone
      and puts a new type at the end. */
  lemma FirstSeenExtend(prefix: seq<string>, t: string, u: string)
    ensures u in prefix ==> FirstSeen(prefix + [t], u) == FirstSeen(prefix, u)
    ensures u !in prefix && u == t ==> FirstSeen(prefix + [t], u) == |prefix|
  {
    assert (prefix + [t])[..|prefix|] == prefix;
  }

  /** The entry value used for ordering. */
  function Occurrences(e: (string, int)): int { e.1 }

  /** The type name of an entry. */
  function TypeName(e: (string, int)): string { e.0 }

  /** Specification of `GetTopOptimizationTypes`: the histogram ordered by
      descending count (ties in first-seen order), first ten entries. */
  function TopTypes(files: seq<FileResult>): Histogram {
    Take(SortDescending(Tally(AllTypes(files)), Occurrences), 10)
  }

  lemma TallyStep(done: seq<string>, suggestions: seq<Suggestion>, j: nat)
    requires j < |suggestions|
    ensures Tally(done + TypesOf(suggestions[..j + 1]))
         == Increment(Tally(done + TypesOf(suggestions[..j])), suggestions[j].suggestionType)
  {
    var next := done + TypesOf(suggestions[..j + 1]);
    assert next[..|next| - 1] == done + TypesOf(suggestions[..j]);
  }

  lemma AllTypesStep(files: seq<FileResult>, i: nat)
    requires i < |files|
    ensures AllTypes(files[..i + 1]) == AllTypes(files[..i]) + TypesOf(files[i].suggestions[..|files[i].suggestions|])
  {
    assert files[..i + 1][..i] == files[..i];
    assert files[i].suggestions[..|files[i].suggestions|] == files[i].suggestions;
  }

  /** `GetTopOptimizationTypes`: two nested loops fill the dictionary, then
      it is ordered and cut to ten entries. */
  method GetTopOptimizationTypes(fileResults: seq<FileResult>) returns (r: Histogram)
    ensures r == TopTypes(fileResults)
  {
    var optimizationTypes: Histogram := [];
    var i := 0;
    while i < |fileResults|
      invariant 0 <= i <= |fileResults|
      invariant optimizationTypes == Tally(AllTypes(fileResults[..i]))
    {
      var suggestions := fileResults[i].suggestions;
      ghost var done := AllTypes(fileResults[..i]);
      var j := 0;
      assert done + TypesOf(suggestions[..j]) == done;
      while j < |suggestions|
        invariant 0 <= j <= |suggestions|
        invariant optimizationTypes == Tally(done + TypesOf(suggestions[..j]))
      {
        var t := suggestions[j].suggestionType;
        TallyStep(done, suggestions, j);
        var k := KeyIndex(optimizationTypes, t);
        if k >= 0 {
          optimizationTypes := optimizationTypes[k := (t, optimizationTypes[k].1 + 1)];
        } else {
          optimizationTypes := optimizationTypes + [(t, 1)];
        }
        j := j + 1;
      }
      AllTypesStep(fileResults, i);
      i := i + 1;
    }
    assert fileResults[..i] == fileResults;
    r := Take(SortDescending(optimizationTypes, Occurrences), 10);
  }

  /** The top types: at most ten, each type once (so `ToDictionary` cannot
      meet a duplicate key), each with its true number of occurrences, in
      non-increasing order. */
  lemma TopTypesCounted(files: seq<FileResult>)
    ensures var r := TopTypes(files);
      && |r| <= 10
      && DistinctBy(r, TypeName)
      && (forall i :: 0 <= i < |r| ==> r[i].1 == multiset(AllTypes(files))[r[i].0] > 0)
      && SortedDescending(r, Occurrences)
  {
    var types := AllTypes(files);
    var d := Tally(types);
    var sorted := SortDescending(d, Occurrences);
    var r := Take(sorted, 10);
    TallyCounts(types);
    SortPermutes(d, Occurrences);
    SortSorts(d, Occurrences);
    SortDistinct(d, Occurrences, TypeName);
    TakeKeepsLargest(sorted, Occurrences, 10);
    forall i | 0 <= i < |r| ensures r[i].1 == multiset(types)[r[i].0] > 0 {
      assert r[i] == sorted[i];
      CountedEntry(d, types, sorted, i);
    }
  }

  /** Types with the same number of occurrences keep the order in which
      they were first met: `OrderByDescending` is stable over the
      dictionary's insertion order. */
  lemma TopTypesTiesFirstSeen(files: seq<FileResult>)
    ensures var r := TopTypes(files); var types := AllTypes(files);
      forall i, j :: 0 <= i < j < |r| && r[i].1 == r[j].1 ==>
        FirstSeen(types, r[i].0) < FirstSeen(types, r[j].0)
  {
    var types := AllTypes(files);
    var d := Tally(types);
    var rank := (e: (string, int)) => FirstSeen(types, e.0);
    TallyFirstSeen(types);
    assert FirstSeenOrder(d, types);
    forall i, j | 0 <= i < j < |d| ensures rank(d[i]) < rank(d[j]) {
      assert rank(d[i]) == FirstSeen(types, d[i].0) && rank(d[j]) == FirstSeen(types, d[j].0);
    }
    SortTiesRanked(d, Occurrences, rank);
    var sorted := SortDescending(d, Occurrences);
    var r := Take(sorted, 10);
    forall i, j | 0 <= i < j < |r| && r[i].1 == r[j].1
      ensures FirstSeen(types, r[i].0) < FirstSeen(types, r[j].0)
    {
      assert r[i] == sorted[i] && r[j] == sorted[j];
      assert Occurrences(sorted[i]) == Occurrences(sorted[j]);
    }
  }

  /** An entry of a reordering of the histogram carries its true count. */
  lemma CountedEntry(d: Histogram, types: seq<string>, sorted: Histogram, i: nat)
    requires Counts(d, types) && multiset(sorted) == multiset(d) && i < |sorted|
    ensures sorted[i].1 == multiset(types)[sorted[i].0] > 0
  {
    assert sorted[i] in multiset(sorted);
    assert sorted[i] in multiset(d);
    var j :| 0 <= j < |d| && d[j] == sorted[i];
  }

  /** A type left out of the top list occurs no more often than any type
      listed, and with fewer than ten entries no type is left out. */
  lemma TopTypesLeaveOutLeast(files: seq<FileResult>)
    ensures var r := TopTypes(files);
      forall t :: t in AllTypes(files) && (forall i :: 0 <= i < |r| ==> r[i].0 != t) ==>
        |r| == 10 && forall i :: 0 <= i < |r| ==> multiset(AllTypes(files))[t] <= r[i].1
  {
    var types := AllTypes(files);
    var d := Tally(types);
    var sorted := SortDescending(d, Occurrences);
    var r := Take(sorted, 10);
    TallyCounts(types);
    SortPermutes(d, Occurrences);
    SortSorts(d, Occurrences);
    forall t | t in types && (forall i :: 0 <= i < |r| ==> r[i].0 != t)
      ensures |r| == 10 && forall i :: 0 <= i < |r| ==> multiset(types)[t] <= r[i].1
    {
      LeftOutEntry(d, types, sorted, t);
    }
  }

  /** A type missing from the first ten entries of a sorted reordering of the
      histogram is outnumbered by each of them. */
  lemma LeftOutEntry(d: Histogram, types: seq<string>, sorted: Histogram, t: string)
    requires Counts(d, types) && multiset(sorted) == multiset(d)
    requires SortedDescending(sorted, Occurrences)
    requires t in types
    requires forall i :: 0 <= i < |Take(sorted, 10)| ==> Take(sorted, 10)[i].0 != t
    ensures var r := Take(sorted, 10);
      |r| == 10 && forall i :: 0 <= i < |r| ==> multiset(types)[t] <= r[i].1
  {
    var r := Take(sorted, 10);
    var j :| 0 <= j < |d| && d[j].0 == t;
    assert d[j] in multiset(d);
    assert d[j] in multiset(sorted);
    var k :| 0 <= k < |sorted| && sorted[k] == d[j];
    assert sorted[k] !in r;
    TakeLeavesOut(sorted, Occurrences, 10, k);
    assert Occurrences(sorted[k]) == multiset(types)[t];
    forall i | 0 <= i < |r| ensures multiset(types)[t] <= r[i].1 {
      assert Occurrences(r[i]) == r[i].1;
    }
  }

  /** `Where(f => f.HasOptimizations)`. */
  function Optimized(files: seq<FileResult>): (r: seq<FileResult>)
    ensures |r| <= |files|
  {
    if files == [] then []
    else (if files[0].hasOptimizations then [files[0]] else []) + Optimized(files[1..])
  }

  /** The optimised files are exactly the entries flagged as optimised. */
  lemma {:induction false} OptimizedMembers(files: seq<FileResult>)
    ensures forall f :: f in Optimized(files) <==> f in files && f.hasOptimizations
    ensures Optimized(files) == [] <==> forall f :: f in files ==> !f.hasOptimizations
    decreases |files|
  {
    if files != [] {
      OptimizedMembers(files[1..]);
      assert files == [files[0]] + files[1..];
    }
  }

  /** `Sum(f => f.OptimizationCount)`. */
  function TotalOptimizations(files: seq<FileResult>): int {
    if files == [] then 0 else files[0].optimizationCount + TotalOptimizations(files[1..])
  }

  /** The sum of the improvements. */
  function SumImprovement(files: seq<FileResult>): real {
    if files == [] then 0.0 else files[0].improvementPercentage + SumImprovement(files[1..])
  }

  /** `Average(f => f.ImprovementPercentage)` when there is any file, else 0. */
  function MeanImprovement(files: seq<FileResult>): real {
    if files == [] then 0.0 else SumImprovement(files) / |files| as real
  }

  /** An entry as the batch builds it: counted suggestions, flagged exactly
      when there are any. */
  ghost predicate WellFormed(f: FileResult) {
    f.optimizationCount == |f.suggestions| && (f.hasOptimizations <==> |f.suggestions| > 0)
  }

  lemma {:induction false} SumImprovementBounds(files: seq<FileResult>)
    requires forall f :: f in files ==> 0.0 <= f.improvementPercentage <= 100.0
    ensures 0.0 <= SumImprovement(files) <= 100.0 * |files| as real
    decreases |files|
  {
    if files != [] {
      assert files[0] in files;
      SumImprovementBounds(files[1..]);
    }
  }

  /** A mean of percentages is a percentage. */
  lemma MeanImprovementBounds(files: seq<FileResult>)
    requires forall f :: f in files ==> 0.0 <= f.improvementPercentage <= 100.0
    ensures 0.0 <= MeanImprovement(files) <= 100.0
  {
    SumImprovementBounds(files);
    if files != [] {
      var n := |files| as real;
      assert SumImprovement(files) / n <= 100.0 * n / n;
    }
  }

  /** Every optimised file contributes at least one suggestion to the total. */
  lemma {:induction false} TotalAtLeastOptimized(files: seq<FileResult>)
    requires forall f :: f in files ==> WellFormed(f)
    ensures TotalOptimizations(files) >= |Optimized(files)|
    ensures TotalOptimizations(files) == |AllTypes(files)|
    decreases |files|
  {
    if files != [] {
      assert files[0] in files;
      TotalAtLeastOptimized(files[1..]);
      AllTypesFront(files);
    }
  }

  lemma {:induction false} AllTypesFront(files: seq<FileResult>)
    requires files != []
    ensures AllTypes(files) == TypesOf(files[0].suggestions) + AllTypes(files[1..])
    decreases |files|
  {
    if |files| > 1 {
      var init := files[..|files| - 1];
      var rest := files[1..];
      var lastTypes := TypesOf(files[|files| - 1].suggestions);
      assert AllTypes(files) == AllTypes(init) + lastTypes;
      AllTypesFront(init);
      assert init[0] == files[0];
      assert init[1..] == rest[..|rest| - 1];
      assert rest[|rest| - 1] == files[|files| - 1];
      assert AllTypes(rest) == AllTypes(init[1..]) + lastTypes;
    } else {
      assert files[..0] == [];
      assert files[1..] == [];
    }
  }

  /** Specification of `MostOptimizedFiles`: the optimised files by
      descending suggestion count, ties in batch order, first five. */
  function OptimizationCount(f: FileResult): int { f.optimizationCount }

  function MostOptimized(files: seq<FileResult>): seq<FileResult> {
    Take(SortDescending(Optimized(files), OptimizationCount), 5)
  }

  /** At most five optimised files of the batch, with non-increasing counts,
      equal counts in batch order, and no optimised file left out that has
      more suggestions than one listed. */
  lemma MostOptimizedRanked(files: seq<FileResult>)
    ensures var r := MostOptimized(files);
      && |r| <= 5
      && (forall f :: f in r ==> f in files && f.hasOptimizations)
      && SortedDescending(r, OptimizationCount)
      && (forall k :: WithKey(r, OptimizationCount, k) <= WithKey(Optimized(files), OptimizationCount, k))
      && (forall f, g :: f in r && g in files && g.hasOptimizations && g !in r ==>
            g.optimizationCount <= f.optimizationCount)
  {
    var o := Optimized(files);
    var sorted := SortDescending(o, OptimizationCount);
    var r := Take(sorted, 5);
    OptimizedMembers(files);
    SortSameElements(o, OptimizationCount);
    SortSorts(o, OptimizationCount);
    TakeKeepsLargest(sorted, OptimizationCount, 5);
    forall f | f in r ensures f in files && f.hasOptimizations {
      assert f in sorted;
    }
    forall k ensures WithKey(r, OptimizationCount, k) <= WithKey(o, OptimizationCount, k) {
      TakeWithKey(sorted, OptimizationCount, 5, k);
      SortStable(o, OptimizationCount, k);
    }
  }

  /** Specification of the summary of a finished batch. */
  function SummaryOf(result: SolutionResult): Summary {
    var optimized := Optimized(result.fileResults);
    Summary(
      totalFilesAnalyzed := |result.fileResults|,
      filesWithOptimizations := |optimized|,
      totalOptimizations := TotalOptimizations(result.fileResults),
      averageMemoryImprovement := MeanImprovement(optimized),
      analysisDuration := result.endTime - result.startTime,
      topOptimizationTypes := TopTypes(result.fileResults),
      mostOptimizedFiles := MostOptimized(result.fileResults))
  }

  /** `GenerateSolutionSummary`: replaces the summary of `result` and leaves
      everything else as it was. */
  method GenerateSolutionSummary(result: SolutionResult) returns (r: SolutionResult)
    ensures r == result.(summary := SummaryOf(result))
  {
    var filesWithOptimizations := Optimized(result.fileResults);
    var totalOptimizations := TotalOptimizations(result.fileResults);
    var averageImprovement := if filesWithOptimizations != []
      then MeanImprovement(filesWithOptimizations) else 0.0;
    var topTypes := GetTopOptimizationTypes(result.fileResults);
    r := result.(summary := Summary(
      totalFilesAnalyzed := |result.fileResults|,
      filesWithOptimizations := |filesWithOptimizations|,
      totalOptimizations := totalOptimizations,
      averageMemoryImprovement := averageImprovement,
      analysisDuration := result.endTime - result.startTime,
      topOptimizationTypes := topTypes,
      mostOptimizedFiles := Take(SortDescending(filesWithOptimizations, OptimizationCount), 5)));
  }

  /** What the summary says about the batch: the optimised count is at most
      the file count and positive exactly when some file is optimised; for
      well-formed entries the total counts every suggestion and is at least
      the optimised count; with percentages in [0, 100] so is the mean. */
  lemma SummaryConsistent(result: SolutionResult)
    ensures var s := SummaryOf(result);
      && 0 <= s.filesWithOptimizations <= s.totalFilesAnalyzed == |result.fileResults|
      && (s.filesWithOptimizations > 0 <==> exists f :: f in result.fileResults && f.hasOptimizations)
    ensures (forall f :: f in result.fileResults ==> WellFormed(f)) ==>
      var s := SummaryOf(result);
      s.totalOptimizations == |AllTypes(result.fileResults)| && s.totalOptimizations >= s.filesWithOptimizations
    ensures (forall f :: f in result.fileResults ==> 0.0 <= f.improvementPercentage <= 100.0) ==>
      0.0 <= SummaryOf(result).averageMemoryImprovement <= 100.0
  {
    var files := result.fileResults;
    OptimizedMembers(files);
    if forall f :: f in files ==> WellFormed(f) {
      TotalAtLeastOptimized(files);
    }
    if forall f :: f in files ==> 0.0 <= f.improvementPercentage <= 100.0 {
      MeanImprovementBounds(Optimized(files));
    }
  }
}
