/**
  CodeOptimizerService.cs: one file through the analyser, with a memory
  reading before the call, a simulated reading after it and the improvement
  between the two.

  The "after" reading is not measured: a fresh reading of the tool's own
  process is scaled down by an estimate derived from the suggestion types
  (a fixed saving per type, summed and capped at 50%). Both readings come
  from the analysing process itself, not from the analysed code; the model
  keeps that as it is.
*/
module CodeOptimizer {
  import opened Wrappers
  import opened Text
  import opened Models
  import opened OpenAIAnalyzer
  import MemoryProfiler

  /** The estimated saving of one suggestion: the first rule whose keyword the
      lower-cased type contains, else 5%. */
  function TypeSaving(suggestionType: string): (r: real)
    ensures 0.05 <= r <= 0.20
  {
    var t := ToLower(suggestionType);
    if Contains(t, "string") then 0.15
    else if Contains(t, "collection") then 0.20
    else if Contains(t, "boxing") then 0.10
    else if Contains(t, "disposal") then 0.05
    else if Contains(t, "linq") then 0.12
    else if Contains(t, "lazy") then 0.08
    else 0.05
  }

  /** The first rule wins and matching ignores case: a type naming both
      strings and collections gets the string saving. */
  lemma FirstMatchWins()
    ensures TypeSaving("String Collection") == 0.15
    ensures TypeSaving("Collection Capacity") == 0.20
  {
    assert ToLower("String Collection")[..6] == "string";
    var t := ToLower("Collection Capacity");
    assert t[..10] == "collection";
    assert 'g' !in t && 'g' in "string";
    ContainedCharsOccur(t, "string");
  }

  /** The type of the parse-failure suggestion matches no rule and gets the
      default 5%. */
  lemma ErrorTypeSaving()
    ensures TypeSaving("Analysis Error") == 0.05
  {
    var t := ToLower("Analysis Error");
    assert t == "analysis error";
    assert 'g' !in t && 'g' in "string";
    assert 'c' !in t && 'c' in "collection";
    assert 'b' !in t && 'b' in "boxing";
    assert 'd' !in t && 'd' in "disposal";
    assert 'q' !in t && 'q' in "linq";
    assert 'z' !in t && 'z' in "lazy";
    ContainedCharsOccur(t, "string");
    ContainedCharsOccur(t, "collection");
    ContainedCharsOccur(t, "boxing");
    ContainedCharsOccur(t, "disposal");
    ContainedCharsOccur(t, "linq");
    ContainedCharsOccur(t, "lazy");
  }

  /** The savings of all suggestions, added in list order. */
  function SumSavings(suggestions: seq<Suggestion>): real {
    if suggestions == [] then 0.0
    else SumSavings(suggestions[..|suggestions| - 1]) + TypeSaving(suggestions[|suggestions| - 1].suggestionType)
  }

  /** Specification of `EstimateMemoryImprovement`: the summed savings, at
      most one half. */
  function CappedEstimate(suggestions: seq<Suggestion>): real {
    var total := SumSavings(suggestions);
    if total < 0.5 then total else 0.5
  }

  /** `EstimateMemoryImprovement`: accumulates the savings in a loop and
      caps the total with `Math.Min`. */
  method EstimateMemoryImprovement(suggestions: seq<Suggestion>) returns (r: real)
    ensures r == CappedEstimate(suggestions)
  {
    var totalImprovement := 0.0;
    var i := 0;
    while i < |suggestions|
      invariant 0 <= i <= |suggestions|
      invariant totalImprovement == SumSavings(suggestions[..i])
    {
      assert suggestions[..i + 1][..i] == suggestions[..i];
      totalImprovement := totalImprovement + TypeSaving(suggestions[i].suggestionType);
      i := i + 1;
    }
    assert suggestions[..i] == suggestions;
    r := if totalImprovement < 0.5 then totalImprovement else 0.5;
  }

  /** Every suggestion adds between 5% and 20%. */
  lemma {:induction false} SumSavingsBounds(suggestions: seq<Suggestion>)
    ensures 0.05 * |suggestions| as real <= SumSavings(suggestions) <= 0.20 * |suggestions| as real
    decreases |suggestions|
  {
    if suggestions != [] {
      SumSavingsBounds(suggestions[..|suggestions| - 1]);
    }
  }

  /** Savings of a concatenation add up. */
  lemma {:induction false} SumSavingsAppend(a: seq<Suggestion>, b: seq<Suggestion>)
    ensures SumSavings(a + b) == SumSavings(a) + SumSavings(b)
    decreases |b|
  {
    if b == [] {
      assert a + b == a;
    } else {
      assert (a + b)[..|a + b| - 1] == a + b[..|b| - 1];
      SumSavingsAppend(a, b[..|b| - 1]);
    }
  }

  /** The estimate lies in [0, 0.5], is 0 for no suggestions and at least
      5% for any. */
  lemma EstimateBounds(suggestions: seq<Suggestion>)
    ensures 0.0 <= CappedEstimate(suggestions) <= 0.5
    ensures suggestions == [] ==> CappedEstimate(suggestions) == 0.0
    ensures suggestions != [] ==> CappedEstimate(suggestions) >= 0.05
  {
    SumSavingsBounds(suggestions);
  }

  /** One more suggestion, wherever it is inserted, never lowers the estimate. */
  lemma EstimateMonotone(a: seq<Suggestion>, x: Suggestion, b: seq<Suggestion>)
    ensures CappedEstimate(a + b) <= CappedEstimate(a + [x] + b)
  {
    SumSavingsAppend(a, b);
    SumSavingsAppend(a + [x], b);
    SumSavingsAppend(a, [x]);
    assert [x][..0] == [];
  }

  /** A C# cast of a `double` to `long`: the fractional part is dropped,
      rounding toward zero. */
  function TruncateTowardZero(x: real): (r: int)
    ensures x >= 0.0 ==> 0 <= r && r as real <= x < r as real + 1.0
    ensures x < 0.0 ==> r as real - 1.0 < x <= r as real && r <= 0
  {
    if x >= 0.0 then x.Floor else -((-x).Floor)
  }

  /** A byte count scaled by (1 - estimate), before the cast. */
  function Scaled(bytes: int, estimate: real): real {
    bytes as real * (1.0 - estimate)
  }

  /** A byte count scaled by (1 - estimate), truncated as the `(long)` cast
      does. */
  function Scale(bytes: int, estimate: real): (r: int)
    ensures r == TruncateTowardZero(Scaled(bytes, estimate))
    ensures 0.0 <= estimate <= 1.0 && bytes >= 0 ==>
      0 <= r <= bytes && Scaled(bytes, estimate) - 1.0 < r as real
  {
    ScaleBounds(bytes, estimate);
    TruncateTowardZero(Scaled(bytes, estimate))
  }

  lemma ScaleBounds(bytes: int, estimate: real)
    ensures 0.0 <= estimate <= 1.0 && bytes >= 0 ==>
      var x := Scaled(bytes, estimate);
      0 <= TruncateTowardZero(x) <= bytes && x - 1.0 < TruncateTowardZero(x) as real
  {
    if 0.0 <= estimate <= 1.0 && bytes >= 0 {
      var b := bytes as real;
      var x := Scaled(bytes, estimate);
      assert 0.0 <= x <= b by {
        assert b * (1.0 - estimate) <= b * 1.0;
      }
      var r := TruncateTowardZero(x);
      assert r as real <= b;
    }
  }

  /** The simulated reading: allocated bytes and working set of the fresh
      reading scaled by (1 - estimate) and truncated; the collection counters
      copied unchanged. */
  function SimulatedUsage(current: MemoryUsage, estimate: real, now: int): (r: MemoryUsage)
    ensures r.allocatedMemory == TruncateTowardZero(Scaled(current.allocatedMemory, estimate))
    ensures r.workingSet == TruncateTowardZero(Scaled(current.workingSet, estimate))
    ensures r.gen0Collections == current.gen0Collections
    ensures r.gen1Collections == current.gen1Collections
    ensures r.gen2Collections == current.gen2Collections
    ensures r.measurementTime == now
    ensures 0.0 <= estimate <= 1.0 && current.allocatedMemory >= 0 ==>
      0 <= r.allocatedMemory <= current.allocatedMemory
      && Scaled(current.allocatedMemory, estimate) - 1.0 < r.allocatedMemory as real
    ensures 0.0 <= estimate <= 1.0 && current.workingSet >= 0 ==>
      0 <= r.workingSet <= current.workingSet
      && Scaled(current.workingSet, estimate) - 1.0 < r.workingSet as real
  {
    MemoryUsage(
      allocatedMemory := Scale(current.allocatedMemory, estimate),
      workingSet := Scale(current.workingSet, estimate),
      gen0Collections := current.gen0Collections,
      gen1Collections := current.gen1Collections,
      gen2Collections := current.gen2Collections,
      measurementTime := now)
  }

  /** `CalculateImprovement`: the relative drop in allocated bytes, in
      percent; 0 when the first reading is 0, and never negative. */
  function CalculateImprovement(before: MemoryUsage, after: MemoryUsage): (r: real)
    ensures before.allocatedMemory == 0 ==> r == 0.0
    ensures r >= 0.0
    ensures before.allocatedMemory > 0 && after.allocatedMemory >= 0 ==> r <= 100.0
    ensures before.allocatedMemory != 0 ==>
      var drop := (before.allocatedMemory - after.allocatedMemory) as real
                  / before.allocatedMemory as real * 100.0;
      r == (if drop >= 0.0 then drop else 0.0)
  {
    if before.allocatedMemory == 0 then 0.0
    else
      var improvement := (before.allocatedMemory - after.allocatedMemory) as real
                         / before.allocatedMemory as real * 100.0;
      if improvement >= 0.0 then improvement else 0.0
  }

  /** The two readings and the clock of one analysis. `before` is read
      before the analysis call, `current` after it returns. */
  datatype Probe = Probe(before: MemoryUsage, current: MemoryUsage, now: int)

  /** Specification of `OptimizeCodeAsync`. */
  function Optimization(file: CodeFile, service: Service, probe: Probe): Result<CodeAnalysisResult> {
    match Analysis(file, service)
    case Failure(e) => Failure(e)
    case Success(a) =>
      var after := SimulatedUsage(probe.current, CappedEstimate(a.suggestions), probe.now);
      Success(a.(memoryBefore := probe.before, memoryAfter := after,
                 improvementPercentage := CalculateImprovement(probe.before, after)))
  }

  /** `OptimizeCodeAsync`: reading, analysis, simulated reading, improvement;
      an exception of the analysis passes through. */
  method OptimizeCode(file: CodeFile, service: Service, probe: Probe) returns (r: Result<CodeAnalysisResult>)
    ensures r == Optimization(file, service, probe)
  {
    var memoryBefore := probe.before;
    var analysisResult := AnalyzeCode(file, service);
    if analysisResult.Failure? {
      return Failure(analysisResult.error);
    }
    var estimatedImprovement := EstimateMemoryImprovement(analysisResult.value.suggestions);
    var memoryAfter := SimulatedUsage(probe.current, estimatedImprovement, probe.now);
    var improvement := CalculateImprovement(memoryBefore, memoryAfter);
    var result := analysisResult.value;
    result := result.(memoryBefore := memoryBefore);
    result := result.(memoryAfter := memoryAfter);
    result := result.(improvementPercentage := improvement);
    return Success(result);
  }

  /** The optimisation fails exactly when the analysis does, and otherwise
      changes only the two readings and the improvement of its result. */
  lemma OptimizationKeepsAnalysis(file: CodeFile, service: Service, probe: Probe)
    ensures Optimization(file, service, probe).Success? <==> Analysis(file, service).Success?
    ensures Optimization(file, service, probe).Failure? ==>
      Optimization(file, service, probe).error == Analysis(file, service).error
    ensures Optimization(file, service, probe).Success? ==>
      var a := Analysis(file, service).value;
      Optimization(file, service, probe).value.(memoryBefore := a.memoryBefore,
        memoryAfter := a.memoryAfter, improvementPercentage := a.improvementPercentage) == a
  {
  }

  /** With live readings the improvement is a percentage in [0, 100]. */
  lemma ImprovementBounded(file: CodeFile, service: Service, probe: Probe)
    requires MemoryProfiler.IsSample(probe.before) && MemoryProfiler.IsSample(probe.current)
    requires Optimization(file, service, probe).Success?
    ensures 0.0 <= Optimization(file, service, probe).value.improvementPercentage <= 100.0
  {
    EstimateBounds(Analysis(file, service).value.suggestions);
  }

  /** When the second reading equals the first, the reported improvement is
      the estimate itself, in percent, up to the truncation of one byte. */
  lemma ImprovementIsEstimate(before: MemoryUsage, estimate: real, now: int)
    requires before.allocatedMemory > 0 && 0.0 <= estimate <= 0.5
    ensures var imp := CalculateImprovement(before, SimulatedUsage(before, estimate, now));
      var b := before.allocatedMemory as real;
      estimate * 100.0 <= imp < estimate * 100.0 + 100.0 / b
  {
    var b := before.allocatedMemory as real;
    var a := SimulatedUsage(before, estimate, now).allocatedMemory as real;
    assert b * (1.0 - estimate) - 1.0 < a <= b * (1.0 - estimate);
    PercentOfDrop(b, a, estimate);
  }

  /** Real arithmetic behind `ImprovementIsEstimate`: a reading between
      b·(1 - e) - 1 and b·(1 - e) is a drop of at least e and less than
      e + 1/b. */
  lemma PercentOfDrop(b: real, a: real, e: real)
    requires b > 0.0 && b * (1.0 - e) - 1.0 < a <= b * (1.0 - e)
    ensures e * 100.0 <= (b - a) / b * 100.0 < e * 100.0 + 100.0 / b
  {
    assert b * e <= b - a < b * e + 1.0;
    assert (b - a) / b >= e by {
      assert (b - a) >= e * b;
    }
    assert (b - a) / b < e + 1.0 / b by {
      assert (b - a) < (e + 1.0 / b) * b;
    }
  }
}
