/**
  The records of the optimiser (CodeAnalysisModels.cs). Every property of the
  C# classes keeps its initialiser as the default value of the constructor
  parameter, so `FileResult()` is `new FileOptimizationResult()`.
  `long` and `int` counters are unbounded integers, `double` percentages are
  reals, and a `DateTime` or `TimeSpan` is a number of ticks (0 is
  `DateTime.MinValue`, the C# default).
*/
module Models {

  /** One finding of the analysis service. The severity is a free string. */
  datatype Suggestion = Suggestion(
    suggestionType: string := "",
    description: string := "",
    lineNumber: string := "",
    severity: string := "",
    before: string := "",
    after: string := "")

  /** A point-in-time reading of the process's own memory counters. */
  datatype MemoryUsage = MemoryUsage(
    allocatedMemory: int := 0,
    workingSet: int := 0,
    gen0Collections: int := 0,
    gen1Collections: int := 0,
    gen2Collections: int := 0,
    measurementTime: int := 0)

  /** A source file handed to the analysis. */
  datatype CodeFile = CodeFile(
    filePath: string := "",
    content: string := "",
    language: string := "csharp")

  /** What the analysis of one piece of code returns. */
  datatype CodeAnalysisResult = CodeAnalysisResult(
    originalCode: string := "",
    optimizedCode: string := "",
    originalFilePath: string := "",
    suggestions: seq<Suggestion> := [],
    memoryBefore: MemoryUsage := MemoryUsage(),
    memoryAfter: MemoryUsage := MemoryUsage(),
    improvementPercentage: real := 0.0)

  /** The entry the batch keeps for one file. */
  datatype FileResult = FileResult(
    filePath: string := "",
    originalCode: string := "",
    optimizedCode: string := "",
    suggestions: seq<Suggestion> := [],
    memoryBefore: MemoryUsage := MemoryUsage(),
    memoryAfter: MemoryUsage := MemoryUsage(),
    improvementPercentage: real := 0.0,
    hasOptimizations: bool := false,
    optimizationCount: int := 0,
    analysisTime: int := 0,
    error: string := "")

  /** Statistics over a batch. The type histogram is a dictionary, kept as
      its entries in enumeration order. */
  datatype Summary = Summary(
    totalFilesAnalyzed: int := 0,
    filesWithOptimizations: int := 0,
    totalOptimizations: int := 0,
    averageMemoryImprovement: real := 0.0,
    analysisDuration: int := 0,
    topOptimizationTypes: seq<(string, int)> := [],
    mostOptimizedFiles: seq<FileResult> := [])

  /** The outcome of one batch run. */
  datatype SolutionResult = SolutionResult(
    solutionPath: string := "",
    startTime: int := 0,
    endTime: int := 0,
    fileResults: seq<FileResult> := [],
    summary: Summary := Summary(),
    error: string := "")

  /** The initialisers the rest of the optimiser relies on. */
  lemma DefaultValues()
    ensures CodeFile().language == "csharp" && CodeFile().filePath == "" && CodeFile().content == ""
    ensures var s := Suggestion();
      s.suggestionType == s.description == s.lineNumber == s.severity == s.before == s.after == ""
    ensures var f := FileResult();
      && f.filePath == f.originalCode == f.optimizedCode == f.error == ""
      && f.suggestions == [] && !f.hasOptimizations
      && f.optimizationCount == 0 && f.improvementPercentage == 0.0
    ensures var m := MemoryUsage();
      m.allocatedMemory == m.workingSet == m.gen0Collections == m.gen1Collections == m.gen2Collections == 0
    ensures var a := CodeAnalysisResult();
      && a.originalCode == a.optimizedCode == a.originalFilePath == ""
      && a.suggestions == [] && a.memoryBefore == a.memoryAfter == MemoryUsage()
      && a.improvementPercentage == 0.0
    ensures var r := SolutionResult(); r.fileResults == [] && r.error == "" && r.summary == Summary()
    ensures var s := Summary();
      && s.totalFilesAnalyzed == s.filesWithOptimizations == s.totalOptimizations == 0
      && s.averageMemoryImprovement == 0.0
      && s.topOptimizationTypes == [] && s.mostOptimizedFiles == []
  {
  }
}
