/**
  The batch run of SolutionOptimizerService.cs: scan the solution, order
  the files, optimise them one by one (an exception of one file becomes an
  error entry and the batch goes on), then summarise.

  The file scanner is outside the model: it is a parameter returning the
  files or the message of its exception. The clock and the memory readings
  of file `i` are the `i`-th values of the run's `Readings`.
*/
module SolutionOptimizer {
  import opened Wrappers
  import opened Models
  import opened OpenAIAnalyzer
  import opened CodeOptimizer
  import opened Aggregation
  import MemoryProfiler

  /** `ScanSolutionAsync` and `PrioritizeFiles`; `Failure` is an exception. */
  datatype Scanner = Scanner(
    scan: string -> Result<seq<CodeFile>>,
    prioritize: seq<CodeFile> -> Result<seq<CodeFile>>)

  /** What `DateTime.Now` and the memory profiler return during one run:
      the start, the readings and finishing time of the `i`-th file, and the
      end. */
  datatype Readings = Readings(
    start: int,
    probe: nat -> Probe,
    analysedAt: nat -> int,
    end: int)

  /** The entry `AnalyzeFileAsync` builds from a successful optimisation:
      the file's own path and content, the analysis's code, suggestions and
      readings, and the count of suggestions. */
  function ToFileResult(file: CodeFile, a: CodeAnalysisResult, analysedAt: int): (r: FileResult)
    ensures r.filePath == file.filePath && r.originalCode == file.content
    ensures r.optimizedCode == a.optimizedCode && r.suggestions == a.suggestions
    ensures r.improvementPercentage == a.improvementPercentage
    ensures WellFormed(r) && r.error == ""
  {
    FileResult(
      filePath := file.filePath,
      originalCode := file.content,
      optimizedCode := a.optimizedCode,
      suggestions := a.suggestions,
      memoryBefore := a.memoryBefore,
      memoryAfter := a.memoryAfter,
      improvementPercentage := a.improvementPercentage,
      hasOptimizations := |a.suggestions| > 0,
      optimizationCount := |a.suggestions|,
      analysisTime := analysedAt)
  }

  /** Specification of `AnalyzeFileAsync`. */
  function FileAnalysis(file: CodeFile, service: Service, probe: Probe, analysedAt: int): Result<FileResult> {
    match Optimization(file, service, probe)
    case Failure(e) => Failure(e)
    case Success(a) => Success(ToFileResult(file, a, analysedAt))
  }

  /** `AnalyzeFileAsync`: optimise, then build the entry. */
  method AnalyzeFile(file: CodeFile, service: Service, probe: Probe, analysedAt: int) returns (r: Result<FileResult>)
    ensures r == FileAnalysis(file, service, probe, analysedAt)
  {
    var analysisResult := OptimizeCode(file, service, probe);
    if analysisResult.Failure? {
      return Failure(analysisResult.error);
    }
    return Success(ToFileResult(file, analysisResult.value, analysedAt));
  }

  /** The entry left by a file whose analysis threw. */
  function ErrorEntry(file: CodeFile, message: string): (r: FileResult)
    ensures r.filePath == file.filePath && r.error == message
    ensures !r.hasOptimizations && r.suggestions == [] && WellFormed(r)
    ensures r.optimizedCode == "" && r.originalCode == "" && r.improvementPercentage == 0.0
  {
    FileResult(filePath := file.filePath, error := message, hasOptimizations := false)
  }

  /** The entry kept for the `i`-th file of the batch. */
  function FileEntry(file: CodeFile, service: Service, readings: Readings, i: nat): FileResult {
    match FileAnalysis(file, service, readings.probe(i), readings.analysedAt(i))
    case Failure(e) => ErrorEntry(file, e)
    case Success(f) => f
  }

  /** The entries of a batch, one per file, in file order. */
  function Entries(files: seq<CodeFile>, service: Service, readings: Readings): (r: seq<FileResult>)
    ensures |r| == |files|
  {
    seq(|files|, i requires 0 <= i < |files| => FileEntry(files[i], service, readings, i))
  }

  lemma EntriesStep(files: seq<CodeFile>, service: Service, readings: Readings, n: nat)
    requires n < |files|
    ensures Entries(files[..n + 1], service, readings)
         == Entries(files[..n], service, readings) + [FileEntry(files[n], service, readings, n)]
  {
    var a := Entries(files[..n + 1], service, readings);
    var b := Entries(files[..n], service, readings) + [FileEntry(files[n], service, readings, n)];
    assert |a| == |b| == n + 1;
    forall i | 0 <= i < n + 1 ensures a[i] == b[i] {
      EntryAt(files[..n + 1], service, readings, i);
      assert files[..n + 1][i] == files[i];
      if i < n {
        EntryAt(files[..n], service, readings, i);
        assert files[..n][i] == files[i];
      }
    }
  }

  lemma EntryAt(files: seq<CodeFile>, service: Service, readings: Readings, i: nat)
    requires i < |files|
    ensures Entries(files, service, readings)[i] == FileEntry(files[i], service, readings, i)
  {
  }

  /** Specification of `OptimizeSolutionAsync`. */
  function SolutionRun(solutionPath: string, scanner: Scanner, service: Service, readings: Readings): SolutionResult {
    var result := SolutionResult(solutionPath := solutionPath, startTime := readings.start);
    match scanner.scan(solutionPath)
    case Failure(e) => result.(error := e, endTime := readings.end)
    case Success(codeFiles) =>
      if codeFiles == [] then result
      else
        match scanner.prioritize(codeFiles)
        case Failure(e) => result.(error := e, endTime := readings.end)
        case Success(files) =>
          var finished := result.(fileResults := Entries(files, service, readings), endTime := readings.end);
          finished.(summary := SummaryOf(finished))
  }

  /** Step 3 of `OptimizeSolutionAsync`: one entry per prioritised file,
      appended in order; a file whose analysis throws leaves an error entry
      and the loop goes on. */
  method AnalyzeFiles(files: seq<CodeFile>, service: Service, readings: Readings)
    returns (fileResults: seq<FileResult>)
    ensures fileResults == Entries(files, service, readings)
  {
    fileResults := [];
    var fileCount := 0;
    while fileCount < |files|
      invariant 0 <= fileCount <= |files|
      invariant fileResults == Entries(files[..fileCount], service, readings)
    {
      var file := files[fileCount];
      var fileResult := AnalyzeFile(file, service, readings.probe(fileCount), readings.analysedAt(fileCount));
      var entry;
      if fileResult.Success? {
        entry := fileResult.value;
      } else {
        entry := ErrorEntry(file, fileResult.error);
      }
      assert entry == FileEntry(file, service, readings, fileCount);
      EntriesStep(files, service, readings, fileCount);
      fileResults := fileResults + [entry];
      fileCount := fileCount + 1;
    }
    assert files[..fileCount] == files;
  }

  /** `OptimizeSolutionAsync`: scan, order, analyse every file, then stamp
      the end time and summarise; an exception of the scanner ends the run
      with its message. */
  method OptimizeSolution(solutionPath: string, scanner: Scanner, service: Service, readings: Readings)
    returns (r: SolutionResult)
    ensures r == SolutionRun(solutionPath, scanner, service, readings)
  {
    var result := SolutionResult(solutionPath := solutionPath, startTime := readings.start);
    var codeFiles := scanner.scan(solutionPath);
    if codeFiles.Failure? {
      return result.(error := codeFiles.error, endTime := readings.end);
    }
    if codeFiles.value == [] {
      return result;
    }
    var prioritizedFiles := scanner.prioritize(codeFiles.value);
    if prioritizedFiles.Failure? {
      return result.(error := prioritizedFiles.error, endTime := readings.end);
    }
    var fileResults := AnalyzeFiles(prioritizedFiles.value, service, readings);
    result := result.(fileResults := fileResults, endTime := readings.end);
    r := GenerateSolutionSummary(result);
  }

  /** A failed scan records its message and the end time and analyses
      nothing. */
  lemma ScanFailureRecorded(solutionPath: string, scanner: Scanner, service: Service, readings: Readings)
    requires scanner.scan(solutionPath).Failure?
    ensures var r := SolutionRun(solutionPath, scanner, service, readings);
      && r.solutionPath == solutionPath && r.startTime == readings.start
      && r.error == scanner.scan(solutionPath).error && r.endTime == readings.end
      && r.fileResults == [] && r.summary == Summary()
  {
  }

  /** A failed ordering of a non-empty scan is recorded the same way: its
      message and the end time, and nothing analysed. */
  lemma PrioritizeFailureRecorded(solutionPath: string, scanner: Scanner, service: Service, readings: Readings)
    requires scanner.scan(solutionPath).Success? && scanner.scan(solutionPath).value != []
    requires scanner.prioritize(scanner.scan(solutionPath).value).Failure?
    ensures var r := SolutionRun(solutionPath, scanner, service, readings);
      && r.solutionPath == solutionPath && r.startTime == readings.start
      && r.error == scanner.prioritize(scanner.scan(solutionPath).value).error && r.endTime == readings.end
      && r.fileResults == [] && r.summary == Summary()
  {
  }

  /** A scan that finds no file returns the bare result: no entries, no
      error, the default summary and not even an end time. */
  lemma EmptyScanLeavesBare(solutionPath: string, scanner: Scanner, service: Service, readings: Readings)
    requires scanner.scan(solutionPath) == Success([])
    ensures var r := SolutionRun(solutionPath, scanner, service, readings);
      && r == SolutionResult(solutionPath := solutionPath, startTime := readings.start)
      && r.endTime == 0 && r.fileResults == [] && r.error == ""
  {
  }

  /** After a successful scan and ordering, the run has no error and one
      entry per ordered file, each for the file at the same position, and
      its summary covers all of them over the run's duration. */
  lemma RunCoversFiles(solutionPath: string, scanner: Scanner, service: Service, readings: Readings)
    requires scanner.scan(solutionPath).Success? && scanner.scan(solutionPath).value != []
    requires scanner.prioritize(scanner.scan(solutionPath).value).Success?
    ensures var r := SolutionRun(solutionPath, scanner, service, readings);
      var files := scanner.prioritize(scanner.scan(solutionPath).value).value;
      && r.error == "" && r.endTime == readings.end
      && |r.fileResults| == |files|
      && (forall i :: 0 <= i < |r.fileResults| ==> r.fileResults[i].filePath == files[i].filePath)
      && r.summary.totalFilesAnalyzed == |files|
      && r.summary.analysisDuration == readings.end - readings.start
  {
  }

  /** Every entry is well formed; an entry that carries an error has no
      suggestions; an optimised entry keeps the file's content as its
      original code, and its suggestions are the analysis's. */
  lemma EntriesFaithful(files: seq<CodeFile>, service: Service, readings: Readings)
    ensures var es := Entries(files, service, readings);
      forall i :: 0 <= i < |es| ==>
        && WellFormed(es[i])
        && es[i].filePath == files[i].filePath
        && (es[i].hasOptimizations ==>
              var o := Optimization(files[i], service, readings.probe(i));
              o.Success? && es[i].originalCode == files[i].content && es[i].suggestions == o.value.suggestions
              && es[i].optimizedCode == o.value.optimizedCode)
        && (Optimization(files[i], service, readings.probe(i)).Failure? ==>
              es[i].error == Optimization(files[i], service, readings.probe(i)).error && !es[i].hasOptimizations)
  {
  }

  /** With live memory readings every improvement of the batch, and so the
      summary's average, is a percentage in [0, 100]; the summary counts
      every suggestion and at least one per optimised file. */
  lemma RunSummaryBounded(solutionPath: string, scanner: Scanner, service: Service, readings: Readings)
    requires forall i: nat :: MemoryProfiler.IsSample(readings.probe(i).before)
                           && MemoryProfiler.IsSample(readings.probe(i).current)
    ensures var r := SolutionRun(solutionPath, scanner, service, readings);
      && (forall f :: f in r.fileResults ==> 0.0 <= f.improvementPercentage <= 100.0)
      && 0.0 <= r.summary.averageMemoryImprovement <= 100.0
      && r.summary.totalOptimizations == |AllTypes(r.fileResults)|
      && r.summary.filesWithOptimizations <= r.summary.totalOptimizations
  {
    var scanned := scanner.scan(solutionPath);
    if scanned.Success? && scanned.value != [] && scanner.prioritize(scanned.value).Success? {
      var files := scanner.prioritize(scanned.value).value;
      var es := Entries(files, service, readings);
      EntriesBounded(files, service, readings);
      EntriesFaithful(files, service, readings);
      var finished := SolutionResult(solutionPath := solutionPath, startTime := readings.start,
                                     fileResults := es, endTime := readings.end);
      assert SolutionRun(solutionPath, scanner, service, readings) == finished.(summary := SummaryOf(finished));
      SummaryConsistent(finished);
    } else {
      DefaultValues();
    }
  }

  /** With live memory readings every entry's improvement is a percentage. */
  lemma EntriesBounded(files: seq<CodeFile>, service: Service, readings: Readings)
    requires forall i: nat :: MemoryProfiler.IsSample(readings.probe(i).before)
                           && MemoryProfiler.IsSample(readings.probe(i).current)
    ensures forall f :: f in Entries(files, service, readings) ==> 0.0 <= f.improvementPercentage <= 100.0
  {
    var es := Entries(files, service, readings);
    forall i | 0 <= i < |es| ensures 0.0 <= es[i].improvementPercentage <= 100.0 {
      var p := readings.probe(i);
      if Optimization(files[i], service, p).Success? {
        ImprovementBounded(files[i], service, p);
      }
    }
  }
}
