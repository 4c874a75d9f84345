# Solution optimiser of aihackathon, in Dafny

This project models the solution-optimisation pipeline of the `aihackathon`
console tool (C#). The pipeline has these parts:

- **Batch run.** It scans a solution and orders its C# files. It has each
  file analysed by an OpenAI chat model for memory optimisations, and it
  estimates the memory saved. A file whose analysis throws becomes an error
  entry, and the batch goes on.
- **Summary.** The batch result is summarised: counts, the mean
  improvement of the optimised files, the ten most frequent suggestion types
  and the five files with the most suggestions.
- **Write-back.** The optimised code is either saved into an output
  directory or written over the originals after a backup copy.
- **Console front end.** It reads pasted code and saves single files. It
  offers the save menus and decides what the HTML report shows.

The modules are:

| module | file | models |
|---|---|---|
| `Models` | models.dfy | the records of CodeAnalysisModels.cs, with their initialisers as constructor defaults |
| `MemoryProfiler` | memory_profiler.dfy | the snapshot delta of `MeasureMemoryUsage` and the unit choice of `FormatBytes` |
| `OpenAIAnalyzer` | openai_analyzer.dfy | the prompt, the request, the status check, the content extraction and `ParseAnalysisResponse` |
| `CodeOptimizer` | code_optimizer.dfy | `OptimizeCodeAsync`, `SimulateOptimizedMemoryUsage`, `EstimateMemoryImprovement` and `CalculateImprovement` |
| `StableSort` | stable_sort.dfy | LINQ's stable `OrderByDescending` and `Take` |
| `Aggregation` | aggregation.dfy | `GenerateSolutionSummary` and `GetTopOptimizationTypes` |
| `SolutionOptimizer` | solution_optimizer.dfy | `OptimizeSolutionAsync` and `AnalyzeFileAsync` |
| `FileSystem` | file_system.dfy | `File.Copy`, `File.WriteAllText` and `Directory.CreateDirectory` on a file system value |
| `WriteBack` | write_back.dfy | `OverwriteOriginalFilesAsync` and `SaveOptimizedFilesAsync` |
| `Cli` | cli.dfy | the Program.cs pieces: pasted input, the single-file saves, the menus, the output directory and the report sections |
| `Text`, `Paths`, `Wrappers` | text.dfy, paths.dfy, wrappers.dfy | the .NET string and path methods the code calls, and `Option`/`Result` |

The pipeline's collaborators are parameters. They are:

- the scanner and prioritiser;
- the HTTP POST, the reading of the reply's message content and the JSON
  deserialiser;
- the memory samples and the clock;
- console answers, where `None` is the `null` of an exhausted input.

An exception is a `Failure` carrying its message, or, for the file system,
an `IoError`. Each loop of the source is a method whose postcondition ties
its result to a specification function. The properties are then proved
about that function.

## Model

| member | source | states |
|---|---|---|
| Models.DefaultValues | aihackathon/Models/CodeAnalysisModels.cs:1-76 | Every default record has the initialisers of the C# classes: empty strings, `Language` "csharp", empty lists, zero counts and sizes, false flags, an improvement of 0, default memory samples and a default summary. |
| MemoryProfiler.Delta | aihackathon/Services/MemoryProfiler.cs:35-43 | Each of the five counters of the delta is after minus before, with no clamping. Adding the delta to the before-snapshot gives the after-snapshot's counters. The time is the one passed in. |
| MemoryProfiler.DeltaOfItself | aihackathon/Services/MemoryProfiler.cs:37-41 | The delta of a snapshot with itself is zero in every counter. |
| MemoryProfiler.DeltaSwapped | aihackathon/Services/MemoryProfiler.cs:37-41 | Swapping before and after negates every counter, so a delta may be negative. |
| MemoryProfiler.MeasureMemoryUsage | aihackathon/Services/MemoryProfiler.cs:27-44 | The before-sample is taken on the state before the action and the after-sample on the state the action leaves. The result is their delta. |
| MemoryProfiler.FormatBytes | aihackathon/Services/MemoryProfiler.cs:57-70 | The loop over GB, MB, KB and Bytes, dividing the threshold by 1024 each step, returns the unit of `ByteUnit`. |
| MemoryProfiler.ThresholdValues | aihackathon/Services/MemoryProfiler.cs:59-61 | The thresholds are 1024³, 1024², 1024 and 1, and then 0. |
| MemoryProfiler.ByteUnitRoundTrip | aihackathon/Services/MemoryProfiler.cs:63-69 | "0 Bytes" exactly when bytes ≤ 1. Otherwise magnitude × unit size gives back the byte count, and the magnitude is above 1 and, below GB, at most 1024. |
| MemoryProfiler.StrictThresholds | aihackathon/Services/MemoryProfiler.cs:65-69 | Exactly 1024 prints as 1024 Bytes, 1024² as 1024 KB and 1024³ as 1024 MB. 0 and 1 print "0 Bytes". |
| OpenAIAnalyzer.CreateAnalysisPrompt | aihackathon/Services/OpenAICodeAnalyzer.cs:52-91 | The prompt is the fixed head, then the code verbatim, then the fixed tail. |
| OpenAIAnalyzer.PromptFences | aihackathon/Services/OpenAICodeAnalyzer.cs:84-87 | The fixed head ends with the "```csharp" line and the fixed tail starts by closing the fence, so the code sits alone inside a C# fence. |
| OpenAIAnalyzer.PromptRoundTrip | aihackathon/Services/OpenAICodeAnalyzer.cs:84-87 | The code cut back out of the prompt is the code submitted. |
| OpenAIAnalyzer.BuildRequest | aihackathon/Services/OpenAICodeAnalyzer.cs:23-33 | The request names gpt-3.5-turbo, 2000 tokens and temperature 0.3. It has the system message, then the prompt as the user message. |
| OpenAIAnalyzer.JsonCandidate | aihackathon/Services/OpenAICodeAnalyzer.cs:98-103 | No '{' or no '}' skips parsing. Every '}' more than one place before every '{' makes `Substring` throw. Otherwise the candidate runs from the first '{' to the last '}', inclusive. |
| OpenAIAnalyzer.Fallback | aihackathon/Services/OpenAICodeAnalyzer.cs:138-153 | The fallback keeps the path. Its original and optimised code are both the content, and it has exactly one "Analysis Error" suggestion of severity "High". |
| OpenAIAnalyzer.ToSuggestions | aihackathon/Services/OpenAICodeAnalyzer.cs:116-127 | There is one suggestion per JSON item, in order. Each of the six fields is the item's, or "" when the item lacks it. |
| OpenAIAnalyzer.ParseAnalysisResponse | aihackathon/Services/OpenAICodeAnalyzer.cs:93-154 | The slicing, the result construction and the suggestion-copying loop compute `ParsedResponse`. |
| OpenAIAnalyzer.NoBracesFallsBack | aihackathon/Services/OpenAICodeAnalyzer.cs:98-153 | A reply without '{' or without '}' yields the fallback. |
| OpenAIAnalyzer.BadJsonFallsBack | aihackathon/Services/OpenAICodeAnalyzer.cs:103-136 | A negative `Substring` length or malformed JSON yields the fallback. |
| OpenAIAnalyzer.ParsedFieldsMapped | aihackathon/Services/OpenAICodeAnalyzer.cs:106-128 | On a parse, the result has the content and the path. The optimised code is the reply's, or the content when the field is absent. The suggestions are copied one for one in order, with all six fields kept and absent fields as "". |
| OpenAIAnalyzer.AnalyzeCode | aihackathon/Services/OpenAICodeAnalyzer.cs:19-50 | The post, the status check, the content extraction and the parse compute `Analysis`. |
| OpenAIAnalyzer.StatusErrorReported | aihackathon/Services/OpenAICodeAnalyzer.cs:41-44 | A non-success status is the error "OpenAI API error: <status> - <body>". The posted user message carries the file's content. |
| OpenAIAnalyzer.MissingContentFallsBack | aihackathon/Services/OpenAICodeAnalyzer.cs:46-49 | Missing message content reads as "" and gives the fallback. |
| CodeOptimizer.TypeSaving | aihackathon/Services/CodeOptimizerService.cs:70-79 | Every per-suggestion saving lies between 0.05 and 0.20. |
| CodeOptimizer.FirstMatchWins | aihackathon/Services/CodeOptimizerService.cs:70-79 | The first matching keyword decides: "String Collection" saves 0.15 and "Collection Capacity" 0.20. |
| CodeOptimizer.ErrorTypeSaving | aihackathon/Services/CodeOptimizerService.cs:78 | A type matching no keyword, such as the fallback's "Analysis Error", saves 0.05. |
| CodeOptimizer.EstimateMemoryImprovement | aihackathon/Services/CodeOptimizerService.cs:64-86 | The accumulating loop returns the sum of the savings capped at 0.5. |
| CodeOptimizer.SumSavingsBounds | aihackathon/Services/CodeOptimizerService.cs:68-82 | The sum of n savings lies between 0.05·n and 0.20·n. |
| CodeOptimizer.SumSavingsAppend | aihackathon/Services/CodeOptimizerService.cs:68-82 | The sum over a concatenation is the sum of the sums. |
| CodeOptimizer.EstimateBounds | aihackathon/Services/CodeOptimizerService.cs:64-86 | The estimate lies in [0, 0.5]. It is 0 for no suggestions and at least 0.05 otherwise. |
| CodeOptimizer.EstimateMonotone | aihackathon/Services/CodeOptimizerService.cs:68-85 | Inserting a suggestion anywhere never lowers the estimate. |
| CodeOptimizer.TruncateTowardZero | aihackathon/Services/CodeOptimizerService.cs:53-54 | The `(long)` cast drops the fraction toward zero, for either sign. |
| CodeOptimizer.SimulatedUsage | aihackathon/Services/CodeOptimizerService.cs:51-59 | The GC counters are copied and the time is the one passed in. Allocated memory and working set are each exactly the sample's value times (1 − estimate), truncated toward zero. So they are non-negative, at most the sample's, and less than one below the unrounded product. |
| CodeOptimizer.CalculateImprovement | aihackathon/Services/CodeOptimizerService.cs:88-94 | It is 0 when before is 0 and never negative. It equals (before − after)/before·100 when that is non-negative, and it is at most 100 when before > 0 and after ≥ 0. |
| CodeOptimizer.OptimizeCode | aihackathon/Services/CodeOptimizerService.cs:17-38 | The flow computes `Optimization`. |
| CodeOptimizer.OptimizationKeepsAnalysis | aihackathon/Services/CodeOptimizerService.cs:33-37 | The call fails exactly when the analysis fails, with its message. On success only the two snapshots and the improvement are set; code, path and suggestions are the analysis's. |
| CodeOptimizer.ImprovementBounded | aihackathon/Services/CodeOptimizerService.cs:88-94 | With non-negative memory samples the improvement is a percentage in [0, 100]. |
| CodeOptimizer.ImprovementIsEstimate | aihackathon/Services/CodeOptimizerService.cs:49-54 | When the same sample is used before and after, the improvement is at least the estimate in percent and less than it plus 100/before, the loss from truncation. |
| StableSort.SortPermutes | aihackathon/Services/SolutionOptimizerService.cs:160-161 | `OrderByDescending` is a permutation. |
| StableSort.SortSorts | aihackathon/Services/SolutionOptimizerService.cs:160-161 | `OrderByDescending` orders by non-increasing key. |
| StableSort.SortStable | aihackathon/Services/SolutionOptimizerService.cs:160-161 | Elements with equal keys keep their input order. |
| StableSort.SortSameElements | aihackathon/Services/SolutionOptimizerService.cs:160-161 | The sorted sequence has exactly the input's elements. |
| StableSort.SortDistinct | aihackathon/Services/SolutionOptimizerService.cs:160-162 | Sorting keeps distinct names distinct. |
| StableSort.TakeKeepsLargest | aihackathon/Services/SolutionOptimizerService.cs:160-161 | `Take` of a sorted sequence stays sorted, and nothing left out has a larger key than anything kept. |
| StableSort.TakeWithKey | aihackathon/Services/SolutionOptimizerService.cs:160-161 | For each key, `Take` keeps a prefix of that key's elements. |
| StableSort.TakeLeavesOut | aihackathon/Services/SolutionOptimizerService.cs:160-161 | An element that `Take` leaves out means the cut was made, and its key is at most every kept key. |
| Aggregation.TallyCounts | aihackathon/Services/SolutionOptimizerService.cs:143-158 | The dictionary has one entry per distinct suggestion type. Each entry holds the type's number of occurrences across all files, with no per-file de-duplication. |
| Aggregation.GetTopOptimizationTypes | aihackathon/Services/SolutionOptimizerService.cs:141-163 | The nested `ContainsKey`/increment loops, then the sort and the cut to ten, compute `TopTypes`. |
| Aggregation.TopTypesCounted | aihackathon/Services/SolutionOptimizerService.cs:160-162 | There are at most ten entries with distinct types, so `ToDictionary` cannot throw. Each entry has its true positive count, and counts are non-increasing. |
| Aggregation.TallyFirstSeen | aihackathon/Services/SolutionOptimizerService.cs:143-158 | The dictionary built by the loops lists its types in the order they were first met in the suggestions. |
| Aggregation.IncrementFirstSeen | aihackathon/Services/SolutionOptimizerService.cs:149-156 | One `ContainsKey`/increment round keeps the entries in first-seen order over the extended sequence. |
| Aggregation.TopTypesTiesFirstSeen | aihackathon/Services/SolutionOptimizerService.cs:160-162 | Among the top types, two entries with the same count appear in the order their types were first met. |
| StableSort.SortTiesRanked | aihackathon/Services/SolutionOptimizerService.cs:160 | If the input is strictly increasing in some rank, then in the sorted output, elements with equal keys are increasing in that rank. |
| Aggregation.TopTypesLeaveOutLeast | aihackathon/Services/SolutionOptimizerService.cs:160-161 | A type left out means ten types are listed, each occurring at least as often as it does. |
| Aggregation.OptimizedMembers | aihackathon/Services/SolutionOptimizerService.cs:120 | The optimised files are exactly the entries with `HasOptimizations`, and there are none exactly when no entry has it. |
| Aggregation.MeanImprovementBounds | aihackathon/Services/SolutionOptimizerService.cs:122-124 | With percentages in [0, 100] the mean is in [0, 100]. |
| Aggregation.TotalAtLeastOptimized | aihackathon/Services/SolutionOptimizerService.cs:121 | For well-formed entries, the total equals the number of suggestions across the batch and is at least the number of optimised files. |
| Aggregation.MostOptimizedRanked | aihackathon/Services/SolutionOptimizerService.cs:134-137 | At most five optimised files of the batch, with non-increasing counts and ties in batch order. No optimised file left out has more suggestions than one listed. |
| Aggregation.GenerateSolutionSummary | aihackathon/Services/SolutionOptimizerService.cs:118-139 | Only the summary is replaced, by `SummaryOf` of the result. |
| Aggregation.SummaryConsistent | aihackathon/Services/SolutionOptimizerService.cs:120-132 | The optimised count is at most the file count, and positive exactly when some entry is optimised. For well-formed entries the total counts every suggestion and is at least the optimised count. With improvements in [0, 100] the average is in [0, 100]. |
| SolutionOptimizer.ToFileResult | aihackathon/Services/SolutionOptimizerService.cs:103-115 | The entry has the file's path and content and the analysis's code, suggestions and improvement. `HasOptimizations` holds exactly when there are suggestions, the count is their number, and there is no error. |
| SolutionOptimizer.AnalyzeFile | aihackathon/Services/SolutionOptimizerService.cs:99-116 | Optimise, then build the entry: computes `FileAnalysis`. |
| SolutionOptimizer.ErrorEntry | aihackathon/Services/SolutionOptimizerService.cs:68-77 | A thrown analysis leaves the path and the message. The entry has no optimisations, no suggestions, count 0, empty optimised and original code, and improvement 0. |
| SolutionOptimizer.Entries | aihackathon/Services/SolutionOptimizerService.cs:45-81 | There is one entry per prioritised file. |
| SolutionOptimizer.AnalyzeFiles | aihackathon/Services/SolutionOptimizerService.cs:45-81 | The loop appends, in order, one entry per file: the analysis's, or the error entry when it threw. |
| SolutionOptimizer.OptimizeSolution | aihackathon/Services/SolutionOptimizerService.cs:19-97 | The batch computes `SolutionRun` and never throws. |
| SolutionOptimizer.ScanFailureRecorded | aihackathon/Services/SolutionOptimizerService.cs:91-96 | A failed scan sets the error and the end time, with no entries and the default summary. |
| SolutionOptimizer.PrioritizeFailureRecorded | aihackathon/Services/SolutionOptimizerService.cs:40-95 | A failed ordering of a non-empty scan sets the error and the end time, with no entries and the default summary. |
| SolutionOptimizer.EmptyScanLeavesBare | aihackathon/Services/SolutionOptimizerService.cs:33-37 | No files gives the bare result: no entries, no error, the default summary and no end time. |
| SolutionOptimizer.RunCoversFiles | aihackathon/Services/SolutionOptimizerService.cs:40-87 | After a scan and ordering there is no error. There is one entry per ordered file at the same position, and the summary covers them over the run's duration. |
| SolutionOptimizer.EntriesFaithful | aihackathon/Services/SolutionOptimizerService.cs:53-77 | Every entry is well formed and has its file's path. An optimised entry carries the analysis's code and suggestions. A failed one carries the message and no optimisations. |
| SolutionOptimizer.RunSummaryBounded | aihackathon/Services/SolutionOptimizerService.cs:118-132 | With real memory samples, every improvement and the average are in [0, 100]. The total counts every suggestion and is at least the optimised count. |
| FileSystem.Copy | aihackathon/Services/SolutionOptimizerService.cs:187 | The copy succeeds exactly when the source is a file and the destination is free and writable. Then only the destination gains the source's content. |
| FileSystem.WriteAllText | aihackathon/Services/SolutionOptimizerService.cs:190 | The write succeeds exactly when the path is not a directory and is writable. Then only that path changes. |
| WriteBack.ConfirmedAnswers | aihackathon/Services/SolutionOptimizerService.cs:171-176 | Exactly "y" and "Y" confirm, and `null` does not. |
| WriteBack.OverwriteOriginalFiles | aihackathon/Services/SolutionOptimizerService.cs:165-200 | The confirmation, the backup directory and the loop compute `OverwriteRun`. |
| WriteBack.OverwriteFiles | aihackathon/Services/SolutionOptimizerService.cs:181-197 | The per-file copy-then-write loop, each round in its own try/catch, computes `OverwriteEach`. |
| WriteBack.OverwriteStepIsolated | aihackathon/Services/SolutionOptimizerService.cs:183-196 | A failed copy leaves the file system as it was, and the file is not written. A failed write keeps the backup. A success holds the backup and the optimised code. |
| WriteBack.OverwriteStepBacksUp | aihackathon/Services/SolutionOptimizerService.cs:186-190 | One round keeps the backup protocol. A file is overwritten only after its original content went to a backup name that was free. |
| WriteBack.OverwriteEachBacksUp | aihackathon/Services/SolutionOptimizerService.cs:181-197 | After the whole loop, every changed file is one of the loop's paths, and a backup holds its original content. |
| WriteBack.OverwriteIsBackedUp | aihackathon/Services/SolutionOptimizerService.cs:165-200 | Without "y" nothing changes. With it, no file disappears and there is one outcome per optimised file. A changed file is the path of an optimised entry, and `backup_<stamp>/<name>` holds its old content, so unoptimised files are untouched. |
| WriteBack.SaveOptimizedFiles | aihackathon/Services/SolutionOptimizerService.cs:202-214 | Creating the directory and the loop compute `SaveRun`. |
| WriteBack.SaveFiles | aihackathon/Services/SolutionOptimizerService.cs:206-213 | The save loop, which the first failing write ends, computes `SaveEach`. |
| WriteBack.SaveEachStopped | aihackathon/Services/SolutionOptimizerService.cs:211 | After a failed write, later files change nothing. |
| WriteBack.SaveEachOnlySavePaths | aihackathon/Services/SolutionOptimizerService.cs:208-211 | Only `optimized_` save paths gain or change content, and nothing disappears. |
| WriteBack.SaveEachPasses | aihackathon/Services/SolutionOptimizerService.cs:206-213 | The save passes exactly when no save path is a directory or read-only. |
| WriteBack.SaveEachWritesAll | aihackathon/Services/SolutionOptimizerService.cs:206-213 | On a pass, with distinct save paths, every file's optimised code is at its save path. |
| WriteBack.SaveWritesOptimized | aihackathon/Services/SolutionOptimizerService.cs:202-214 | The output directory exists afterwards. Only save paths of optimised entries change, so no original path is written unless it is itself such a path. The save passes exactly when each is writable; then, with distinct save paths, each holds its code. |
| Cli.StopIndex | aihackathon/Program.cs:176-190 | Reading stops at the first line that is the second of two consecutive empty or null lines. An exhausted input always gets there. |
| Cli.ReadPastedCode | aihackathon/Program.cs:175-192 | The loop with its empty-line counter returns every line before the stop, each with a newline. |
| Cli.PastedCodeIgnoresRest | aihackathon/Program.cs:176-190 | Lines after the stop are never read, so they do not change the code. |
| Cli.TwoEmptyLinesEndAtOnce | aihackathon/Program.cs:181-192 | Two empty lines first give just the first one's newline. |
| Cli.PastedCodeFile | aihackathon/Program.cs:195-206 | Blank text gives no file. Otherwise the file is "clipboard" in "csharp". Its content is a contiguous piece of the pasted text with only white space before and after it, and it is non-empty and starts and ends with a non-white character. |
| Cli.AnalyzeClipboardInput | aihackathon/Program.cs:170-206 | The read code becomes the clipboard file: `PastedCodeFile(PastedCode(input))`. |
| Cli.BlankPasteGivesNoFile | aihackathon/Program.cs:195-199 | Input starting with two empty lines gives no file. |
| Cli.NewFileName | aihackathon/Program.cs:270-276 | An empty or missing name becomes `optimized_code_<stamp>.cs`. Otherwise the name typed is used. |
| Cli.NewFileSave | aihackathon/Program.cs:268-287 | The save succeeds exactly when the path is writable. Then only that file holds the optimised code; on failure nothing changes. |
| Cli.SaveToNewFile | aihackathon/Program.cs:268-287 | Computes `NewFileSave`. |
| Cli.OverwriteOriginalFile | aihackathon/Program.cs:289-331 | The fallback, the confirmation, then copy-before-write compute `OriginalOverwrite`. |
| Cli.OverwriteKeepsBackup | aihackathon/Program.cs:306-325 | Without "y" nothing changes. Only the original and `<path>.backup_<stamp>` can change. A changed original's old content is in the backup, which did not exist before. A replaced original holds the optimised code. A failure that changed anything left only the backup copy. |
| Cli.SaveDialogGate | aihackathon/Program.cs:226-266 | Only "y" followed by "1" or "2" touches the file system, and a cancel changes nothing. |
| Cli.OffersSaveMenuIff | aihackathon/Program.cs:399 | The batch save menu is offered exactly when the summary counts an optimised file. |
| Cli.OutputDirectory | aihackathon/Program.cs:441-444 | An empty or missing answer gives a directory named `optimized_solution` whose parent is the solution's directory, or "." when the solution path has none. Otherwise the answer is used. |
| Paths.DirectoryNameOfCombine | aihackathon/Program.cs:441-444 | Taking the directory of `Combine(dir, name)` gives back `dir`, for a non-empty name without separators and a directory that does not end in a separator. |
| Cli.BatchSaveMenuGate | aihackathon/Program.cs:399-423 | With no optimised file, or a choice other than "1" and "2", nothing changes. No choice removes a file. |
| Cli.ReportSectionOf | aihackathon/Program.cs:515-526 | A file's section has one item per suggestion. |
| Cli.ReportCoversOptimized | aihackathon/Program.cs:514-528 | There is one section per optimised file, in batch order, and no other. For well-formed entries the report shows exactly the batch's total number of suggestions. |
| Cli.ReportItemsFaithful | aihackathon/Program.cs:520-526 | Each item shows its suggestion's severity, with a CSS class that is the severity lower-cased letter by letter. Before and After appear exactly when non-empty. Type and description are the suggestion's. |
| Paths.FileNameOfCombine | aihackathon/Services/SolutionOptimizerService.cs:186 | A file name combined under a directory is found again by `GetFileName`. |
| Paths.DirectoryName | aihackathon/Services/SolutionOptimizerService.cs:178 | `GetDirectoryName` is `null` exactly for "" and "/". Otherwise it is a proper prefix of the path, and "" when there is no separator. |

## Left out

- HTTP, JSON and the memory samples are parameters: the POST, the reading of `choices[0].message.content`, and the Newtonsoft deserialisation into optional fields. The forced-GC samples are parameters too.
- `DateTime.Now` is a parameter: an integer tick count, or a time-stamp string where it names files.
- `ProjectSolutionScanner` is not part of this model. The scan and the ordering are parameters, with no assumption about the ordering heuristic.
- `Task.Delay(500)` between files is timing only and has no model.
- `GitRepoManager.cs`, `FindProjectDirectory` and the configuration loading are left out.
- Console output is left out, including `DisplayResults`, `DisplaySolutionResults`, `DisplayMemoryUsage` and the menu texts.
- Number formatting ("##.##", `F2`) is left out. `FormatBytes` returns the magnitude and the unit as a value, not the formatted string.
- `GenerateHtmlReport` keeps which files and snippets appear and in what order. The surrounding HTML markup and the summary paragraph are left out.
- Doubles are reals, so IEEE rounding is not modelled. The improvement percentage is an exact quotient.
- CalculateImprovement: the `long` subtraction before − after is unbounded, so overflow near `long.MinValue` is not modelled.
- Text.ToLower: lower-cases ASCII letters only; culture rules are not modelled.
- The type histogram is a sequence of pairs in insertion order. This is how `Dictionary<string, int>` enumerates when nothing is removed, which .NET does not document as a guarantee.
- `Environment.NewLine` is "\n", and paths follow .NET on Unix, with '/' as the only separator.
- DirectoryName: keeps the path's text before the last separator, without trailing separators. It does not collapse repeated separators as .NET on Unix does: for "a//b/c", .NET gives "a/b" and the model gives "a//b".
- File-system failures are limited to the cases in `FileSystem`. Beyond a missing source, an existing destination and a directory in the way, every other cause of a failed write is a path in `readOnly`. `CreateDirectory` never fails.
- ParseAnalysisResponse: explicit JSON nulls are read as absent fields. In the program they become null strings that `??` does not replace. A `"type": null` then makes `ToLower` in `EstimateMemoryImprovement` throw, and the file becomes an error entry, where the model gives type "" and a successful entry. A `"optimizedCode": null` becomes an empty optimised file, where the model keeps the original content.
- OverwriteOriginalFile: `OriginalCode` is never `null` in the model, so the `OriginalCode != null` test is always true.
- `AnalyzeSolutionCode`'s earlier steps are left out: the path existence checks, the `.sln` lookup and the "Proceed?" prompt.
- `GenerateOptimizationReport`'s write of the report file is left out. Only the content selection is modelled.
- `ProjectSolutionScanner` exceptions of `PrioritizeFiles` are modelled as a `Failure`, like the scan's.
