/**
  The console front end (Program.cs): reading pasted code, saving one
  analysed file, the save menus, the default output directory of a batch
  save, and which parts of a batch the HTML report shows. Console answers
  are parameters (`None` for the `null` of an exhausted input), the clock is
  a time stamp string, and the file system is the value of module FileSystem.
*/
module Cli {
  import opened Wrappers
  import opened Text
  import opened Paths
  import opened Models
  import opened FileSystem
  import opened Aggregation
  import WriteBack

  /** `Environment.NewLine` on Unix. */
  const NewLine: string := "\n"

  /** The line at position `k` as appended to the pasted code: a `null`
      past the end of the input reads as "". */
  function Line(input: seq<Option<string>>, k: nat): string {
    if k < |input| then input[k].GetOr("") else ""
  }

  /** Line `k` is the second of two consecutive empty lines. */
  predicate StopsAt(input: seq<Option<string>>, k: nat) {
    k >= 1 && Line(input, k - 1) == "" && Line(input, k) == ""
  }

  /** The first stop at or after `k`. */
  function StopFrom(input: seq<Option<string>>, k: nat): (r: nat)
    requires 1 <= k <= |input| + 1
    ensures k <= r <= |input| + 1 && StopsAt(input, r)
    ensures forall j :: k <= j < r ==> !StopsAt(input, j)
    decreases |input| + 1 - k
  {
    if StopsAt(input, k) then k else StopFrom(input, k + 1)
  }

  /** Where reading stops: the first line that is the second of two
      consecutive empty ones; an exhausted input always gets there. */
  function StopIndex(input: seq<Option<string>>): (r: nat)
    ensures 1 <= r <= |input| + 1 && StopsAt(input, r)
    ensures forall j :: 1 <= j < r ==> !StopsAt(input, j)
  {
    StopFrom(input, 1)
  }

  /** The first `n` lines, each followed by a newline. */
  function Code(input: seq<Option<string>>, n: nat): string {
    if n == 0 then "" else Code(input, n - 1) + Line(input, n - 1) + NewLine
  }

  /** What `AnalyzeClipboardCode` collects: every line before the stop. */
  function PastedCode(input: seq<Option<string>>): string {
    Code(input, StopIndex(input))
  }

  /** The input loop of `AnalyzeClipboardCode`. */
  method ReadPastedCode(input: seq<Option<string>>) returns (code: string)
    ensures code == PastedCode(input)
  {
    code := "";
    var emptyLineCount := 0;
    var k := 0;
    while true
      invariant k <= StopIndex(input)
      invariant code == Code(input, k)
      invariant emptyLineCount == if k > 0 && Line(input, k - 1) == "" then 1 else 0
      decreases |input| + 1 - k
    {
      var line := if k < |input| then input[k] else None;
      assert IsNullOrEmpty(line) <==> Line(input, k) == "";
      if IsNullOrEmpty(line) {
        emptyLineCount := emptyLineCount + 1;
        if emptyLineCount >= 2 {
          assert StopsAt(input, k);
          break;
        }
      } else {
        emptyLineCount := 0;
      }
      code := code + line.GetOr("") + NewLine;
      k := k + 1;
    }
  }

  /** The lines that follow the stop are never read. */
  lemma {:induction false} StopFromIgnoresRest(input: seq<Option<string>>, rest: seq<Option<string>>, k: nat)
    requires 1 <= k <= StopIndex(input) < |input|
    requires forall j :: k <= j < StopIndex(input) ==> !StopsAt(input, j)
    ensures StopFrom(input + rest, k) == StopIndex(input)
    decreases StopIndex(input) - k
  {
    var longer := input + rest;
    assert Line(longer, k - 1) == Line(input, k - 1) && Line(longer, k) == Line(input, k);
    assert StopsAt(longer, k) == StopsAt(input, k);
    if k < StopIndex(input) {
      StopFromIgnoresRest(input, rest, k + 1);
    }
  }

  /** Lines are the same up to `n`, so is the code. */
  lemma {:induction false} CodeOfPrefix(input: seq<Option<string>>, rest: seq<Option<string>>, n: nat)
    requires n <= |input|
    ensures Code(input + rest, n) == Code(input, n)
  {
    if n > 0 {
      CodeOfPrefix(input, rest, n - 1);
      assert Line(input + rest, n - 1) == Line(input, n - 1);
    }
  }

  /** Pasted code ends at the stop: lines typed after it do not change it. */
  lemma PastedCodeIgnoresRest(input: seq<Option<string>>, rest: seq<Option<string>>)
    requires StopIndex(input) < |input|
    ensures PastedCode(input + rest) == PastedCode(input)
  {
    StopFromIgnoresRest(input, rest, 1);
    CodeOfPrefix(input, rest, StopIndex(input));
  }

  /** Two empty lines at once end the input with nothing but the first
      one's newline. */
  lemma TwoEmptyLinesEndAtOnce(rest: seq<Option<string>>)
    ensures PastedCode([Some(""), Some("")] + rest) == NewLine
  {
    var input := [Some(""), Some("")] + rest;
    assert StopsAt(input, 1);
    assert Code(input, 1) == "" + "" + NewLine;
  }

  /** The record `AnalyzeClipboardCode` builds, or `None` when the pasted
      text is blank ("No code provided."). */
  function PastedCodeFile(code: string): (r: Option<CodeFile>)
    ensures r.None? <==> AllWhiteSpace(code)
    ensures r.Some? ==> && r.value.filePath == "clipboard" && r.value.language == "csharp"
                        && r.value.content != [] && |r.value.content| <= |code|
                        && !IsWhiteSpace(r.value.content[0])
                        && !IsWhiteSpace(r.value.content[|r.value.content| - 1])
    ensures r.Some? ==> var c := r.value.content;
      exists i :: 0 <= i <= |code| - |c| && c == code[i..i + |c|]
                  && AllWhiteSpace(code[..i]) && AllWhiteSpace(code[i + |c|..])
  {
    if IsNullOrWhiteSpace(code) then None
    else Some(CodeFile(filePath := "clipboard", content := Trim(code), language := "csharp"))
  }

  /** `AnalyzeClipboardCode` up to the analysis call. */
  method AnalyzeClipboardInput(input: seq<Option<string>>) returns (file: Option<CodeFile>)
    ensures file == PastedCodeFile(PastedCode(input))
  {
    var code := ReadPastedCode(input);
    file := PastedCodeFile(code);
  }

  /** Input that ends in two empty lines before any code gives no file. */
  lemma BlankPasteGivesNoFile(rest: seq<Option<string>>)
    ensures PastedCodeFile(PastedCode([Some(""), Some("")] + rest)) == None
  {
    TwoEmptyLinesEndAtOnce(rest);
    assert IsWhiteSpace(NewLine[0]);
  }

  /** What one save of a single analysed file did. */
  datatype SaveOutcome =
    | Written(path: string)
    | Replaced(path: string, backupPath: string)
    | Failed(error: IoError)
    | Cancelled

  /** The file `SaveToNewFile` writes: the name typed, or a time-stamped
      default when none was. */
  function NewFileName(filename: Option<string>, stamp: string): (r: string)
    ensures IsNullOrEmpty(filename) ==> r == "optimized_code_" + stamp + ".cs"
    ensures !IsNullOrEmpty(filename) ==> r == filename.value && r != ""
  {
    if IsNullOrEmpty(filename) then "optimized_code_" + stamp + ".cs" else filename.value
  }

  /** Specification of `SaveToNewFile`: one write, whose failure is
      reported and changes nothing. */
  function NewFileSave(result: CodeAnalysisResult, filename: Option<string>, stamp: string, fs: FileSystem)
    : (r: (FileSystem, SaveOutcome))
    ensures var path := NewFileName(filename, stamp);
      && (r.1.Written? <==> path !in fs.dirs && path !in fs.readOnly)
      && (r.1.Written? ==> r.1.path == path && r.0 == fs.(files := fs.files[path := result.optimizedCode]))
      && (!r.1.Written? ==> r.1 == Failed(AccessDenied(path)) && r.0 == fs)
  {
    var path := NewFileName(filename, stamp);
    match WriteAllText(fs, path, result.optimizedCode)
    case Thrown(e) => (fs, Failed(e))
    case Done(written) => (written, Written(path))
  }

  /** Whether `OverwriteOriginalFile` has a file to overwrite: not for
      pasted code or an unknown source. */
  predicate HasOriginal(result: CodeAnalysisResult) {
    result.originalFilePath != "" && result.originalFilePath != "clipboard"
  }

  /** `originalPath + ".backup_" + stamp`. */
  function SingleBackupPath(path: string, stamp: string): string {
    path + ".backup_" + stamp
  }

  /** Specification of `OverwriteOriginalFile`: without a real original it
      saves as a new file; without a "y" it does nothing; otherwise it copies
      the original to a time-stamped backup next to it and then overwrites
      it. */
  function OriginalOverwrite(result: CodeAnalysisResult, filename: Option<string>, confirm: Option<string>,
                             stamp: string, fs: FileSystem): (FileSystem, SaveOutcome)
  {
    if !HasOriginal(result) then NewFileSave(result, filename, stamp, fs)
    else if !WriteBack.Confirmed(confirm) then (fs, Cancelled)
    else
      var path := result.originalFilePath;
      var backupPath := SingleBackupPath(path, stamp);
      match Copy(fs, path, backupPath)
      case Thrown(e) => (fs, Failed(e))
      case Done(copied) =>
        match WriteAllText(copied, path, result.optimizedCode)
        case Thrown(e) => (copied, Failed(e))
        case Done(written) => (written, Replaced(path, backupPath))
  }

  /** `SaveToNewFile`. */
  method SaveToNewFile(result: CodeAnalysisResult, filename: Option<string>, stamp: string, fs: FileSystem)
    returns (r: FileSystem, outcome: SaveOutcome)
    ensures (r, outcome) == NewFileSave(result, filename, stamp, fs)
  {
    var path := NewFileName(filename, stamp);
    var written := WriteAllText(fs, path, result.optimizedCode);
    if written.Thrown? {
      return fs, Failed(written.error);
    }
    return written.fs, Written(path);
  }

  /** `OverwriteOriginalFile`: the backup copy comes first, and an exception
      of either step ends the attempt. */
  method OverwriteOriginalFile(result: CodeAnalysisResult, filename: Option<string>, confirm: Option<string>,
                               stamp: string, fs: FileSystem)
    returns (r: FileSystem, outcome: SaveOutcome)
    ensures (r, outcome) == OriginalOverwrite(result, filename, confirm, stamp, fs)
  {
    var originalPath := result.originalFilePath;
    if originalPath == "" || originalPath == "clipboard" {
      r, outcome := SaveToNewFile(result, filename, stamp, fs);
      return;
    }
    if !WriteBack.Confirmed(confirm) {
      return fs, Cancelled;
    }
    var backupPath := SingleBackupPath(originalPath, stamp);
    var copied := Copy(fs, originalPath, backupPath);
    if copied.Thrown? {
      return fs, Failed(copied.error);
    }
    r := copied.fs;
    var written := WriteAllText(r, originalPath, result.optimizedCode);
    if written.Thrown? {
      return r, Failed(written.error);
    }
    return written.fs, Replaced(originalPath, backupPath);
  }

  /** The original is never lost: when `OverwriteOriginalFile` changes an
      existing original, its old content is in the backup, and nothing but
      the original and the backup changes. A refused or cancelled overwrite
      changes nothing; a replaced one holds the optimised code. */
  lemma OverwriteKeepsBackup(result: CodeAnalysisResult, filename: Option<string>, confirm: Option<string>,
                             stamp: string, fs: FileSystem)
    requires HasOriginal(result)
    ensures var (r, outcome) := OriginalOverwrite(result, filename, confirm, stamp, fs);
      var path := result.originalFilePath;
      var backupPath := SingleBackupPath(path, stamp);
      && (!WriteBack.Confirmed(confirm) ==> r == fs && outcome == Cancelled)
      && r.dirs == fs.dirs && r.readOnly == fs.readOnly
      && (forall p :: p in fs.files ==> p in r.files)
      && (forall p :: p in r.files && p != path && p != backupPath ==> p in fs.files && r.files[p] == fs.files[p])
      && (path in fs.files && r.files[path] != fs.files[path] ==>
            backupPath in r.files && r.files[backupPath] == fs.files[path] && backupPath !in fs.files)
      && (outcome.Replaced? ==> outcome == Replaced(path, backupPath) && r.files[path] == result.optimizedCode)
      && (outcome.Failed? && r != fs ==> r.files == fs.files[backupPath := fs.files[path]])
  {
    var path := result.originalFilePath;
    var backupPath := SingleBackupPath(path, stamp);
    assert backupPath != path by {
      assert |backupPath| > |path|;
    }
  }

  /** `AnalyzeAndDisplayResults` after a "y" to saving, then the save menu:
      "1" saves to a new file, "2" overwrites the original, anything else
      cancels. */
  function SaveDialog(result: CodeAnalysisResult, save: Option<string>, choice: Option<string>,
                      filename: Option<string>, confirm: Option<string>, stamp: string, fs: FileSystem)
    : (FileSystem, SaveOutcome)
  {
    if !WriteBack.Confirmed(save) then (fs, Cancelled)
    else if choice == Some("1") then NewFileSave(result, filename, stamp, fs)
    else if choice == Some("2") then OriginalOverwrite(result, filename, confirm, stamp, fs)
    else (fs, Cancelled)
  }

  /** Only a "y" and then "1" or "2" touch the file system, and a save never
      removes a file. */
  lemma SaveDialogGate(result: CodeAnalysisResult, save: Option<string>, choice: Option<string>,
                       filename: Option<string>, confirm: Option<string>, stamp: string, fs: FileSystem)
    ensures var (r, outcome) := SaveDialog(result, save, choice, filename, confirm, stamp, fs);
      && (r != fs ==> WriteBack.Confirmed(save) && (choice == Some("1") || choice == Some("2")))
      && (outcome == Cancelled ==> r == fs)
      && (forall p :: p in fs.files ==> p in r.files)
  {
    if WriteBack.Confirmed(save) && choice == Some("2") && HasOriginal(result) {
      OverwriteKeepsBackup(result, filename, confirm, stamp, fs);
    }
  }

  /** The save menu of a batch is offered when some file has optimisations. */
  predicate OffersSaveMenu(result: SolutionResult) {
    exists f :: f in result.fileResults && f.hasOptimizations
  }

  /** The menu is offered exactly when the summary counts an optimised file. */
  lemma OffersSaveMenuIff(result: SolutionResult)
    ensures OffersSaveMenu(result) <==> SummaryOf(result).filesWithOptimizations > 0
  {
    SummaryConsistent(result);
  }

  /** `SaveOptimizedSolution`'s output directory: the one typed, or
      `optimized_solution` beside the solution. */
  function OutputDirectory(input: Option<string>, solutionPath: string): (r: string)
    ensures !IsNullOrEmpty(input) ==> r == input.value
    ensures IsNullOrEmpty(input) ==> FileName(r) == "optimized_solution"
    ensures IsNullOrEmpty(input) ==> DirectoryName(r) == Some(DirectoryName(solutionPath).GetOr("."))
  {
    if IsNullOrEmpty(input) then
      var parent := DirectoryName(solutionPath).GetOr(".");
      FileNameOfCombine(parent, "optimized_solution");
      DirectoryNameOfCombine(parent, "optimized_solution");
      Combine(parent, "optimized_solution")
    else input.value
  }

  /** What the batch save menu did. */
  datatype BatchSave =
    | Skipped
    | SavedTo(outputDir: string, outcome: Outcome)
    | OverwroteFiles(outcomes: seq<WriteBack.FileOutcome>)

  /** The batch save menu of `AnalyzeSolutionCode`: "1" saves into an output
      directory, "2" overwrites the originals, anything else skips; no menu
      when no file has optimisations. */
  function BatchSaveMenu(result: SolutionResult, choice: Option<string>, outputDir: Option<string>,
                         confirm: Option<string>, stamp: string, fs: FileSystem): (FileSystem, BatchSave)
  {
    if !OffersSaveMenu(result) then (fs, Skipped)
    else if choice == Some("1") then
      var dir := OutputDirectory(outputDir, result.solutionPath);
      var (r, outcome) := WriteBack.SaveRun(result, dir, fs);
      (r, SavedTo(dir, outcome))
    else if choice == Some("2") then
      var (r, outcomes) := WriteBack.OverwriteRun(result, confirm, stamp, fs);
      (r, OverwroteFiles(outcomes))
    else (fs, Skipped)
  }

  /** A batch without optimisations, or a choice other than "1" and "2",
      leaves the file system alone; otherwise no file disappears. */
  lemma BatchSaveMenuGate(result: SolutionResult, choice: Option<string>, outputDir: Option<string>,
                          confirm: Option<string>, stamp: string, fs: FileSystem)
    ensures var (r, action) := BatchSaveMenu(result, choice, outputDir, confirm, stamp, fs);
      && (r.files != fs.files ==> OffersSaveMenu(result) && (choice == Some("1") || choice == Some("2")))
      && (action.Skipped? ==> r == fs)
      && (forall p :: p in fs.files ==> p in r.files)
  {
    if OffersSaveMenu(result) {
      if choice == Some("1") {
        WriteBack.SaveWritesOptimized(result, OutputDirectory(outputDir, result.solutionPath), fs);
      } else if choice == Some("2") {
        WriteBack.OverwriteIsBackedUp(result, confirm, stamp, fs);
      }
    }
  }

  /** One suggestion in the HTML report: its severity, lower-cased, is the
      CSS class; the before and after snippets appear only when non-empty. */
  datatype ReportItem = ReportItem(
    cssClass: string,
    severity: string,
    suggestionType: string,
    description: string,
    before: Option<string>,
    after: Option<string>)

  /** One file in the HTML report. */
  datatype ReportSection = ReportSection(
    fileName: string,
    optimizationCount: int,
    improvement: real,
    items: seq<ReportItem>)

  function Shown(s: string): Option<string> {
    if s == "" then None else Some(s)
  }

  function ReportItemOf(s: Suggestion): ReportItem {
    ReportItem(ToLower(s.severity), s.severity, s.suggestionType, s.description, Shown(s.before), Shown(s.after))
  }

  function ReportSectionOf(f: FileResult): (r: ReportSection)
    ensures |r.items| == |f.suggestions|
  {
    ReportSection(FileName(f.filePath), f.optimizationCount, f.improvementPercentage,
      seq(|f.suggestions|, i requires 0 <= i < |f.suggestions| => ReportItemOf(f.suggestions[i])))
  }

  /** The file sections of `GenerateHtmlReport`: one per optimised file, in
      batch order. */
  function ReportSections(files: seq<FileResult>): seq<ReportSection> {
    if files == [] then []
    else (if files[0].hasOptimizations then [ReportSectionOf(files[0])] else []) + ReportSections(files[1..])
  }

  /** The number of suggestions the report shows. */
  function ItemCount(sections: seq<ReportSection>): nat {
    if sections == [] then 0 else |sections[0].items| + ItemCount(sections[1..])
  }

  lemma {:induction false} ItemCountAppend(a: seq<ReportSection>, b: seq<ReportSection>)
    ensures ItemCount(a + b) == ItemCount(a) + ItemCount(b)
    decreases |a|
  {
    if a == [] {
      assert a + b == b;
    } else {
      ItemCountAppend(a[1..], b);
      assert (a + b)[0] == a[0];
      assert (a + b)[1..] == a[1..] + b;
    }
  }

  /** The report shows one section per optimised file, each with its own
      entries, and no other; for entries as the batch builds them it lists
      every suggestion of the batch once, as many as the summary's total. */
  lemma {:induction false} ReportCoversOptimized(files: seq<FileResult>)
    ensures |ReportSections(files)| == |Optimized(files)|
    ensures forall i :: 0 <= i < |ReportSections(files)| ==> ReportSections(files)[i] == ReportSectionOf(Optimized(files)[i])
    ensures (forall f :: f in files ==> WellFormed(f)) ==> ItemCount(ReportSections(files)) == TotalOptimizations(files)
    decreases |files|
  {
    if files != [] {
      var head := if files[0].hasOptimizations then [ReportSectionOf(files[0])] else [];
      ReportCoversOptimized(files[1..]);
      ItemCountAppend(head, ReportSections(files[1..]));
      if forall f :: f in files ==> WellFormed(f) {
        assert WellFormed(files[0]);
        assert forall f :: f in files[1..] ==> f in files;
      }
    }
  }

  /** Every item shows its suggestion: the CSS class is the lower-cased
      severity and a snippet is shown exactly when it is non-empty. */
  lemma ReportItemsFaithful(f: FileResult)
    ensures forall i :: 0 <= i < |f.suggestions| ==>
      var item := ReportSectionOf(f).items[i];
      var s := f.suggestions[i];
      && |item.cssClass| == |s.severity| && item.severity == s.severity
      && (forall k :: 0 <= k < |s.severity| ==> item.cssClass[k] == LowerChar(s.severity[k]))
      && (item.before.Some? <==> s.before != "") && (item.before.Some? ==> item.before.value == s.before)
      && (item.after.Some? <==> s.after != "") && (item.after.Some? ==> item.after.value == s.after)
      && item.suggestionType == s.suggestionType && item.description == s.description
  {
  }
}
