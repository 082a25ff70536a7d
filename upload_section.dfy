/**
 * The upload panel's state and its migration pipeline (UploadSection.tsx): checking the
 * uploaded archive, resetting, renaming classes in markup and style sheets, detecting
 * script issues, folding per-file results into one report, and removing repeated warnings.
 */
module UploadSection {
  import opened Wrappers
  import opened Text
  import opened MigrationTypes
  import opened ClassRewrite
  import opened Detection

  /** An extracted project file. */
  datatype FileContent = FileContent(fileName: string, fileType: string, content: string)

  /** The `File` handed to the panel: its name, MIME type and size in bytes. */
  datatype UploadedFile = UploadedFile(name: string, mimeType: string, size: nat)

  /** A toast notification. */
  datatype Toast = Toast(title: string, description: string, destructive: bool)

  /** 50 MiB, the largest archive accepted. */
  const MaxUploadBytes: nat := 50 * 1024 * 1024

  /** Looks like a ZIP archive: by MIME type or by name. */
  predicate IsZip(f: UploadedFile) {
    f.mimeType == "application/zip" || EndsWith(f.name, ".zip")
  }

  predicate AcceptsUpload(f: UploadedFile) {
    IsZip(f) && f.size <= MaxUploadBytes
  }

  const InvalidTypeToast: Toast :=
    Toast("Invalid file type", "Please upload a ZIP file containing your Bootstrap 3 project.", true)

  const TooLargeToast: Toast :=
    Toast("File too large", "Maximum file size is 50MB. Please upload a smaller file.", true)

  /** The type check comes first, so an oversized non-archive is reported as the wrong type. */
  function UploadVerdict(f: UploadedFile): (t: Option<Toast>)
    ensures t == None <==> AcceptsUpload(f)
    ensures !IsZip(f) ==> t == Some(InvalidTypeToast)
    ensures IsZip(f) && f.size > MaxUploadBytes ==> t == Some(TooLargeToast)
  {
    if !IsZip(f) then Some(InvalidTypeToast)
    else if f.size > MaxUploadBytes then Some(TooLargeToast)
    else None
  }

  /** The size limit is inclusive, and either a MIME type or a name suffix is enough. */
  lemma UploadBoundaries()
    ensures AcceptsUpload(UploadedFile("site.zip", "", 52428800))
    ensures !AcceptsUpload(UploadedFile("site.zip", "", 52428801))
    ensures AcceptsUpload(UploadedFile("site", "application/zip", 0))
    ensures !AcceptsUpload(UploadedFile("site.zip.bak", "application/x-zip", 0))
  {
    assert "site.zip.bak"[8..] == ".bak";
  }

  /** The upload panel's own state. */
  class UploadPanel {
    var file: Option<UploadedFile>
    var status: MigrationStatus
    var results: Option<MigrationResults>

    constructor()
      ensures file == None && status == StatusAt(Idle, 0) && results == None
    {
      file := None;
      status := StatusAt(Idle, 0);
      results := None;
    }

    /**
     * `validateAndSetFile`: an accepted archive is stored with the status back at idle and
     * the old results cleared; a rejected one leaves everything as it was and raises a toast.
     */
    method ValidateAndSetFile(selected: UploadedFile) returns (toast: Option<Toast>)
      modifies this
      ensures toast == UploadVerdict(selected)
      ensures AcceptsUpload(selected) ==>
        file == Some(selected) && status == StatusAt(Idle, 0) && results == None
      ensures !AcceptsUpload(selected) ==> unchanged(this)
    {
      if !IsZip(selected) {
        return Some(InvalidTypeToast);
      }
      if selected.size > MaxUploadBytes {
        return Some(TooLargeToast);
      }
      file := Some(selected);
      status := StatusAt(Idle, 0);
      results := None;
      toast := None;
    }

    /** `resetMigration`: no file, idle at 0 %, no results. */
    method ResetMigration()
      modifies this
      ensures file == None && status == StatusAt(Idle, 0) && results == None
    {
      file := None;
      status := StatusAt(Idle, 0);
      results := None;
    }
  }

  /** `regex.test` over every line, one global expression, `lastIndex` carried along. */
  method TestEachLine(sig: Signature, message: string, lines: seq<string>) returns (found: seq<DetectedIssue>)
    ensures found == ScanLines(sig, message, lines, 0, 0)
  {
    found := [];
    var lastIndex := 0;
    for j := 0 to |lines|
      invariant found + ScanLines(sig, message, lines, j, lastIndex) == ScanLines(sig, message, lines, 0, 0)
    {
      var o := Test(sig, lines[j], lastIndex);
      ghost var rest := ScanLines(sig, message, lines, j + 1, o.lastIndex);
      ScanLinesStep(sig, message, lines, j, lastIndex);
      if o.found {
        assert found + ScanLines(sig, message, lines, j, lastIndex)
            == (found + [DetectedIssue(message, j + 1)]) + rest;
        found := found + [DetectedIssue(message, j + 1)];
      }
      lastIndex := o.lastIndex;
    }
  }

  /** The script-issue loop of `processHTMLContent` and `processJSContent`. */
  method DetectJsIssues(content: string) returns (issues: seq<DetectedIssue>)
    ensures issues == DetectIssues(content, BootstrapJsIssues)
  {
    issues := [];
    for k := 0 to |BootstrapJsIssues|
      invariant issues == DetectIssues(content, BootstrapJsIssues[..k])
    {
      var issue := BootstrapJsIssues[k];
      assert BootstrapJsIssues[..k + 1][..k] == BootstrapJsIssues[..k];
      var parsed := ParseSignature(issue.pattern);
      if parsed.Some? {
        var found := TestEachLine(parsed.value, issue.message, Split(content, '\n'));
        issues := issues + found;
      }
    }
    assert BootstrapJsIssues[..|BootstrapJsIssues|] == BootstrapJsIssues;
  }

  /** `processHTMLContent`: rename classes in place, count on the original, detect issues. */
  method ProcessHtmlContent(content: string) returns (modified: string, changes: nat, issues: seq<DetectedIssue>)
    ensures modified == RewriteHtmlClasses(content, BootstrapClassMappings)
    ensures changes == HtmlClassChanges(content, BootstrapClassMappings)
    ensures issues == DetectIssues(content, BootstrapJsIssues)
  {
    modified := content;
    changes := 0;
    var k := 0;
    while k < |BootstrapClassMappings|
      invariant 0 <= k <= |BootstrapClassMappings|
      invariant modified == RewriteHtmlClasses(content, BootstrapClassMappings[..k])
      invariant changes == HtmlClassChanges(content, BootstrapClassMappings[..k])
    {
      var entry := BootstrapClassMappings[k];
      HtmlTableStep(content, BootstrapClassMappings, k);
      changes := changes + CountAttrMatches(content, entry.legacy);
      modified := ReplaceAttrMatches(modified, entry.legacy, entry.modern);
      k := k + 1;
    }
    assert BootstrapClassMappings[..k] == BootstrapClassMappings;
    issues := DetectJsIssues(content);
  }

  /** `processCSSContent`: rename `.class` selectors, counting on the original. */
  method ProcessCssContent(content: string) returns (modified: string, changes: nat)
    ensures modified == RewriteCssSelectors(content, BootstrapClassMappings)
    ensures changes == CssSelectorChanges(content, BootstrapClassMappings)
  {
    modified := content;
    changes := 0;
    var k := 0;
    while k < |BootstrapClassMappings|
      invariant 0 <= k <= |BootstrapClassMappings|
      invariant modified == RewriteCssSelectors(content, BootstrapClassMappings[..k])
      invariant changes == CssSelectorChanges(content, BootstrapClassMappings[..k])
    {
      var entry := BootstrapClassMappings[k];
      CssTableStep(content, BootstrapClassMappings, k);
      changes := changes + CountSelectors(content, entry.legacy);
      modified := ReplaceSelectors(modified, entry.legacy, entry.modern);
      k := k + 1;
    }
    assert BootstrapClassMappings[..k] == BootstrapClassMappings;
  }

  /** `processJSContent`: scripts are only inspected, never rewritten. */
  method ProcessJsContent(content: string) returns (modified: string, issues: seq<DetectedIssue>)
    ensures modified == content
    ensures issues == DetectIssues(content, BootstrapJsIssues)
  {
    modified := content;
    issues := DetectJsIssues(content);
  }

  const HtmlIssueSuggestion := "Update to Bootstrap 5 JavaScript syntax"
  const ScriptIssueSuggestion := "Consider updating to native JavaScript or Bootstrap 5 components"

  /** The warnings a file's detected issues become, in the same order. */
  function IssueWarnings(issues: seq<DetectedIssue>, fileName: string, suggestion: string)
    : (ws: seq<MigrationWarning>)
    ensures |ws| == |issues|
    ensures forall i | 0 <= i < |ws| ::
      ws[i] == MigrationWarning(JavaScriptWarning, WarningLevel, issues[i].message,
                                Some(fileName), Some(issues[i].line as int), Some(suggestion))
  {
    if |issues| == 0 then []
    else
      IssueWarnings(issues[..|issues| - 1], fileName, suggestion)
      + [MigrationWarning(JavaScriptWarning, WarningLevel, issues[|issues| - 1].message,
                          Some(fileName), Some(issues[|issues| - 1].line as int), Some(suggestion))]
  }

  /** One file's entry in the report, by file type. */
  function SummarizeFile(file: FileContent): (s: FileSummary)
    ensures s.fileName == file.fileName && s.fileType == file.fileType
    ensures |s.warnings| == s.jsIssues
    ensures forall w <- s.warnings ::
      w.kind == JavaScriptWarning && w.severity == WarningLevel && w.file == Some(file.fileName)
    ensures file.fileType == "css" ==> s.jsIssues == 0
    ensures file.fileType == "js" ==> s.changesCount == 0
    ensures file.fileType !in {"html", "jsp", "css", "js"} ==> s == FileSummary(file.fileName, file.fileType, 0, 0, [])
  {
    if file.fileType == "html" || file.fileType == "jsp" then
      var issues := DetectIssues(file.content, BootstrapJsIssues);
      FileSummary(file.fileName, file.fileType, HtmlClassChanges(file.content, BootstrapClassMappings),
                  |issues|, IssueWarnings(issues, file.fileName, HtmlIssueSuggestion))
    else if file.fileType == "css" then
      FileSummary(file.fileName, file.fileType, CssSelectorChanges(file.content, BootstrapClassMappings), 0, [])
    else if file.fileType == "js" then
      var issues := DetectIssues(file.content, BootstrapJsIssues);
      FileSummary(file.fileName, file.fileType, 0, |issues|,
                  IssueWarnings(issues, file.fileName, ScriptIssueSuggestion))
    else
      FileSummary(file.fileName, file.fileType, 0, 0, [])
  }

  /** Every file's summary, in input order. */
  function Summaries(files: seq<FileContent>): (r: seq<FileSummary>)
    ensures |r| == |files|
    ensures forall i | 0 <= i < |files| :: r[i] == SummarizeFile(files[i])
  {
    seq(|files|, i requires 0 <= i < |files| => SummarizeFile(files[i]))
  }

  /** One more file adds its own summary at the end. */
  lemma SummariesSnoc(files: seq<FileContent>, k: nat)
    requires k < |files|
    ensures Summaries(files[..k + 1]) == Summaries(files[..k]) + [SummarizeFile(files[k])]
  {
    var a, b := Summaries(files[..k + 1]), Summaries(files[..k]) + [SummarizeFile(files[k])];
    assert |a| == |b|;
    forall i | 0 <= i < |a| ensures a[i] == b[i] {
      if i < k {
        assert files[..k + 1][i] == files[..k][i];
      }
    }
  }

  function TotalChanges(files: seq<FileSummary>): nat {
    if |files| == 0 then 0 else TotalChanges(files[..|files| - 1]) + files[|files| - 1].changesCount
  }

  function TotalJsIssues(files: seq<FileSummary>): nat {
    if |files| == 0 then 0 else TotalJsIssues(files[..|files| - 1]) + files[|files| - 1].jsIssues
  }

  /** Every file's warnings, file after file. */
  function AllFileWarnings(files: seq<FileSummary>): seq<MigrationWarning> {
    if |files| == 0 then [] else AllFileWarnings(files[..|files| - 1]) + files[|files| - 1].warnings
  }

  const BreakpointNote: MigrationWarning :=
    MigrationWarning(StructureWarning, InfoLevel, "Bootstrap 5 uses different grid breakpoints",
                     None, None, Some("Review your layouts for potential breakpoint issues"))

  function JQueryNote(fileCount: nat): MigrationWarning {
    MigrationWarning(JavaScriptWarning, WarningLevel,
                     "jQuery dependency found in " + NatToString(fileCount) + " files",
                     None, None, Some("Consider replacing jQuery with native JavaScript"))
  }

  function Min(a: nat, b: nat): nat {
    if a <= b then a else b
  }

  /**
   * The report-wide notes put in front of the file warnings: the breakpoint note when any
   * class changed, ahead of the jQuery note when any script issue was found.
   */
  function GeneralNotes(classesReplaced: nat, jsIssuesFound: nat, fileCount: nat): seq<MigrationWarning> {
    (if classesReplaced > 0 then [BreakpointNote] else [])
    + (if jsIssuesFound > 0 then [JQueryNote(Min(fileCount, jsIssuesFound))] else [])
  }

  /** The key two warnings are duplicates under: type name, a hyphen, the message. */
  function WarningKey(w: MigrationWarning): string {
    WarningTypeName(w.kind) + "-" + w.message
  }

  /** The keys of a list of warnings. */
  function KeysOf(ws: seq<MigrationWarning>): set<string> {
    set i | 0 <= i < |ws| :: WarningKey(ws[i])
  }

  /** The first warning of each key, in input order. */
  function Dedupe(ws: seq<MigrationWarning>): seq<MigrationWarning> {
    if |ws| == 0 then []
    else
      var init := ws[..|ws| - 1];
      if WarningKey(ws[|ws| - 1]) in KeysOf(init) then Dedupe(init)
      else Dedupe(init) + [ws[|ws| - 1]]
  }

  /** `removeDuplicateWarnings`, with the `Map` of seen keys as a set. */
  method RemoveDuplicateWarnings(warnings: seq<MigrationWarning>) returns (unique: seq<MigrationWarning>)
    ensures unique == Dedupe(warnings)
  {
    unique := [];
    var seen: set<string> := {};
    for k := 0 to |warnings|
      invariant unique == Dedupe(warnings[..k])
      invariant seen == KeysOf(warnings[..k])
    {
      var w := warnings[k];
      assert warnings[..k + 1][..k] == warnings[..k];
      var key := WarningKey(w);
      if key !in seen {
        seen := seen + {key};
        unique := unique + [w];
      }
      KeysOfSnoc(warnings[..k], w);
      assert warnings[..k + 1] == warnings[..k] + [w];
    }
    assert warnings[..|warnings|] == warnings;
  }

  lemma KeysOfSnoc(ws: seq<MigrationWarning>, w: MigrationWarning)
    ensures KeysOf(ws + [w]) == KeysOf(ws) + {WarningKey(w)}
  {
    var both := ws + [w];
    forall key | key in KeysOf(both) ensures key in KeysOf(ws) + {WarningKey(w)} {
      var i :| 0 <= i < |both| && WarningKey(both[i]) == key;
      if i < |ws| { assert both[i] == ws[i]; }
    }
    forall key | key in KeysOf(ws) ensures key in KeysOf(both) {
      var i :| 0 <= i < |ws| && WarningKey(ws[i]) == key;
      assert both[i] == ws[i];
    }
    assert both[|ws|] == w;
  }

  /** The body of `performMigration`'s per-file callback: process the file by its type. */
  method ProcessFile(file: FileContent) returns (summary: FileSummary)
    ensures summary == SummarizeFile(file)
  {
    var fileWarnings: seq<MigrationWarning> := [];
    var changesCount := 0;
    var jsIssues := 0;
    if file.fileType == "html" || file.fileType == "jsp" {
      var content, changes, issues := ProcessHtmlContent(file.content);
      changesCount := changes;
      jsIssues := |issues|;
      fileWarnings := IssueWarnings(issues, file.fileName, HtmlIssueSuggestion);
    } else if file.fileType == "css" {
      var content, changes := ProcessCssContent(file.content);
      changesCount := changes;
    } else if file.fileType == "js" {
      var content, issues := ProcessJsContent(file.content);
      jsIssues := |issues|;
      fileWarnings := IssueWarnings(issues, file.fileName, ScriptIssueSuggestion);
    }
    summary := FileSummary(file.fileName, file.fileType, changesCount, jsIssues, fileWarnings);
  }

  /** The two `unshift`s of `performMigration`: the jQuery note, then the breakpoint note before it. */
  method PrependGeneralNotes(fileWarnings: seq<MigrationWarning>, classesReplaced: nat, jsIssuesFound: nat, fileCount: nat)
    returns (warnings: seq<MigrationWarning>)
    ensures warnings == GeneralNotes(classesReplaced, jsIssuesFound, fileCount) + fileWarnings
  {
    warnings := fileWarnings;
    if jsIssuesFound > 0 {
      warnings := [JQueryNote(Min(fileCount, jsIssuesFound))] + warnings;
    }
    if classesReplaced > 0 {
      warnings := [BreakpointNote] + warnings;
    }
  }

  /** `performMigration`: process each file by type, then total, annotate and deduplicate. */
  method PerformMigration(files: seq<FileContent>) returns (results: MigrationResults)
    ensures results.totalFiles == |files| && results.modifiedFiles == |files|
    ensures results.fileSummary == Summaries(files)
    ensures results.classesReplaced == TotalChanges(results.fileSummary)
    ensures results.jsIssuesFound == TotalJsIssues(results.fileSummary)
    ensures results.manualFixesNeeded == ManualFixesOf(results.fileSummary)
    ensures results.warnings
         == Dedupe(GeneralNotes(results.classesReplaced, results.jsIssuesFound, |files|)
                   + AllFileWarnings(results.fileSummary))
  {
    var totalClassesReplaced := 0;
    var jsIssuesFound := 0;
    var manualFixesNeeded := 0;
    var warnings: seq<MigrationWarning> := [];
    var fileSummary: seq<FileSummary> := [];
    for k := 0 to |files|
      invariant fileSummary == Summaries(files[..k])
      invariant totalClassesReplaced == TotalChanges(fileSummary)
      invariant jsIssuesFound == TotalJsIssues(fileSummary)
      invariant manualFixesNeeded == ManualFixesOf(fileSummary)
      invariant warnings == AllFileWarnings(fileSummary)
    {
      var summary := ProcessFile(files[k]);
      totalClassesReplaced := totalClassesReplaced + summary.changesCount;
      jsIssuesFound := jsIssuesFound + summary.jsIssues;
      if summary.jsIssues > 0 {
        manualFixesNeeded := manualFixesNeeded + ManualFixesFor(summary.jsIssues);
      }
      SummariesSnoc(files, k);
      TotalsSnoc(fileSummary, summary);
      fileSummary := fileSummary + [summary];
      warnings := warnings + summary.warnings;
    }
    assert files[..|files|] == files;
    warnings := PrependGeneralNotes(warnings, totalClassesReplaced, jsIssuesFound, |files|);
    var unique := RemoveDuplicateWarnings(warnings);
    results := MigrationResults(|files|, |files|, totalClassesReplaced, jsIssuesFound,
                                manualFixesNeeded, unique, fileSummary);
  }

  /** The running totals of `performMigration` grow by one file's figures. */
  lemma TotalsSnoc(fs: seq<FileSummary>, f: FileSummary)
    ensures TotalChanges(fs + [f]) == TotalChanges(fs) + f.changesCount
    ensures TotalJsIssues(fs + [f]) == TotalJsIssues(fs) + f.jsIssues
    ensures ManualFixesOf(fs + [f]) == ManualFixesOf(fs) + ManualFixesFor(f.jsIssues)
    ensures AllFileWarnings(fs + [f]) == AllFileWarnings(fs) + f.warnings
  {
    assert (fs + [f])[..|fs|] == fs;
  }

  /** Two warnings share a key exactly when they have the same type and the same message. */
  lemma WarningKeyIdentifies(a: MigrationWarning, b: MigrationWarning)
    ensures WarningKey(a) == WarningKey(b) <==> a.kind == b.kind && a.message == b.message
  {
    var ta, tb := WarningTypeName(a.kind), WarningTypeName(b.kind);
    if WarningKey(a) == WarningKey(b) {
      assert WarningKey(a)[0] == ta[0] && WarningKey(b)[0] == tb[0];
      assert a.kind == b.kind;
      assert a.message == WarningKey(a)[|ta| + 1..];
      assert b.message == WarningKey(b)[|tb| + 1..];
    }
  }

  /** A warning is the first of its key in `ws`. */
  predicate FirstOfKey(ws: seq<MigrationWarning>, i: int)
    requires 0 <= i < |ws|
  {
    WarningKey(ws[i]) !in KeysOf(ws[..i])
  }

  /** The result keeps the input's order. */
  lemma {:induction false} DedupeSubsequence(ws: seq<MigrationWarning>)
    ensures IsSubsequence(Dedupe(ws), ws)
  {
    if |ws| > 0 {
      var init, last := ws[..|ws| - 1], ws[|ws| - 1];
      DedupeSubsequence(init);
      if WarningKey(last) in KeysOf(init) {
        SubsequenceSnoc(Dedupe(init), init, last);
      } else {
        assert Dedupe(ws)[..|Dedupe(ws)| - 1] == Dedupe(init);
      }
    }
  }

  /** The first warning of every key is kept. */
  lemma {:induction false} DedupeKeepsFirsts(ws: seq<MigrationWarning>)
    ensures forall i | 0 <= i < |ws| && FirstOfKey(ws, i) :: ws[i] in Dedupe(ws)
  {
    if |ws| > 0 {
      var init, last := ws[..|ws| - 1], ws[|ws| - 1];
      DedupeKeepsFirsts(init);
      forall i | 0 <= i < |ws| && FirstOfKey(ws, i) ensures ws[i] in Dedupe(ws) {
        if i < |ws| - 1 {
          assert ws[..i] == init[..i];
          assert FirstOfKey(init, i);
        } else {
          assert ws[..i] == init;
        }
      }
    }
  }

  /** Every warning kept is the first of its key. */
  lemma {:induction false} DedupeOnlyFirsts(ws: seq<MigrationWarning>)
    ensures forall w <- Dedupe(ws) :: exists i | 0 <= i < |ws| :: ws[i] == w && FirstOfKey(ws, i)
  {
    if |ws| > 0 {
      var init, last := ws[..|ws| - 1], ws[|ws| - 1];
      DedupeOnlyFirsts(init);
      forall w <- Dedupe(ws) ensures exists i | 0 <= i < |ws| :: ws[i] == w && FirstOfKey(ws, i) {
        if w in Dedupe(init) {
          var i :| 0 <= i < |init| && init[i] == w && FirstOfKey(init, i);
          assert ws[..i] == init[..i];
          assert ws[i] == w && FirstOfKey(ws, i);
        } else {
          assert ws[..|ws| - 1] == init;
          assert w == last && FirstOfKey(ws, |ws| - 1);
        }
      }
    }
  }

  /** No key is lost and none is invented. */
  lemma {:induction false} DedupeKeys(ws: seq<MigrationWarning>)
    ensures KeysOf(Dedupe(ws)) == KeysOf(ws)
  {
    if |ws| > 0 {
      var init, last := ws[..|ws| - 1], ws[|ws| - 1];
      DedupeKeys(init);
      assert ws == init + [last];
      KeysOfSnoc(init, last);
      KeysOfSnoc(Dedupe(init), last);
    }
  }

  /** Keys in a list are pairwise different. */
  predicate DistinctKeys(ws: seq<MigrationWarning>) {
    forall i, j | 0 <= i < j < |ws| :: WarningKey(ws[i]) != WarningKey(ws[j])
  }

  /** No two warnings in the result share a type and message. */
  lemma {:induction false} DedupeDistinct(ws: seq<MigrationWarning>)
    ensures DistinctKeys(Dedupe(ws))
  {
    if |ws| > 0 {
      var init, last := ws[..|ws| - 1], ws[|ws| - 1];
      DedupeDistinct(init);
      if WarningKey(last) !in KeysOf(init) {
        DedupeKeys(init);
        var d := Dedupe(ws);
        forall i, j | 0 <= i < j < |d| ensures WarningKey(d[i]) != WarningKey(d[j]) {
          if j == |d| - 1 {
            assert d[i] == Dedupe(init)[i];
            assert WarningKey(d[i]) in KeysOf(Dedupe(init));
          } else {
            assert d[i] == Dedupe(init)[i] && d[j] == Dedupe(init)[j];
          }
        }
      }
    }
  }

  /** A list whose keys are already distinct is left as it is. */
  lemma {:induction false} DedupeDistinctUnchanged(ws: seq<MigrationWarning>)
    requires DistinctKeys(ws)
    ensures Dedupe(ws) == ws
  {
    if |ws| > 0 {
      var init, last := ws[..|ws| - 1], ws[|ws| - 1];
      assert DistinctKeys(init) by {
        forall i, j | 0 <= i < j < |init| ensures WarningKey(init[i]) != WarningKey(init[j]) {
          assert init[i] == ws[i] && init[j] == ws[j];
        }
      }
      DedupeDistinctUnchanged(init);
      assert WarningKey(last) !in KeysOf(init) by {
        forall i | 0 <= i < |init| ensures WarningKey(init[i]) != WarningKey(last) {
          assert init[i] == ws[i];
        }
      }
      assert ws == init + [last];
    }
  }

  /** Removing duplicates twice is the same as removing them once. */
  lemma DedupeIdempotent(ws: seq<MigrationWarning>)
    ensures Dedupe(Dedupe(ws)) == Dedupe(ws)
  {
    DedupeDistinct(ws);
    DedupeDistinctUnchanged(Dedupe(ws));
  }

  /** The first warning always survives, in first place. */
  lemma {:induction false} DedupeKeepsHead(ws: seq<MigrationWarning>)
    requires |ws| > 0
    ensures |Dedupe(ws)| > 0 && Dedupe(ws)[0] == ws[0]
  {
    if |ws| > 1 {
      var init := ws[..|ws| - 1];
      DedupeKeepsHead(init);
      assert init[0] == ws[0];
    }
  }

  /**
   * The finished report leads with the breakpoint note whenever a class was renamed, keeps
   * the jQuery note whenever a script issue was found, and loses no file warning's key.
   */
  lemma ReportNotes(classesReplaced: nat, jsIssuesFound: nat, fileCount: nat, fileWarnings: seq<MigrationWarning>)
    ensures classesReplaced > 0 ==>
      |Dedupe(GeneralNotes(classesReplaced, jsIssuesFound, fileCount) + fileWarnings)| > 0 &&
      Dedupe(GeneralNotes(classesReplaced, jsIssuesFound, fileCount) + fileWarnings)[0] == BreakpointNote
    ensures jsIssuesFound > 0 ==>
      JQueryNote(Min(fileCount, jsIssuesFound))
        in Dedupe(GeneralNotes(classesReplaced, jsIssuesFound, fileCount) + fileWarnings)
    ensures KeysOf(fileWarnings)
         <= KeysOf(Dedupe(GeneralNotes(classesReplaced, jsIssuesFound, fileCount) + fileWarnings))
  {
    var all := GeneralNotes(classesReplaced, jsIssuesFound, fileCount) + fileWarnings;
    if classesReplaced > 0 {
      DedupeKeepsHead(all);
    }
    if jsIssuesFound > 0 {
      ReportKeepsJQueryNote(classesReplaced, jsIssuesFound, fileCount, fileWarnings);
    }
    ReportKeepsFileKeys(GeneralNotes(classesReplaced, jsIssuesFound, fileCount), fileWarnings);
  }

  lemma ReportKeepsJQueryNote(classesReplaced: nat, jsIssuesFound: nat, fileCount: nat, fileWarnings: seq<MigrationWarning>)
    requires jsIssuesFound > 0
    ensures JQueryNote(Min(fileCount, jsIssuesFound))
        in Dedupe(GeneralNotes(classesReplaced, jsIssuesFound, fileCount) + fileWarnings)
  {
    var all := GeneralNotes(classesReplaced, jsIssuesFound, fileCount) + fileWarnings;
    var i := if classesReplaced > 0 then 1 else 0;
    assert all[i] == JQueryNote(Min(fileCount, jsIssuesFound));
    if i == 1 {
      var none: seq<MigrationWarning> := [];
      assert all[..1] == none + [BreakpointNote];
      assert KeysOf(none) == {};
      KeysOfSnoc(none, BreakpointNote);
      WarningKeyIdentifies(BreakpointNote, all[1]);
    } else {
      assert all[..0] == [];
    }
    assert FirstOfKey(all, i);
    DedupeKeepsFirsts(all);
  }

  lemma ReportKeepsFileKeys(notes: seq<MigrationWarning>, fileWarnings: seq<MigrationWarning>)
    ensures KeysOf(fileWarnings) <= KeysOf(Dedupe(notes + fileWarnings))
  {
    var all := notes + fileWarnings;
    DedupeKeys(all);
    forall key | key in KeysOf(fileWarnings) ensures key in KeysOf(all) {
      var j :| 0 <= j < |fileWarnings| && WarningKey(fileWarnings[j]) == key;
      assert all[|notes| + j] == fileWarnings[j];
    }
  }

  /** The manual-fix estimate lies between half the issues and half the issues plus half the files. */
  lemma {:induction false} ManualFixesBounds(files: seq<FileSummary>)
    ensures TotalJsIssues(files) <= 2 * ManualFixesOf(files) <= TotalJsIssues(files) + |files|
  {
    if |files| > 0 {
      ManualFixesBounds(files[..|files| - 1]);
    }
  }

  /**
   * The mock report agrees with the manual-fix rule (2, 4, 0 and 3 issues give 1 + 2 + 0 + 2),
   * but no run can produce it: a run reports as many modified files as files, and its totals
   * are sums over the file summaries, while the mock's are not.
   */
  lemma MockReportConsistency()
    ensures MockMigrationResults.modifiedFiles <= MockMigrationResults.totalFiles
    ensures MockMigrationResults.manualFixesNeeded == ManualFixesOf(MockMigrationResults.fileSummary)
    ensures MockMigrationResults.modifiedFiles != MockMigrationResults.totalFiles
    ensures TotalJsIssues(MockMigrationResults.fileSummary) == 9 != MockMigrationResults.jsIssuesFound
    ensures TotalChanges(MockMigrationResults.fileSummary) == 208 != MockMigrationResults.classesReplaced
    ensures forall f <- MockMigrationResults.fileSummary :: |f.warnings| == (if f.jsIssues > 0 then 1 else 0)
  {
    var fs := MockMigrationResults.fileSummary;
    assert fs[0].changesCount == 42 && fs[0].jsIssues == 2 && fs[1].changesCount == 86 && fs[1].jsIssues == 4;
    assert fs[2].changesCount == 24 && fs[2].jsIssues == 0 && fs[3].changesCount == 56 && fs[3].jsIssues == 3;
    assert fs[..1] == [fs[0]] && fs[..0] == [] && fs[..1][..0] == [] && fs[..2][..1] == fs[..1];
    assert fs[..3][..2] == fs[..2] && fs[..4] == fs && fs[..3] == fs[..|fs| - 1];
    assert ManualFixesOf(fs[..1]) == 1 && TotalJsIssues(fs[..1]) == 2 && TotalChanges(fs[..1]) == 42;
    assert ManualFixesOf(fs[..2]) == 3 && TotalJsIssues(fs[..2]) == 6 && TotalChanges(fs[..2]) == 128;
    assert ManualFixesOf(fs[..3]) == 3 && TotalJsIssues(fs[..3]) == 6 && TotalChanges(fs[..3]) == 152;
    MockSummaryWarnings();
  }

  /** Each mock summary with issues lists one warning; the one without lists none. */
  lemma MockSummaryWarnings()
    ensures forall f <- MockMigrationResults.fileSummary :: |f.warnings| == (if f.jsIssues > 0 then 1 else 0)
  {
    var fs := MockMigrationResults.fileSummary;
    assert fs == [fs[0], fs[1], fs[2], fs[3]];
  }
}
