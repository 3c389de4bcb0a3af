/** The batch converter `ImageBatchProcessor`: it builds a configuration from
    its options and the plugin parameters, runs every JPEG file of the source
    folder, one after the other, through the loader its preset selects, and
    keeps its progress in the module-level record `batchState`.

    Finding the files, loading and saving images, and the pause between files
    are not modelled: the file list (or the error that finding it raised) and
    the error each file's processing may raise are inputs. */
module Batch {
  import opened Wrappers
  import opened Colors
  import opened LoaderOptions

  // ---------------------------------------------------------------------------
  // Parameters and configuration
  // ---------------------------------------------------------------------------

  /** `s || d` for a string: the value unless it is missing or empty. */
  function OrString(f: Field<string>, d: string): (r: string)
    ensures r == d || (f.Given? && r == f.value && r != "")
  {
    if f.Given? && f.value != "" then f.value else d
  }

  /** A number read with `parseInt`/`parseFloat`; None stands for NaN. */
  function OrParsed(parsed: Option<real>, d: real): (r: real)
    ensures r == d || (parsed.Some? && r == parsed.value && r != 0.0)
  {
    if parsed.Some? && parsed.value != 0.0 then parsed.value else d
  }

  /** The plugin parameters of the batch converter. */
  datatype BatchParameters = BatchParameters(sourceDirectory: string, outputDirectory: string, defaultThreshold: real,
                                             defaultSmooth: bool, defaultFeatherRadius: real, autoDownload: bool,
                                             maxFiles: int)

  /** The parameter block: empty folder names fall back to `converter_source`
      and `converter_dist`, and a number that is NaN or 0 to 8, 1.5 and 20.
      `threshold` and `maxFiles` are the `parseInt` results, `featherRadius` the
      `parseFloat` result; flags are true only for the text `true`. */
  function ParametersOf(sourceDirectory: string, outputDirectory: string, threshold: Option<int>, smooth: string,
                        featherRadius: Option<real>, autoDownload: string, maxFiles: Option<int>): BatchParameters {
    BatchParameters(if sourceDirectory != "" then sourceDirectory else "converter_source",
                    if outputDirectory != "" then outputDirectory else "converter_dist",
                    if threshold.Some? && threshold.value != 0 then threshold.value as real else 8.0,
                    smooth == "true",
                    OrParsed(featherRadius, 1.5),
                    autoDownload == "true",
                    if maxFiles.Some? && maxFiles.value != 0 then maxFiles.value else 20)
  }

  /** The numeric defaults are never 0 and the folders never empty, whatever
      the parameter block holds. */
  lemma ParametersTruthy(sourceDirectory: string, outputDirectory: string, threshold: Option<int>, smooth: string,
                         featherRadius: Option<real>, autoDownload: string, maxFiles: Option<int>)
    ensures var p := ParametersOf(sourceDirectory, outputDirectory, threshold, smooth, featherRadius, autoDownload, maxFiles);
      p.defaultThreshold != 0.0 && p.defaultFeatherRadius != 0.0 && p.maxFiles != 0 &&
      p.sourceDirectory != "" && p.outputDirectory != ""
  {
  }

  /** The options of `convertAll` it reads. */
  datatype BatchOptions = BatchOptions(threshold: Field<real>, smooth: Field<bool>, featherRadius: Field<real>,
                                       preset: Field<string>, sourceDir: Field<string>, outputDir: Field<string>)

  datatype Config = Config(threshold: real, smooth: bool, featherRadius: real, preset: string,
                           sourceDir: string, outputDir: string)

  /** `config` of `convertAll`. */
  function MakeConfig(options: BatchOptions, parameters: BatchParameters): Config {
    Config(OrNumber(options.threshold, parameters.defaultThreshold),
           IfDefined(options.smooth, parameters.defaultSmooth),
           OrNumber(options.featherRadius, parameters.defaultFeatherRadius),
           OrString(options.preset, "auto"),
           OrString(options.sourceDir, parameters.sourceDirectory),
           OrString(options.outputDir, parameters.outputDirectory))
  }

  /** Each field is the option when it is truthy (for `smooth`: defined) and the
      plugin default otherwise; the preset defaults to `auto`. Threshold and
      feather radius are never 0 when the defaults are not. */
  lemma ConfigFields(options: BatchOptions, parameters: BatchParameters)
    ensures var c := MakeConfig(options, parameters);
      (options.threshold.Given? && options.threshold.value != 0.0 ==> c.threshold == options.threshold.value) &&
      (!(options.threshold.Given? && options.threshold.value != 0.0) ==> c.threshold == parameters.defaultThreshold) &&
      c.smooth == (if options.smooth.Given? then options.smooth.value else parameters.defaultSmooth) &&
      (options.featherRadius.Given? && options.featherRadius.value != 0.0 ==> c.featherRadius == options.featherRadius.value) &&
      (!(options.featherRadius.Given? && options.featherRadius.value != 0.0) ==> c.featherRadius == parameters.defaultFeatherRadius) &&
      c.preset == (if options.preset.Given? && options.preset.value != "" then options.preset.value else "auto") &&
      c.sourceDir == (if options.sourceDir.Given? && options.sourceDir.value != "" then options.sourceDir.value else parameters.sourceDirectory) &&
      c.outputDir == (if options.outputDir.Given? && options.outputDir.value != "" then options.outputDir.value else parameters.outputDirectory) &&
      (parameters.defaultThreshold != 0.0 ==> c.threshold != 0.0) &&
      (parameters.defaultFeatherRadius != 0.0 ==> c.featherRadius != 0.0)
  {
  }

  // ---------------------------------------------------------------------------
  // One file
  // ---------------------------------------------------------------------------

  /** `processOptions`: the three settings of the configuration, always given. */
  function ProcessOptions(config: Config): (o: Options)
    ensures o.threshold == Given(config.threshold) && o.smooth == Given(config.smooth)
    ensures o.featherRadius == Given(config.featherRadius)
    ensures o.timeout.Absent? && o.targetColor.Absent?
  {
    Literal(config.threshold, config.smooth, config.featherRadius)
  }

  /** The `switch` on `config.preset`: the nine colour names select their
      wrapper; `auto` and every other name select `loadJpegPseudoAlphaChannel`. */
  function SelectLoader(preset: string, processOptions: Options): Loader {
    if preset == "white" then ColourLoader(White, processOptions)
    else if preset == "red" then ColourLoader(Red, processOptions)
    else if preset == "green" then ColourLoader(Green, processOptions)
    else if preset == "blue" then ColourLoader(Blue, processOptions)
    else if preset == "black" then ColourLoader(Black, processOptions)
    else if preset == "gray" then ColourLoader(Gray, processOptions)
    else if preset == "cyan" then ColourLoader(Cyan, processOptions)
    else if preset == "magenta" then ColourLoader(Magenta, processOptions)
    else if preset == "yellow" then ColourLoader(Yellow, processOptions)
    else PseudoAlphaChannel(processOptions)
  }

  /** The name under which the batch converter offers a colour preset. */
  function PresetName(preset: ColourPreset): string {
    match preset
    case Red => "red"
    case Green => "green"
    case Blue => "blue"
    case White => "white"
    case Black => "black"
    case Gray => "gray"
    case Cyan => "cyan"
    case Magenta => "magenta"
    case Yellow => "yellow"
  }

  /** Every colour preset is reached by its name. */
  lemma SelectLoaderOfPreset(c: ColourPreset, processOptions: Options)
    ensures SelectLoader(PresetName(c), processOptions) == ColourLoader(c, processOptions)
  {
    match c
    case Red =>
    case Green =>
    case Blue =>
    case White =>
    case Black =>
    case Gray =>
    case Cyan =>
    case Magenta =>
    case Yellow =>
  }

  /** A name no colour preset carries, `auto` among them, reaches the default
      pipeline; and those are the only names that do. */
  lemma SelectLoaderOfOtherName(name: string, processOptions: Options)
    ensures (forall c: ColourPreset :: PresetName(c) != name) <==>
      SelectLoader(name, processOptions) == PseudoAlphaChannel(processOptions)
  {
    if forall c: ColourPreset :: PresetName(c) != name {
      assert PresetName(White) != name && PresetName(Red) != name && PresetName(Green) != name;
      assert PresetName(Blue) != name && PresetName(Black) != name && PresetName(Gray) != name;
      assert PresetName(Cyan) != name && PresetName(Magenta) != name && PresetName(Yellow) != name;
    } else {
      var c: ColourPreset :| PresetName(c) == name;
      SelectLoaderOfPreset(c, processOptions);
    }
  }

  /** What the selected loader works with: the configuration's threshold,
      smooth flag and feather radius reach the pipeline unchanged (the
      configuration never holds a 0 threshold or radius when the defaults do
      not), the colour presets fix their colour and `auto` detects it. */
  lemma DispatchSettings(config: Config, parameters: PluginParameters)
    requires config.threshold != 0.0 && config.featherRadius != 0.0
    ensures var loader := SelectLoader(config.preset, ProcessOptions(config));
      LoaderOptionsOf(loader).Some? &&
      var s := Resolve(LoaderOptionsOf(loader).value, parameters);
      s.threshold == config.threshold && s.smooth == config.smooth && s.featherRadius == config.featherRadius &&
      s.timeout == 10000.0 &&
      (loader.ColourLoader? ==> s.targetColor == Some(PresetColor(loader.colour))) &&
      (loader.PseudoAlphaChannel? ==> s.targetColor == None)
  {
    var o := ProcessOptions(config);
    if forall c: ColourPreset :: PresetName(c) != config.preset {
      SelectLoaderOfOtherName(config.preset, o);
    } else {
      var c: ColourPreset :| PresetName(c) == config.preset;
      SelectLoaderOfPreset(c, o);
      ColourPresetSettings(c, o, parameters);
    }
  }

  /** ASCII lower case, the case folding of a regular expression with the `i`
      flag and without `u` on these letters. */
  function LowerAscii(c: char): char {
    if 'A' <= c <= 'Z' then (c as int - 'A' as int + 'a' as int) as char else c
  }

  /** The name ends in `.jpg`, in any case. */
  predicate EndsWithJpg(fileName: string) {
    var n := |fileName|;
    n >= 4 && fileName[n - 4] == '.' && LowerAscii(fileName[n - 3]) == 'j' &&
    LowerAscii(fileName[n - 2]) == 'p' && LowerAscii(fileName[n - 1]) == 'g'
  }

  /** The name ends in `.jpeg`, in any case. */
  predicate EndsWithJpeg(fileName: string) {
    var n := |fileName|;
    n >= 5 && fileName[n - 5] == '.' && LowerAscii(fileName[n - 4]) == 'j' && LowerAscii(fileName[n - 3]) == 'p' &&
    LowerAscii(fileName[n - 2]) == 'e' && LowerAscii(fileName[n - 1]) == 'g'
  }

  predicate HasJpegExtension(fileName: string) {
    EndsWithJpg(fileName) || EndsWithJpeg(fileName)
  }

  /** `fileName.replace(/\.(jpg|jpeg)$/i, ".png")`. */
  function OutputFileName(fileName: string): string {
    if EndsWithJpg(fileName) then fileName[..|fileName| - 4] + ".png"
    else if EndsWithJpeg(fileName) then fileName[..|fileName| - 5] + ".png"
    else fileName
  }

  /** A JPEG name keeps its stem and gets the extension `.png`; any other name
      is kept; and renaming again changes nothing. */
  lemma OutputFileNameShape(fileName: string)
    ensures HasJpegExtension(fileName) ==> var out := OutputFileName(fileName);
      |out| >= 4 && out[|out| - 4..] == ".png" && fileName[..|out| - 4] == out[..|out| - 4] &&
      var stem := out[..|out| - 4];
      var k := |fileName| - |stem|;
      (k == 4 && EndsWithJpg(fileName)) || (k == 5 && EndsWithJpeg(fileName))
    ensures !HasJpegExtension(fileName) ==> OutputFileName(fileName) == fileName
    ensures OutputFileName(OutputFileName(fileName)) == OutputFileName(fileName)
  {
    var n := |fileName|;
    var out := OutputFileName(fileName);
    if HasJpegExtension(fileName) {
      var k := if EndsWithJpg(fileName) then 4 else 5;
      var stem := fileName[..n - k];
      assert out == stem + ".png";
      assert out[|out| - 4..] == ".png";
      assert out[..|out| - 4] == stem;
      assert out[|out| - 3] == 'p' && out[|out| - 2] == 'n';
    }
  }

  /** `inputPath`. */
  function InputPath(config: Config, fileName: string): (path: string)
    ensures path == config.sourceDir + "/" + fileName
  {
    config.sourceDir + "/" + fileName
  }

  /** The record kept for one file, or for the batch when it failed as a whole. */
  datatype FileResult =
    | Processed(inputFile: string, inputPath: string, outputFileName: string, preset: string, options: Options)
    | Failed(inputFile: string, error: string)
    | SystemFailure(error: string)

  predicate IsSuccess(r: FileResult) {
    r.Processed?
  }

  /** `processFile`: the call it makes, `processFunction(inputPath, processOptions)`. */
  function ProcessCall(fileName: string, config: Config): (string, Loader) {
    (InputPath(config, fileName), SelectLoader(config.preset, ProcessOptions(config)))
  }

  /** `processFile` and the `catch` around it in `convertAll`: `failure` is the
      error the loader or the download raised, if any. */
  function FileOutcome(fileName: string, config: Config, failure: Option<string>): FileResult {
    match failure
    case Some(message) => Failed(fileName, message)
    case None => Processed(fileName, InputPath(config, fileName), OutputFileName(fileName), config.preset, ProcessOptions(config))
  }

  /** The record names its file; a success carries the input path, the renamed
      output, the preset and the three settings, a failure its error. */
  lemma FileOutcomeRecord(fileName: string, config: Config, failure: Option<string>)
    ensures var r := FileOutcome(fileName, config, failure);
      (r.Processed? || r.Failed?) && r.inputFile == fileName &&
      (IsSuccess(r) <==> failure.None?) &&
      (failure.None? ==> r.inputPath == ProcessCall(fileName, config).0 && r.outputFileName == OutputFileName(fileName) &&
                         r.preset == config.preset && r.options == ProcessOptions(config)) &&
      (failure.Some? ==> r.error == failure.value)
  {
  }

  // ---------------------------------------------------------------------------
  // The batch
  // ---------------------------------------------------------------------------

  /** `files.slice(0, end)` (section 23.1.3.28 of ECMA-262): a negative end
      counts from the back. */
  function Slice(files: seq<string>, end: int): (r: seq<string>)
    ensures StartsWithSeq(files, r)
  {
    if end < 0 then files[..if |files| + end > 0 then |files| + end else 0]
    else files[..if end < |files| then end else |files|]
  }

  predicate StartsWithSeq(s: seq<string>, prefix: seq<string>) {
    |prefix| <= |s| && s[..|prefix|] == prefix
  }

  /** `filesToProcess`: for a non-negative limit, the first `min(n, maxFiles)`
      files in their order; all of them when there are no more than the limit. */
  lemma SliceTruncates(files: seq<string>, maxFiles: int)
    ensures maxFiles >= 0 ==> |Slice(files, maxFiles)| == (if |files| < maxFiles then |files| else maxFiles)
    ensures 0 <= |files| <= maxFiles ==> Slice(files, maxFiles) == files
    ensures maxFiles < 0 ==> |Slice(files, maxFiles)| == (if |files| + maxFiles > 0 then |files| + maxFiles else 0)
  {
  }

  /** The local `results` after the first `n` files. */
  function ResultsUpTo(files: seq<string>, config: Config, failure: nat -> Option<string>, n: nat): (rs: seq<FileResult>)
    requires n <= |files|
    ensures |rs| == n
  {
    seq(n, i requires 0 <= i < n => FileOutcome(files[i], config, failure(i)))
  }

  lemma ResultsUpToStep(files: seq<string>, config: Config, failure: nat -> Option<string>, n: nat)
    requires n < |files|
    ensures ResultsUpTo(files, config, failure, n + 1)
      == ResultsUpTo(files, config, failure, n) + [FileOutcome(files[n], config, failure(n))]
  {
  }

  /** The records whose `success` is `wanted`, in their order: the two
      `filter` calls of `convertAll` are `Filter(rs, true)` and `Filter(rs, false)`. */
  function Filter(rs: seq<FileResult>, wanted: bool): (f: seq<FileResult>)
    ensures |f| <= |rs|
    ensures forall i :: 0 <= i < |f| ==> IsSuccess(f[i]) == wanted
  {
    if |rs| == 0 then []
    else Filter(rs[..|rs| - 1], wanted) + (if IsSuccess(rs[|rs| - 1]) == wanted then [rs[|rs| - 1]] else [])
  }

  /** `results.filter((r) => r.success)`. */
  function Successes(rs: seq<FileResult>): seq<FileResult> {
    Filter(rs, true)
  }

  /** `results.filter((r) => !r.success)`. */
  function Failures(rs: seq<FileResult>): seq<FileResult> {
    Filter(rs, false)
  }

  lemma FilterSnoc(rs: seq<FileResult>, r: FileResult, wanted: bool)
    ensures Filter(rs + [r], wanted) == Filter(rs, wanted) + (if IsSuccess(r) == wanted then [r] else [])
  {
    assert (rs + [r])[..|rs|] == rs;
  }

  /** The indices of the records whose `success` is `wanted`, ascending. */
  function IndicesWhere(rs: seq<FileResult>, wanted: bool): (idx: seq<nat>)
    ensures forall k :: 0 <= k < |idx| ==> idx[k] < |rs|
  {
    if |rs| == 0 then []
    else IndicesWhere(rs[..|rs| - 1], wanted) + (if IsSuccess(rs[|rs| - 1]) == wanted then [|rs| - 1] else [])
  }

  /** A filter keeps exactly the records at the indices of the records it
      selects, in the order of those indices. */
  lemma {:induction false} FilterIndices(rs: seq<FileResult>, wanted: bool)
    ensures var f, idx := Filter(rs, wanted), IndicesWhere(rs, wanted);
      |idx| == |f| && forall k :: 0 <= k < |idx| ==> f[k] == rs[idx[k]]
  {
    if |rs| > 0 {
      var init := rs[..|rs| - 1];
      FilterIndices(init, wanted);
      var idx0 := IndicesWhere(init, wanted);
      assert forall k :: 0 <= k < |idx0| ==> rs[idx0[k]] == init[idx0[k]];
    }
  }

  predicate Ascending(s: seq<nat>) {
    forall j, k :: 0 <= j < k < |s| ==> s[j] < s[k]
  }

  /** The indices a filter keeps are ascending. */
  lemma {:induction false} IndicesAscending(rs: seq<FileResult>, wanted: bool)
    ensures Ascending(IndicesWhere(rs, wanted))
  {
    if |rs| > 0 {
      var init := rs[..|rs| - 1];
      IndicesAscending(init, wanted);
      var idx0 := IndicesWhere(init, wanted);
      assert forall k :: 0 <= k < |idx0| ==> idx0[k] < |rs| - 1;
      if IsSuccess(rs[|rs| - 1]) == wanted {
        var idx := idx0 + [|rs| - 1];
        assert IndicesWhere(rs, wanted) == idx;
        assert Ascending(idx) by {
          forall j, k | 0 <= j < k < |idx|
            ensures idx[j] < idx[k]
          {
            if k == |idx| - 1 {
              assert idx[j] == idx0[j];
            } else {
              assert idx[j] == idx0[j] && idx[k] == idx0[k];
              assert idx0[j] < idx0[k];
            }
          }
        }
      }
    }
  }

  /** An index is kept exactly when its record is selected. */
  lemma {:induction false} IndicesSelected(rs: seq<FileResult>, wanted: bool)
    ensures var idx := IndicesWhere(rs, wanted); forall i :: 0 <= i < |rs| ==> (i in idx <==> IsSuccess(rs[i]) == wanted)
  {
    if |rs| > 0 {
      var init := rs[..|rs| - 1];
      IndicesSelected(init, wanted);
      var idx0, idx := IndicesWhere(init, wanted), IndicesWhere(rs, wanted);
      var last := |rs| - 1;
      assert last !in idx0;
      forall i | 0 <= i < |rs|
        ensures i in idx <==> IsSuccess(rs[i]) == wanted
      {
        if i < last {
          assert rs[i] == init[i];
          assert i in idx <==> i in idx0;
        }
      }
    }
  }

  lemma {:induction false} PartitionContents(rs: seq<FileResult>)
    ensures multiset(Filter(rs, true)) + multiset(Filter(rs, false)) == multiset(rs)
  {
    if |rs| > 0 {
      var init, last := rs[..|rs| - 1], rs[|rs| - 1];
      PartitionContents(init);
      assert rs == init + [last];
      FilterSnoc(init, last, true);
      FilterSnoc(init, last, false);
    }
  }

  /** The two filters split the records: every record is in exactly one of
      them, so their lengths add up and their contents together are the records. */
  lemma PartitionCounts(rs: seq<FileResult>)
    ensures |Successes(rs)| + |Failures(rs)| == |rs|
    ensures multiset(Successes(rs)) + multiset(Failures(rs)) == multiset(rs)
  {
    PartitionContents(rs);
    var s, f := multiset(Successes(rs)), multiset(Failures(rs));
    assert |s| == |Successes(rs)| && |f| == |Failures(rs)| && |multiset(rs)| == |rs|;
    assert |s + f| == |s| + |f|;
  }

  /** No failure recorded exactly when every record is a success. */
  lemma {:induction false} NoFailures(rs: seq<FileResult>)
    ensures |Failures(rs)| == 0 <==> forall i :: 0 <= i < |rs| ==> IsSuccess(rs[i])
  {
    FilterIndices(rs, false);
    IndicesSelected(rs, false);
    var idx := IndicesWhere(rs, false);
    if |idx| > 0 {
      assert idx[0] in idx;
    }
  }

  /** The batch succeeds when no file failed. */
  datatype Message = NoJpegFiles(sourceDir: string) | Completed(successCount: nat, errorCount: nat) | Failure(error: string)

  /** The object `convertAll` resolves with. */
  datatype Report = Report(success: bool, message: Message, processedFiles: seq<FileResult>, errors: seq<FileResult>,
                           config: Option<Config>)

  /** `convertAll` either throws before its `try` or resolves with a report. */
  datatype Outcome = MissingProcessor | Returned(report: Report)

  /** The report after every file was attempted. */
  function BatchReport(config: Config, rs: seq<FileResult>): Report {
    var successCount := |Successes(rs)|;
    var errorCount := |rs| - successCount;
    Report(errorCount == 0, Completed(successCount, errorCount), Successes(rs), Failures(rs), Some(config))
  }

  /** The returned lists partition the attempted files by success, the counts
      in the message are their lengths and add up to the number of files, and
      the batch succeeds exactly when every file did. */
  lemma BatchReportPartition(files: seq<string>, config: Config, failure: nat -> Option<string>)
    ensures var rs := ResultsUpTo(files, config, failure, |files|);
      var report := BatchReport(config, rs);
      report.processedFiles == Successes(rs) && report.errors == Failures(rs) &&
      report.message == Completed(|report.processedFiles|, |report.errors|) &&
      |report.processedFiles| + |report.errors| == |files| &&
      (report.success <==> forall i :: 0 <= i < |files| ==> failure(i).None?)
  {
    var rs := ResultsUpTo(files, config, failure, |files|);
    PartitionCounts(rs);
    NoFailures(rs);
    forall i | 0 <= i < |files|
      ensures IsSuccess(rs[i]) <==> failure(i).None?
    {
      FileOutcomeRecord(files[i], config, failure(i));
    }
  }

  /** One record per attempted file, naming that file, in the order of the
      files, successful exactly when its processing raised nothing. */
  lemma ResultsFollowFiles(files: seq<string>, config: Config, failure: nat -> Option<string>, i: nat)
    requires i < |files|
    ensures var rs := ResultsUpTo(files, config, failure, |files|);
      (rs[i].Processed? || rs[i].Failed?) && rs[i].inputFile == files[i] && (IsSuccess(rs[i]) <==> failure(i).None?)
  {
    FileOutcomeRecord(files[i], config, failure(i));
  }

  /** `batchState` as `getBatchState` hands it out. */
  datatype BatchSnapshot = BatchSnapshot(isProcessing: bool, currentFile: Option<string>, processedCount: nat,
                                         totalFiles: nat, errors: seq<FileResult>, results: seq<FileResult>)

  /** The record `resetBatchState` installs. */
  const InitialState: BatchSnapshot := BatchSnapshot(false, None, 0, 0, [], [])

  /** `batchState` while file `i` is being processed. */
  function ProgressAt(files: seq<string>, config: Config, failure: nat -> Option<string>, i: nat): BatchSnapshot
    requires i < |files|
  {
    var rs := ResultsUpTo(files, config, failure, i);
    BatchSnapshot(true, Some(files[i]), i, |files|, Failures(rs), Successes(rs))
  }

  /** `batchState` as each of the first `n` files starts. */
  function ProgressTrace(files: seq<string>, config: Config, failure: nat -> Option<string>, n: nat): (t: seq<BatchSnapshot>)
    requires n <= |files|
    ensures |t| == n
  {
    seq(n, i requires 0 <= i < n => ProgressAt(files, config, failure, i))
  }

  lemma ProgressTraceStep(files: seq<string>, config: Config, failure: nat -> Option<string>, n: nat)
    requires n < |files|
    ensures ProgressTrace(files, config, failure, n + 1)
      == ProgressTrace(files, config, failure, n) + [ProgressAt(files, config, failure, n)]
  {
  }

  /** `batchState` once every file was attempted. */
  function FinalState(files: seq<string>, config: Config, failure: nat -> Option<string>): BatchSnapshot {
    var rs := ResultsUpTo(files, config, failure, |files|);
    BatchSnapshot(false, if |files| > 0 then Some(files[|files| - 1]) else None, |files|, |files|, Failures(rs), Successes(rs))
  }

  /** While a file is processed, the counter is its index, which is below the
      total, and the state lists the successes and failures of the files before
      it; at the end the counter is the total and processing is over. */
  lemma ProgressCounters(files: seq<string>, config: Config, failure: nat -> Option<string>, i: nat)
    requires i < |files|
    ensures var s := ProgressAt(files, config, failure, i);
      s.isProcessing && s.currentFile == Some(files[i]) && s.processedCount == i < s.totalFiles == |files| &&
      |s.results| + |s.errors| == i
    ensures var s := FinalState(files, config, failure);
      !s.isProcessing && s.processedCount == s.totalFiles == |files| && |s.results| + |s.errors| == |files|
  {
    PartitionCounts(ResultsUpTo(files, config, failure, i));
    PartitionCounts(ResultsUpTo(files, config, failure, |files|));
  }

  /** The module-level `batchState` and the static methods of
      `ImageBatchProcessor` that read and write it. */
  class ImageBatchProcessor {
    var isProcessing: bool
    var currentFile: Option<string>
    var processedCount: nat
    var totalFiles: nat
    var errors: seq<FileResult>
    var results: seq<FileResult>

    /** The record `batchState` starts as. */
    constructor()
      ensures GetBatchState() == InitialState
    {
      isProcessing, currentFile, processedCount, totalFiles, errors, results := false, None, 0, 0, [], [];
    }

    /** `getBatchState`: a copy of the record, field by field. */
    function GetBatchState(): (s: BatchSnapshot)
      reads this
      ensures s.isProcessing == isProcessing && s.currentFile == currentFile && s.processedCount == processedCount
      ensures s.totalFiles == totalFiles && s.errors == errors && s.results == results
    {
      BatchSnapshot(isProcessing, currentFile, processedCount, totalFiles, errors, results)
    }

    /** `resetBatchState`. */
    method ResetBatchState()
      modifies this
      ensures GetBatchState() == InitialState
    {
      isProcessing, currentFile, processedCount, totalFiles, errors, results := false, None, 0, 0, [], [];
    }

    /** The loop of `convertAll` over the files to process, from the state
        just after `totalFiles` was set. Returns the records in the order of
        the files; the ghost `progress` is `batchState` as each file starts. */
    method ProcessFiles(files: seq<string>, config: Config, failure: nat -> Option<string>)
      returns (rs: seq<FileResult>, ghost progress: seq<BatchSnapshot>)
      requires GetBatchState() == InitialState.(isProcessing := true, totalFiles := |files|)
      modifies this
      ensures rs == ResultsUpTo(files, config, failure, |files|)
      ensures results == Successes(rs) && errors == Failures(rs)
      ensures isProcessing && totalFiles == |files|
      ensures currentFile == (if |files| > 0 then Some(files[|files| - 1]) else None)
      ensures processedCount == if |files| > 0 then |files| - 1 else 0
      ensures progress == ProgressTrace(files, config, failure, |files|)
    {
      rs, progress := [], [];
      for i := 0 to |files|
        invariant rs == ResultsUpTo(files, config, failure, i)
        invariant results == Successes(rs) && errors == Failures(rs)
        invariant isProcessing && totalFiles == |files|
        invariant i == 0 ==> currentFile == None && processedCount == 0
        invariant i > 0 ==> currentFile == Some(files[i - 1]) && processedCount == i - 1
        invariant progress == ProgressTrace(files, config, failure, i)
      {
        var fileName := files[i];
        currentFile := Some(fileName);
        processedCount := i;
        ProgressTraceStep(files, config, failure, i);
        progress := progress + [GetBatchState()];
        var result := FileOutcome(fileName, config, failure(i));
        ResultsUpToStep(files, config, failure, i);
        FilterSnoc(rs, result, true);
        FilterSnoc(rs, result, false);
        rs := rs + [result];
        if IsSuccess(result) {
          results := results + [result];
        } else {
          errors := errors + [result];
        }
      }
    }

    /** `convertAll`. `processorLoaded` says whether `loadJpegPseudoAlphaChannel`
        exists, `discovery` is what `findJpegFiles` yields or throws, and
        `failure(i)` is the error processing the i-th file throws, if any. The
        ghost `progress` records `batchState` as each file starts. */
    method ConvertAll(options: BatchOptions, parameters: BatchParameters, processorLoaded: bool,
                      discovery: Result<seq<string>, string>, failure: nat -> Option<string>)
      returns (outcome: Outcome, ghost progress: seq<BatchSnapshot>)
      modifies this
      ensures !processorLoaded ==> outcome == MissingProcessor && GetBatchState() == old(GetBatchState())
      ensures processorLoaded && discovery.Err? ==>
        outcome == Returned(Report(false, Failure(discovery.error), [], [SystemFailure(discovery.error)], None)) &&
        GetBatchState() == InitialState
      ensures processorLoaded && discovery.Ok? && |discovery.value| == 0 ==>
        outcome == Returned(Report(false, NoJpegFiles(MakeConfig(options, parameters).sourceDir), [], [], None)) &&
        GetBatchState() == InitialState.(isProcessing := true)
      ensures processorLoaded && discovery.Ok? && |discovery.value| > 0 ==>
        var config, files := MakeConfig(options, parameters), Slice(discovery.value, parameters.maxFiles);
        outcome == Returned(BatchReport(config, ResultsUpTo(files, config, failure, |files|))) &&
        GetBatchState() == FinalState(files, config, failure) &&
        |progress| == |files| &&
        forall i :: 0 <= i < |files| ==> progress[i] == ProgressAt(files, config, failure, i)
    {
      progress := [];
      if !processorLoaded {
        return MissingProcessor, progress;
      }
      var config := MakeConfig(options, parameters);
      ResetBatchState();
      isProcessing := true;
      if discovery.Err? {
        isProcessing := false;
        return Returned(Report(false, Failure(discovery.error), [], [SystemFailure(discovery.error)], None)), progress;
      }
      var jpegFiles := discovery.value;
      if |jpegFiles| == 0 {
        return Returned(Report(false, NoJpegFiles(config.sourceDir), [], [], None)), progress;
      }
      var filesToProcess := Slice(jpegFiles, parameters.maxFiles);
      totalFiles := |filesToProcess|;
      var rs;
      rs, progress := ProcessFiles(filesToProcess, config, failure);
      isProcessing := false;
      processedCount := |filesToProcess|;
      var successCount := |Successes(rs)|;
      var errorCount := |rs| - successCount;
      outcome := Returned(Report(errorCount == 0, Completed(successCount, errorCount), Successes(rs), Failures(rs), Some(config)));
    }
  }
}
