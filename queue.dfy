/**
 * queue_manager.py: the project table that `scan_all_files` fills, one entry per file of the
 * import queue, with the chapters found in that file.
 *
 * The detector is a parameter: `detect(path)` is what the call at queue_manager.py:85-90
 * evaluates to, a list of events or a raised exception. As written, that call passes the
 * keywords `min_duration`, `ratio` and `threshold`, while detect_black_frames
 * (detector.py:5-11) names its parameters `min_black_seconds`, `ratio_black_pixels` and
 * `black_pixel_threshold`; Python rejects the call with a TypeError before the detector runs.
 * `DetectCall` models that binding step, `AsWrittenScanNeverStores` shows its effect and
 * `CorrectedScanStoresChapters` shows the scan with the keywords renamed.
 */
module Queue {
  import opened Wrappers
  import opened Time
  import opened Detector

  /** The settings triple stored with each scanned file. */
  datatype ScanSettings = ScanSettings(minBlackSeconds: real, ratioBlackPixels: real, blackPixelThreshold: real)

  /** The hard-coded settings of queue_manager.py:79-83, used whatever `self.scan_settings` holds. */
  const SCAN_DEFAULTS := ScanSettings(2.0, 0.98, 0.1)

  /** `{"path": ..., "chapters": [...], "settings": {...}}` */
  datatype ProjectEntry = ProjectEntry(path: string, chapters: seq<Millis>, settings: ScanSettings)

  datatype ScanError =
    /** TypeError: the call names a keyword the detector does not have. */
    | UnexpectedKeyword(keyword: string)
    /** TypeError: the call names, as a keyword, a parameter it already bound by position. */
    | MultipleValues(keyword: string)
    /** An exception raised by the detector or by `frame["black_start"]`. */
    | DetectFailed(error: DetectError)

  /** The state of the table after some files: the entries, and the exception that stopped the loop, if any. */
  datatype ScanState = ScanState(table: seq<ProjectEntry>, failure: Option<ScanError>)

  // ---------------------------------------------------------------------------
  // Binding the call's keywords

  /** The parameter names of detect_black_frames (detector.py:5-11). */
  const DETECTOR_PARAMETERS := ["video_path", "min_black_seconds", "ratio_black_pixels", "black_pixel_threshold", "window_list"]

  /**
   * The parameters a keyword of the call can still bind: the call passes the path by position
   * (queue_manager.py:85), which binds `video_path`.
   */
  const KEYWORD_PARAMETERS := DETECTOR_PARAMETERS[1..]

  /** The keywords the call at queue_manager.py:85-90 passes. */
  const AS_WRITTEN_KEYWORDS := ["min_duration", "ratio", "threshold"]

  /** The keywords the call evidently means. */
  const CORRECTED_KEYWORDS := ["min_black_seconds", "ratio_black_pixels", "black_pixel_threshold"]

  /** The first keyword the function does not accept, which Python reports in its TypeError. */
  function FirstUnexpected(parameters: seq<string>, keywords: seq<string>): (r: Option<string>)
    ensures r.None? <==> forall k :: 0 <= k < |keywords| ==> keywords[k] in parameters
    ensures r.Some? ==> r.value in keywords && r.value !in parameters
  {
    if keywords == [] then None
    else if keywords[0] !in parameters then Some(keywords[0])
    else
      var rest := FirstUnexpected(parameters, keywords[1..]);
      assert forall k :: 0 < k < |keywords| ==> keywords[k] == keywords[1..][k - 1];
      rest
  }

  /**
   * The call `detect_black_frames(path, **keywords)`. Python binds the keywords in order; the
   * first one that binds no free parameter raises TypeError, as an unexpected keyword or, for
   * `video_path`, as a second value for it. Otherwise the call returns what the detector,
   * `analyze`, returns for the path.
   */
  function DetectCall(keywords: seq<string>, analyze: string -> Result<seq<Event>, DetectError>, path: string)
    : Result<seq<Event>, ScanError>
  {
    match FirstUnexpected(KEYWORD_PARAMETERS, keywords)
    case Some(k) => Err(if k in DETECTOR_PARAMETERS then MultipleValues(k) else UnexpectedKeyword(k))
    case None =>
      match analyze(path)
      case Err(e) => Err(DetectFailed(e))
      case Ok(events) => Ok(events)
  }

  /**
   * Binding decides the call: a keyword that binds no free parameter raises TypeError before
   * the detector runs, naming a passed keyword that is either no parameter at all or
   * `video_path`, which the path already holds; with every keyword free the call returns the
   * detector's events or carries its error.
   */
  lemma DetectCallBinding(keywords: seq<string>, analyze: string -> Result<seq<Event>, DetectError>, path: string)
    ensures (exists k :: 0 <= k < |keywords| && keywords[k] !in KEYWORD_PARAMETERS) ==>
      DetectCall(keywords, analyze, path).Err? &&
      DetectCall(keywords, analyze, path).error.keyword in keywords &&
      ((DetectCall(keywords, analyze, path).error.UnexpectedKeyword? &&
        DetectCall(keywords, analyze, path).error.keyword !in DETECTOR_PARAMETERS) ||
       (DetectCall(keywords, analyze, path).error.MultipleValues? &&
        DetectCall(keywords, analyze, path).error.keyword == "video_path"))
    ensures (forall k :: 0 <= k < |keywords| ==> keywords[k] in KEYWORD_PARAMETERS) ==>
      (DetectCall(keywords, analyze, path).Ok? <==> analyze(path).Ok?) &&
      (analyze(path).Ok? ==> DetectCall(keywords, analyze, path).value == analyze(path).value) &&
      (analyze(path).Err? ==> DetectCall(keywords, analyze, path).error == DetectFailed(analyze(path).error))
    ensures DetectCall(["video_path"], analyze, path) == Err(MultipleValues("video_path"))
    ensures DetectCall(AS_WRITTEN_KEYWORDS, analyze, path) == Err(UnexpectedKeyword("min_duration"))
    ensures DetectCall(CORRECTED_KEYWORDS, analyze, path).Ok? <==> analyze(path).Ok?
  {
    assert KEYWORD_PARAMETERS == ["min_black_seconds", "ratio_black_pixels", "black_pixel_threshold", "window_list"];
    assert "video_path" !in KEYWORD_PARAMETERS;
    assert "min_duration" !in DETECTOR_PARAMETERS;
    assert forall k :: 0 <= k < |CORRECTED_KEYWORDS| ==> CORRECTED_KEYWORDS[k] in KEYWORD_PARAMETERS;
  }

  // ---------------------------------------------------------------------------
  // The table update

  /** Lines 95-103: overwrite the chapters and settings of entry `i` if it exists, else append a new entry. */
  function StoreEntry(table: seq<ProjectEntry>, i: nat, path: string, chapters: seq<Millis>): seq<ProjectEntry> {
    if i < |table| then table[i := table[i].(chapters := chapters, settings := SCAN_DEFAULTS)]
    else table + [ProjectEntry(path, chapters, SCAN_DEFAULTS)]
  }

  /** One pass of the `for i` loop, for file `i` at `path`; nothing happens once an exception has been raised. */
  function ScanStep(state: ScanState, i: nat, path: string, detect: string -> Result<seq<Event>, ScanError>): ScanState {
    if state.failure.Some? then state
    else
      match detect(path)
      case Err(e) => ScanState(state.table, Some(e))
      case Ok(frames) =>
        match BlackStarts(frames)
        case None => ScanState(state.table, Some(DetectFailed(MissingKey(BLACK_START))))
        case Some(chapters) => ScanState(StoreEntry(state.table, i, path, chapters), None)
  }

  /** The table after scanning the files of `imports` in order, starting from `table`. */
  function ScanTable(table: seq<ProjectEntry>, imports: seq<string>, detect: string -> Result<seq<Event>, ScanError>)
    : ScanState
  {
    if imports == [] then ScanState(table, None)
    else ScanStep(ScanTable(table, imports[..|imports| - 1], detect), |imports| - 1, imports[|imports| - 1], detect)
  }

  lemma {:induction false} ScanFailurePersists(
    table: seq<ProjectEntry>, imports: seq<string>, i: nat, detect: string -> Result<seq<Event>, ScanError>)
    requires i <= |imports| && ScanTable(table, imports[..i], detect).failure.Some?
    ensures ScanTable(table, imports, detect) == ScanTable(table, imports[..i], detect)
    decreases |imports| - i
  {
    if i < |imports| {
      assert imports[..i + 1][..i] == imports[..i];
      ScanFailurePersists(table, imports, i + 1, detect);
    } else {
      assert imports[..i] == imports;
    }
  }

  /**
   * A scan that completes leaves `max(old length, number of files)` entries: entry i keeps its
   * path if it existed and takes the i-th file's path if it is new, gets the `black_start` of
   * the i-th file's events as its chapters and the hard-coded settings; entries past the
   * import queue are untouched.
   */
  lemma {:induction false} ScanTableShape(
    table: seq<ProjectEntry>, imports: seq<string>, detect: string -> Result<seq<Event>, ScanError>)
    requires ScanTable(table, imports, detect).failure.None?
    ensures var t := ScanTable(table, imports, detect).table;
      |t| == (if |table| >= |imports| then |table| else |imports|) &&
      (forall i :: 0 <= i < |imports| ==>
        detect(imports[i]).Ok? && BlackStarts(detect(imports[i]).value).Some? &&
        t[i].chapters == BlackStarts(detect(imports[i]).value).value &&
        t[i].settings == SCAN_DEFAULTS &&
        t[i].path == (if i < |table| then table[i].path else imports[i])) &&
      (forall i :: |imports| <= i < |table| ==> t[i] == table[i])
    decreases |imports|
  {
    if imports != [] {
      var n := |imports| - 1;
      var init := imports[..n];
      var prev := ScanTable(table, init, detect);
      assert prev.failure.None?;
      ScanTableShape(table, init, detect);
      assert forall i :: 0 <= i < n ==> imports[i] == init[i];
    }
  }

  /**
   * A scan that stops with an exception stops at some file k: the files before k were stored
   * as a complete scan of them would, and file k's detector call raised or one of its events
   * had no `black_start`.
   */
  lemma {:induction false} ScanTableFailure(
    table: seq<ProjectEntry>, imports: seq<string>, detect: string -> Result<seq<Event>, ScanError>)
    requires ScanTable(table, imports, detect).failure.Some?
    ensures exists k :: (0 <= k < |imports| &&
      ScanTable(table, imports[..k], detect).failure.None? &&
      ScanTable(table, imports, detect).table == ScanTable(table, imports[..k], detect).table &&
      (detect(imports[k]).Err? || BlackStarts(detect(imports[k]).value).None?))
    decreases |imports|
  {
    var n := |imports| - 1;
    var init := imports[..n];
    if ScanTable(table, init, detect).failure.Some? {
      ScanTableFailure(table, init, detect);
      var k :| 0 <= k < |init| && ScanTable(table, init[..k], detect).failure.None? &&
        ScanTable(table, init, detect).table == ScanTable(table, init[..k], detect).table &&
        (detect(init[k]).Err? || BlackStarts(detect(init[k]).value).None?);
      assert init[..k] == imports[..k];
    } else {
      assert imports[..n] == init;
    }
  }

  /**
   * As written, the call's keywords do not bind: for any detector and any non-empty import
   * queue the scan raises TypeError on the first file and leaves the table as it was.
   */
  lemma AsWrittenScanNeverStores(
    table: seq<ProjectEntry>, imports: seq<string>, analyze: string -> Result<seq<Event>, DetectError>)
    requires imports != []
    ensures ScanTable(table, imports, path => DetectCall(AS_WRITTEN_KEYWORDS, analyze, path))
      == ScanState(table, Some(UnexpectedKeyword("min_duration")))
  {
    var detect := path => DetectCall(AS_WRITTEN_KEYWORDS, analyze, path);
    assert KEYWORD_PARAMETERS == ["min_black_seconds", "ratio_black_pixels", "black_pixel_threshold", "window_list"];
    assert "min_duration" !in DETECTOR_PARAMETERS;
    assert FirstUnexpected(KEYWORD_PARAMETERS, AS_WRITTEN_KEYWORDS) == Some("min_duration");
    assert ScanTable(table, imports[..1], detect) == ScanState(table, Some(UnexpectedKeyword("min_duration"))) by {
      assert imports[..1][..0] == [];
    }
    ScanFailurePersists(table, imports, 1, detect);
  }

  /**
   * With the keywords renamed, the call binds, and whenever the detector returns events with a
   * `black_start` for every file, each file's chapters are those starts.
   */
  lemma CorrectedScanStoresChapters(
    table: seq<ProjectEntry>, imports: seq<string>, analyze: string -> Result<seq<Event>, DetectError>)
    requires forall i :: 0 <= i < |imports| ==>
      analyze(imports[i]).Ok? && BlackStarts(analyze(imports[i]).value).Some?
    ensures var state := ScanTable(table, imports, path => DetectCall(CORRECTED_KEYWORDS, analyze, path));
      state.failure.None? &&
      |state.table| == (if |table| >= |imports| then |table| else |imports|) &&
      forall i :: 0 <= i < |imports| ==>
        state.table[i].chapters == BlackStarts(analyze(imports[i]).value).value
  {
    var detect := path => DetectCall(CORRECTED_KEYWORDS, analyze, path);
    CorrectedScanCompletes(table, imports, analyze);
    ScanTableShape(table, imports, detect);
  }

  lemma {:induction false} CorrectedScanCompletes(
    table: seq<ProjectEntry>, imports: seq<string>, analyze: string -> Result<seq<Event>, DetectError>)
    requires forall i :: 0 <= i < |imports| ==>
      analyze(imports[i]).Ok? && BlackStarts(analyze(imports[i]).value).Some?
    ensures ScanTable(table, imports, path => DetectCall(CORRECTED_KEYWORDS, analyze, path)).failure.None?
    decreases |imports|
  {
    assert FirstUnexpected(KEYWORD_PARAMETERS, CORRECTED_KEYWORDS) == None by {
      assert KEYWORD_PARAMETERS == ["min_black_seconds", "ratio_black_pixels", "black_pixel_threshold", "window_list"];
      assert forall k :: 0 <= k < |CORRECTED_KEYWORDS| ==> CORRECTED_KEYWORDS[k] in KEYWORD_PARAMETERS;
    }
    if imports != [] {
      var n := |imports| - 1;
      assert forall i :: 0 <= i < n ==> imports[..n][i] == imports[i];
      CorrectedScanCompletes(table, imports[..n], analyze);
    }
  }

  // ---------------------------------------------------------------------------
  // The queue manager

  class QueueManager {
    /** `self.scan_settings`, which the scan does not read. */
    var scanSettings: ScanSettings
    /** `self.project_files` */
    var projectFiles: seq<ProjectEntry>

    constructor ()
      ensures scanSettings == SCAN_DEFAULTS && projectFiles == []
    {
      scanSettings := SCAN_DEFAULTS;
      projectFiles := [];
    }

    /**
     * scan_all_files (queue_manager.py:74-103): for each file of the import queue in order,
     * run the detector and store the `black_start` of its events; an exception ends the loop
     * with the entries of the earlier files already stored.
     */
    method ScanAllFiles(imports: seq<string>, detect: string -> Result<seq<Event>, ScanError>)
      returns (failure: Option<ScanError>)
      modifies this`projectFiles
      ensures ScanState(projectFiles, failure) == ScanTable(old(projectFiles), imports, detect)
    {
      var i := 0;
      while i < |imports|
        invariant 0 <= i <= |imports|
        invariant ScanTable(old(projectFiles), imports[..i], detect) == ScanState(projectFiles, None)
      {
        var path := imports[i];
        var settings := SCAN_DEFAULTS;
        assert imports[..i + 1][..i] == imports[..i];
        match detect(path) {
          case Err(e) =>
            ScanFailurePersists(old(projectFiles), imports, i + 1, detect);
            return Some(e);
          case Ok(frames) =>
            match BlackStarts(frames) {
              case None =>
                ScanFailurePersists(old(projectFiles), imports, i + 1, detect);
                return Some(DetectFailed(MissingKey(BLACK_START)));
              case Some(chapters) =>
                if i < |projectFiles| {
                  projectFiles := projectFiles[i := projectFiles[i].(chapters := chapters, settings := settings)];
                } else {
                  projectFiles := projectFiles + [ProjectEntry(path, chapters, settings)];
                }
            }
        }
        i := i + 1;
      }
      assert imports[..|imports|] == imports;
      failure := None;
    }
  }
}
