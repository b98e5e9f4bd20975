# machap chapter logic in Dafny

machap finds chapter marks in video files. ffmpeg's `blackdetect` filter reports black
intervals. An editor window merges those detected marks with marks the user adds by hand.
A queue window scans a list of files into a project table. Export writes the marks out as
plain `CHAPTERnn=` lines or as an FFMETADATA file for ffmpeg.

This project models the logic under those windows and proves properties of it. It covers:

- parsing ffmpeg's stderr into black-frame events and filtering them by time windows;
- formatting `HH:MM:SS.mmm` timestamps;
- the editor's two chapter lists and their add, nearest-removal and export operations;
- the project-table update of the file queue;
- the FFMETADATA chapter text and the bitrate fallbacks.

Conventions:

- All times are whole milliseconds (`nat`).
- Python's `float(value)` on a token is an abstract partial parser: a parameter of type `string -> Option<nat>`.
- An exception the code raises becomes an `Err` result:
  - the tuple-unpacking ValueError of a token with two colons;
  - the KeyError of an event without `black_start`;
  - the TypeError of a keyword argument that binds no free parameter.

Modules:

- `Wrappers` — `Option` and `Result`.
- `Time` — `Millis`, the whole-millisecond time every module shares.
- `Text` — decimal formatting and parsing, zero padding, `splitlines()`, `split()`, `count`, `index` and `list.remove`, as Python defines them.
- `Detector` (detector.py):
  - the parse loop, as the method `ParseEvents` proved against the function `EventsOf`;
  - the window filter;
  - `detect_black_frames` as a whole;
  - the timestamp formatter and a reader for its output.
- `Editor` (gui.py):
  - the sorted, duplicate-free merge;
  - nearest-chapter selection;
  - the class `ChapterEditor`, whose fields are the two chapter lists and whose methods take the player position as a parameter.
- `Queue` (queue_manager.py) — the class `QueueManager` with `ScanAllFiles`, proved against the function `ScanTable`, and the keyword-binding step of the detector call.
- `ExportUtils` (export_utils.py) — the chapter file as written by a loop, its layout and its read-back, and `get_bitrates`.

Behaviour worth knowing:

- **Chapter position.** A chapter is the event's `black_start` (gui.py:103).
- **Removing the nearest chapter.**
  - The candidate is searched in `manual + detected` with duplicates kept.
  - Ties go to the first such element.
  - The candidate is removed once from each list that holds it, so from both when it is in both.
- **Adding a chapter.** The time is appended to the manual list. Only a time already in the manual list is refused.
- **Malformed tokens.** A token with two colons aborts the whole parse.
- **The queue scan.** It stops at the first exception; the files after it are not scanned.

## Model

| member | source | states |
|---|---|---|
| Detector.ParseLine | detector.py:30-38 | the token loop returns exactly the event `LineEvent` specifies: the tokens fold left to right from `{}`, and the first token with more than one colon aborts |
| Detector.ParseEvents | detector.py:28-39 | the loop over `splitlines()` returns exactly the event list `EventsOf` specifies, or the unpacking error of the first token with more than one colon |
| Detector.TokensErrorPersists | detector.py:32-37 | once a token has raised, later tokens do not change the outcome, so the loop may stop there |
| Detector.EventsErrorPersists | detector.py:28-39 | once a line has raised, later lines do not change the outcome |
| Detector.OneEventPerCandidate | detector.py:28-39 | the parse succeeds iff every line containing `black_start` parses; the k-th event is then the event of the k-th such line; other lines produce nothing |
| Detector.TokensEventError | detector.py:32-37 | a line fails iff one of its tokens contains more than one `:` |
| Detector.TokensEventContents | detector.py:30-38 | a key is in the event iff some single-colon token `key:value` has a value that parses; unparsable values are skipped |
| Detector.TokensEventLastWins | detector.py:32-36 | when several tokens set a key, the event holds the value of the last one |
| Detector.NoColonEmptyEvent | detector.py:31-39 | a candidate line with no `key:value` token yields the empty event |
| Detector.BareMarkerEvent | detector.py:29-39 | the line `black_start` alone is a candidate and yields `{}` |
| Detector.FilterWithoutWindows | detector.py:42-46 | `FilterWindows` with an empty window list leaves the events unchanged |
| Detector.KeepError | detector.py:43-46 | `KeepInWindows`, the list comprehension, raises KeyError iff some event lacks `black_start` |
| Detector.KeepSubsequence | detector.py:43-46 | the kept events are an order-preserving subsequence of the input |
| Detector.KeepSound | detector.py:43-46 | every kept event has its `black_start` in some window, bounds included |
| Detector.KeepComplete | detector.py:43-46 | every qualifying event is kept with its full multiplicity |
| Detector.FilterKeepsEventsInWindows | detector.py:42-46 | `FilterWindows` with a non-empty window list: the error case iff, order, soundness and completeness together |
| Detector.DetectBlackFrames | detector.py:28-48 | parsing then filtering yields `BlackFrames`, the composition of the parse and the filter |
| Detector.BlackStarts | gui.py:103 | the starts exist iff every event has `black_start`; then there is one start per event, in event order |
| Detector.ClockOf | detector.py:52-56 | minutes and seconds are below 60 and milliseconds below 1000; h·3600000 + m·60000 + s·1000 + ms equals the input |
| Detector.ClockOfInverse | detector.py:53-56 | the divmod steps recover the fields of any well-formed clock from its total |
| Detector.ClockUnique | detector.py:54-55 | the divmod decomposition is the only well-formed one for a given total |
| Detector.FormatTimestampLayout | detector.py:50-57 | `FormatTimestamp`, through `ClockText`: hours are padded to at least 2 digits and not capped; minutes and seconds to exactly 2; milliseconds to exactly 3; `:`, `:` and `.` sit at fixed places from the end |
| Detector.TimestampRoundTrip | detector.py:50-57 | `FormatTimestamp` loses nothing: reading a formatted timestamp back gives the milliseconds it was made from |
| Editor.InsertSorted | gui.py:162 | inserting into a strictly increasing list keeps it strictly increasing; it holds the old elements and the new one |
| Editor.SortedUnique | gui.py:162 | `sorted(set(s))` is strictly increasing and has the same elements as `s` |
| Editor.Merge | gui.py:162 | the merged view is strictly increasing; it holds exactly the elements of manual ∪ detected |
| Editor.IncreasingUnique | gui.py:162 | two strictly increasing lists with the same elements are equal, so the merged view is determined by the set alone |
| Editor.MergeEmpty | gui.py:173-177 | the merged view is empty iff both lists are empty |
| Editor.MergeIdempotent | gui.py:173 | merging is symmetric; merging the merged view again, or with nothing, gives it back |
| Editor.ClosestIndex | gui.py:207 | the index of an element at minimal distance, and the first one among ties |
| Editor.RemovalPicksNearest | gui.py:198-210 | the decision `RemovalTarget` takes: there is no candidate iff both lists are empty; nothing is removed iff the minimum distance exceeds 10 s (exactly 10 s still removes); a removed chapter is the first minimiser of manual ++ detected |
| Editor.WithoutElements | gui.py:212-216 | removing one occurrence of t from a list holding at most one t leaves exactly the other elements |
| Editor.RemovalShrinksMerge | gui.py:212-218 | when each list holds t at most once, the merged view after the removal is the old merged view without t (a list holding t twice keeps one copy) |
| Editor.DistinctCount | gui.py:157-160 | a list without repeats, such as the manual list, holds each time at most once |
| Editor.AppendDistinct | gui.py:157-160 | appending a time the list does not hold keeps it without repeats |
| Editor.WithoutDistinct | gui.py:214-216 | removing one occurrence keeps a list without repeats |
| Editor.RemovalExamples | gui.py:198-216 | chapters at 10, 25 and 50 s: a request at 28 s removes 25 s; at 35 s it removes 25 s; at 70 s it removes nothing; a tie between 10 s detected and 20 s manual at 15 s removes the manual 20 s |
| Editor.ExportClockAgrees | gui.py:181-184 | on whole milliseconds, the export's `//` and `%` field split equals the timestamp formatter's divmod split |
| Editor.ChapterTimeLineFormat | gui.py:181-187 | on whole milliseconds, the time line of chapter n is `CHAPTERnn=` followed by the chapter's time as format_timestamp writes it |
| Editor.ExportLinesLayout | gui.py:179-188 | the export has exactly two lines per chapter, in order: the time line of chapter k, then `CHAPTERkkNAME=Chapter k`, with k counted from 1 |
| Editor.ChapterEditor.constructor | gui.py:85 | both chapter lists start empty (`detected_chapters` is read through `getattr(..., [])` until set), so the manual list starts without repeats |
| Editor.ChapterEditor.Chapters | gui.py:162 | the list handed to the timeline is strictly increasing and equals set(manual) ∪ set(detected) |
| Editor.ChapterEditor.DetectChapters | gui.py:103 | the detected chapters become the `black_start` of each event, in event order; a missing key raises and leaves them unchanged |
| Editor.ChapterEditor.AddChapterAt | gui.py:153-170 | a time already among the manual chapters changes nothing; otherwise it is appended to the manual list, the detected list is unchanged, and the timeline receives the merged view, which adds exactly that time; a manual list without repeats stays so |
| Editor.ChapterEditor.RemoveChapterNear | gui.py:198-221 | the outcome is the nearest-candidate decision; on removal, one occurrence is removed from each list holding it and the rest keep their order; otherwise nothing changes; a manual list without repeats stays so, and when it has none and the detected list holds the chapter at most once, the timeline is the old merged view without that chapter |
| Editor.ChapterEditor.ExportLines | gui.py:172-188 | there is nothing to export iff both lists are empty; otherwise the loop produces exactly the lines `ExportLinesOf` gives for the merged view |
| Queue.FirstUnexpected | queue_manager.py:85-90 | the keywords bind iff each is a parameter name; the reported keyword is passed but is not a parameter |
| Queue.DetectCallBinding | queue_manager.py:85-90 | `DetectCall`: the path binds `video_path` by position, so a keyword that is no other parameter raises TypeError before the detector runs, naming a passed keyword that is either unknown or `video_path` (a second value for it); with every keyword free the call succeeds iff the detector does, with its events or its error; the as-written call raises on `min_duration`, the corrected one succeeds iff the detector does |
| Queue.ScanFailurePersists | queue_manager.py:75-92 | once a file has raised, the rest of the queue changes nothing |
| Queue.ScanTableShape | queue_manager.py:74-103 | after a completed scan: the length is max(old length, number of files); existing entries keep their path and new ones take the file's path; entry i holds file i's starts and the 2.0/0.98/0.1 settings; entries past the queue are untouched |
| Queue.ScanTableFailure | queue_manager.py:75-103 | a scan that raises stops at some file k: files before k were stored, and k's detector call failed or an event lacked `black_start` |
| Queue.AsWrittenScanNeverStores | queue_manager.py:85-90 | as written, any non-empty queue raises TypeError on `min_duration` before storing anything |
| Queue.CorrectedScanCompletes | queue_manager.py:85-92 | with the keywords renamed, the scan completes whenever the detector returns events with `black_start` |
| Queue.CorrectedScanStoresChapters | queue_manager.py:85-103 | with the keywords renamed, each file's entry holds that file's black starts |
| Queue.QueueManager.constructor | queue_manager.py:13-22 | the settings start at 2.0/0.98/0.1 and the project table empty |
| Queue.QueueManager.ScanAllFiles | queue_manager.py:74-103 | the loop leaves exactly the table `ScanTable` specifies, and reports the exception that stopped it |
| ExportUtils.WriteChapterFile | export_utils.py:5-15 | the text written is the header line and one block per chapter, each line ended by a newline |
| ExportUtils.ChapterFileLayout | export_utils.py:7-15 | the header is first; then exactly one five-line block per chapter, in input order: `[CHAPTER]`, `TIMEBASE=1/1000`, `START=t`, `END=t+500`, `title=Chapter i+1` |
| ExportUtils.SplitFileText | export_utils.py:6-15 | splitting the written text into lines recovers the lines written |
| ExportUtils.ChapterLinesStarts | export_utils.py:9-13 | the `START=` lines hold the chapters, in order, and no other line looks like one |
| ExportUtils.ChapterFileRoundTrip | export_utils.py:5-15 | on whole milliseconds, reading the START values back from the file text gives the input list exactly |
| ExportUtils.ProbedBitrateUsed | export_utils.py:27-46 | a `bit_rate` that the first stream reports is the value returned, for video and for audio |
| ExportUtils.BitrateParsed | export_utils.py:17-48 | `GetBitrates`, through `ProbedBitrate`: whenever `int()` accepts the first stream's `bit_rate` text, its value is returned, whatever the other streams say |
| ExportUtils.BitrateFallbacks | export_utils.py:27-46 | the bitrate falls back to 1000000 (video) and 128000 (audio) in each case: output that is not JSON, no `streams`, no stream, no `bit_rate`, or an unparsable value such as `N/A` |
| ExportUtils.BitrateSource | export_utils.py:28-31 | a result other than the default is always the parsed `bit_rate` of the first stream |

## Left out

- Running ffmpeg and ffprobe. The stderr text is an input of `DetectBlackFrames`. ffprobe's JSON is reduced to what the `["streams"][0]["bit_rate"]` lookup finds in it (`ProbeOutput`).
- File writes, message boxes, the media player and all Qt widgets:
  - the no-video guard of `detect_chapters`;
  - the results summary;
  - the timeline widget;
  - the frame-step buttons.
- timeline.py, scan_settings.py and main.py are not part of this model.
- Floating point:
  - times are whole milliseconds, and `round(black_start, 3)`, the `/ 1000.0` conversions and the float products below are not modelled;
  - negative times cannot occur;
  - the value parser `float()` is a parameter.
- Editor.ExportClockAgrees: holds on whole milliseconds only. The export takes the milliseconds as `int((timestamp - int(timestamp)) * 1000)` on float seconds (gui.py:184), which truncates and can lose 1 ms: a chapter added at 1001 ms is 1.001 s (gui.py:155) and exports as `00:00:01.000`, while `format_timestamp` (detector.py:52-56) writes `.001`.
- Editor.ChapterTimeLineFormat: holds on whole milliseconds only, for the same truncation at gui.py:184.
- ExportUtils.ChapterFileRoundTrip: holds on whole milliseconds only. The file writes `int(start_time * 1000)` (export_utils.py:9), which truncates the float product: 1.001 s gives `START=1000`.
- Detector.DetectBlackFrames: the ffmpeg options built from `min_black_seconds`, `ratio_black_pixels` and `black_pixel_threshold` are not modelled, because the command is not run.
- ExportUtils.ProbedBitrate: `int()` is modelled as an optional sign followed by decimal digits. Python also accepts surrounding whitespace and `_` separators, which ffprobe does not emit. Only a text `bit_rate` is modelled. `int()` also accepts a JSON number and decimal digits outside ASCII; a `null`, list or object `bit_rate` raises an uncaught TypeError. None of these is modelled.
- Queue.QueueManager.ScanAllFiles: the detector is a parameter, and the `window_list` entry of `self.scan_settings` is not modelled, because the scan never reads these settings. `update_scan_settings`, `export_files` (a print placeholder) and the import/export list widgets are not modelled.
- Debug prints are not modelled.

## Findings

| source | as written | input that shows it | evidently intended | confidence | as-written member | corrected member |
|---|---|---|---|---|---|---|
| queue_manager.py:85-90 | `detect_black_frames(path, min_duration=..., ratio=..., threshold=...)`, but the function's parameters are `min_black_seconds`, `ratio_black_pixels` and `black_pixel_threshold` (detector.py:5-11), so the call raises TypeError | any import queue with at least one file: the first call raises, and no entry is stored or updated | pass the settings under the detector's own parameter names, so each file's black starts are stored | not executed | Queue.AsWrittenScanNeverStores | Queue.CorrectedScanStoresChapters |
