/**
 * export_utils.py: the FFMETADATA chapter file handed to ffmpeg, and the bitrates read from
 * ffprobe with their fallbacks.
 *
 * Chapter times are whole milliseconds in this model and `START=` is written as that number;
 * the source computes it as `int(start_time * 1000)` on a float number of seconds, whose
 * truncation this model leaves out.
 * The file is modelled as the text written to it; ffprobe's JSON output is modelled by what
 * the lookup `json.loads(stdout)["streams"][0]["bit_rate"]` can find in it.
 */
module ExportUtils {
  import opened Wrappers
  import opened Text
  import opened Time

  const HEADER := ";FFMETADATA1"
  const CHAPTER_LENGTH: nat := 500
  const DEFAULT_VIDEO_BITRATE: int := 1000000
  const DEFAULT_AUDIO_BITRATE: int := 128000

  // ---------------------------------------------------------------------------
  // The chapter file

  /** The five lines written for chapter number `index` (counting from 0) starting at `start`. */
  function ChapterBlock(index: nat, start: Millis): seq<string> {
    ["[CHAPTER]",
     "TIMEBASE=1/1000",
     "START=" + NatToString(start),
     "END=" + NatToString(start + CHAPTER_LENGTH),
     "title=Chapter " + NatToString(index + 1)]
  }

  /** The lines of the chapter file: the header, then one block per chapter in order. */
  function ChapterLines(chapters: seq<Millis>): seq<string> {
    if chapters == [] then [HEADER]
    else
      var n := |chapters| - 1;
      ChapterLines(chapters[..n]) + ChapterBlock(n, chapters[n])
  }

  /** The text of a file whose lines are `lines`, each ended by "\n". */
  function FileText(lines: seq<string>): string {
    if lines == [] then [] else lines[0] + "\n" + FileText(lines[1..])
  }

  lemma {:induction false} FileTextAppend(a: seq<string>, b: seq<string>)
    ensures FileText(a + b) == FileText(a) + FileText(b)
    decreases |a|
  {
    if a == [] {
      assert a + b == b;
    } else {
      assert (a + b)[0] == a[0];
      assert (a + b)[1..] == a[1..] + b;
      FileTextAppend(a[1..], b);
    }
  }

  lemma FileTextFrom(lines: seq<string>, i: nat)
    requires i < |lines|
    ensures FileText(lines[i..]) == lines[i] + "\n" + FileText(lines[i + 1..])
  {
    assert lines[i..][1..] == lines[i + 1..];
  }

  lemma BlockText(index: nat, start: Millis)
    ensures var b := ChapterBlock(index, start);
      FileText(b) == b[0] + "\n" + (b[1] + "\n" + (b[2] + "\n" + (b[3] + "\n" + (b[4] + "\n"))))
  {
    var b := ChapterBlock(index, start);
    FileTextFrom(b, 4);
    assert b[5..] == [];
    FileTextFrom(b, 3);
    FileTextFrom(b, 2);
    FileTextFrom(b, 1);
    FileTextFrom(b, 0);
    assert b[0..] == b;
  }

  /** write_ffmpeg_chapter_file (export_utils.py:5-15): the text the loop of writes leaves in the file. */
  method WriteChapterFile(chapters: seq<Millis>) returns (text: string)
    ensures text == FileText(ChapterLines(chapters))
  {
    text := HEADER + "\n";
    var i := 0;
    while i < |chapters|
      invariant 0 <= i <= |chapters|
      invariant text == FileText(ChapterLines(chapters[..i]))
    {
      var startMs := chapters[i];
      var endMs := startMs + CHAPTER_LENGTH;
      var startLine := "START=" + NatToString(startMs);
      var endLine := "END=" + NatToString(endMs);
      var titleLine := "title=Chapter " + NatToString(i + 1);
      text := text + ("[CHAPTER]" + "\n" + ("TIMEBASE=1/1000" + "\n" + (startLine + "\n" + (endLine + "\n" + (titleLine + "\n")))));
      assert chapters[..i + 1][..i] == chapters[..i];
      FileTextAppend(ChapterLines(chapters[..i]), ChapterBlock(i, startMs));
      BlockText(i, startMs);
      i := i + 1;
    }
    assert chapters[..i] == chapters;
  }

  /**
   * The file is the header followed by one five-line block per chapter, in order: chapter i
   * starts at its time, ends 500 ms later and is titled "Chapter i+1".
   */
  lemma {:induction false} ChapterFileLayout(chapters: seq<Millis>)
    ensures var lines := ChapterLines(chapters);
      |lines| == 1 + 5 * |chapters| && lines[0] == HEADER &&
      forall i :: 0 <= i < |chapters| ==> lines[1 + 5 * i .. 6 + 5 * i] == ChapterBlock(i, chapters[i])
    decreases |chapters|
  {
    if chapters != [] {
      var n := |chapters| - 1;
      ChapterFileLayout(chapters[..n]);
      var prev := ChapterLines(chapters[..n]);
      var lines := ChapterLines(chapters);
      assert lines == prev + ChapterBlock(n, chapters[n]);
      forall i | 0 <= i < |chapters|
        ensures lines[1 + 5 * i .. 6 + 5 * i] == ChapterBlock(i, chapters[i])
      {
        if i < n {
          assert lines[1 + 5 * i .. 6 + 5 * i] == prev[1 + 5 * i .. 6 + 5 * i];
          assert chapters[..n][i] == chapters[i];
        } else {
          assert lines[1 + 5 * i .. 6 + 5 * i] == lines[|prev|..];
        }
      }
    }
  }

  // ---------------------------------------------------------------------------
  // Reading the file back

  predicate NoLineBreaks(lines: seq<string>) {
    forall k, j :: 0 <= k < |lines| && 0 <= j < |lines[k]| ==> !IsLineBreak(lines[k][j])
  }

  lemma {:induction false} LineEndFinds(s: string, i: nat, e: nat)
    requires i <= e < |s| && IsLineBreak(s[e])
    requires forall k :: i <= k < e ==> !IsLineBreak(s[k])
    ensures LineEnd(s, i) == e
    decreases e - i
  {
    if i < e {
      LineEndFinds(s, i + 1, e);
    }
  }

  lemma SplitLinesCons(l: string, rest: string)
    requires forall j :: 0 <= j < |l| ==> !IsLineBreak(l[j])
    ensures SplitLines(l + "\n" + rest) == [l] + SplitLines(rest)
  {
    var s := l + "\n" + rest;
    assert forall k :: 0 <= k < |l| ==> s[k] == l[k];
    assert s[|l|] == '\n';
    LineEndFinds(s, 0, |l|);
    assert s[..|l|] == l;
    assert s[|l| + 1..] == rest;
  }

  /** `splitlines()` of the written text gives back the lines, provided no line holds a line break. */
  lemma {:induction false} SplitFileText(lines: seq<string>)
    requires NoLineBreaks(lines)
    ensures SplitLines(FileText(lines)) == lines
    decreases |lines|
  {
    if lines != [] {
      SplitLinesCons(lines[0], FileText(lines[1..]));
      assert NoLineBreaks(lines[1..]) by {
        forall k, j | 0 <= k < |lines[1..]| && 0 <= j < |lines[1..][k]|
          ensures !IsLineBreak(lines[1..][k][j])
        {
          assert lines[1..][k] == lines[k + 1];
        }
      }
      SplitFileText(lines[1..]);
    }
  }

  lemma DigitsNoLineBreak(prefix: string, n: nat)
    requires forall j :: 0 <= j < |prefix| ==> !IsLineBreak(prefix[j])
    ensures forall j :: 0 <= j < |prefix + NatToString(n)| ==> !IsLineBreak((prefix + NatToString(n))[j])
  {
    var d := NatToString(n);
    forall j | 0 <= j < |prefix + d|
      ensures !IsLineBreak((prefix + d)[j])
    {
      if j >= |prefix| {
        assert (prefix + d)[j] == d[j - |prefix|];
        assert IsDigit(d[j - |prefix|]);
      }
    }
  }

  lemma {:induction false} ChapterLinesNoBreaks(chapters: seq<Millis>)
    ensures NoLineBreaks(ChapterLines(chapters))
    decreases |chapters|
  {
    if chapters != [] {
      var n := |chapters| - 1;
      ChapterLinesNoBreaks(chapters[..n]);
      var block := ChapterBlock(n, chapters[n]);
      DigitsNoLineBreak("START=", chapters[n]);
      DigitsNoLineBreak("END=", chapters[n] + CHAPTER_LENGTH);
      DigitsNoLineBreak("title=Chapter ", n + 1);
      assert NoLineBreaks(block);
      var prev := ChapterLines(chapters[..n]);
      var lines := prev + block;
      forall k | 0 <= k < |lines|
        ensures forall j :: 0 <= j < |lines[k]| ==> !IsLineBreak(lines[k][j])
      {
        if k < |prev| {
          assert lines[k] == prev[k];
        } else {
          assert lines[k] == block[k - |prev|];
        }
      }
    }
  }

  /** The chapter start a line records: the number after "START=", if the line is one. */
  function StartOf(line: string): Option<nat> {
    if HasPrefix(line, "START=") then ParseNat(line[6..]) else None
  }

  /** The chapter starts recorded in the lines of a chapter file, in order. */
  function ReadStarts(lines: seq<string>): seq<nat> {
    if lines == [] then []
    else
      var n := |lines| - 1;
      ReadStarts(lines[..n]) + (match StartOf(lines[n]) case Some(t) => [t] case None => [])
  }

  lemma {:induction false} ReadStartsAppend(a: seq<string>, b: seq<string>)
    ensures ReadStarts(a + b) == ReadStarts(a) + ReadStarts(b)
    decreases |b|
  {
    if b == [] {
      assert a + b == a;
    } else {
      var n := |b| - 1;
      assert (a + b)[..|a + b| - 1] == a + b[..n];
      ReadStartsAppend(a, b[..n]);
    }
  }

  lemma BlockStart(index: nat, start: Millis)
    ensures ReadStarts(ChapterBlock(index, start)) == [start]
  {
    var b := ChapterBlock(index, start);
    OtherLine(b[0]);
    OtherLine(b[1]);
    StartLine(start);
    OtherLine(b[3]);
    OtherLine(b[4]);
    ReadStartsPrefix(b, 0);
    ReadStartsPrefix(b, 1);
    ReadStartsPrefix(b, 2);
    ReadStartsPrefix(b, 3);
    ReadStartsPrefix(b, 4);
    assert b[..0] == [] && b[..5] == b;
  }

  lemma OtherLine(line: string)
    requires line != [] && line[0] != 'S'
    ensures StartOf(line) == None
  {
  }

  lemma StartLine(t: nat)
    ensures StartOf("START=" + NatToString(t)) == Some(t)
  {
    var line := "START=" + NatToString(t);
    NatToStringRoundTrip(t);
    assert line[..6] == "START=";
    assert line[6..] == NatToString(t);
  }

  lemma ReadStartsPrefix(lines: seq<string>, k: nat)
    requires k < |lines|
    ensures ReadStarts(lines[..k + 1]) ==
      ReadStarts(lines[..k]) + (match StartOf(lines[k]) case Some(t) => [t] case None => [])
  {
    assert lines[..k + 1][..k] == lines[..k];
  }

  lemma HeaderStarts()
    ensures ReadStarts([HEADER]) == []
  {
    OtherLine(HEADER);
    ReadStartsPrefix([HEADER], 0);
    assert [HEADER][..1] == [HEADER] && [HEADER][..0] == [];
  }

  /** Appending a chapter's block to lines that record `before` records its start after them. */
  lemma BlockAppended(prev: seq<string>, index: nat, start: Millis, before: seq<nat>)
    requires ReadStarts(prev) == before
    ensures ReadStarts(prev + ChapterBlock(index, start)) == before + [start]
  {
    ReadStartsAppend(prev, ChapterBlock(index, start));
    BlockStart(index, start);
  }

  /** The chapter starts read back from the lines of the chapter file are the chapters written. */
  lemma {:induction false} ChapterLinesStarts(chapters: seq<Millis>)
    ensures ReadStarts(ChapterLines(chapters)) == chapters
    decreases |chapters|
  {
    if chapters == [] {
      HeaderStarts();
    } else {
      var n := |chapters| - 1;
      assert chapters[..n] + [chapters[n]] == chapters;
      ChapterLinesStarts(chapters[..n]);
      BlockAppended(ChapterLines(chapters[..n]), n, chapters[n], chapters[..n]);
    }
  }

  /** Round trip: splitting the written file into lines and reading the START fields gives the chapters back. */
  lemma ChapterFileRoundTrip(chapters: seq<Millis>)
    ensures ReadStarts(SplitLines(FileText(ChapterLines(chapters)))) == chapters
  {
    ChapterLinesNoBreaks(chapters);
    SplitFileText(ChapterLines(chapters));
    ChapterLinesStarts(chapters);
  }

  // ---------------------------------------------------------------------------
  // Bitrates

  /**
   * What `json.loads(stdout)["streams"][0]["bit_rate"]` meets in ffprobe's output: text that is
   * not JSON, JSON without "streams", or the streams with the `bit_rate` text of each, `None`
   * where a stream has none.
   */
  datatype ProbeOutput =
    | NotJson
    | NoStreams
    | Streams(bitRates: seq<Option<string>>)

  /**
   * The bitrate a probe reports, or `default` when the lookup raises KeyError, IndexError or
   * ValueError (export_utils.py:27-31 and 42-46).
   */
  function ProbedBitrate(probe: ProbeOutput, default: int): int {
    match probe
    case NotJson => default
    case NoStreams => default
    case Streams(rates) =>
      if rates == [] then default
      else
        match rates[0]
        case None => default
        case Some(text) =>
          match ParseInt(text)
          case None => default
          case Some(v) => v
  }

  /** get_bitrates (export_utils.py:17-48): the video stream's bitrate, then the audio stream's. */
  function GetBitrates(videoProbe: ProbeOutput, audioProbe: ProbeOutput): (rates: (int, int)) {
    (ProbedBitrate(videoProbe, DEFAULT_VIDEO_BITRATE), ProbedBitrate(audioProbe, DEFAULT_AUDIO_BITRATE))
  }

  /** A bitrate ffprobe reports for the first stream is the one returned, whatever the other streams say. */
  lemma ProbedBitrateUsed(rate: nat, others: seq<Option<string>>, videoProbe: ProbeOutput, audioProbe: ProbeOutput)
    ensures GetBitrates(Streams([Some(NatToString(rate))] + others), audioProbe).0 == rate
    ensures GetBitrates(videoProbe, Streams([Some(NatToString(rate))] + others)).1 == rate
  {
    NatToStringRoundTrip(rate);
  }

  /** Whenever `int()` accepts the first stream's `bit_rate` text, its value is returned. */
  lemma BitrateParsed(text: string, v: int, others: seq<Option<string>>, videoProbe: ProbeOutput, audioProbe: ProbeOutput)
    requires ParseInt(text) == Some(v)
    ensures GetBitrates(Streams([Some(text)] + others), audioProbe).0 == v
    ensures GetBitrates(videoProbe, Streams([Some(text)] + others)).1 == v
  {
  }

  /**
   * Without a usable bitrate — output that is not JSON, no "streams", no stream, no `bit_rate`,
   * or text `int()` rejects such as "N/A" — video falls back to 1000000 and audio to 128000.
   */
  lemma BitrateFallbacks(probe: ProbeOutput, others: seq<Option<string>>)
    requires probe == NotJson || probe == NoStreams || probe == Streams([]) ||
      probe == Streams([None] + others) || probe == Streams([Some("N/A")] + others)
    ensures GetBitrates(probe, probe) == (1000000, 128000)
  {
    assert ParseNat("N/A") == None by {
      assert !IsDigit('N');
    }
  }

  /** A result other than the default comes from the first stream's `bit_rate` text. */
  lemma BitrateSource(probe: ProbeOutput, default: int)
    requires ProbedBitrate(probe, default) != default
    ensures probe.Streams? && probe.bitRates != [] && probe.bitRates[0].Some?
    ensures ParseInt(probe.bitRates[0].value) == Some(ProbedBitrate(probe, default))
  {
  }
}
