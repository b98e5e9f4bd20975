/**
 * gui.py: the chapter bookkeeping of the ChapterEditor window. The window keeps two lists,
 * the manually added chapters and the chapters taken from the last detection. Adding,
 * removing and exporting work on the sorted, duplicate-free union of both (gui.py:162, 173,
 * 218); right after a detection the timeline is handed the detected chapters alone, in event
 * order (gui.py:115-118), a widget call this model leaves out.
 *
 * The media player is outside the model: its position (in whole milliseconds, as
 * `media_player.position()` returns it) is a parameter of the operations that read it.
 */
module Editor {
  import opened Wrappers
  import opened Text
  import opened Time
  import opened Detector

  // ---------------------------------------------------------------------------
  // The merged view `sorted(set(manual_chapters + detected_chapters))`

  predicate StrictlyIncreasing(s: seq<Millis>) {
    forall i, j :: 0 <= i < j < |s| ==> s[i] < s[j]
  }

  /** Places `t` into an increasing list unless it is already there. */
  function InsertSorted(t: Millis, r: seq<Millis>): (q: seq<Millis>)
    requires StrictlyIncreasing(r)
    ensures StrictlyIncreasing(q)
    ensures forall x :: x in q <==> x == t || x in r
  {
    if r == [] then [t]
    else if t < r[0] then [t] + r
    else if t == r[0] then r
    else
      var tail := InsertSorted(t, r[1..]);
      assert forall k :: 0 <= k < |r[1..]| ==> r[0] < r[1..][k] by {
        assert forall k :: 0 <= k < |r[1..]| ==> r[1..][k] == r[k + 1];
      }
      assert forall k :: 0 <= k < |tail| ==> r[0] < tail[k] by {
        assert forall k :: 0 <= k < |tail| ==> tail[k] in tail;
      }
      [r[0]] + tail
  }

  /** `sorted(set(s))` */
  function SortedUnique(s: seq<Millis>): (r: seq<Millis>)
    ensures StrictlyIncreasing(r)
    ensures forall x :: x in r <==> x in s
  {
    if s == [] then [] else InsertSorted(s[|s| - 1], SortedUnique(s[..|s| - 1]))
  }

  /** The list handed to the timeline and to the export (gui.py:162, 173, 218). */
  function Merge(manual: seq<Millis>, detected: seq<Millis>): (r: seq<Millis>)
    ensures StrictlyIncreasing(r)
    ensures forall t :: t in r <==> t in manual || t in detected
  {
    SortedUnique(manual + detected)
  }

  /** A strictly increasing list is determined by its elements. */
  lemma {:induction false} IncreasingUnique(a: seq<Millis>, b: seq<Millis>)
    requires StrictlyIncreasing(a) && StrictlyIncreasing(b)
    requires forall x :: x in a <==> x in b
    ensures a == b
    decreases |a|
  {
    HeadIsElement(b);
    if a != [] {
      assert a[0] == b[0] by {
        assert a[0] in b && b[0] in a;
      }
      forall y
        ensures y in a[1..] <==> y in b[1..]
      {
        if y in a[1..] {
          assert y in b && y != b[0];
        }
        if y in b[1..] {
          assert y in a && y != a[0];
        }
      }
      IncreasingUnique(a[1..], b[1..]);
      assert a == [a[0]] + a[1..] && b == [b[0]] + b[1..];
    }
  }

  /** The merged view is empty exactly when both lists are. */
  lemma MergeEmpty(manual: seq<Millis>, detected: seq<Millis>)
    ensures Merge(manual, detected) == [] <==> manual == [] && detected == []
  {
    HeadIsElement(manual);
    HeadIsElement(detected);
    HeadIsElement(Merge(manual, detected));
  }

  lemma HeadIsElement(s: seq<Millis>)
    ensures s != [] ==> s[0] in s
  {
  }

  /**
   * The merge depends only on the union of the two lists: merging an already merged list
   * with itself or with nothing gives it back, and the two lists play symmetric roles.
   */
  lemma MergeIdempotent(manual: seq<Millis>, detected: seq<Millis>)
    ensures var r := Merge(manual, detected); Merge(r, r) == r && Merge(r, []) == r
    ensures Merge(manual, detected) == Merge(detected, manual)
  {
    var r := Merge(manual, detected);
    IncreasingUnique(Merge(r, r), r);
    IncreasingUnique(Merge(r, []), r);
    IncreasingUnique(Merge(detected, manual), r);
  }

  // ---------------------------------------------------------------------------
  // Nearest-chapter removal (gui.py:198-221)

  /** The removal tolerance, 10.0 seconds. */
  const TOLERANCE: nat := 10000

  function Distance(a: Millis, b: Millis): nat {
    if a <= b then b - a else a - b
  }

  /**
   * `min(all_chapters, key=lambda t: abs(t - position))`: the position of the first element
   * at the least distance from `position`.
   */
  function ClosestIndex(all: seq<Millis>, position: Millis): (i: nat)
    requires all != []
    ensures i < |all|
    ensures forall j :: 0 <= j < |all| ==> Distance(all[i], position) <= Distance(all[j], position)
    ensures forall j :: 0 <= j < i ==> Distance(all[j], position) > Distance(all[i], position)
  {
    if |all| == 1 then 0
    else
      var i := ClosestIndex(all[..|all| - 1], position);
      if Distance(all[|all| - 1], position) < Distance(all[i], position) then |all| - 1 else i
  }

  datatype RemoveOutcome =
    /** "No chapters to remove." */
    | NoChapters
    /** "No chapter within 10.0 seconds.": the nearest chapter is further away. */
    | NoneNearby(closest: Millis)
    /** The nearest chapter, within the tolerance, is removed. */
    | Removed(chapter: Millis)

  /** Which chapter a removal at `position` picks, if any. */
  function RemovalTarget(manual: seq<Millis>, detected: seq<Millis>, position: Millis): RemoveOutcome {
    var all := manual + detected;
    if all == [] then NoChapters
    else
      var closest := all[ClosestIndex(all, position)];
      if Distance(closest, position) > TOLERANCE then NoneNearby(closest) else Removed(closest)
  }

  /** `if t in s: s.remove(t)` */
  function Without(s: seq<Millis>, t: Millis): seq<Millis> {
    if t in s then RemoveFirst(s, t) else s
  }

  /**
   * The removal picks the first chapter of `manual + detected` at the least distance from the
   * position, removes nothing when there are no chapters, and removes nothing when even the
   * nearest chapter is more than 10 seconds away; a distance of exactly 10 seconds removes.
   */
  lemma RemovalPicksNearest(manual: seq<Millis>, detected: seq<Millis>, position: Millis)
    ensures RemovalTarget(manual, detected, position) == NoChapters <==> manual + detected == []
    ensures RemovalTarget(manual, detected, position).NoneNearby? <==>
      (manual + detected != [] && forall t :: t in manual + detected ==> Distance(t, position) > TOLERANCE)
    ensures RemovalTarget(manual, detected, position).Removed? ==>
      var t := RemovalTarget(manual, detected, position).chapter;
      var all := manual + detected;
      Distance(t, position) <= TOLERANCE &&
      (forall x :: x in all ==> Distance(t, position) <= Distance(x, position)) &&
      exists i :: 0 <= i < |all| && all[i] == t && forall j :: 0 <= j < i ==> Distance(all[j], position) > Distance(t, position)
  {
    var all := manual + detected;
    if all != [] {
      var i := ClosestIndex(all, position);
      assert forall x :: x in all ==> Distance(all[i], position) <= Distance(x, position);
    }
  }

  /**
   * After a removal, the merged view has lost the removed chapter (when each list held it at
   * most once) and nothing else.
   */
  lemma {:induction false} RemovalShrinksMerge(manual: seq<Millis>, detected: seq<Millis>, t: Millis)
    requires Count(manual, t) <= 1 && Count(detected, t) <= 1
    ensures forall x :: x in Merge(Without(manual, t), Without(detected, t)) <==> x in Merge(manual, detected) && x != t
  {
    WithoutElements(manual, t);
    WithoutElements(detected, t);
  }

  lemma WithoutElements(s: seq<Millis>, t: Millis)
    requires Count(s, t) <= 1
    ensures forall x :: x in Without(s, t) <==> x in s && x != t
  {
    if t in s {
      var r: seq<Millis> := RemoveFirst(s, t);
      var before: multiset<Millis> := multiset(s);
      var after: multiset<Millis> := multiset(r);
      MultisetCount(s, t);
      assert after == before - multiset{t};
      forall x
        ensures x in r <==> x in s && x != t
      {
        assert x in r <==> after[x] > 0;
        assert x in s <==> before[x] > 0;
      }
    }
  }

  /** No time occurs twice in the list. */
  predicate Distinct(s: seq<Millis>) {
    forall i, j :: 0 <= i < j < |s| ==> s[i] != s[j]
  }

  /** A list without repeats holds each time at most once. */
  lemma {:induction false} DistinctCount(s: seq<Millis>, t: Millis)
    requires Distinct(s)
    ensures Count(s, t) <= 1
    decreases |s|
  {
    if s != [] {
      assert Distinct(s[1..]) by {
        forall i, j | 0 <= i < j < |s[1..]|
          ensures s[1..][i] != s[1..][j]
        {
          assert s[1..][i] == s[i + 1] && s[1..][j] == s[j + 1];
        }
      }
      DistinctCount(s[1..], t);
      if s[0] == t {
        assert t !in s[1..] by {
          forall k | 0 <= k < |s[1..]|
            ensures s[1..][k] != t
          {
            assert s[1..][k] == s[k + 1];
          }
        }
      }
    }
  }

  /** Appending a time the list lacks keeps it without repeats (gui.py:157-160). */
  lemma AppendDistinct(s: seq<Millis>, t: Millis)
    requires Distinct(s) && t !in s
    ensures Distinct(s + [t])
  {
    var r := s + [t];
    forall i, j | 0 <= i < j < |r|
      ensures r[i] != r[j]
    {
      if j < |s| {
        assert r[i] == s[i] && r[j] == s[j];
      } else {
        assert r[i] == s[i];
      }
    }
  }

  /** Removing an occurrence keeps a list without repeats (gui.py:216). */
  lemma WithoutDistinct(s: seq<Millis>, t: Millis)
    requires Distinct(s)
    ensures Distinct(Without(s, t))
  {
    if t in s {
      SpliceDistinct(s, IndexOf(s, t));
    }
  }

  lemma SpliceDistinct(s: seq<Millis>, i: nat)
    requires Distinct(s) && i < |s|
    ensures Distinct(s[..i] + s[i + 1..])
  {
    var r := s[..i] + s[i + 1..];
    forall a, b | 0 <= a < b < |r|
      ensures r[a] != r[b]
    {
      if b < i {
        assert r[a] == s[a] && r[b] == s[b];
      } else if a < i {
        assert r[a] == s[a] && r[b] == s[b + 1];
      } else {
        assert r[a] == s[a + 1] && r[b] == s[b + 1];
      }
    }
  }

  lemma {:induction false} MultisetCount(s: seq<Millis>, t: Millis)
    ensures multiset(s)[t] == Count(s, t)
    decreases |s|
  {
    if s != [] {
      MultisetCount(s[1..], t);
      assert s == [s[0]] + s[1..];
    }
  }

  /** Worked cases: chapters at 10, 25 and 50 s, and a tie between the two lists. */
  lemma RemovalExamples()
    ensures RemovalTarget([10000, 25000, 50000], [], 28000) == Removed(25000)
    ensures RemovalTarget([10000, 25000, 50000], [], 70000) == NoneNearby(50000)
    ensures RemovalTarget([10000, 25000, 50000], [], 35000) == Removed(25000)
    ensures RemovalTarget([20000], [10000], 15000) == Removed(20000)
  {
    assert [10000, 25000, 50000] + [] == [10000, 25000, 50000];
    assert [20000] + [10000] == [20000, 10000];
  }

  // ---------------------------------------------------------------------------
  // The plain-text export (gui.py:172-188)

  /**
   * The fields the export computes inline: `h = int(t // 3600)`, `m = int((t % 3600) // 60)`,
   * `s = int(t % 60)`, `ms = int((t - int(t)) * 1000)`, here on whole milliseconds; the
   * truncation of the float product, which can lose a millisecond, is left out.
   */
  function ExportClock(t: Millis): Clock {
    Clock(t / 3600000, (t % 3600000) / 60000, (t % 60000) / 1000, t % 1000)
  }

  lemma DivMod60000(q: nat, r: nat)
    requires r < 60000
    ensures (q * 60000 + r) / 60000 == q && (q * 60000 + r) % 60000 == r
  {
  }

  /** The export's inline formula and format_timestamp split every time into the same fields. */
  lemma ExportClockAgrees(t: Millis)
    ensures ExportClock(t) == ClockOf(t)
  {
    var hours, belowHour := t / 3600000, t % 3600000;
    var minutes, belowMinute := belowHour / 60000, belowHour % 60000;
    var seconds, millis := belowMinute / 1000, belowMinute % 1000;
    assert t == (hours * 60 + minutes) * 60000 + belowMinute;
    DivMod60000(hours * 60 + minutes, belowMinute);
    assert t == ((hours * 60 + minutes) * 60 + seconds) * 1000 + millis;
    DivMod1000(((hours * 60 + minutes) * 60 + seconds), millis);
    assert ExportClock(t) == Clock(hours, minutes, seconds, millis);
    ClockOfInverse(Clock(hours, minutes, seconds, millis));
  }

  /** `f"CHAPTER{i:02}={formatted}"`, the fields computed by the export's inline formula. */
  function ChapterTimeLine(n: nat, t: Millis): string {
    "CHAPTER" + ZeroPad(n, 2) + "=" + ClockText(ExportClock(t))
  }

  /** On whole milliseconds, the export writes each chapter time as format_timestamp would. */
  lemma ChapterTimeLineFormat(n: nat, t: Millis)
    ensures ChapterTimeLine(n, t) == "CHAPTER" + ZeroPad(n, 2) + "=" + FormatTimestamp(t)
  {
    ExportClockAgrees(t);
  }

  function ChapterNameLine(n: nat): string {
    "CHAPTER" + ZeroPad(n, 2) + "NAME=Chapter " + NatToString(n)
  }

  /** The lines of the plain-text export for the chapters in order, numbered from 1. */
  function ExportLinesOf(chapters: seq<Millis>): seq<string> {
    if chapters == [] then []
    else
      var n := |chapters|;
      ExportLinesOf(chapters[..n - 1]) + [ChapterTimeLine(n, chapters[n - 1]), ChapterNameLine(n)]
  }

  /**
   * The export has two lines per chapter, in order: the time line of chapter k and then its
   * name line, with k counted from 1 (`ChapterTimeLineFormat` spells the time line out).
   */
  lemma {:induction false} ExportLinesLayout(chapters: seq<Millis>)
    ensures var lines := ExportLinesOf(chapters);
      |lines| == 2 * |chapters| &&
      forall k :: 0 <= k < |chapters| ==>
        lines[2 * k] == ChapterTimeLine(k + 1, chapters[k]) && lines[2 * k + 1] == ChapterNameLine(k + 1)
    decreases |chapters|
  {
    if chapters != [] {
      var n := |chapters|;
      var init := chapters[..n - 1];
      ExportLinesLayout(init);
      var lines := ExportLinesOf(chapters);
      var prev := ExportLinesOf(init);
      forall k | 0 <= k < n
        ensures lines[2 * k] == ChapterTimeLine(k + 1, chapters[k]) && lines[2 * k + 1] == ChapterNameLine(k + 1)
      {
        if k < n - 1 {
          assert lines[2 * k] == prev[2 * k] && lines[2 * k + 1] == prev[2 * k + 1];
          assert init[k] == chapters[k];
        }
      }
    }
  }

  // ---------------------------------------------------------------------------
  // The editor window (gui.py)

  class ChapterEditor {
    /** `self.manual_chapters` */
    var manualChapters: seq<Millis>
    /** `self.detected_chapters`; before the first detection the source reads it as `[]`. */
    var detectedChapters: seq<Millis>

    constructor ()
      ensures manualChapters == [] && detectedChapters == []
      ensures Distinct(manualChapters)
    {
      manualChapters := [];
      detectedChapters := [];
    }

    function Chapters(): (r: seq<Millis>)
      reads this
      ensures StrictlyIncreasing(r)
      ensures forall t :: t in r <==> t in manualChapters || t in detectedChapters
    {
      Merge(manualChapters, detectedChapters)
    }

    /**
     * detect_chapters (gui.py:101-103): the detected chapters become the `black_start` of every
     * event, in event order; an event without `black_start` raises KeyError before the
     * assignment, leaving the chapters as they were.
     */
    method DetectChapters(events: seq<Event>) returns (failure: Option<DetectError>)
      modifies this`detectedChapters
      ensures failure.None? <==> forall k :: 0 <= k < |events| ==> BLACK_START in events[k]
      ensures failure.None? ==>
        |detectedChapters| == |events| &&
        forall k :: 0 <= k < |events| ==> detectedChapters[k] == events[k][BLACK_START]
      ensures failure.Some? ==> detectedChapters == old(detectedChapters)
    {
      match BlackStarts(events) {
        case None =>
          failure := Some(MissingKey(BLACK_START));
        case Some(starts) =>
          detectedChapters := starts;
          failure := None;
      }
    }

    /**
     * add_chapter_at_current_time: a position already among the manual chapters changes nothing;
     * otherwise it is appended to them and the new merged list goes to the timeline.
     */
    method AddChapterAt(position: Millis) returns (timeline: Option<seq<Millis>>)
      modifies this`manualChapters
      ensures position in old(manualChapters) ==> manualChapters == old(manualChapters) && timeline == None
      ensures position !in old(manualChapters) ==>
        manualChapters == old(manualChapters) + [position] && timeline == Some(Chapters())
      ensures timeline.Some? ==> forall t :: t in timeline.value <==> t == position || t in old(Chapters())
      ensures Distinct(old(manualChapters)) ==> Distinct(manualChapters)
    {
      if position in manualChapters {
        return None;
      }
      if Distinct(manualChapters) {
        AppendDistinct(manualChapters, position);
      }
      manualChapters := manualChapters + [position];
      timeline := Some(Merge(manualChapters, detectedChapters));
    }

    /**
     * remove_chapter_near_current_time: the chapter of `manual + detected` nearest the position
     * (the first one on a tie) is removed, once from the detected list if it is there and once
     * from the manual list if it is there, unless it is more than 10 seconds away.
     */
    method RemoveChapterNear(position: Millis) returns (outcome: RemoveOutcome, timeline: Option<seq<Millis>>)
      modifies this
      ensures outcome == RemovalTarget(old(manualChapters), old(detectedChapters), position)
      ensures outcome.Removed? ==>
        detectedChapters == Without(old(detectedChapters), outcome.chapter) &&
        manualChapters == Without(old(manualChapters), outcome.chapter) &&
        timeline == Some(Chapters())
      ensures !outcome.Removed? ==>
        detectedChapters == old(detectedChapters) && manualChapters == old(manualChapters) && timeline == None
      ensures Distinct(old(manualChapters)) ==> Distinct(manualChapters)
      ensures outcome.Removed? && Distinct(old(manualChapters)) && Count(old(detectedChapters), outcome.chapter) <= 1 ==>
        forall x :: x in timeline.value <==> x in old(Chapters()) && x != outcome.chapter
    {
      var all := manualChapters + detectedChapters;
      if all == [] {
        return NoChapters, None;
      }
      var closest := all[ClosestIndex(all, position)];
      if Distance(closest, position) > TOLERANCE {
        return NoneNearby(closest), None;
      }
      if Distinct(manualChapters) {
        WithoutDistinct(manualChapters, closest);
        DistinctCount(manualChapters, closest);
        if Count(detectedChapters, closest) <= 1 {
          RemovalShrinksMerge(manualChapters, detectedChapters, closest);
        }
      }
      if closest in detectedChapters {
        detectedChapters := RemoveFirst(detectedChapters, closest);
      }
      if closest in manualChapters {
        manualChapters := RemoveFirst(manualChapters, closest);
      }
      outcome := Removed(closest);
      timeline := Some(Merge(manualChapters, detectedChapters));
    }

    /**
     * export_chapters_to_file, without the file write: `None` when there is nothing to export,
     * otherwise two lines per merged chapter, `CHAPTERnn=HH:MM:SS.mmm` and
     * `CHAPTERnnNAME=Chapter n`, numbered from 1.
     */
    method ExportLines() returns (lines: Option<seq<string>>)
      ensures lines.None? <==> manualChapters == [] && detectedChapters == []
      ensures lines.Some? ==> lines.value == ExportLinesOf(Merge(manualChapters, detectedChapters))
    {
      var chapters := Merge(manualChapters, detectedChapters);
      MergeEmpty(manualChapters, detectedChapters);
      if chapters == [] {
        return None;
      }
      var out: seq<string> := [];
      var i := 0;
      while i < |chapters|
        invariant 0 <= i <= |chapters|
        invariant out == ExportLinesOf(chapters[..i])
      {
        var n := i + 1;
        assert chapters[..n][..i] == chapters[..i];
        out := out + [ChapterTimeLine(n, chapters[i]), ChapterNameLine(n)];
        i := i + 1;
      }
      assert chapters[..i] == chapters;
      lines := Some(out);
    }
  }
}
