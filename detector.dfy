/**
 * detector.py: the parser that turns ffmpeg's `blackdetect` diagnostic text into event
 * dictionaries, the optional time-window filter, and the `HH:MM:SS.mmm` formatter.
 *
 * The ffmpeg run itself is outside the model: its stderr text is an input. Times are whole
 * milliseconds, and Python's `float(value)` on a token's value is the parameter `parse`,
 * which answers `None` where `float` raises ValueError.
 */
module Detector {
  import opened Wrappers
  import opened Text
  import opened Time

  /** One black-frame event: the dictionary `event` built from the `key:value` tokens of a line. */
  type Event = map<string, Millis>

  /** `float(value)`, abstracted: `None` where Python raises ValueError. */
  type ValueParser = string -> Option<Millis>

  const BLACK_START := "black_start"

  datatype DetectError =
    /** `key, value = part.split(":")` on a token with two or more colons: ValueError, raised outside the `try`. */
    | TooManyValues(token: string)
    /** `e["black_start"]` on an event that has no such key: KeyError. */
    | MissingKey(key: string)

  // ---------------------------------------------------------------------------
  // Parsing one line

  /** The line holds the marker `black_start` somewhere (`"black_start" in line`). */
  predicate IsCandidate(line: string) {
    Contains(line, BLACK_START)
  }

  function KeyOf(token: string): string
    requires ':' in token
  {
    token[..IndexOf(token, ':')]
  }

  function ValueText(token: string): string
    requires ':' in token
  {
    token[IndexOf(token, ':') + 1..]
  }

  /** The token assigns `key`: it has exactly one colon, `key` before it, and a value `float` accepts. */
  predicate SetsKey(token: string, key: string, parse: ValueParser) {
    ':' in token && Count(token, ':') == 1 && KeyOf(token) == key && parse(ValueText(token)).Some?
  }

  /** A token whose `split(":")` yields more than two pieces, so that the unpacking raises. */
  predicate BreaksUnpacking(token: string) {
    Count(token, ':') > 1
  }

  /** One pass of the inner `for part in parts` loop (detector.py:33-38). */
  function TokenStep(event: Event, token: string, parse: ValueParser): Result<Event, DetectError> {
    if ':' !in token then Ok(event)
    else if Count(token, ':') != 1 then Err(TooManyValues(token))
    else
      match parse(ValueText(token))
      case None => Ok(event)
      case Some(v) => Ok(event[KeyOf(token) := v])
  }

  /** The event the tokens build, starting from `{}`; the first unpacking error aborts. */
  function TokensEvent(tokens: seq<string>, parse: ValueParser): Result<Event, DetectError> {
    if tokens == [] then Ok(map[])
    else
      match TokensEvent(tokens[..|tokens| - 1], parse)
      case Err(e) => Err(e)
      case Ok(event) => TokenStep(event, tokens[|tokens| - 1], parse)
  }

  /** The event of a candidate line: its whitespace-separated tokens, folded left to right. */
  function LineEvent(line: string, parse: ValueParser): Result<Event, DetectError> {
    TokensEvent(SplitWhitespace(line), parse)
  }

  // ---------------------------------------------------------------------------
  // Parsing the whole text

  /** The events of the lines, one per candidate line; the first error aborts. */
  function EventsOf(lines: seq<string>, parse: ValueParser): Result<seq<Event>, DetectError> {
    if lines == [] then Ok([])
    else
      match EventsOf(lines[..|lines| - 1], parse)
      case Err(e) => Err(e)
      case Ok(events) =>
        var line := lines[|lines| - 1];
        if !IsCandidate(line) then Ok(events)
        else
          match LineEvent(line, parse)
          case Err(e) => Err(e)
          case Ok(event) => Ok(events + [event])
  }

  /** The candidate lines, in their order. */
  function Candidates(lines: seq<string>): seq<string> {
    if lines == [] then []
    else Candidates(lines[..|lines| - 1]) + (if IsCandidate(lines[|lines| - 1]) then [lines[|lines| - 1]] else [])
  }

  lemma {:induction false} TokensErrorPersists(tokens: seq<string>, j: nat, parse: ValueParser)
    requires j <= |tokens| && TokensEvent(tokens[..j], parse).Err?
    ensures TokensEvent(tokens, parse) == TokensEvent(tokens[..j], parse)
    decreases |tokens| - j
  {
    if j < |tokens| {
      assert tokens[..j + 1][..j] == tokens[..j];
      TokensErrorPersists(tokens, j + 1, parse);
    } else {
      assert tokens[..j] == tokens;
    }
  }

  lemma {:induction false} EventsErrorPersists(lines: seq<string>, i: nat, parse: ValueParser)
    requires i <= |lines| && EventsOf(lines[..i], parse).Err?
    ensures EventsOf(lines, parse) == EventsOf(lines[..i], parse)
    decreases |lines| - i
  {
    if i < |lines| {
      assert lines[..i + 1][..i] == lines[..i];
      EventsErrorPersists(lines, i + 1, parse);
    } else {
      assert lines[..i] == lines;
    }
  }

  /**
   * The inner loop of detect_black_frames (detector.py:30-38): the tokens of one candidate line
   * fill the event key by key.
   */
  method ParseLine(line: string, parse: ValueParser) returns (r: Result<Event, DetectError>)
    ensures r == LineEvent(line, parse)
  {
    var parts := SplitWhitespace(line);
    var event: Event := map[];
    var j := 0;
    while j < |parts|
      invariant 0 <= j <= |parts|
      invariant TokensEvent(parts[..j], parse) == Ok(event)
    {
      var part := parts[j];
      assert parts[..j + 1][..j] == parts[..j];
      if ':' in part {
        if Count(part, ':') != 1 {
          // the unpacking `key, value = part.split(":")` raises before the `try`
          TokensErrorPersists(parts, j + 1, parse);
          return Err(TooManyValues(part));
        }
        var colon := IndexOf(part, ':');
        var key, value := part[..colon], part[colon + 1..];
        match parse(value) {
          case Some(v) =>
            event := event[key := v];
          case None =>
            // float(value) raised ValueError: the token is skipped
        }
      }
      j := j + 1;
    }
    assert parts[..|parts|] == parts;
    r := Ok(event);
  }

  /**
   * detect_black_frames, lines 28-39: one event per line containing `black_start`, in line
   * order; the first token that breaks the unpacking aborts the whole parse.
   */
  method ParseEvents(stderr: string, parse: ValueParser) returns (r: Result<seq<Event>, DetectError>)
    ensures r == EventsOf(SplitLines(stderr), parse)
  {
    var lines := SplitLines(stderr);
    var events: seq<Event> := [];
    var i := 0;
    while i < |lines|
      invariant 0 <= i <= |lines|
      invariant EventsOf(lines[..i], parse) == Ok(events)
    {
      var line := lines[i];
      assert lines[..i + 1][..i] == lines[..i];
      if IsCandidate(line) {
        var event := ParseLine(line, parse);
        if event.Err? {
          EventsErrorPersists(lines, i + 1, parse);
          return Err(event.error);
        }
        events := events + [event.value];
      }
      i := i + 1;
    }
    assert lines[..|lines|] == lines;
    r := Ok(events);
  }

  /**
   * Exactly one event per candidate line, in order: the parse fails precisely when some
   * candidate line fails, and otherwise the k-th event is the event of the k-th candidate line.
   */
  lemma {:induction false} OneEventPerCandidate(lines: seq<string>, parse: ValueParser)
    ensures var cs := Candidates(lines);
      EventsOf(lines, parse).Ok? <==> forall k :: 0 <= k < |cs| ==> LineEvent(cs[k], parse).Ok?
    ensures var cs := Candidates(lines);
      EventsOf(lines, parse).Ok? ==>
        (|EventsOf(lines, parse).value| == |cs| &&
         forall k :: 0 <= k < |cs| ==> LineEvent(cs[k], parse) == Ok(EventsOf(lines, parse).value[k]))
    decreases |lines|
  {
    if lines != [] {
      var init := lines[..|lines| - 1];
      var last := lines[|lines| - 1];
      OneEventPerCandidate(init, parse);
      var cs0 := Candidates(init);
      var cs := Candidates(lines);
      if IsCandidate(last) {
        assert cs == cs0 + [last];
        assert forall k :: 0 <= k < |cs0| ==> cs[k] == cs0[k];
        assert cs[|cs0|] == last;
        if EventsOf(init, parse).Ok? && LineEvent(last, parse).Ok? {
          var events := EventsOf(init, parse).value;
          var all := events + [LineEvent(last, parse).value];
          assert EventsOf(lines, parse) == Ok(all);
          forall k | 0 <= k < |cs|
            ensures LineEvent(cs[k], parse) == Ok(all[k])
          {
            if k < |cs0| {
              assert all[k] == events[k];
            }
          }
        } else if EventsOf(init, parse).Err? {
          assert exists k :: 0 <= k < |cs0| && LineEvent(cs[k], parse).Err?;
          assert EventsOf(lines, parse) == EventsOf(init, parse);
          assert !EventsOf(lines, parse).Ok?;
          assert !(forall k :: 0 <= k < |Candidates(lines)| ==> LineEvent(Candidates(lines)[k], parse).Ok?);
        } else {
          assert LineEvent(cs[|cs0|], parse).Err?;
          assert EventsOf(lines, parse).Err?;
          assert !(forall k :: 0 <= k < |cs| ==> LineEvent(cs[k], parse).Ok?);
        }
      } else {
        assert cs == cs0;
        assert EventsOf(lines, parse) == EventsOf(init, parse);
      }
    }
  }

  /** The fold fails exactly when some token has more than one colon (detector.py:34). */
  lemma {:induction false} TokensEventError(tokens: seq<string>, parse: ValueParser)
    ensures TokensEvent(tokens, parse).Err? <==> exists j :: 0 <= j < |tokens| && BreaksUnpacking(tokens[j])
    decreases |tokens|
  {
    if tokens != [] {
      var n := |tokens| - 1;
      var init := tokens[..n];
      TokensEventError(init, parse);
      assert forall j :: 0 <= j < n ==> tokens[j] == init[j];
      if BreaksUnpacking(tokens[n]) {
        assert Count(tokens[n], ':') > 0;
      }
    }
  }

  /** A key is in a line's event exactly when some token of the line sets it (detector.py:32-38). */
  lemma {:induction false} TokensEventContents(tokens: seq<string>, parse: ValueParser)
    requires TokensEvent(tokens, parse).Ok?
    ensures var event := TokensEvent(tokens, parse).value;
      forall key :: key in event <==> exists j :: 0 <= j < |tokens| && SetsKey(tokens[j], key, parse)
    decreases |tokens|
  {
    if tokens != [] {
      var n := |tokens| - 1;
      var init := tokens[..n];
      var t := tokens[n];
      assert TokensEvent(init, parse).Ok?;
      TokensEventContents(init, parse);
      assert forall j :: 0 <= j < n ==> tokens[j] == init[j];
      var ev := TokensEvent(init, parse).value;
      var event := TokensEvent(tokens, parse).value;
      assert event == TokenStep(ev, t, parse).value;
      forall key
        ensures key in event <==> exists j :: 0 <= j < |tokens| && SetsKey(tokens[j], key, parse)
      {
        if SetsKey(t, key, parse) {
          assert key in event;
        } else {
          assert key in event <==> key in ev;
        }
      }
    }
  }

  /**
   * When several tokens set the same key, the value comes from the LAST of them: later
   * duplicates overwrite earlier ones (detector.py:36).
   */
  lemma {:induction false} TokensEventLastWins(tokens: seq<string>, parse: ValueParser)
    requires TokensEvent(tokens, parse).Ok?
    ensures var event := TokensEvent(tokens, parse).value;
      forall j, key ::
        (0 <= j < |tokens| && SetsKey(tokens[j], key, parse) &&
         forall i :: j < i < |tokens| ==> !SetsKey(tokens[i], key, parse)) ==>
        key in event && event[key] == parse(ValueText(tokens[j])).value
    decreases |tokens|
  {
    if tokens != [] {
      var n := |tokens| - 1;
      var init := tokens[..n];
      var t := tokens[n];
      assert TokensEvent(init, parse).Ok?;
      TokensEventLastWins(init, parse);
      var ev := TokensEvent(init, parse).value;
      var event := TokensEvent(tokens, parse).value;
      assert event == TokenStep(ev, t, parse).value;
      forall j, key | 0 <= j < |tokens| && SetsKey(tokens[j], key, parse) &&
        (forall i :: j < i < |tokens| ==> !SetsKey(tokens[i], key, parse))
        ensures key in event && event[key] == parse(ValueText(tokens[j])).value
      {
        if j < n {
          assert tokens[j] == init[j];
          assert !SetsKey(t, key, parse);
          assert forall i :: j < i < |init| ==> init[i] == tokens[i];
        }
      }
    }
  }

  /** A candidate line none of whose tokens holds a colon still yields an event: the empty dictionary. */
  lemma {:induction false} NoColonEmptyEvent(tokens: seq<string>, parse: ValueParser)
    requires forall j :: 0 <= j < |tokens| ==> ':' !in tokens[j]
    ensures TokensEvent(tokens, parse) == Ok(map[])
    decreases |tokens|
  {
    if tokens != [] {
      NoColonEmptyEvent(tokens[..|tokens| - 1], parse);
    }
  }

  /** For instance, the bare line `black_start` is a candidate whose event is `{}`. */
  lemma BareMarkerEvent(parse: ValueParser)
    ensures IsCandidate(BLACK_START)
    ensures LineEvent(BLACK_START, parse) == Ok(map[])
  {
    assert OccursAt(BLACK_START, BLACK_START, 0) by {
      assert BLACK_START[0..|BLACK_START|] == BLACK_START;
    }
    WordChars(BLACK_START);
    SplitSingleToken(BLACK_START);
    NoColonEmptyEvent([BLACK_START], parse);
  }

  /** A word of lower-case letters and underscores holds neither whitespace nor a colon. */
  lemma WordChars(w: string)
    requires forall j :: 0 <= j < |w| ==> 'a' <= w[j] <= 'z' || w[j] == '_'
    ensures forall j :: 0 <= j < |w| ==> !IsSpace(w[j])
    ensures ':' !in w
  {
  }

  // ---------------------------------------------------------------------------
  // The window filter (detector.py:42-46)

  /** A `(start, end)` pair of `window_list`. */
  datatype Window = Window(start: Millis, end: Millis)

  predicate InWindow(t: Millis, w: Window) {
    w.start <= t <= w.end
  }

  predicate InSomeWindow(t: Millis, windows: seq<Window>) {
    exists k :: 0 <= k < |windows| && InWindow(t, windows[k])
  }

  /** The list comprehension of lines 43-46, for a non-empty window list. */
  function KeepInWindows(events: seq<Event>, windows: seq<Window>): Result<seq<Event>, DetectError> {
    if events == [] then Ok([])
    else
      var e := events[0];
      if BLACK_START !in e then Err(MissingKey(BLACK_START))
      else
        match KeepInWindows(events[1..], windows)
        case Err(x) => Err(x)
        case Ok(rest) => Ok(if InSomeWindow(e[BLACK_START], windows) then [e] + rest else rest)
  }

  /** `if window_list:` an empty (or absent) window list passes every event through. */
  function FilterWindows(events: seq<Event>, windows: seq<Window>): Result<seq<Event>, DetectError> {
    if windows == [] then Ok(events) else KeepInWindows(events, windows)
  }

  /** `r` is a subsequence of `s`: its elements appear in `s` in the same order. */
  predicate IsSubsequence<T(==)>(r: seq<T>, s: seq<T>) {
    if r == [] then true
    else if s == [] then false
    else if r[0] == s[0] then IsSubsequence(r[1..], s[1..])
    else IsSubsequence(r, s[1..])
  }

  lemma FilterWithoutWindows(events: seq<Event>, windows: seq<Window>)
    requires windows == []
    ensures FilterWindows(events, windows) == Ok(events)
  {
  }

  lemma {:induction false} KeepError(events: seq<Event>, windows: seq<Window>)
    ensures KeepInWindows(events, windows).Err? <==> exists k :: 0 <= k < |events| && BLACK_START !in events[k]
    decreases |events|
  {
    if events != [] {
      KeepError(events[1..], windows);
      assert forall k :: 0 < k < |events| ==> events[k] == events[1..][k - 1];
    }
  }

  lemma {:induction false} KeepSubsequence(events: seq<Event>, windows: seq<Window>)
    requires KeepInWindows(events, windows).Ok?
    ensures IsSubsequence(KeepInWindows(events, windows).value, events)
    decreases |events|
  {
    if events != [] {
      var e0, rest := events[0], events[1..];
      KeepSubsequence(rest, windows);
      KeepSound(rest, windows);
      var keptRest := KeepInWindows(rest, windows).value;
      var kept := KeepInWindows(events, windows).value;
      if InSomeWindow(e0[BLACK_START], windows) {
        assert kept == [e0] + keptRest;
        assert kept[1..] == keptRest;
      } else {
        assert kept == keptRest;
        if kept != [] {
          assert InSomeWindow(kept[0][BLACK_START], windows);
          assert kept[0] != e0;
        }
      }
    }
  }

  lemma {:induction false} KeepSound(events: seq<Event>, windows: seq<Window>)
    requires KeepInWindows(events, windows).Ok?
    ensures var kept := KeepInWindows(events, windows).value;
      multiset(kept) <= multiset(events) &&
      forall k :: 0 <= k < |kept| ==> BLACK_START in kept[k] && InSomeWindow(kept[k][BLACK_START], windows)
    decreases |events|
  {
    if events != [] {
      var e0, rest := events[0], events[1..];
      KeepSound(rest, windows);
      var keptRest := KeepInWindows(rest, windows).value;
      var kept := KeepInWindows(events, windows).value;
      assert multiset(events) == multiset{e0} + multiset(rest) by {
        assert events == [e0] + rest;
      }
      if InSomeWindow(e0[BLACK_START], windows) {
        assert kept == [e0] + keptRest;
        assert multiset(kept) == multiset{e0} + multiset(keptRest);
        assert forall k :: 0 < k < |kept| ==> kept[k] == keptRest[k - 1];
      } else {
        assert kept == keptRest;
      }
    }
  }

  lemma {:induction false} KeepComplete(events: seq<Event>, windows: seq<Window>)
    requires KeepInWindows(events, windows).Ok?
    ensures var kept := KeepInWindows(events, windows).value;
      forall e :: e in events && BLACK_START in e && InSomeWindow(e[BLACK_START], windows) ==>
        multiset(kept)[e] == multiset(events)[e]
    decreases |events|
  {
    if events != [] {
      var e0, rest := events[0], events[1..];
      KeepComplete(rest, windows);
      KeepSound(rest, windows);
      var keptRest := KeepInWindows(rest, windows).value;
      var kept := KeepInWindows(events, windows).value;
      assert multiset(events) == multiset{e0} + multiset(rest) by {
        assert events == [e0] + rest;
      }
      if InSomeWindow(e0[BLACK_START], windows) {
        assert kept == [e0] + keptRest;
        assert multiset(kept) == multiset{e0} + multiset(keptRest);
      } else {
        assert kept == keptRest;
      }
      forall e | e in events && BLACK_START in e && InSomeWindow(e[BLACK_START], windows)
        ensures multiset(kept)[e] == multiset(events)[e]
      {
        if e !in rest {
          assert multiset(rest)[e] == 0;
          assert multiset(keptRest)[e] == 0;
        }
      }
    }
  }

  /**
   * With a non-empty window list, the filter keeps exactly the events whose `black_start`
   * lies in some window (bounds included), in their original order and with their
   * multiplicity; it raises KeyError exactly when some event lacks `black_start`.
   */
  lemma FilterKeepsEventsInWindows(events: seq<Event>, windows: seq<Window>)
    requires windows != []
    ensures FilterWindows(events, windows).Err? <==> exists k :: 0 <= k < |events| && BLACK_START !in events[k]
    ensures FilterWindows(events, windows).Ok? ==>
      var kept := FilterWindows(events, windows).value;
      IsSubsequence(kept, events) &&
      multiset(kept) <= multiset(events) &&
      (forall k :: 0 <= k < |kept| ==> BLACK_START in kept[k] && InSomeWindow(kept[k][BLACK_START], windows)) &&
      (forall e :: e in events && BLACK_START in e && InSomeWindow(e[BLACK_START], windows) ==>
        multiset(kept)[e] == multiset(events)[e])
  {
    KeepError(events, windows);
    if KeepInWindows(events, windows).Ok? {
      KeepSubsequence(events, windows);
      KeepSound(events, windows);
      KeepComplete(events, windows);
    }
  }

  // ---------------------------------------------------------------------------
  // detect_black_frames as a whole

  /** What detect_black_frames returns for the given ffmpeg stderr text and window list. */
  function BlackFrames(stderr: string, windows: seq<Window>, parse: ValueParser): Result<seq<Event>, DetectError> {
    match EventsOf(SplitLines(stderr), parse)
    case Err(e) => Err(e)
    case Ok(events) => FilterWindows(events, windows)
  }

  /** detect_black_frames (detector.py:5-48) once ffmpeg has produced `stderr`. */
  method DetectBlackFrames(stderr: string, windows: seq<Window>, parse: ValueParser)
    returns (r: Result<seq<Event>, DetectError>)
    ensures r == BlackFrames(stderr, windows, parse)
  {
    var parsed := ParseEvents(stderr, parse);
    match parsed {
      case Err(e) =>
        return Err(e);
      case Ok(events) =>
        if windows != [] {
          r := KeepInWindows(events, windows);
        } else {
          r := Ok(events);
        }
    }
  }

  /**
   * `[bf["black_start"] for bf in black_frames]`: the start of every event, in event order,
   * or `None` (KeyError) when some event has no `black_start`.
   */
  function BlackStarts(events: seq<Event>): (r: Option<seq<Millis>>)
    ensures r.Some? <==> forall k :: 0 <= k < |events| ==> BLACK_START in events[k]
    ensures r.Some? ==>
      |r.value| == |events| && forall k :: 0 <= k < |events| ==> r.value[k] == events[k][BLACK_START]
  {
    if events == [] then Some([])
    else
      match BlackStarts(events[..|events| - 1])
      case None => None
      case Some(starts) =>
        var last := events[|events| - 1];
        if BLACK_START in last then Some(starts + [last[BLACK_START]]) else None
  }

  // ---------------------------------------------------------------------------
  // format_timestamp (detector.py:50-57)

  /** The fields of an `HH:MM:SS.mmm` timestamp. */
  datatype Clock = Clock(hours: nat, minutes: nat, seconds: nat, millis: nat)

  predicate WellFormed(c: Clock) {
    c.minutes < 60 && c.seconds < 60 && c.millis < 1000
  }

  function ClockMillis(c: Clock): Millis {
    c.hours * 3600000 + c.minutes * 60000 + c.seconds * 1000 + c.millis
  }

  /** The `divmod` steps of format_timestamp for a non-negative time in milliseconds. */
  function ClockOf(ms: Millis): (c: Clock)
    ensures WellFormed(c) && ClockMillis(c) == ms
  {
    var totalSeconds := ms / 1000;
    var hours, remainder := totalSeconds / 3600, totalSeconds % 3600;
    var minutes, seconds := remainder / 60, remainder % 60;
    Clock(hours, minutes, seconds, ms % 1000)
  }

  /** `f"{hours:02}:{minutes:02}:{seconds:02}.{milliseconds:03}"` */
  function ClockText(c: Clock): string {
    ZeroPad(c.hours, 2) + ":" + ZeroPad(c.minutes, 2) + ":" + ZeroPad(c.seconds, 2) + "." + ZeroPad(c.millis, 3)
  }

  function FormatTimestamp(ms: Millis): string {
    ClockText(ClockOf(ms))
  }

  /** Reads an `H..H:MM:SS.mmm` text back, taking the fixed-width fields from the end. */
  function ParseTimestamp(s: string): Option<Millis> {
    var n := |s|;
    if n < 12 || s[n - 10] != ':' || s[n - 7] != ':' || s[n - 4] != '.' then None
    else
      match (ParseNat(s[..n - 10]), ParseNat(s[n - 9..n - 7]), ParseNat(s[n - 6..n - 4]), ParseNat(s[n - 3..]))
      case (Some(h), Some(m), Some(sec), Some(ms)) =>
        var c := Clock(h, m, sec, ms);
        if WellFormed(c) then Some(ClockMillis(c)) else None
      case _ => None
  }

  lemma DivMod60(q: nat, r: nat)
    requires r < 60
    ensures (q * 60 + r) / 60 == q && (q * 60 + r) % 60 == r
  {
  }

  lemma DivMod1000(q: nat, r: nat)
    requires r < 1000
    ensures (q * 1000 + r) / 1000 == q && (q * 1000 + r) % 1000 == r
  {
  }

  lemma DivMod3600(q: nat, r: nat)
    requires r < 3600
    ensures (q * 3600 + r) / 3600 == q && (q * 3600 + r) % 3600 == r
  {
  }

  /** The divmod steps recover the fields of any well-formed clock from its total. */
  lemma ClockOfInverse(c: Clock)
    requires WellFormed(c)
    ensures ClockOf(ClockMillis(c)) == c
  {
    var rest := c.minutes * 60 + c.seconds;
    var totalSeconds := c.hours * 3600 + rest;
    assert ClockMillis(c) == totalSeconds * 1000 + c.millis;
    DivMod1000(totalSeconds, c.millis);
    DivMod3600(c.hours, rest);
    DivMod60(c.minutes, c.seconds);
  }

  /** Two well-formed clocks with the same total are the same clock. */
  lemma ClockUnique(c1: Clock, c2: Clock)
    requires WellFormed(c1) && WellFormed(c2) && ClockMillis(c1) == ClockMillis(c2)
    ensures c1 == c2
  {
    ClockOfInverse(c1);
    ClockOfInverse(c2);
  }

  /**
   * The formatted fields: hours, minutes and seconds padded to at least two digits (hours are
   * not capped), milliseconds to exactly three, and the punctuation at fixed places from the end.
   */
  lemma FormatTimestampLayout(ms: Millis)
    ensures var s := FormatTimestamp(ms); var c := ClockOf(ms);
      |s| >= 12 &&
      s[..|s| - 10] == ZeroPad(c.hours, 2) &&
      |ZeroPad(c.minutes, 2)| == 2 && |ZeroPad(c.seconds, 2)| == 2 && |ZeroPad(c.millis, 3)| == 3 &&
      s[|s| - 10] == ':' && s[|s| - 9..|s| - 7] == ZeroPad(c.minutes, 2) &&
      s[|s| - 7] == ':' && s[|s| - 6..|s| - 4] == ZeroPad(c.seconds, 2) &&
      s[|s| - 4] == '.' && s[|s| - 3..] == ZeroPad(c.millis, 3)
  {
    var c := ClockOf(ms);
    ZeroPadExact(c.minutes, 2);
    ZeroPadExact(c.seconds, 2);
    ZeroPadExact(c.millis, 3);
    var h, m, sec, l := ZeroPad(c.hours, 2), ZeroPad(c.minutes, 2), ZeroPad(c.seconds, 2), ZeroPad(c.millis, 3);
    var s := h + ":" + m + ":" + sec + "." + l;
    assert FormatTimestamp(ms) == s;
    assert |h| >= 2;
    var n := |s|;
    assert n == |h| + 10;
    assert s[..n - 10] == h;
    assert s[n - 9..n - 7] == m;
    assert s[n - 6..n - 4] == sec;
    assert s[n - 3..] == l;
  }

  /** Reading a formatted timestamp back recovers the milliseconds exactly. */
  lemma TimestampRoundTrip(ms: Millis)
    ensures ParseTimestamp(FormatTimestamp(ms)) == Some(ms)
  {
    var c := ClockOf(ms);
    FormatTimestampLayout(ms);
    ZeroPadRoundTrip(c.hours, 2);
    ZeroPadRoundTrip(c.minutes, 2);
    ZeroPadRoundTrip(c.seconds, 2);
    ZeroPadRoundTrip(c.millis, 3);
  }
}
