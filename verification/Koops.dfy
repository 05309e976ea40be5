/** Finding kernel oopses in a log. The first part says what an oops is, by
    cutting the log into episodes; the scanner below finds them in one pass with
    a look-ahead, and is proved to find exactly those. */
module Koops {
  import opened Common

  datatype Line = Line(text: string, level: int)

  datatype Range = Range(first: nat, last: nat)

  /** Tests on the text of one line: whether it looks like the start of an
      oops, enters a call trace, has the shape of a trace line, is an
      instruction dump, or is the kernel's end-of-oops marker. */
  datatype Tests = Tests(
    suspicious: string -> bool, enters: string -> bool, shape: string -> bool, dump: string -> bool,
      marker: string -> bool)

  function SkipSpaces(s: string): string {
    if s != "" && s[0] == ' ' then SkipSpaces(s[1..]) else s
  }

  /** Leading spaces go, and nothing else. */
  lemma {:induction false} SkipSpacesExactly(s: string) returns (k: nat)
    ensures k <= |s| && SkipSpaces(s) == s[k..]
    ensures (forall j :: 0 <= j < k ==> s[j] == ' ') && (k < |s| ==> s[k] != ' ')
  {
    k := 0;
    if s != "" && s[0] == ' ' {
      k := SkipSpacesExactly(s[1..]);
      k := k + 1;
    }
  }

  // ---- Tests on a position in the log -------------------------------------

  /** A level kept in a (signed) char. */
  function AsChar(level: int): int { (level + 128) % 256 - 128 }

  /** Levels from -128 to 127 survive that, others wrap around. */
  lemma LevelsKept(level: int)
    ensures -128 <= level <= 127 ==> AsChar(level) == level
    ensures AsChar(level + 256) == AsChar(level)
  {
  }

  /** Levels as the kernel has them. */
  predicate PlainLevels(lines: seq<Line>) { forall i :: 0 <= i < |lines| ==> 0 <= lines[i].level <= 127 }

  function LevelBefore(lines: seq<Line>, i: nat): int
    requires i <= |lines|
  {
    if i == 0 then 0 else AsChar(lines[i - 1].level)
  }

  function Cur(lines: seq<Line>, i: nat): string
    requires i < |lines|
  {
    SkipSpaces(lines[i].text)
  }

  predicate Suspicious(tests: Tests, lines: seq<Line>, i: nat)
    requires i < |lines|
  {
    tests.suspicious(Cur(lines, i))
  }

  predicate Marker(tests: Tests, lines: seq<Line>, i: nat)
    requires i < |lines|
  {
    tests.marker(lines[i].text)
  }

  predicate Enters(tests: Tests, lines: seq<Line>, i: nat)
    requires i < |lines|
  {
    tests.enters(Cur(lines, i))
  }

  /** A line of trace shape, long enough, and of the level before it. */
  predicate TraceLine(tests: Tests, text: string, level: int, before: int) {
    tests.shape(text) && |text| >= 8 && level == before
  }

  /** The trace goes on through line i. */
  predicate GoesOn(tests: Tests, lines: seq<Line>, i: nat)
    requires i < |lines|
  {
    && TraceLine(tests, Cur(lines, i), lines[i].level, LevelBefore(lines, i))
    && !tests.dump(Cur(lines, i)) && !tests.marker(Cur(lines, i)) && !Suspicious(tests, lines, i)
  }

  /** In a plain log that is: the line has the shape of a trace, at least 8
      characters and the level of the line before it, and is no instruction
      dump, end marker or start of an oops. */
  lemma GoesOnExactly(tests: Tests, lines: seq<Line>, i: nat)
    requires PlainLevels(lines) && 0 < i < |lines|
    ensures var text := SkipSpaces(lines[i].text);
      GoesOn(tests, lines, i) <==>
        && tests.shape(text) && |text| >= 8 && lines[i].level == lines[i - 1].level
        && !tests.dump(text) && !tests.marker(text) && !tests.suspicious(text)
  {
  }

  /** Last line of an oops that is closed while looking at `text` in place of
      line i: only an instruction dump belongs to it. */
  function LastLine(tests: Tests, text: string, level: int, before: int, i: nat): (r: nat)
    requires i > 0
    ensures r == i || r == i - 1
  {
    if TraceLine(tests, text, level, before) && tests.dump(text) then i else i - 1
  }

  // ---- Episodes -------------------------------------------------------------

  /** What becomes of a suspicious line at `start`:
      - an end marker follows closely;
      - a trace begins at `entry` and is over at `close`;
      - the trace does not end within 80 lines: nothing is reported;
      - no trace begins within 40 lines: the line is reported alone;
      - the log ends first, within a trace or before one. */
  datatype Episode =
    | Marked(start: nat, marker: nat)
    | Traced(start: nat, entry: nat, close: nat)
    | TooLong(start: nat, entry: nat)
    | Single(start: nat)
    | CutTrace(start: nat, entry: nat)
    | CutSingle(start: nat)

  ghost predicate NoMarker(tests: Tests, lines: seq<Line>, start: nat) {
    forall j :: start < j < start + 50 && j < |lines| ==> !Marker(tests, lines, j)
  }

  /** The first line at or behind `start` that enters a trace is `entry`, and
      the trace goes on up to before `upto`. */
  ghost predicate TraceFrom(tests: Tests, lines: seq<Line>, start: nat, entry: nat, upto: nat) {
    && start <= entry <= start + 40 && entry < upto <= |lines|
    && Enters(tests, lines, entry)
    && (forall j :: start <= j < entry ==> !Enters(tests, lines, j))
    && (forall j :: entry < j < upto ==> GoesOn(tests, lines, j))
  }

  ghost predicate NoTrace(tests: Tests, lines: seq<Line>, start: nat, upto: nat) {
    start <= upto <= |lines| && forall j :: start <= j < upto ==> !Enters(tests, lines, j)
  }

  ghost predicate IsEpisode(tests: Tests, lines: seq<Line>, e: Episode) {
    && e.start < |lines| && Suspicious(tests, lines, e.start)
    && (e.Marked? || NoMarker(tests, lines, e.start))
    && match e
       case Marked(start, marker) =>
         && start < marker < start + 50 && marker < |lines| && Marker(tests, lines, marker)
         && forall j :: start < j < marker ==> !Marker(tests, lines, j)
       case Traced(start, entry, close) =>
         && close <= start + 80 && close < |lines|
         && TraceFrom(tests, lines, start, entry, close) && !GoesOn(tests, lines, close)
       case TooLong(start, entry) => start + 80 < |lines| && TraceFrom(tests, lines, start, entry, start + 81)
       case Single(start) => start + 40 < |lines| && NoTrace(tests, lines, start, start + 41)
       case CutTrace(start, entry) => |lines| <= start + 80 && TraceFrom(tests, lines, start, entry, |lines|)
       case CutSingle(start) => |lines| <= start + 40 && NoTrace(tests, lines, start, |lines|)
  }

  /** Last line the episode uses up. */
  function Close(lines: seq<Line>, e: Episode): int {
    match e
    case Marked(_, marker) => marker
    case Traced(_, _, close) => close
    case TooLong(start, _) => start + 80
    case Single(start) => start + 40
    case CutTrace(_, _) => |lines| - 1
    case CutSingle(_) => |lines| - 1
  }

  ghost function Reported(tests: Tests, lines: seq<Line>, e: Episode): Option<Range>
    requires IsEpisode(tests, lines, e)
  {
    match e
    case Marked(start, marker) =>
      Some(Range(start, LastLine(tests, Cur(lines, start), lines[marker].level, LevelBefore(lines, start), marker)))
    case Traced(start, _, close) =>
      Some(Range(start, LastLine(tests, Cur(lines, close), lines[close].level, LevelBefore(lines, close), close)))
    case TooLong(_, _) => None
    case Single(start) => Some(Range(start, start))
    case CutTrace(start, _) => Some(Range(start, |lines| - 1))
    case CutSingle(start) => Some(Range(start, start))
  }

  ghost predicate Quiet(tests: Tests, lines: seq<Line>, from: int, upto: int) {
    0 <= from <= upto <= |lines| && forall j :: from <= j < upto ==> !Suspicious(tests, lines, j)
  }

  /** The episodes of the first `upto` lines: each starts at the first
      suspicious line behind the previous one. */
  ghost predicate Reading(tests: Tests, lines: seq<Line>, eps: seq<Episode>, upto: nat) {
    && (forall e :: e in eps ==> IsEpisode(tests, lines, e))
    && (forall j, k :: 0 <= j && k == j + 1 && k < |eps| ==>
          Quiet(tests, lines, Close(lines, eps[j]) + 1, eps[k].start))
    && (eps != [] ==> Quiet(tests, lines, 0, eps[0].start))
    && Quiet(tests, lines, if eps == [] then 0 else Close(lines, eps[|eps| - 1]) + 1, upto)
  }

  ghost function AllReported(tests: Tests, lines: seq<Line>, eps: seq<Episode>): seq<Range>
    requires forall e :: e in eps ==> IsEpisode(tests, lines, e)
  {
    if eps == [] then []
    else
      AllReported(tests, lines, eps[..|eps| - 1])
      + match Reported(tests, lines, eps[|eps| - 1]) case Some(r) => [r] case None => []
  }

  // ---- The scanner -----------------------------------------------------------

  lemma Extend(tests: Tests, lines: seq<Line>, eps: seq<Episode>, e: Episode)
    requires Reading(tests, lines, eps, e.start) && IsEpisode(tests, lines, e)
    ensures Reading(tests, lines, eps + [e], Close(lines, e) + 1)
    ensures AllReported(tests, lines, eps + [e])
         == AllReported(tests, lines, eps) + match Reported(tests, lines, e) case Some(r) => [r] case None => []
  {
    var all := eps + [e];
    assert all[..|eps|] == eps;
  }

  /** The end of an oops as seen from line i, if it ends there. */
  function OopsEnd(tests: Tests, text: string, level: int, before: int, i: nat): (r: Option<nat>)
    requires i > 0
    ensures r.Some? ==> r.value == LastLine(tests, text, level, before, i)
    ensures r.None? <==>
      && TraceLine(tests, text, level, before)
      && !tests.dump(text) && !tests.marker(text) && !tests.suspicious(text)
  {
    if !tests.shape(text) then Some(i - 1)
    else if |text| < 8 then Some(i - 1)
    else if level != before then Some(i - 1)
    else if tests.dump(text) then Some(i)
    else if tests.marker(text) then Some(i - 1)
    else if tests.suspicious(text) then Some(i - 1)
    else None
  }

  /** Looks ahead for an end marker less than 50 lines behind `start`. */
  method FindMarker(tests: Tests, lines: seq<Line>, start: nat) returns (marker: Option<nat>)
    requires start < |lines|
    ensures marker.None? ==> NoMarker(tests, lines, start)
    ensures marker.Some? ==>
      && start < marker.value < start + 50 && marker.value < |lines| && Marker(tests, lines, marker.value)
      && forall j :: start < j < marker.value ==> !Marker(tests, lines, j)
  {
    marker := None;
    var j := start + 1;
    while j < |lines| && j < start + 50 && marker.None?
      invariant start < j <= start + 50
      invariant marker.None? ==> j <= |lines| && forall k :: start < k < j ==> !Marker(tests, lines, k)
      invariant marker.Some? ==>
        && start < marker.value < start + 50 && marker.value < |lines| && Marker(tests, lines, marker.value)
        && forall k :: start < k < marker.value ==> !Marker(tests, lines, k)
      decreases start + 50 - j
    {
      if Marker(tests, lines, j) { marker := Some(j); }
      j := j + 1;
    }
  }

  /** An oops in progress before line i is looked at. */
  ghost predicate Open(tests: Tests, lines: seq<Line>, eps: seq<Episode>, start: nat, inTrace: bool, entry: nat,
      i: nat) {
    && start <= i <= |lines| && start < |lines| && Reading(tests, lines, eps, start)
    && Suspicious(tests, lines, start) && NoMarker(tests, lines, start)
    && (inTrace ==> i <= start + 80 && TraceFrom(tests, lines, start, entry, i))
    && (!inTrace ==> i <= start + 40 && NoTrace(tests, lines, start, i))
  }

  lemma Begins(tests: Tests, lines: seq<Line>, eps: seq<Episode>, i: nat)
    requires i < |lines| && Reading(tests, lines, eps, i) && Suspicious(tests, lines, i) && NoMarker(tests, lines, i)
    ensures Open(tests, lines, eps, i, false, 0, i)
  {
  }

  /** The state of the scan between two lines. */
  ghost predicate Between(tests: Tests, lines: seq<Line>, eps: seq<Episode>, found: seq<Range>, start: int,
      inTrace: bool, entry: nat, i: nat) {
    && i <= |lines|
    && (if start < 0 then !inTrace && Reading(tests, lines, eps, i)
        else start < i && Open(tests, lines, eps, start, inTrace, entry, i))
    && (forall e :: e in eps ==> IsEpisode(tests, lines, e))
    && found == AllReported(tests, lines, eps)
  }

  ghost function Listed(report: Option<Range>): seq<Range> { if report.Some? then [report.value] else [] }

  lemma Closes(tests: Tests, lines: seq<Line>, eps: seq<Episode>, e: Episode, entry: nat, upto: nat)
    requires Reading(tests, lines, eps, e.start) && IsEpisode(tests, lines, e) && upto == Close(lines, e) + 1
    ensures Between(tests, lines, eps + [e], AllReported(tests, lines, eps) + Listed(Reported(tests, lines, e)),
      -1, false, entry, upto)
  {
    Extend(tests, lines, eps, e);
  }

  lemma Stays(tests: Tests, lines: seq<Line>, eps: seq<Episode>, start: nat, inTrace: bool, entry: nat, i: nat)
    requires start < i && Open(tests, lines, eps, start, inTrace, entry, i)
    ensures Between(tests, lines, eps, AllReported(tests, lines, eps), start, inTrace, entry, i)
  {
  }

  /** A line of an oops whose trace has not begun. */
  method BeforeTrace(tests: Tests, lines: seq<Line>, start: nat, i: nat, ghost eps: seq<Episode>)
      returns (start': int, inTrace': bool, report: Option<Range>, ghost eps': seq<Episode>)
    requires i < |lines| && Open(tests, lines, eps, start, false, 0, i)
    ensures Between(tests, lines, eps', AllReported(tests, lines, eps) + Listed(report), start', inTrace', i, i + 1)
  {
    start', report, eps' := start, None, eps;
    inTrace' := tests.enters(Cur(lines, i));
    if !inTrace' && i + 1 - start > 40 {
      report := Some(Range(start, start));
      start' := -1;
      eps' := eps + [Single(start)];
      Closes(tests, lines, eps, Single(start), i, i + 1);
    } else {
      Stays(tests, lines, eps, start, inTrace', i, i + 1);
      assert AllReported(tests, lines, eps) + [] == AllReported(tests, lines, eps);
    }
  }

  /** A line of an oops whose trace began at `entry`. */
  method InTrace(tests: Tests, lines: seq<Line>, start: nat, i: nat, before: int, ghost eps: seq<Episode>,
      ghost entry: nat)
      returns (start': int, report: Option<Range>, ghost eps': seq<Episode>)
    requires start < i < |lines| && before == LevelBefore(lines, i) && Open(tests, lines, eps, start, true, entry, i)
    ensures Between(tests, lines, eps', AllReported(tests, lines, eps) + Listed(report), start', start' >= 0,
      entry, i + 1)
  {
    start', report, eps' := start, None, eps;
    var end := OopsEnd(tests, Cur(lines, i), lines[i].level, before, i);
    if end.Some? {
      report := Some(Range(start, end.value));
      start' := -1;
      eps' := eps + [Traced(start, entry, i)];
      Closes(tests, lines, eps, Traced(start, entry, i), entry, i + 1);
    } else {
      assert AllReported(tests, lines, eps) + [] == AllReported(tests, lines, eps);
      if i + 1 - start > 80 {
        start' := -1;
        eps' := eps + [TooLong(start, entry)];
        Closes(tests, lines, eps, TooLong(start, entry), entry, i + 1);
      } else {
        Stays(tests, lines, eps, start, true, entry, i + 1);
      }
    }
  }

  /** A suspicious line with an end marker close behind: the start line is
      judged in place of the marker's. */
  method Jump(tests: Tests, lines: seq<Line>, start: nat, marker: nat, before: int, ghost eps: seq<Episode>)
      returns (report: Range, ghost eps': seq<Episode>)
    requires Reading(tests, lines, eps, start) && start < |lines| && before == LevelBefore(lines, start)
    requires IsEpisode(tests, lines, Marked(start, marker))
    ensures Between(tests, lines, eps', AllReported(tests, lines, eps) + [report], -1, false, 0, marker + 1)
  {
    var end := OopsEnd(tests, Cur(lines, start), lines[marker].level, before, marker);
    report := Range(start, end.value);
    eps' := eps + [Marked(start, marker)];
    Closes(tests, lines, eps, Marked(start, marker), 0, marker + 1);
  }

  lemma Skips(tests: Tests, lines: seq<Line>, eps: seq<Episode>, i: nat)
    requires i < |lines| && Reading(tests, lines, eps, i) && !Suspicious(tests, lines, i)
    ensures Between(tests, lines, eps, AllReported(tests, lines, eps) + Listed(None), -1, false, i, i + 1)
  {
    assert AllReported(tests, lines, eps) + [] == AllReported(tests, lines, eps);
  }

  /** A suspicious line outside any oops; `i'` is the last line it uses up. */
  method Starts(tests: Tests, lines: seq<Line>, i: nat, before: int, ghost eps: seq<Episode>)
      returns (i': nat, start: int, inTrace: bool, report: Option<Range>, ghost eps': seq<Episode>)
    requires i < |lines| && before == LevelBefore(lines, i) && Reading(tests, lines, eps, i)
    requires Suspicious(tests, lines, i)
    ensures i <= i' < |lines|
    ensures Between(tests, lines, eps', AllReported(tests, lines, eps) + Listed(report), start, inTrace, i, i' + 1)
  {
    i', start, inTrace := i, -1, false;
    var marker := FindMarker(tests, lines, i);
    if marker.Some? {
      i' := marker.value;
      var range;
      range, eps' := Jump(tests, lines, i, i', before, eps);
      report := Some(range);
    } else {
      Begins(tests, lines, eps, i);
      start, inTrace, report, eps' := BeforeTrace(tests, lines, i, i, eps);
    }
  }

  /** A line outside any oops. */
  method Outside(tests: Tests, lines: seq<Line>, i: nat, before: int, ghost eps: seq<Episode>)
      returns (i': nat, start: int, inTrace: bool, report: Option<Range>, ghost eps': seq<Episode>)
    requires i < |lines| && before == LevelBefore(lines, i) && Reading(tests, lines, eps, i)
    ensures i <= i' < |lines|
    ensures Between(tests, lines, eps', AllReported(tests, lines, eps) + Listed(report), start, inTrace, i, i' + 1)
  {
    if tests.suspicious(Cur(lines, i)) {
      i', start, inTrace, report, eps' := Starts(tests, lines, i, before, eps);
    } else {
      Skips(tests, lines, eps, i);
      i', start, inTrace, report, eps' := i, -1, false, None, eps;
    }
  }

  /** One line, or everything up to a marker. */
  method Advance(tests: Tests, lines: seq<Line>, i: nat, start: int, inTrace: bool, before: int,
      ghost eps: seq<Episode>, ghost entry: nat)
      returns (i': nat, start': int, inTrace': bool, report: Option<Range>, ghost eps': seq<Episode>, ghost entry': nat)
    requires i < |lines| && before == LevelBefore(lines, i)
    requires forall e :: e in eps ==> IsEpisode(tests, lines, e)
    requires Between(tests, lines, eps, AllReported(tests, lines, eps), start, inTrace, entry, i)
    ensures i <= i' < |lines|
    ensures Between(tests, lines, eps', AllReported(tests, lines, eps) + Listed(report), start', inTrace', entry',
      i' + 1)
  {
    i', entry' := i, i;
    if start < 0 {
      i', start', inTrace', report, eps' := Outside(tests, lines, i, before, eps);
    } else if !inTrace {
      start', inTrace', report, eps' := BeforeTrace(tests, lines, start, i, eps);
    } else {
      start', report, eps' := InTrace(tests, lines, start, i, before, eps, entry);
      inTrace', entry' := start' >= 0, entry;
    }
  }

  lemma EndOfLog(tests: Tests, lines: seq<Line>, eps: seq<Episode>, start: nat, inTrace: bool, entry: nat)
    requires start < |lines| && Open(tests, lines, eps, start, inTrace, entry, |lines|)
    ensures var e := if inTrace then CutTrace(start, entry) else CutSingle(start);
      && Reading(tests, lines, eps + [e], |lines|)
      && AllReported(tests, lines, eps + [e]) ==
         AllReported(tests, lines, eps) + [Range(start, if inTrace then |lines| - 1 else start)]
  {
    Extend(tests, lines, eps, if inTrace then CutTrace(start, entry) else CutSingle(start));
  }

  /** What is to be reported: the log is cut into episodes, and each makes its
      report. */
  ghost predicate Reports(tests: Tests, lines: seq<Line>, found: seq<Range>) {
    exists eps :: Reading(tests, lines, eps, |lines|) && found == AllReported(tests, lines, eps)
  }

  /** Reads the log once. */
  method Scan(tests: Tests, lines: seq<Line>) returns (found: seq<Range>)
    ensures Reports(tests, lines, found)
  {
    found := [];
    ghost var eps: seq<Episode> := [];
    var i, start, inTrace, before := 0, -1, false, 0;
    ghost var entry: nat := 0;
    while i < |lines|
      invariant 0 <= i && Between(tests, lines, eps, found, start, inTrace, entry, i) && before == LevelBefore(lines, i)
    {
      var report;
      i, start, inTrace, report, eps, entry := Advance(tests, lines, i, start, inTrace, before, eps, entry);
      found := found + if report.Some? then [report.value] else [];
      before := AsChar(lines[i].level);
      i := i + 1;
    }
    if start >= 0 {
      found := found + [Range(start, if inTrace then i - 1 else start)];
      EndOfLog(tests, lines, eps, start, inTrace, entry);
      eps := eps + [if inTrace then CutTrace(start, entry) else CutSingle(start)];
    }
  }

  // ---- What is reported -----------------------------------------------------------

  /** One episode reports at most 81 lines, inside the log and inside itself. */
  lemma ReportFits(tests: Tests, lines: seq<Line>, e: Episode)
    requires IsEpisode(tests, lines, e)
    ensures e.start <= Close(lines, e) < |lines|
    ensures var r := Reported(tests, lines, e);
      r.Some? ==> r.value.first == e.start <= r.value.last <= Close(lines, e) && r.value.last - r.value.first <= 80
  {
  }

  /** Ranges below `upto` that begin at suspicious lines, span at most 81
      lines, and follow one another without overlapping. */
  ghost predicate InOrder(tests: Tests, lines: seq<Line>, rs: seq<Range>, upto: nat) {
    && (forall r :: r in rs ==> r.first <= r.last < upto && r.last - r.first <= 80)
    && (forall r :: r in rs ==> r.first < |lines| && Suspicious(tests, lines, r.first))
    && (forall j, k :: 0 <= j < k < |rs| ==> rs[j].last < rs[k].first)
  }

  /** Everything reported for a log is in order. */
  lemma ReportsInOrder(tests: Tests, lines: seq<Line>, found: seq<Range>)
    requires Reports(tests, lines, found)
    ensures InOrder(tests, lines, found, |lines|)
  {
    var eps :| Reading(tests, lines, eps, |lines|) && found == AllReported(tests, lines, eps);
    RangesApart(tests, lines, eps, |lines|);
  }

  lemma {:induction false} RangesApart(tests: Tests, lines: seq<Line>, eps: seq<Episode>, upto: nat)
    requires Reading(tests, lines, eps, upto)
    ensures InOrder(tests, lines, AllReported(tests, lines, eps), upto)
  {
    if eps != [] {
      var before, e := eps[..|eps| - 1], eps[|eps| - 1];
      assert e in eps && forall x :: x in before ==> x in eps;
      assert before != [] ==> before[|before| - 1] == eps[|eps| - 2];
      RangesApart(tests, lines, before, e.start);
      ReportFits(tests, lines, e);
      var rs, r := AllReported(tests, lines, before), Listed(Reported(tests, lines, e));
      var all: seq<Range> := rs + r;
      assert AllReported(tests, lines, eps) == all;
      assert Close(lines, e) < upto;
      forall j, k | 0 <= j < k < |all|
        ensures all[j].last < all[k].first
      {
        if k == |rs| { assert rs[j] in rs; }
      }
    }
  }

  /** In an oops that a trace makes up, every line behind the one that entered
      the trace has the shape of a trace line, is at least 8 characters long,
      and has the log level of the entering line. */
  lemma TraceIsUniform(tests: Tests, lines: seq<Line>, e: Episode, j: nat)
    requires IsEpisode(tests, lines, e) && (e.Traced? || e.CutTrace?)
    requires e.entry < j <= Reported(tests, lines, e).value.last
    ensures j < |lines| && tests.shape(Cur(lines, j)) && |Cur(lines, j)| >= 8
    ensures lines[j].level == AsChar(lines[e.entry].level)
    ensures PlainLevels(lines) ==> lines[j].level == lines[e.entry].level
    decreases j
  {
    ReportFits(tests, lines, e);
    if j < Close(lines, e) || e.CutTrace? { assert GoesOn(tests, lines, j); }
    if j > e.entry + 1 { TraceIsUniform(tests, lines, e, j - 1); }
  }

  // ---- The episodes are determined by the log -------------------------------

  lemma EpisodeUnique(tests: Tests, lines: seq<Line>, a: Episode, b: Episode)
    requires IsEpisode(tests, lines, a) && IsEpisode(tests, lines, b) && a.start == b.start
    ensures a == b
  {
    if a.Marked? || b.Marked? {
      SameMarker(tests, lines, a, b);
    } else if (a.Traced? || a.TooLong? || a.CutTrace?) && (b.Traced? || b.TooLong? || b.CutTrace?) {
      assert Enters(tests, lines, a.entry) && Enters(tests, lines, b.entry);
      assert a.entry == b.entry;
      if a.Traced? { assert !GoesOn(tests, lines, a.close); }
      if b.Traced? { assert !GoesOn(tests, lines, b.close); }
    }
  }

  lemma SameMarker(tests: Tests, lines: seq<Line>, a: Episode, b: Episode)
    requires IsEpisode(tests, lines, a) && IsEpisode(tests, lines, b) && a.start == b.start
    requires a.Marked? || b.Marked?
    ensures a == b
  {
    if a.Marked? { assert Marker(tests, lines, a.marker); }
    if b.Marked? { assert Marker(tests, lines, b.marker); }
  }

  /** There is one way to cut a log into episodes. */
  lemma {:induction false} ReadingUnique(tests: Tests, lines: seq<Line>, a: seq<Episode>, b: seq<Episode>, k: nat)
    requires Reading(tests, lines, a, |lines|) && Reading(tests, lines, b, |lines|)
    requires k <= |a| && |a| <= |b|
    ensures a[..k] == b[..k]
    ensures k == |a| ==> a == b
  {
    if k > 0 {
      ReadingUnique(tests, lines, a, b, k - 1);
      assert a[k - 1] in a && b[k - 1] in b;
      assert k > 1 ==> a[k - 2] == a[..k - 1][k - 2] == b[..k - 1][k - 2] == b[k - 2];
      NextStart(tests, lines, if k > 1 then Close(lines, a[k - 2]) + 1 else 0, a[k - 1].start, b[k - 1].start);
      EpisodeUnique(tests, lines, a[k - 1], b[k - 1]);
      assert a[..k] == a[..k - 1] + [a[k - 1]];
    }
    if k == |a| && |a| < |b| {
      NotYetQuiet(tests, lines, b, k);
    }
  }

  /** What the scanner reports is fixed by the log alone. */
  lemma ReportsUnique(tests: Tests, lines: seq<Line>, found: seq<Range>, other: seq<Range>)
    requires Reports(tests, lines, found) && Reports(tests, lines, other)
    ensures found == other
  {
    var a :| Reading(tests, lines, a, |lines|) && found == AllReported(tests, lines, a);
    var b :| Reading(tests, lines, b, |lines|) && other == AllReported(tests, lines, b);
    if |a| <= |b| { ReadingUnique(tests, lines, a, b, |a|); } else { ReadingUnique(tests, lines, b, a, |b|); }
  }

  // ---- The bounds of the scanner -------------------------------------------------

  lemma FirstOf(tests: Tests, lines: seq<Line>, e: Episode)
    requires IsEpisode(tests, lines, e) && Quiet(tests, lines, 0, e.start)
    ensures Reading(tests, lines, [e], Close(lines, e) + 1)
    ensures AllReported(tests, lines, [e]) == Listed(Reported(tests, lines, e))
  {
    var none: seq<Episode> := [];
    assert [e][..0] == none && AllReported(tests, lines, none) == [];
  }

  lemma QuietUpTo(tests: Tests, lines: seq<Line>, eps: seq<Episode>, from: nat, upto: nat)
    requires Reading(tests, lines, eps, from) && Quiet(tests, lines, from, upto)
    ensures Reading(tests, lines, eps, upto)
  {
  }

  /** A log with one episode in it gives that one's report. */
  lemma OneEpisode(tests: Tests, lines: seq<Line>, e: Episode, found: seq<Range>)
    requires IsEpisode(tests, lines, e) && Reports(tests, lines, found)
    requires Quiet(tests, lines, 0, e.start) && Quiet(tests, lines, Close(lines, e) + 1, |lines|)
    ensures found == Listed(Reported(tests, lines, e))
  {
    FirstOf(tests, lines, e);
    QuietUpTo(tests, lines, [e], Close(lines, e) + 1, |lines|);
    ReportsUnique(tests, lines, found, AllReported(tests, lines, [e]));
  }

  lemma TwoEpisodes(tests: Tests, lines: seq<Line>, e: Episode, d: Episode, found: seq<Range>)
    requires IsEpisode(tests, lines, e) && IsEpisode(tests, lines, d) && Reports(tests, lines, found)
    requires Quiet(tests, lines, 0, e.start) && Quiet(tests, lines, Close(lines, e) + 1, d.start)
    requires Quiet(tests, lines, Close(lines, d) + 1, |lines|)
    ensures found == Listed(Reported(tests, lines, e)) + Listed(Reported(tests, lines, d))
  {
    FirstOf(tests, lines, e);
    QuietUpTo(tests, lines, [e], Close(lines, e) + 1, d.start);
    Extend(tests, lines, [e], d);
    QuietUpTo(tests, lines, [e] + [d], Close(lines, d) + 1, |lines|);
    ReportsUnique(tests, lines, found, AllReported(tests, lines, [e] + [d]));
  }

  ghost predicate NoMarkers(tests: Tests, lines: seq<Line>) {
    forall j :: 0 <= j < |lines| ==> !Marker(tests, lines, j)
  }

  ghost predicate OnlySuspicious(tests: Tests, lines: seq<Line>, starts: set<nat>) {
    forall j :: 0 <= j < |lines| ==> (Suspicious(tests, lines, j) <==> j in starts)
  }

  /** An oops begins the log, and its trace begins at `entry` and goes on up to
      before `upto`. */
  ghost predicate BeginsLog(tests: Tests, lines: seq<Line>, entry: nat, upto: nat) {
    && NoMarkers(tests, lines) && entry <= 40 && entry < upto <= |lines|
    && Suspicious(tests, lines, 0) && Enters(tests, lines, entry)
    && (forall j :: 0 <= j < entry ==> !Enters(tests, lines, j))
    && (forall j :: entry < j < upto ==> GoesOn(tests, lines, j))
  }

  /** A trace that lasts to the end of the log is reported if the oops has at most
      80 lines, and dropped with everything in it if it has more. */
  lemma LongestTrace(tests: Tests, lines: seq<Line>, entry: nat, found: seq<Range>)
    requires Reports(tests, lines, found) && BeginsLog(tests, lines, entry, |lines|)
    ensures found == if |lines| <= 80 then [Range(0, |lines| - 1)] else []
  {
    var e := if |lines| <= 80 then CutTrace(0, entry) else TooLong(0, entry);
    assert TraceFrom(tests, lines, 0, entry, if |lines| <= 80 then |lines| else 81);
    forall j | 81 <= j < |lines| ensures !Suspicious(tests, lines, j) { assert GoesOn(tests, lines, j); }
    OneEpisode(tests, lines, e, found);
  }

  /** A trace that ends in the log is reported if it does so within 80 lines, with
      the line that ends it only if that is an instruction dump. */
  lemma TraceCloses(tests: Tests, lines: seq<Line>, entry: nat, close: nat, found: seq<Range>)
    requires Reports(tests, lines, found) && PlainLevels(lines)
    requires close < |lines| && BeginsLog(tests, lines, entry, close) && !GoesOn(tests, lines, close)
    requires forall j :: close < j < |lines| ==> !Suspicious(tests, lines, j)
    requires close > 80 ==> !Suspicious(tests, lines, close)
    ensures var text := SkipSpaces(lines[close].text);
      var dumped := tests.shape(text) && |text| >= 8 && tests.dump(text)
        && lines[close].level == lines[close - 1].level;
      found == if close > 80 then [] else [Range(0, if dumped then close else close - 1)]
  {
    var e := if close <= 80 then Traced(0, entry, close) else TooLong(0, entry);
    assert TraceFrom(tests, lines, 0, entry, if close <= 80 then close else 81);
    forall j | 81 <= j < close ensures !Suspicious(tests, lines, j) { assert GoesOn(tests, lines, j); }
    OneEpisode(tests, lines, e, found);
  }

  /** Without any trace a second start is reported too exactly if it is more than
      40 lines behind the first. */
  lemma SecondStart(tests: Tests, lines: seq<Line>, d: nat, found: seq<Range>)
    requires Reports(tests, lines, found) && NoMarkers(tests, lines)
    requires 0 < d < |lines| && OnlySuspicious(tests, lines, {0, d})
    requires forall j :: 0 <= j < |lines| ==> !Enters(tests, lines, j)
    ensures found == if d <= 40 then [Range(0, 0)] else [Range(0, 0), Range(d, d)]
  {
    var first := if |lines| <= 40 then CutSingle(0) else Single(0);
    if d <= 40 {
      OneEpisode(tests, lines, first, found);
    } else {
      TwoEpisodes(tests, lines, first, if |lines| <= d + 40 then CutSingle(d) else Single(d), found);
    }
  }

  /** An end marker closes an oops up to 49 lines before it. The marker itself is
      left out, unless the first line is an instruction dump of trace shape and the
      marker's level is that before the log, zero. */
  lemma FarthestMarker(tests: Tests, lines: seq<Line>, d: nat, found: seq<Range>)
    requires Reports(tests, lines, found) && 0 < d < |lines| && OnlySuspicious(tests, lines, {0})
    requires forall j :: 0 <= j < |lines| ==> (Marker(tests, lines, j) <==> j == d)
    requires forall j :: 0 <= j < |lines| ==> !Enters(tests, lines, j)
    ensures var text := SkipSpaces(lines[0].text);
      var dumped := tests.shape(text) && |text| >= 8 && tests.dump(text) && lines[d].level == 0;
      found == [Range(0, if d >= 50 then 0 else if dumped then d else d - 1)]
  {
    OneEpisode(tests, lines, if d < 50 then Marked(0, d) else Single(0), found);
  }

  /** A log that one trace fills gives one report. */
  lemma OnlyTrace(tests: Tests, lines: seq<Line>, entry: nat, close: nat)
    requires IsEpisode(tests, lines, Traced(0, entry, close)) && close == |lines| - 1
    ensures Reports(tests, lines, Listed(Reported(tests, lines, Traced(0, entry, close))))
  {
    var one := [Traced(0, entry, close)];
    assert one[..0] == [];
    assert Close(lines, one[0]) + 1 == |lines|;
    assert AllReported(tests, lines, one[..0]) + Listed(Reported(tests, lines, one[0])) ==
      Listed(Reported(tests, lines, one[0]));
    assert Reading(tests, lines, one, |lines|);
    assert AllReported(tests, lines, one) == Listed(Reported(tests, lines, one[0]));
  }

  lemma NotYetQuiet(tests: Tests, lines: seq<Line>, eps: seq<Episode>, k: nat)
    requires Reading(tests, lines, eps, |lines|) && k < |eps|
    ensures !Quiet(tests, lines, if k == 0 then 0 else Close(lines, eps[k - 1]) + 1, |lines|)
  {
    assert eps[k] in eps;
  }

  lemma NextStart(tests: Tests, lines: seq<Line>, from: int, a: nat, b: nat)
    requires Quiet(tests, lines, from, a) && Quiet(tests, lines, from, b)
    requires a < |lines| && b < |lines| && Suspicious(tests, lines, a) && Suspicious(tests, lines, b)
    ensures a == b
  {
  }

  /** A suspicious line starts an oops unless an earlier episode uses it up. In
      particular, a suspicious line that ends an oops never starts the next. */
  lemma StartsUnlessUsed(tests: Tests, lines: seq<Line>, eps: seq<Episode>, i: nat)
    requires Reading(tests, lines, eps, |lines|) && i < |lines| && Suspicious(tests, lines, i)
    ensures (exists e :: e in eps && e.start == i) <==> !(exists e :: e in eps && e.start < i <= Close(lines, e))
  {
    var k := Locate(tests, lines, eps, i, |eps|);
    if k < |eps| {
      assert eps[k] in eps;
      forall e | e in eps
        ensures e.start == i ==> e == eps[k]
        ensures e.start < i <= Close(lines, e) ==> e == eps[k]
      {
        var j :| 0 <= j < |eps| && eps[j] == e;
        if j < k { Apart(tests, lines, eps, j, k); }
        if k < j { Apart(tests, lines, eps, k, j); }
      }
    }
  }

  /** A suspicious line that its episode does not report:
      - the trace does not end within 80 lines;
      - no trace begins, and another line began the oops;
      - it closes a trace without being an instruction dump, or is the end
        marker of an oops whose first line is judged not to be one. */
  predicate Loses(tests: Tests, lines: seq<Line>, e: Episode, i: nat)
    requires e.Traced? ==> 0 < e.close < |lines|
    requires e.Marked? ==> 0 < e.marker < |lines| && e.start < |lines|
  {
    match e
    case TooLong(_, _) => true
    case Single(start) => i > start
    case CutSingle(start) => i > start
    case CutTrace(_, _) => false
    case Traced(_, _, close) =>
      i == close && !EndsWithDump(tests, Cur(lines, close), lines[close].level, LevelBefore(lines, close))
    case Marked(start, marker) =>
      i == marker && !EndsWithDump(tests, Cur(lines, start), lines[marker].level, LevelBefore(lines, start))
  }

  predicate EndsWithDump(tests: Tests, text: string, level: int, before: int) {
    TraceLine(tests, text, level, before) && tests.dump(text)
  }

  lemma EpisodeLoses(tests: Tests, lines: seq<Line>, e: Episode, i: nat)
    requires IsEpisode(tests, lines, e) && e.start <= i <= Close(lines, e)
    ensures Loses(tests, lines, e, i) <==>
      var r := Reported(tests, lines, e); r.None? || !(r.value.first <= i <= r.value.last)
  {
  }

  /** The reports are those of the episodes. */
  lemma {:induction false} ReportsOfEpisodes(tests: Tests, lines: seq<Line>, eps: seq<Episode>)
    requires forall e :: e in eps ==> IsEpisode(tests, lines, e)
    ensures forall r ::
      r in AllReported(tests, lines, eps) <==> exists e :: e in eps && Reported(tests, lines, e) == Some(r)
  {
    if eps != [] {
      var before, last := eps[..|eps| - 1], eps[|eps| - 1];
      assert forall e :: e in eps <==> e in before || e == last;
      ReportsOfEpisodes(tests, lines, before);
    }
  }

  /** Every suspicious line belongs to one episode, and is in no report at all
      exactly when that episode loses it. */
  lemma LostExactly(tests: Tests, lines: seq<Line>, eps: seq<Episode>, i: nat) returns (e: Episode)
    requires Reading(tests, lines, eps, |lines|) && i < |lines| && Suspicious(tests, lines, i)
    ensures e in eps && e.start <= i <= Close(lines, e)
    ensures (forall r :: r in AllReported(tests, lines, eps) ==> !(r.first <= i <= r.last)) <==>
      Loses(tests, lines, e, i)
  {
    var k := Locate(tests, lines, eps, i, |eps|);
    e := eps[k];
    assert e in eps;
    EpisodeLoses(tests, lines, e, i);
    ReportsOfEpisodes(tests, lines, eps);
    forall other | other in eps && other != e
      ensures var r := Reported(tests, lines, other); r.Some? ==> !(r.value.first <= i <= r.value.last)
    {
      var j :| 0 <= j < |eps| && eps[j] == other;
      ReportFits(tests, lines, other);
      if j < k { Apart(tests, lines, eps, j, k); } else { Apart(tests, lines, eps, k, j); }
    }
  }

  lemma {:induction false} Apart(tests: Tests, lines: seq<Line>, eps: seq<Episode>, j: nat, k: nat)
    requires Reading(tests, lines, eps, |lines|) && j < k < |eps|
    ensures Close(lines, eps[j]) < eps[k].start <= Close(lines, eps[k])
    decreases k
  {
    assert eps[k] in eps && eps[k - 1] in eps;
    ReportFits(tests, lines, eps[k]);
    if j < k - 1 { Apart(tests, lines, eps, j, k - 1); }
  }

  /** The episode that uses up a suspicious line. */
  lemma {:induction false} Locate(tests: Tests, lines: seq<Line>, eps: seq<Episode>, i: nat, n: nat) returns (k: nat)
    requires Reading(tests, lines, eps, |lines|) && n <= |eps|
    requires i < |lines| && Suspicious(tests, lines, i)
    requires n < |eps| ==> i < eps[n].start
    ensures k < n && eps[k].start <= i <= Close(lines, eps[k])
    decreases n
  {
    if n == 0 {
      assert false;
    } else if i < eps[n - 1].start {
      k := Locate(tests, lines, eps, i, n - 1);
    } else {
      k := n - 1;
    }
  }
}
