/** Joining the lines of an oops into the text that is reported. */
module KoopsRecord {
  import opened Common
  import opened Koops

  const SANE_MIN_OOPS_LEN := 30

  /** The non-empty lines, each with its newline. */
  function Text(lines: seq<Line>): string {
    if lines == [] then ""
    else Text(lines[..|lines| - 1]) + if lines[|lines| - 1].text == "" then "" else lines[|lines| - 1].text + "\n"
  }

  /** The buffer size computed beforehand. */
  function Reserved(lines: seq<Line>): nat {
    if lines == [] then 2 else Reserved(lines[..|lines| - 1]) + |lines[|lines| - 1].text| + 1
  }

  /** The text always fits, with room for its terminator. */
  lemma {:induction false} TextFits(lines: seq<Line>, k: nat)
    requires k <= |lines|
    ensures |Text(lines[..k])| + Reserved(lines) - Reserved(lines[..k]) + 2 <= Reserved(lines)
    ensures Reserved(lines[..k]) <= Reserved(lines)
    decreases |lines|
  {
    if k < |lines| {
      TextFits(lines[..|lines| - 1], k);
      assert lines[..|lines| - 1][..k] == lines[..k];
    } else if k > 0 {
      assert lines[..k] == lines;
      TextFits(lines[..k - 1], k - 1);
      assert lines[..k - 1][..k - 1] == lines[..k - 1];
    }
  }

  /** The kernel version named by the first line that names one. */
  function Version(lines: seq<Line>, extract: string -> Option<string>): string {
    if lines == [] then "" else match extract(lines[0].text) case Some(v) => v case None => Version(lines[1..], extract)
  }

  /** Appends s and a terminator to the first `at` characters of the buffer. */
  method StpCpy(buffer: array<char>, at: nat, s: string) returns (end: nat)
    requires at + |s| < buffer.Length
    modifies buffer
    ensures end == at + |s| && buffer[..end] == old(buffer[..at]) + s
  {
    var i := 0;
    while i < |s|
      invariant 0 <= i <= |s| && buffer[..at + i] == old(buffer[..at]) + s[..i]
    {
      buffer[at + i] := s[i];
      i := i + 1;
    }
    buffer[at + i] := '\0';
    end := at + i;
  }

  ghost function Part(lines: seq<Line>, range: Range, upto: nat): seq<Line>
    requires range.first <= upto <= |lines|
  {
    lines[range.first..upto]
  }

  lemma NextPart(lines: seq<Line>, range: Range, q: nat)
    requires range.first <= q < |lines|
    ensures Part(lines, range, q + 1)[..q - range.first] == Part(lines, range, q)
    ensures Part(lines, range, q + 1)[q - range.first] == lines[q]
    ensures |Part(lines, range, q + 1)| == q + 1 - range.first
  {
  }

  method Measure(lines: seq<Line>, range: Range) returns (len: nat)
    requires range.first <= range.last < |lines|
    ensures len == Reserved(Part(lines, range, range.last + 1))
  {
    len := 2;
    var q := range.first;
    while q <= range.last
      invariant range.first <= q <= range.last + 1
      invariant len == Reserved(Part(lines, range, q))
    {
      NextPart(lines, range, q);
      len := len + |lines[q].text| + 1;
      q := q + 1;
    }
  }

  /** Joins the lines in a buffer of the measured length; nothing is written
      outside it. */
  method Join(lines: seq<Line>, range: Range, len: nat) returns (text: string)
    requires range.first <= range.last < |lines|
    requires len == Reserved(Part(lines, range, range.last + 1))
    ensures text == Text(Part(lines, range, range.last + 1))
  {
    var buffer := new char[len](_ => '\0');
    var dst, q := 0, range.first;
    while q <= range.last
      invariant range.first <= q <= range.last + 1
      invariant 0 <= dst <= len && buffer[..dst] == Text(Part(lines, range, q))
    {
      NextPart(lines, range, q);
      RoomFor(lines, range, q);
      if lines[q].text != "" {
        dst := StpCpy(buffer, dst, lines[q].text);
        dst := StpCpy(buffer, dst, "\n");
      }
      q := q + 1;
    }
    text := buffer[..dst];
  }

  lemma RoomFor(lines: seq<Line>, range: Range, q: nat)
    requires range.first <= q <= range.last < |lines|
    ensures |Text(Part(lines, range, q))| + |lines[q].text| + 1 < Reserved(Part(lines, range, range.last + 1))
  {
    var all := Part(lines, range, range.last + 1);
    var k := q - range.first;
    assert all[..k] == Part(lines, range, q) && all[..k + 1][..k] == all[..k];
    assert all[k] == lines[q];
    TextFits(all, k + 1);
    TextFits(all, k);
  }

  method FindVersion(lines: seq<Line>, range: Range, extract: string -> Option<string>) returns (version: string)
    requires range.first <= range.last < |lines|
    ensures version == Version(Part(lines, range, range.last + 1), extract)
  {
    ghost var all := Part(lines, range, range.last + 1);
    var q, found := range.first, None;
    while q <= range.last && found.None?
      invariant range.first <= q <= range.last + 1
      invariant Version(all, extract) ==
        match found case Some(v) => v case None => Version(all[q - range.first..], extract)
    {
      assert all[q - range.first..][1..] == all[q + 1 - range.first..];
      found := extract(lines[q].text);
      q := q + 1;
    }
    version := match found case Some(v) => v case None => "";
  }

  /** The report on a range of lines; too short ones are dropped. */
  ghost function Report(lines: seq<Line>, range: Range, extract: string -> Option<string>): Option<string>
    requires range.first <= range.last < |lines|
  {
    var part := Part(lines, range, range.last + 1);
    if |Text(part)| > SANE_MIN_OOPS_LEN then Some(Version(part, extract) + "\n" + Text(part)) else None
  }

  /** Reports the lines unless their text is too short. The length computed
      beforehand only saves work: it never decides otherwise than the text. */
  method RecordOops(lines: seq<Line>, range: Range, extract: string -> Option<string>) returns (oops: Option<string>)
    requires range.first <= range.last < |lines|
    ensures oops == Report(lines, range, extract)
  {
    oops := None;
    var len := Measure(lines, range);
    ghost var part := Part(lines, range, range.last + 1);
    TextFits(part, |part|);
    assert part[..|part|] == part;
    if len > SANE_MIN_OOPS_LEN {
      var text := Join(lines, range, len);
      if |text| > SANE_MIN_OOPS_LEN {
        var version := FindVersion(lines, range, extract);
        oops := Some(version + "\n" + text);
      }
    }
  }

  /** The whole extraction: one text for each reported range that is long
      enough, in the order of the log. */
  ghost function Texts(lines: seq<Line>, found: seq<Range>, extract: string -> Option<string>): seq<string>
    requires forall r :: r in found ==> r.first <= r.last < |lines|
  {
    if found == [] then []
    else
      var report := Report(lines, found[|found| - 1], extract);
      Texts(lines, found[..|found| - 1], extract) + if report.Some? then [report.value] else []
  }

  method RecordAll(lines: seq<Line>, found: seq<Range>, extract: string -> Option<string>) returns (oopses: seq<string>)
    requires forall r :: r in found ==> r.first <= r.last < |lines|
    ensures oopses == Texts(lines, found, extract)
  {
    oopses := [];
    for i := 0 to |found|
      invariant oopses == Texts(lines, found[..i], extract)
    {
      assert found[..i + 1][..i] == found[..i];
      var oops := RecordOops(lines, found[i], extract);
      if oops.Some? { oopses := oopses + [oops.value]; }
    }
    assert found[..|found|] == found;
  }

  method ExtractOopses(tests: Tests, lines: seq<Line>, extract: string -> Option<string>) returns (oopses: seq<string>)
    ensures exists found ::
      && Reports(tests, lines, found) && InOrder(tests, lines, found, |lines|)
      && oopses == Texts(lines, found, extract)
  {
    var found := Scan(tests, lines);
    ReportsInOrder(tests, lines, found);
    oopses := RecordAll(lines, found, extract);
  }

  // ---- Which lines are reported ------------------------------------------------

  /** Some report is made on a range with line i in it. */
  ghost predicate InReport(lines: seq<Line>, found: seq<Range>, i: nat, extract: string -> Option<string>)
    requires forall r :: r in found ==> r.first <= r.last < |lines|
  {
    exists r :: r in found && r.first <= i <= r.last && Report(lines, r, extract).Some?
  }

  /** The text of what an episode records is too short. */
  ghost predicate TooShort(tests: Tests, lines: seq<Line>, e: Episode)
    requires IsEpisode(tests, lines, e)
  {
    var r := Reported(tests, lines, e);
    && r.Some? && r.value.first <= r.value.last < |lines|
    && |Text(Part(lines, r.value, r.value.last + 1))| <= SANE_MIN_OOPS_LEN
  }

  lemma TooShortExactly(tests: Tests, lines: seq<Line>, e: Episode, extract: string -> Option<string>)
    requires IsEpisode(tests, lines, e) && Reported(tests, lines, e).Some?
    ensures var r := Reported(tests, lines, e).value;
      r.first <= r.last < |lines| && (TooShort(tests, lines, e) <==> Report(lines, r, extract).None?)
  {
    ReportFits(tests, lines, e);
  }

  /** What an episode does not lose is in the range it records. */
  lemma Recorded(tests: Tests, lines: seq<Line>, eps: seq<Episode>, e: Episode, i: nat)
    requires Reading(tests, lines, eps, |lines|) && e in eps
    requires e.start <= i <= Close(lines, e) && !Loses(tests, lines, e, i)
    ensures var r := Reported(tests, lines, e);
      r.Some? && r.value in AllReported(tests, lines, eps) && r.value.first <= i <= r.value.last
  {
    EpisodeLoses(tests, lines, e, i);
    ReportsOfEpisodes(tests, lines, eps);
  }

  /** Every suspicious line belongs to one episode, and is in no report exactly
      when that episode loses it or records too short a text. */
  lemma UnreportedExactly(tests: Tests, lines: seq<Line>, eps: seq<Episode>, found: seq<Range>, i: nat,
      extract: string -> Option<string>) returns (e: Episode)
    requires Reading(tests, lines, eps, |lines|) && i < |lines| && Suspicious(tests, lines, i)
    requires found == AllReported(tests, lines, eps)
    ensures e in eps && e.start <= i <= Close(lines, e)
    ensures forall r :: r in found ==> r.first <= r.last < |lines|
    ensures !InReport(lines, found, i, extract) <==> Loses(tests, lines, e, i) || TooShort(tests, lines, e)
  {
    e := LostExactly(tests, lines, eps, i);
    RangesApart(tests, lines, eps, |lines|);
    if Loses(tests, lines, e, i) {
      NowhereFound(lines, found, i, extract);
    } else {
      Recorded(tests, lines, eps, e, i);
      TooShortExactly(tests, lines, e, extract);
      OnlyReport(tests, lines, found, Reported(tests, lines, e).value, i, extract);
    }
  }

  lemma NowhereFound(lines: seq<Line>, found: seq<Range>, i: nat, extract: string -> Option<string>)
    requires forall r :: r in found ==> r.first <= r.last < |lines|
    requires forall r :: r in found ==> !(r.first <= i <= r.last)
    ensures !InReport(lines, found, i, extract)
  {
  }

  lemma OnlyReport(tests: Tests, lines: seq<Line>, found: seq<Range>, own: Range, i: nat,
      extract: string -> Option<string>)
    requires InOrder(tests, lines, found, |lines|) && own in found && own.first <= i <= own.last
    ensures InReport(lines, found, i, extract) <==> Report(lines, own, extract).Some?
  {
    forall r | r in found && r.first <= i <= r.last ensures r == own {
      OneRange(tests, lines, found, r, own, i);
    }
  }

  lemma OneRange(tests: Tests, lines: seq<Line>, found: seq<Range>, a: Range, b: Range, i: nat)
    requires InOrder(tests, lines, found, |lines|) && a in found && b in found
    requires a.first <= i <= a.last && b.first <= i <= b.last
    ensures a == b
  {
    var j :| 0 <= j < |found| && found[j] == a;
    var k :| 0 <= k < |found| && found[k] == b;
  }

  // ---- What a report looks like ---------------------------------------------------

  lemma {:induction false} TextAdds(a: seq<Line>, b: seq<Line>, l: Line)
    ensures Text(a + b) == Text(a) + Text(b)
    ensures Text([l]) == if l.text == "" then "" else l.text + "\n"
  {
    assert [l][..0] == [];
    if b == [] {
      assert a + b == a;
    } else {
      assert (a + b)[..|a + b| - 1] == a + b[..|b| - 1];
      TextAdds(a, b[..|b| - 1], l);
    }
  }

  lemma OneLine(lines: seq<Line>, l: Line, extract: string -> Option<string>)
    requires lines == [l]
    ensures Part(lines, Range(0, 0), 1) == lines
    ensures Version(lines, extract) == if extract(l.text).Some? then extract(l.text).value else ""
  {
    assert lines[1..] == [];
    assert Version(lines[1..], extract) == "";
  }

  /** The texts are the reports on the ranges, one after the other. */
  lemma {:induction false} TextsAdd(lines: seq<Line>, a: seq<Range>, b: seq<Range>, r: Range,
      extract: string -> Option<string>)
    requires forall x :: x in a + b + [r] ==> x.first <= x.last < |lines|
    ensures Texts(lines, a + b, extract) == Texts(lines, a, extract) + Texts(lines, b, extract)
    ensures Texts(lines, [r], extract) == Listing(Report(lines, r, extract))
  {
    assert r in a + b + [r] && [r][..0] == [];
    assert Texts(lines, [r][..0], extract) == [];
    if b == [] {
      assert a + b == a;
    } else {
      var rest := b[..|b| - 1];
      assert (a + b)[..|a + b| - 1] == a + rest;
      assert forall x :: x in a + rest + [r] ==> x in a + b + [r];
      TextsAdd(lines, a, rest, r, extract);
    }
  }

  ghost function Listing(report: Option<string>): seq<string> { if report.Some? then [report.value] else [] }

  /** An oops of one line is reported if it has at least 30 characters: the
      kernel's version, if the line names it, on a line of its own, and the line. */
  lemma OneLineReport(l: Line, extract: string -> Option<string>)
    ensures Report([l], Range(0, 0), extract) ==
      if |l.text| < 30 then None
      else Some((if extract(l.text).Some? then extract(l.text).value else "") + "\n" + l.text + "\n")
  {
    TextAdds([], [], l);
    var version := if extract(l.text).Some? then extract(l.text).value else "";
    OneLine([l], l, extract);
    assert version + "\n" + (l.text + "\n") == version + "\n" + l.text + "\n";
  }

  /** Otherwise the first line that names a version decides on it. */
  lemma {:induction false} FirstVersion(lines: seq<Line>, extract: string -> Option<string>, k: nat)
    requires k < |lines| && extract(lines[k].text).Some?
    requires forall j :: 0 <= j < k ==> extract(lines[j].text).None?
    ensures Version(lines, extract) == extract(lines[k].text).value
  {
    if k > 0 {
      assert extract(lines[0].text).None?;
      FirstVersion(lines[1..], extract, k - 1);
    }
  }
}
