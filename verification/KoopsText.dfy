/** The tests the oops scanner makes on the text of a single line. */
module KoopsText {
  import opened Common
  import opened Koops
  import opened KoopsRecord

  const SUSPICIOUS: seq<string> := [
    "BUG:", "WARNING: at", "WARNING: CPU:", "INFO: possible recursive locking detected", "ernel BUG at",
    "list_del corruption", "list_add corruption", "do_IRQ: stack overflow:", "ear stack overflow (cur:",
    "eneral protection fault", "nable to handle kernel", "ouble fault:", "RTNL: assertion failed",
    "eek! page_mapcount(page) went negative!", "adness at", "NETDEV WATCHDOG", "ysctl table check failed",
    ": nobody cared", "IRQ handler type mismatch", "Kernel panic - not syncing:", "Machine Check Exception:",
    "Machine check events logged", "divide error:", "bounds:", "coprocessor segment overrun:", "invalid TSS:",
    "segment not present:", "invalid opcode", "alignment check:", "stack segment:", "fpu exception:",
    "simd exception:", "iret exception:"]

  predicate Contains(s: string, part: string) {
    exists i | 0 <= i <= |s| :: StartsWith(s[i..], part)
  }

  /** One string contains another if it is that one with something around it. */
  lemma ContainsExactly(s: string, part: string)
    ensures Contains(s, part) <==> exists a, b :: s == a + part + b
  {
    if Contains(s, part) {
      var i :| 0 <= i <= |s| && StartsWith(s[i..], part);
      assert s == s[..i] + part + s[i + |part|..] by {
        assert s[i..] == part + s[i..][|part|..];
        assert s[i..][|part|..] == s[i + |part|..];
      }
    }
    if a, b :| s == a + part + b {
      assert s[|a|..] == part + b;
      assert StartsWith(s[|a|..], part);
    }
  }

  predicate StartsWith(s: string, part: string) { |part| <= |s| && s[..|part|] == part }

  function Lower(s: string): string {
    seq(|s|, i requires 0 <= i < |s| => if 'A' <= s[i] <= 'Z' then ((s[i] as int) + 32) as char else s[i])
  }

  predicate ContainsNoCase(s: string, part: string) { Contains(Lower(s), Lower(part)) }

  predicate SuspiciousText(s: string) {
    (exists k | 0 <= k < |SUSPICIOUS| :: Contains(s, SUSPICIOUS[k])) && !Contains(s, "DEBUG:")
  }

  function At(s: string, i: nat): char { if i < |s| then s[i] else '\0' }

  /** The call trace starts: a header, the last line of a fatal machine check,
      or a frame. */
  predicate EntersTrace(s: string) {
    || ContainsNoCase(s, "Call Trace:")
    || (Contains(s, "Kernel panic - not syncing:") && ContainsNoCase(s, "Machine check"))
    || (&& |s| > 8
        && ((At(s, 0) == '(' && At(s, 1) == '[' && At(s, 2) == '<') || (At(s, 0) == '[' && At(s, 1) == '<'))
        && Contains(s, ">]") && Contains(s, "+0x") && Contains(s, "/0x"))
  }

  predicate Digit(c: char) { '0' <= c <= '9' }

  predicate HexDigit(c: char) { Digit(c) || 'a' <= c <= 'f' }

  /** ARM register dump: r, digits, a colon and eight hexadecimal digits. */
  predicate ArmRegister(s: string) {
    exists i, j | 0 <= i < |s| && 0 <= j < |s| :: ArmRegisterAt(s, i, j)
  }

  predicate ArmRegisterAt(s: string, i: nat, j: nat) {
    && i + 1 < j && j + 8 < |s| && s[i] == 'r' && s[j] == ':'
    && (forall k | i < k < j :: Digit(s[k]))
    && (forall k | j < k <= j + 8 :: HexDigit(s[k]))
  }

  predicate TraceShape(s: string) {
    || At(s, 0) == '[' || (At(s, 0) == '(' && At(s, 1) == '[')
    || Contains(s, "] [") || Contains(s, "--- Exception") || Contains(s, "LR =") || Contains(s, "<#DF>")
    || Contains(s, "<IRQ>") || Contains(s, "<EOI>") || Contains(s, "<NMI>") || Contains(s, "<<EOE>>")
    || Contains(s, "Comm:") || Contains(s, "Hardware name:") || Contains(s, "Backtrace:")
    || StartsWith(s, "Code: ") || StartsWith(s, "RIP ") || StartsWith(s, "RSP ")
    || StartsWith(s, "Last Breaking-Event-Address:")
    || ArmRegister(s)
  }

  predicate InstructionDump(s: string) { Contains(s, "Instruction dump:") }

  predicate EndMarker(s: string) { Contains(s, "---[ end trace") }

  const KERNEL := Tests(
    s => SuspiciousText(s), s => EntersTrace(s), s => TraceShape(s), s => InstructionDump(s), s => EndMarker(s))

  /** A first line that is long enough to be reported by itself. */
  function Bug(c: char): string { "BUG: " + seq(32, i => c) }

  const TWO_OOPSES := [Line(Bug('a'), 4), Line("Call Trace:", 4), Line(Bug('b'), 4)]

  lemma PartsWithin(s: string, part: string)
    requires Contains(s, part)
    ensures forall c :: c in part ==> c in s
  {
    var i :| 0 <= i <= |s| && StartsWith(s[i..], part);
    forall c | c in part ensures c in s {
      var k :| 0 <= k < |part| && part[k] == c;
      assert s[i..][..|part|][k] == s[i + k];
    }
  }

  /** Without one of its characters a string does not contain a part. */
  lemma Lacks(s: string, part: string, c: char)
    requires c in part && c !in s
    ensures !Contains(s, part)
  {
    if Contains(s, part) { PartsWithin(s, part); }
  }

  lemma BugLetters(c: char)
    requires c == 'a' || c == 'b'
    ensures |Bug(c)| == 37 && Bug(c)[0] == 'B'
    ensures forall x :: x in Bug(c) ==> x in "BUG: ab"
    ensures forall x :: x in Lower(Bug(c)) ==> x in "bug: a"
  {
    var s := Bug(c);
    forall k | 0 <= k < |s| ensures s[k] in "BUG: ab" && Lower(s)[k] in "bug: a" {
      assert k >= 5 ==> s[k] == c;
      assert k < 5 ==> s[k] == "BUG: "[k];
    }
  }

  lemma BugSuspicious(c: char)
    requires c == 'a' || c == 'b'
    ensures SkipSpaces(Bug(c)) == Bug(c) && SuspiciousText(Bug(c))
  {
    var s := Bug(c);
    BugLetters(c);
    assert s[0..] == s && SUSPICIOUS[0] == "BUG:" && StartsWith(s[0..], SUSPICIOUS[0]);
    assert Contains(s, SUSPICIOUS[0]);
    Lacks(s, "DEBUG:", 'D');
  }

  lemma BugEndsNothing(c: char)
    requires c == 'a' || c == 'b'
    ensures !EndMarker(Bug(c)) && !InstructionDump(Bug(c))
  {
    BugLetters(c);
    Lacks(Bug(c), "---[ end trace", '-');
    Lacks(Bug(c), "Instruction dump:", 'I');
  }

  lemma BugNoTrace(c: char)
    requires c == 'a' || c == 'b'
    ensures !EntersTrace(Bug(c))
  {
    BugLetters(c);
    Lacks(Bug(c), "Kernel panic - not syncing:", 'K');
    assert Lower("Call Trace:")[0] == 'c';
    Lacks(Lower(Bug(c)), Lower("Call Trace:"), 'c');
  }

  lemma TraceHeader()
    ensures SkipSpaces("Call Trace:") == "Call Trace:"
    ensures EntersTrace("Call Trace:") && !EndMarker("Call Trace:")
  {
    var trace := "Call Trace:";
    assert Lower(trace)[0..] == Lower(trace);
    assert StartsWith(Lower(trace)[0..], Lower("Call Trace:"));
    Lacks(trace, "---[ end trace", '-');
  }

  lemma OneTrace()
    ensures IsEpisode(KERNEL, TWO_OOPSES, Traced(0, 1, 2))
    ensures Reported(KERNEL, TWO_OOPSES, Traced(0, 1, 2)) == Some(Range(0, 1))
  {
    BugSuspicious('a');
    BugNoTrace('a');
    BugSuspicious('b');
    BugEndsNothing('b');
    TraceHeader();
  }

  /** The second oops follows the trace of the first: only that one is recorded
      and reported, although the other is long enough by itself. */
  lemma SecondOopsIsLost(found: seq<Range>, extract: string -> Option<string>)
    requires Reports(KERNEL, TWO_OOPSES, found)
    ensures found == [Range(0, 1)] && Report(TWO_OOPSES, Range(0, 1), extract).Some?
    ensures Suspicious(KERNEL, TWO_OOPSES, 2) && Report(TWO_OOPSES, Range(2, 2), extract).Some?
  {
    BugSuspicious('b');
    BugLetters('a');
    BugLetters('b');
    OneTrace();
    OnlyTrace(KERNEL, TWO_OOPSES, 1, 2);
    ReportsUnique(KERNEL, TWO_OOPSES, found, Listed(Reported(KERNEL, TWO_OOPSES, Traced(0, 1, 2))));
    LongEnough(TWO_OOPSES, Range(0, 1), extract, 0);
    LongEnough(TWO_OOPSES, Range(2, 2), extract, 2);
  }

  /** One long line is enough for a report. */
  lemma LongEnough(lines: seq<Line>, range: Range, extract: string -> Option<string>, i: nat)
    requires range.first <= i <= range.last < |lines| && |lines[i].text| >= SANE_MIN_OOPS_LEN
    ensures Report(lines, range, extract).Some?
  {
    var part := Part(lines, range, range.last + 1);
    assert part[i - range.first] == lines[i];
    LineInText(part, i - range.first);
  }

  lemma {:induction false} LineInText(part: seq<Line>, k: nat)
    requires k < |part| && part[k].text != ""
    ensures |Text(part)| > |part[k].text|
    decreases |part|
  {
    if k < |part| - 1 {
      assert part[..|part| - 1][k] == part[k];
      LineInText(part[..|part| - 1], k);
    }
  }
}
