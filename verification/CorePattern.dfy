/** Expansion of the kernel's core_pattern: every %c that names a known value
    is replaced by it, in one pass over the string that is being rewritten. */
module CorePattern {
  import opened Common

  const SPECIFIERS: string := "%scpugtePi"

  /** Index of c in the table, or its length when c is not there. */
  function SpecifierNum(c: char): (n: nat)
    ensures n <= |SPECIFIERS|
    ensures n < |SPECIFIERS| ==> SPECIFIERS[n] == c
    ensures n == |SPECIFIERS| ==> c !in SPECIFIERS
  {
    Find(SPECIFIERS, c)
  }

  function Find(s: string, c: char): (n: nat)
    ensures n <= |s| && c !in s[..n]
    ensures n < |s| ==> s[n] == c
  {
    if s == [] || s[0] == c then 0 else 1 + Find(s[1..], c)
  }

  /** One value for each specifier but the first, which is %% itself. */
  ghost predicate Values(values: seq<string>) { |values| == |SPECIFIERS| - 1 }

  function ValueOf(c: char, values: seq<string>): string
    requires Values(values) && c in SPECIFIERS
  {
    var n := SpecifierNum(c);
    if n == 0 then "%" else values[n - 1]
  }

  /** The substitution, left to right; what follows a value is never the value. */
  function Expand(pattern: string, values: seq<string>): string
    requires Values(values)
  {
    if pattern == "" then ""
    else if pattern[0] == '%' && |pattern| >= 2 && pattern[1] in SPECIFIERS then
      ValueOf(pattern[1], values) + Expand(pattern[2..], values)
    else [pattern[0]] + Expand(pattern[1..], values)
  }

  /** Rewrites the name in place behind a moving index. */
  method ExpandInPlace(pattern: string, values: seq<string>) returns (name: string)
    requires Values(values)
    ensures name == Expand(pattern, values)
  {
    name := pattern;
    var idx := 0;
    while idx < |name|
      invariant 0 <= idx <= |name|
      invariant name[..idx] + Expand(name[idx..], values) == Expand(pattern, values)
      decreases |name| - idx
    {
      name, idx := ExpandNext(name, idx, values);
    }
    assert name[..idx] == name;
  }

  /** One round: a specifier at the index is replaced and the value skipped,
      any other character is skipped. */
  method ExpandNext(before: string, start: nat, values: seq<string>) returns (name: string, idx: nat)
    requires Values(values) && start < |before|
    ensures idx <= |name| && |name| - idx < |before| - start
    ensures name[..idx] + Expand(name[idx..], values) == before[..start] + Expand(before[start..], values)
  {
    name, idx := before, start;
    var c := name[idx];
    idx := idx + 1;
    var num := if c == '%' && idx < |name| then SpecifierNum(name[idx]) else |SPECIFIERS|;
    if num < |SPECIFIERS| {
      var val := "%";
      if num > 0 { val := values[num - 1]; }
      idx := idx - 1;
      Splice(name, idx, val, values);
      name := name[..idx] + val + name[idx + 2..];
      idx := idx + |val|;
    } else {
      Advance(name, idx - 1, values);
    }
  }

  lemma Advance(name: string, idx: nat, values: seq<string>)
    requires Values(values) && idx < |name|
    requires !(name[idx] == '%' && idx + 1 < |name| && name[idx + 1] in SPECIFIERS)
    ensures name[..idx + 1] + Expand(name[idx + 1..], values) == name[..idx] + Expand(name[idx..], values)
  {
    assert name[idx..][1..] == name[idx + 1..];
    assert name[..idx + 1] == name[..idx] + [name[idx]];
  }

  lemma Splice(name: string, idx: nat, val: string, values: seq<string>)
    requires Values(values) && idx + 1 < |name| && name[idx] == '%' && name[idx + 1] in SPECIFIERS
    requires val == ValueOf(name[idx + 1], values)
    ensures var next := name[..idx] + val + name[idx + 2..];
      next[..idx + |val|] + Expand(next[idx + |val|..], values) == name[..idx] + Expand(name[idx..], values)
  {
    var next := name[..idx] + val + name[idx + 2..];
    assert next[idx + |val|..] == name[idx + 2..] == name[idx..][2..];
    assert next[..idx + |val|] == name[..idx] + val;
  }

  /** The table: the nine letters stand for the nine values, in this order. */
  lemma SpecifierTable(values: seq<string>, n: nat)
    requires |values| == 9 && n < 9
    ensures Values(values) && "scpugtePi"[n] in SPECIFIERS && ValueOf("scpugtePi"[n], values) == values[n]
    ensures '%' in SPECIFIERS && ValueOf('%', values) == "%"
  {
    assert SPECIFIERS[0] == '%' && SPECIFIERS[n + 1] == "scpugtePi"[n];
  }

  /** Behind text without percent signs a specifier is replaced by its value, and
      the expansion goes on behind it. */
  lemma {:induction false} SpecifierReplaced(text: string, c: char, rest: string, values: seq<string>)
    requires Values(values) && c in SPECIFIERS && '%' !in text
    ensures Expand(text + ['%', c] + rest, values) == text + ValueOf(c, values) + Expand(rest, values)
  {
    var pattern := text + ['%', c] + rest;
    if text == "" {
      assert pattern == ['%', c] + rest && pattern[2..] == rest;
    } else {
      assert pattern[0] == text[0] && pattern[1..] == text[1..] + ['%', c] + rest;
      SpecifierReplaced(text[1..], c, rest, values);
    }
  }

  // ---- Substituted text is never scanned again --------------------------------

  /** A pattern is a list of verbatim characters and specifiers, fixed before
      any value is known. */
  datatype Token = Verbatim(c: char) | Specifier(c: char)

  function Tokens(pattern: string): (r: seq<Token>)
    ensures forall t :: t in r && t.Specifier? ==> t.c in SPECIFIERS
  {
    if pattern == "" then []
    else if pattern[0] == '%' && |pattern| >= 2 && pattern[1] in SPECIFIERS then
      [Specifier(pattern[1])] + Tokens(pattern[2..])
    else [Verbatim(pattern[0])] + Tokens(pattern[1..])
  }

  function Spelling(tokens: seq<Token>): string {
    if tokens == [] then ""
    else (match tokens[0] case Verbatim(c) => [c] case Specifier(c) => ['%', c]) + Spelling(tokens[1..])
  }

  function Render(tokens: seq<Token>, values: seq<string>): string
    requires Values(values) && forall t :: t in tokens && t.Specifier? ==> t.c in SPECIFIERS
  {
    if tokens == [] then ""
    else
      (match tokens[0] case Verbatim(c) => [c] case Specifier(c) => ValueOf(c, values)) + Render(tokens[1..], values)
  }

  /** The tokens spell the pattern, and the expansion renders each of them on
      its own: which parts are replaced depends on the pattern alone, so a
      percent sign inside a value is never expanded. */
  lemma {:induction false} ExpandsTokens(pattern: string, values: seq<string>)
    requires Values(values)
    ensures Spelling(Tokens(pattern)) == pattern
    ensures Expand(pattern, values) == Render(Tokens(pattern), values)
  {
    if pattern != "" {
      var used := if Tokens(pattern)[0].Specifier? then 2 else 1;
      ExpandsTokens(pattern[used..], values);
      assert Tokens(pattern)[1..] == Tokens(pattern[used..]);
      assert pattern == pattern[..used] + pattern[used..];
    }
  }

  /** A pattern in which no percent sign is followed by a known specifier is
      copied verbatim. */
  lemma {:induction false} UnknownVerbatim(pattern: string, values: seq<string>)
    requires Values(values)
    ensures (forall i :: 0 <= i < |pattern| - 1 && pattern[i] == '%' ==> pattern[i + 1] !in SPECIFIERS)
            ==> Expand(pattern, values) == pattern
  {
    if pattern != "" {
      UnknownVerbatim(pattern[1..], values);
      assert forall i :: 0 <= i < |pattern| - 2 ==> pattern[1..][i] == pattern[i + 1];
      assert pattern == [pattern[0]] + pattern[1..];
    }
  }
}
