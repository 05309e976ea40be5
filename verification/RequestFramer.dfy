/** Framing of a request read from a socket in arbitrary chunks: the header
    ends at the first empty line, the body is a list of NUL-terminated messages. */
module RequestFramer {
  import opened Common

  const MAX_MESSAGE_SIZE := 4 * 1024 * 1024

  /** Successful reads; a read of zero bytes is the end. */
  type Chunk = c: string | |c| > 0 witness "x"

  function Stream(chunks: seq<Chunk>): string {
    if chunks == [] then "" else chunks[0] + Stream(chunks[1..])
  }

  lemma {:induction false} StreamSplit(chunks: seq<Chunk>, n: nat)
    requires n <= |chunks|
    ensures Stream(chunks) == Stream(chunks[..n]) + Stream(chunks[n..])
  {
    if n > 0 {
      StreamSplit(chunks[1..], n - 1);
      assert chunks[..n][1..] == chunks[1..][..n - 1];
      assert chunks[1..][n - 1..] == chunks[n..];
    }
  }

  lemma StreamNext(chunks: seq<Chunk>, n: nat)
    requires n < |chunks|
    ensures Stream(chunks[..n + 1]) == Stream(chunks[..n]) + chunks[n]
    ensures |Stream(chunks[..n + 1])| <= |Stream(chunks)|
  {
    StreamSplit(chunks[..n + 1], n);
    assert chunks[..n + 1][..n] == chunks[..n];
    assert chunks[..n + 1][n..] == [chunks[n]];
    assert [chunks[n]][1..] == [];
    StreamSplit(chunks, n + 1);
  }

  // ---- The header ----------------------------------------------------------------

  /** An empty line begins at k: "\n\n" or "\n\r\n". */
  predicate EndsAt(data: string, k: nat) {
    && k + 1 < |data| && data[k] == '\n'
    && (data[k + 1] == '\n' || (data[k + 1] == '\r' && k + 2 < |data| && data[k + 2] == '\n'))
  }

  /** That is: the bytes from k on begin with one of these. */
  lemma EndsAtExactly(data: string, k: nat)
    requires k <= |data|
    ensures EndsAt(data, k) <==> "\n\n" <= data[k..] || "\n\r\n" <= data[k..]
  {
    var rest := data[k..];
    if EndsAt(data, k) {
      assert rest[0] == '\n' && rest[1] == data[k + 1];
      if data[k + 1] == '\n' {
        assert rest[..2] == "\n\n";
      } else {
        assert rest[2] == data[k + 2];
        assert rest[..3] == "\n\r\n";
      }
    }
    if "\n\n" <= rest { assert rest[..2] == "\n\n" && rest[0] == data[k] && rest[1] == data[k + 1]; }
    if "\n\r\n" <= rest {
      assert rest[..3] == "\n\r\n" && rest[0] == data[k] && rest[1] == data[k + 1] && rest[2] == data[k + 2];
    }
  }

  ghost predicate FirstEnd(data: string, from: nat, end: Option<nat>) {
    match end
    case Some(k) => k >= from && EndsAt(data, k) && forall j :: from <= j < k ==> !EndsAt(data, j)
    case None => forall j :: from <= j < |data| ==> !EndsAt(data, j)
  }

  /** Where the search effectively begins: one byte too late when the first
      read returned a single byte, unless the second did too and a third
      followed. */
  function SearchedFrom(chunks: seq<Chunk>): nat {
    if |chunks| >= 2 && |chunks[0]| == 1 && (|chunks[1]| > 1 || |chunks| == 2) then 1 else 0
  }

  /** However the bytes are read, the header ends at the same place, exactly
      but for an empty line right at the start that is split after its first
      byte in such a way. */
  lemma ChunkingMatters(chunks: seq<Chunk>, seen: Option<nat>, first: Option<nat>)
    requires FirstEnd(Stream(chunks), SearchedFrom(chunks), seen) && FirstEnd(Stream(chunks), 0, first)
    ensures seen == first <==> !(SearchedFrom(chunks) == 1 && EndsAt(Stream(chunks), 0))
  {
    if SearchedFrom(chunks) == 1 && EndsAt(Stream(chunks), 0) {
      assert first != None;
    }
  }

  /** An end seen in what was read so far is an end of the whole, and the first
      in the part is the first in the whole. */
  lemma EndInPrefix(data: string, more: string, from: nat, k: nat)
    requires FirstEnd(data, from, Some(k))
    ensures FirstEnd(data + more, from, Some(k))
  {
    forall j | from <= j < k ensures !EndsAt(data + more, j) {
      assert !EndsAt(data, j);
    }
  }

  /** Where the scan of the next read starts: two bytes back, once there are
      two. */
  function Resume(length: nat): nat { if length >= 2 then length - 2 else length }

  /** Nothing before that needs a second look, except after a single byte. */
  lemma SearchResumes(data: string, more: string, low: nat, end: Option<nat>)
    requires FirstEnd(data, low, None) && FirstEnd(data + more, Resume(|data|), end)
    requires low <= Resume(|data|) && |data| != 1
    ensures FirstEnd(data + more, low, end)
  {
    forall j | low <= j < Resume(|data|) ensures !EndsAt(data + more, j) {
      assert !EndsAt(data, j);
    }
  }

  /** The scan of one read. */
  method Search(data: string, start: nat) returns (end: Option<nat>)
    requires start <= |data|
    ensures FirstEnd(data, start, end)
  {
    var p := start;
    while p < |data|
      invariant start <= p <= |data|
      invariant forall j :: start <= j < p ==> !EndsAt(data, j)
      decreases |data| - p
    {
      var q := p;
      while q < |data| && data[q] != '\n'
        invariant p <= q <= |data|
        invariant forall j :: start <= j < q ==> !EndsAt(data, j)
      {
        q := q + 1;
      }
      if q == |data| { return None; }
      p := q + 1;
      if p >= |data| { return None; }
      if data[p] == '\n' || (data[p] == '\r' && p + 1 < |data| && data[p + 1] == '\n') {
        return Some(q);
      }
    }
    end := None;
  }

  lemma {:induction false} StreamLength(chunks: seq<Chunk>)
    ensures |Stream(chunks)| >= |chunks|
    ensures |chunks| == 1 ==> |Stream(chunks)| == |chunks[0]|
    ensures |chunks| == 2 ==> |Stream(chunks)| == |chunks[0]| + |chunks[1]|
  {
    if chunks != [] {
      StreamLength(chunks[1..]);
    }
  }

  /** One more read keeps the search exact, and once an end is seen further
      reads would not move the place it was searched from. */
  lemma NextRead(chunks: seq<Chunk>, n: nat, end: Option<nat>)
    requires 0 < n <= |chunks|
    requires Stream(chunks[..n - 1]) <= Stream(chunks[..n])
    requires FirstEnd(Stream(chunks[..n - 1]), SearchedFrom(chunks[..n - 1]), None)
    requires FirstEnd(Stream(chunks[..n]), Resume(|Stream(chunks[..n - 1])|), end)
    ensures FirstEnd(Stream(chunks[..n]), SearchedFrom(chunks[..n]), end)
    ensures end.Some? ==> SearchedFrom(chunks[..n]) == SearchedFrom(chunks)
  {
    var before, after := Stream(chunks[..n - 1]), Stream(chunks[..n]);
    StreamLength(chunks[..n - 1]);
    StreamLength(chunks[..n]);
    var start, low := Resume(|before|), SearchedFrom(chunks[..n]);
    if start != low {
      assert low == SearchedFrom(chunks[..n - 1]);
      assert after == before + after[|before|..];
      SearchResumes(before, after[|before|..], low, end);
    }
  }

  /** The header loop. On return the buffer and the unread chunks are together
      the stream, and `end` is the end of the header, if there was one. */
  method ReadHeader(chunks: seq<Chunk>, received: nat)
    returns (tooLong: bool, end: Option<nat>, buffer: string, rest: seq<Chunk>)
    ensures buffer + Stream(rest) == Stream(chunks)
    ensures tooLong ==> received + |Stream(chunks)| > MAX_MESSAGE_SIZE
    ensures !tooLong ==> received + |buffer| <= Max(received, MAX_MESSAGE_SIZE)
    ensures !tooLong ==> FirstEnd(Stream(chunks), SearchedFrom(chunks), end)
    ensures !tooLong && end.Some? ==> EndsAt(buffer, end.value)
    ensures !tooLong && end.None? ==> rest == []
  {
    var n := 0;
    buffer, end, tooLong := "", None, false;
    assert chunks[0..] == chunks && chunks[..0] == [];
    while n < |chunks|
      invariant n <= |chunks| && buffer == Stream(chunks[..n])
      invariant FirstEnd(buffer, SearchedFrom(chunks[..n]), None)
      invariant received + |buffer| <= Max(received, MAX_MESSAGE_SIZE)
    {
      var start := Resume(|buffer|);
      ghost var before := buffer;
      StreamNext(chunks, n);
      StreamSplit(chunks, n + 1);
      assert chunks[..n + 1][..n] == chunks[..n];
      buffer := buffer + chunks[n];
      n := n + 1;
      if received + |buffer| > MAX_MESSAGE_SIZE {
        return true, None, buffer, chunks[n..];
      }
      end := Search(buffer, start);
      NextRead(chunks, n, end);
      if end.Some? {
        EndInPrefix(buffer, Stream(chunks[n..]), SearchedFrom(chunks), end.value);
        return false, end, buffer, chunks[n..];
      }
    }
    assert chunks[..n] == chunks;
    return false, None, buffer, [];
  }

  // ---- The body --------------------------------------------------------------------

  const NUL := '\0'

  function NulAt(data: string): (k: nat)
    ensures k <= |data| && forall j :: 0 <= j < k ==> data[j] != NUL
    ensures k < |data| ==> data[k] == NUL
  {
    if data == "" || data[0] == NUL then 0 else 1 + NulAt(data[1..])
  }

  /** The terminated messages of a body, and what follows the last of them. */
  function Messages(data: string): seq<string>
    decreases |data|
  {
    var k := NulAt(data);
    if k == |data| then [] else [data[..k]] + Messages(data[k + 1..])
  }

  function Unterminated(data: string): string
    decreases |data|
  {
    var k := NulAt(data);
    if k == |data| then data else Unterminated(data[k + 1..])
  }

  function Body(messages: seq<string>): string {
    if messages == [] then "" else messages[0] + [NUL] + Body(messages[1..])
  }

  predicate Clean(s: string) { forall j :: 0 <= j < |s| ==> s[j] != NUL }

  lemma NextMessage(data: string, more: string, k: nat)
    requires k < |data| && data[k] == NUL && Clean(data[..k])
    ensures Messages(data + more) == [data[..k]] + Messages(data[k + 1..] + more)
    ensures Unterminated(data + more) == Unterminated(data[k + 1..] + more)
  {
    var all := data + more;
    forall j | 0 <= j < k ensures all[j] != NUL {
      assert all[j] == data[..k][j];
    }
    assert all[k] == NUL;
    assert NulAt(all) == k;
    assert all[..k] == data[..k];
    assert all[k + 1..] == data[k + 1..] + more;
  }

  lemma NoMessage(data: string)
    requires Clean(data)
    ensures Messages(data) == [] && Unterminated(data) == data
  {
    assert NulAt(data) == |data|;
  }

  lemma FirstMessage(first: string, tail: string)
    requires Clean(first)
    ensures Messages(first + [NUL] + tail) == [first] + Messages(tail)
    ensures Unterminated(first + [NUL] + tail) == Unterminated(tail)
  {
    var data := first + [NUL];
    assert data[..|first|] == first && data[|first| + 1..] == [];
    NextMessage(data, tail, |first|);
    assert [] + tail == tail;
  }

  /** Writing messages and reading them back is the identity. */
  lemma {:induction false} MessagesRoundTrip(messages: seq<string>, rest: string)
    requires (forall i :: 0 <= i < |messages| ==> Clean(messages[i])) && Clean(rest)
    ensures Messages(Body(messages) + rest) == messages && Unterminated(Body(messages) + rest) == rest
    decreases |messages|
  {
    if messages == [] {
      assert Body(messages) + rest == rest;
      NoMessage(rest);
    } else {
      MessagesRoundTrip(messages[1..], rest);
      FirstMessage(messages[0], Body(messages[1..]) + rest);
      assert messages[0] + [NUL] + (Body(messages[1..]) + rest) == Body(messages) + rest;
    }
  }

  lemma BodyCons(first: string, others: seq<string>)
    ensures Body([first] + others) == first + [NUL] + Body(others)
  {
    assert ([first] + others)[1..] == others;
  }

  lemma Reassembled(data: string, k: nat, body: string, rest: string)
    requires k < |data| && data[k] == NUL && body + rest == data[k + 1..]
    ensures data[..k] + [NUL] + body + rest == data
  {
    assert data[..k] + [NUL] + body + rest == data[..k] + [NUL] + (body + rest);
  }

  /** Every body is its messages and an unterminated rest. */
  lemma {:induction false} BodyRoundTrip(data: string)
    ensures Body(Messages(data)) + Unterminated(data) == data
    decreases |data|
  {
    var k := NulAt(data);
    if k < |data| {
      var after := data[k + 1..];
      BodyRoundTrip(after);
      Reassembled(data, k, Body(Messages(after)), Unterminated(after));
      BodyCons(data[..k], Messages(after));
    }
  }

  /** Processes the complete messages at the front of the buffer. */
  method TakeMessages(buffer: string, ghost more: string) returns (messages: seq<string>, left: string)
    ensures Clean(left)
    ensures Messages(buffer + more) == messages + Messages(left + more)
    ensures Unterminated(buffer + more) == Unterminated(left + more)
    ensures |left| <= |buffer|
  {
    messages, left := [], buffer;
    while true
      invariant Messages(buffer + more) == messages + Messages(left + more)
      invariant Unterminated(buffer + more) == Unterminated(left + more)
      invariant |left| <= |buffer|
      decreases |left|
    {
      var len := 0;
      while len < |left| && left[len] != NUL
        invariant len <= |left| && Clean(left[..len])
      {
        len := len + 1;
      }
      if len >= |left| {
        assert left[..len] == left;
        return;
      }
      NextMessage(left, more, len);
      messages := messages + [left[..len]];
      left := left[len + 1..];
    }
  }

  /** The body loop for a creation request: `buffer` is what came with the
      header, `received` counts all bytes so far. */
  method ReadBody(start: string, chunks: seq<Chunk>, received: nat)
    returns (tooLong: bool, messages: seq<string>, left: string)
    requires received <= MAX_MESSAGE_SIZE
    ensures tooLong <==> received + |Stream(chunks)| > MAX_MESSAGE_SIZE
    ensures !tooLong ==> messages == Messages(start + Stream(chunks)) && left == Unterminated(start + Stream(chunks))
  {
    var buffer, total, n := start, received, 0;
    messages := [];
    assert chunks[0..] == chunks && chunks[..0] == [];
    while true
      invariant n <= |chunks| && total == received + |Stream(chunks[..n])| <= MAX_MESSAGE_SIZE
      invariant Messages(start + Stream(chunks)) == messages + Messages(buffer + Stream(chunks[n..]))
      invariant Unterminated(start + Stream(chunks)) == Unterminated(buffer + Stream(chunks[n..]))
      decreases |chunks| - n
    {
      ghost var more := Stream(chunks[n..]);
      var ms;
      ms, buffer := TakeMessages(buffer, more);
      messages := messages + ms;
      if n == |chunks| {
        assert chunks[..n] == chunks && buffer + more == buffer;
        NoMessage(buffer);
        return false, messages, buffer;
      }
      StreamNext(chunks, n);
      assert chunks[n..][1..] == chunks[n + 1..];
      assert buffer + more == buffer + chunks[n] + Stream(chunks[n + 1..]);
      buffer := buffer + chunks[n];
      total := total + |chunks[n]|;
      n := n + 1;
      if total > MAX_MESSAGE_SIZE { return true, messages, buffer; }
    }
  }

  // ---- The request ----------------------------------------------------------------------

  datatype Request = TooLong | NoHeaderEnd | Request(header: string, messages: seq<string>)

  function BodyStart(data: string, end: nat): nat
    requires EndsAt(data, end)
    ensures BodyStart(data, end) <= |data|
  {
    if data[end + 1] == '\r' then end + 3 else end + 2
  }

  /** What the request is, without regard to how it was read. */
  ghost predicate Framed(data: string, from: nat, r: Request) {
    exists end: Option<nat> :: FirstEnd(data, from, end)
      && r == if end.None? then NoHeaderEnd
              else Request(data[..end.value + 1], Messages(data[BodyStart(data, end.value)..]))
  }

  /** A framed request is the whole stream: a header, an empty line and the
      messages. From where the search begins the header has no empty line in it. */
  lemma FramedIsWhole(data: string, from: nat, r: Request) returns (line: string, body: string)
    requires Framed(data, from, r) && r.Request?
    ensures line in {"\n", "\r\n"} && data == r.header + line + body && r.messages == Messages(body)
    ensures r.header != "" && r.header[|r.header| - 1] == '\n'
    ensures forall j :: from <= j < |r.header| - 1 ==> !EndsAt(data, j)
  {
    var end: Option<nat> :| FirstEnd(data, from, end)
      && r == if end.None? then NoHeaderEnd
              else Request(data[..end.value + 1], Messages(data[BodyStart(data, end.value)..]));
    line := if data[end.value + 1] == '\r' then "\r\n" else "\n";
    body := data[end.value + 1 + |line|..];
    assert data[end.value + 1..end.value + 1 + |line|] == line;
    assert data == data[..end.value + 1] + line + body;
  }

  /** A creation request from the first byte to the end of the stream. Within
      the size limit the result depends on the bytes alone, up to the place from
      which the end of the header is searched. */
  method ReadRequest(chunks: seq<Chunk>) returns (r: Request)
    ensures |Stream(chunks)| <= 4_194_304 ==> Framed(Stream(chunks), SearchedFrom(chunks), r)
    ensures |Stream(chunks)| > 4_194_304 ==> r == TooLong
  {
    var tooLong, end, buffer, rest := ReadHeader(chunks, 0);
    if tooLong { return TooLong; }
    if end.None? {
      assert buffer + [] == buffer;
      return NoHeaderEnd;
    }
    var bodyStart := if buffer[end.value + 1] == '\r' then end.value + 3 else end.value + 2;
    var header := buffer[..end.value + 1];
    var long, messages, left := ReadBody(buffer[bodyStart..], rest, |buffer|);
    ghost var data := Stream(chunks);
    assert buffer + Stream(rest) == data;
    if long { return TooLong; }
    assert header == data[..end.value + 1];
    assert BodyStart(data, end.value) == bodyStart;
    assert buffer[bodyStart..] + Stream(rest) == data[bodyStart..];
    r := Request(header, messages);
  }

  /** Two ways to read the same bytes give the same request, unless the stream
      begins with an empty line that one of them splits after its first byte. */
  lemma ChunkingIndependent(a: seq<Chunk>, b: seq<Chunk>, r: Request, s: Request)
    requires Stream(a) == Stream(b)
    requires Framed(Stream(a), SearchedFrom(a), r) && Framed(Stream(b), SearchedFrom(b), s)
    requires !EndsAt(Stream(a), 0) || SearchedFrom(a) == SearchedFrom(b)
    ensures r == s
  {
    var data := Stream(a);
    var x: Option<nat> :| FirstEnd(data, SearchedFrom(a), x)
      && r == if x.None? then NoHeaderEnd else Request(data[..x.value + 1], Messages(data[BodyStart(data, x.value)..]));
    var y: Option<nat> :| FirstEnd(data, SearchedFrom(b), y)
      && s == if y.None? then NoHeaderEnd else Request(data[..y.value + 1], Messages(data[BodyStart(data, y.value)..]));
    SameEnd(data, SearchedFrom(a), SearchedFrom(b), x, y);
  }

  lemma SameEnd(data: string, from: nat, other: nat, x: Option<nat>, y: Option<nat>)
    requires FirstEnd(data, from, x) && FirstEnd(data, other, y) && from <= 1 && other <= 1
    requires !EndsAt(data, 0) || from == other
    ensures x == y
  {
  }
}
