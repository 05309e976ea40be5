/** Writing one core dump stream into two files with different limits, without
    copying it to user space: tee() duplicates what is in the pipe, splice()
    consumes it. How much either moves at a time, and when it fails, is up to
    the kernel. */
module CoreDump {
  import opened Common

  type Byte = bv8

  class File {
    var data: seq<Byte>

    constructor ()
      ensures data == []
    {
      data := [];
    }
  }

  /** The read end's view: bytes that were written and not yet consumed; an
      empty pipe is at its end. */
  class Pipe {
    var data: seq<Byte>
    // Whether a call on this pipe ever failed.
    ghost var teeFailed: bool
    ghost var spliceFailed: bool

    constructor (data: seq<Byte>)
      ensures this.data == data && NoFailure()
    {
      this.data := data;
      teeFailed, spliceFailed := false, false;
    }

    ghost predicate NoFailure()
      reads this
    {
      !teeFailed && !spliceFailed
    }

    /** Duplicates some of the bytes at hand; negative on failure, zero at the end. */
    method Tee(to: Pipe, size: nat) returns (n: int)
      requires to != this && size > 0
      modifies this`teeFailed, to`data
      ensures teeFailed == (old(teeFailed) || n < 0)
      ensures n > 0 ==> n <= Min(size, |data|) && to.data == old(to.data) + data[..n]
      ensures n <= 0 ==> to.data == old(to.data)
      ensures n == 0 ==> data == []
    {
      var fails: bool := *;
      if fails {
        teeFailed := true;
        return -1;
      }
      if data == [] { return 0; }
      n :| 1 <= n <= size && n <= |data|;
      to.data := to.data + data[..n];
    }

    /** Moves some bytes; negative on failure, zero at the end. */
    method Splice(to: File, size: nat) returns (n: int)
      requires size > 0
      modifies this`data, this`spliceFailed, to
      ensures spliceFailed == (old(spliceFailed) || n < 0)
      ensures n > 0 ==>
        n <= Min(size, |old(data)|) && data == old(data)[n..] && to.data == old(to.data) + old(data)[..n]
      ensures n <= 0 ==> data == old(data) && to.data == old(to.data)
      ensures n == 0 ==> data == []
    {
      var fails: bool := *;
      if fails {
        spliceFailed := true;
        return -1;
      }
      if data == [] { return 0; }
      n :| 1 <= n <= size && n <= |data|;
      to.data := to.data + data[..n];
      data := data[n..];
    }

    /** Repeats Splice until `size` bytes are moved or the pipe ends. `moved`
        bytes were moved in any case; on failure the result is negative. */
    method SpliceFull(to: File, size: nat) returns (total: int, ghost moved: nat)
      modifies this`data, this`spliceFailed, to
      ensures spliceFailed == (old(spliceFailed) || total < 0)
      ensures moved <= Min(size, |old(data)|)
      ensures data == old(data)[moved..] && to.data == old(to.data) + old(data)[..moved]
      ensures total >= 0 ==> total == moved == Min(size, |old(data)|)
    {
      total, moved := 0, 0;
      var left := size;
      while left != 0
        invariant 0 <= left && moved <= |old(data)| && left == size - moved && total == moved
        invariant data == old(data)[moved..] && to.data == old(to.data) + old(data)[..moved]
        invariant spliceFailed == old(spliceFailed)
        decreases left
      {
        var b := Splice(to, left);
        if b < 0 { return b, moved; }
        if b == 0 { break; }
        assert old(data)[..moved] + old(data)[moved..][..b] == old(data)[..moved + b];
        moved := moved + b;
        total := total + b;
        left := left - b;
      }
    }
  }

  function Take(s: seq<Byte>, limit: nat): seq<Byte> { s[..Min(limit, |s|)] }

  /** All of it, or as much as the limit allows. */
  lemma TakeExactly(s: seq<Byte>, limit: nat)
    ensures Take(s, limit) <= s && (|s| <= limit ==> Take(s, limit) == s) && (|s| > limit ==> |Take(s, limit)| == limit)
  {
  }

  /** Where the copies stand after `done` bytes of the stream: the spliced file
      has them all; while the pipe pair is open the tee'd file has them too,
      afterwards it is complete unless something failed. */
  ghost predicate Copied(stream: seq<Byte>, done: nat, spliced: seq<Byte>, teed: seq<Byte>, teedSize: nat,
      teedLimit: nat, open: bool, failed: bool) {
    && done <= |stream| && spliced == stream[..done]
    && teed <= spliced
    && (open ==> !failed && teed == spliced && teedSize == done <= teedLimit && (done < teedLimit || done == 0))
    && (!open && !failed ==> teedLimit <= done && teedSize == teedLimit && teed == stream[..teedLimit])
  }

  /** Copies `stdin` to both files, never past their limits; `copies` is the
      temporary pipe, or null when it could not be created, and `capacity` the
      size of the pipe buffer. The larger limit is spliced, the smaller one
      tee'd. `failed` tells that the tee'd copy was abandoned, `died` that the
      process gave up because the spliced copy could not be written. */
  method DumpTwoCoreFiles(stdin: Pipe, copies: Pipe?, capacity: nat, abrtCore: File, abrtLimit: nat, userCore: File,
      userLimit: nat)
      returns (abrtSize: nat, userSize: nat, failed: bool, died: bool)
    requires capacity > 0 && stdin != copies && (copies != null ==> copies.data == [])
    requires abrtCore != userCore && abrtCore.data == [] && userCore.data == []
    requires stdin.NoFailure() && (copies != null ==> copies.NoFailure())
    modifies stdin, copies, abrtCore, userCore
    // What goes wrong is what the kernel did: the process only dies when its
    // own pipe cannot be spliced, and the second copy is only given up when
    // it has no pipe, or its pipe could not be filled or emptied.
    ensures died <==> stdin.spliceFailed
    ensures failed <==> copies == null || stdin.teeFailed || copies.spliceFailed
    // The copy with the larger limit is complete whatever happens to the other.
    ensures !died ==>
      if abrtLimit > userLimit then abrtCore.data == Take(old(stdin.data), abrtLimit) && abrtSize == |abrtCore.data|
      else userCore.data == Take(old(stdin.data), userLimit) && userSize == |userCore.data|
    // The other one is complete too, unless its pipe failed ...
    ensures !died && !failed ==>
      && abrtCore.data == Take(old(stdin.data), abrtLimit) && abrtSize == |abrtCore.data|
      && userCore.data == Take(old(stdin.data), userLimit) && userSize == |userCore.data|
    // ... and it is a prefix of the larger one in any case, which never holds
    // anything but the beginning of the stream.
    ensures
      if abrtLimit > userLimit then
        userCore.data <= abrtCore.data <= Take(old(stdin.data), abrtLimit) && userSize <= |userCore.data| <= userLimit
      else
        abrtCore.data <= userCore.data <= Take(old(stdin.data), userLimit) && abrtSize <= |abrtCore.data| <= abrtLimit
  {
    var spliced, splicedLimit := userCore, userLimit;
    var teed, teedLimit := abrtCore, abrtLimit;
    if abrtLimit > userLimit {
      spliced, splicedLimit, teed, teedLimit := abrtCore, abrtLimit, userCore, userLimit;
    }
    var splicedSize, teedSize;
    splicedSize, teedSize, failed, died := SplitStream(stdin, copies, capacity, spliced, splicedLimit, teed, teedLimit);
    abrtSize, userSize := teedSize, splicedSize;
    if abrtLimit > userLimit {
      abrtSize, userSize := splicedSize, teedSize;
    }
  }

  /** The copying loop: `splicedLimit` is the larger limit. */
  method SplitStream(stdin: Pipe, copies: Pipe?, capacity: nat, spliced: File, splicedLimit: nat, teed: File,
      teedLimit: nat)
      returns (splicedSize: nat, teedSize: nat, failed: bool, died: bool)
    requires capacity > 0 && stdin != copies && (copies != null ==> copies.data == [])
    requires spliced != teed && spliced.data == [] && teed.data == []
    requires teedLimit <= splicedLimit
    requires stdin.NoFailure() && (copies != null ==> copies.NoFailure())
    modifies stdin, copies, spliced, teed
    ensures died <==> stdin.spliceFailed
    ensures failed <==> copies == null || stdin.teeFailed || copies.spliceFailed
    ensures !died ==> spliced.data == Take(old(stdin.data), splicedLimit) && splicedSize == |spliced.data|
    ensures !died && !failed ==> teed.data == Take(old(stdin.data), teedLimit) && teedSize == |teed.data|
    ensures teed.data <= spliced.data <= Take(old(stdin.data), splicedLimit)
    ensures teedSize <= |teed.data| <= teedLimit
  {
    ghost var stream := stdin.data;
    splicedSize, teedSize, died := 0, 0, false;
    var open := copies != null;
    failed := !open;
    var done := false;
    while !done && !died
      invariant !died ==> Underway(stdin, copies, spliced, teed, stream, splicedSize, splicedLimit, teedSize,
        teedLimit, open, failed)
      invariant Blamed(stdin, copies, failed, died)
      invariant Prefixes(stream, spliced.data, splicedLimit, teed.data, teedSize, teedLimit)
      invariant done ==> died || splicedSize == Min(splicedLimit, |stream|)
      decreases !died, !done, |stdin.data|
    {
      splicedSize, teedSize, open, failed, done, died :=
        CopyChunk(stdin, copies, capacity, spliced, splicedLimit, teed, teedLimit, stream, splicedSize, teedSize,
          open, failed);
    }
  }

  /** The state between two rounds of the loop. */
  ghost predicate Underway(stdin: Pipe, copies: Pipe?, spliced: File, teed: File, stream: seq<Byte>,
      splicedSize: nat, splicedLimit: nat, teedSize: nat, teedLimit: nat, open: bool, failed: bool)
    reads stdin, copies, spliced, teed
  {
    && Copied(stream, splicedSize, spliced.data, teed.data, teedSize, teedLimit, open, failed)
    && stdin.data == stream[splicedSize..] && splicedSize <= splicedLimit
    && (open ==> copies != null && copies.data == [])
  }

  /** Which calls failed, told by the outcome. */
  ghost predicate Blamed(stdin: Pipe, copies: Pipe?, failed: bool, died: bool)
    reads stdin, copies
  {
    && (died <==> stdin.spliceFailed)
    && (failed <==> copies == null || stdin.teeFailed || copies.spliceFailed)
  }

  ghost predicate Prefixes(stream: seq<Byte>, spliced: seq<Byte>, splicedLimit: nat, teed: seq<Byte>, teedSize: nat,
      teedLimit: nat) {
    teed <= spliced <= Take(stream, splicedLimit) && teedSize <= |teed| <= teedLimit
  }

  /** The pipe pair gets what is at hand, which is to be written next; when that
      fails it is closed. `end` tells that the stream is at its end. */
  method FillCopies(stdin: Pipe, copies: Pipe, capacity: nat) returns (end: bool, toWrite: nat, open: bool)
    requires capacity > 0 && stdin != copies && copies.data == [] && !stdin.teeFailed
    modifies stdin`teeFailed, copies`data
    ensures open <==> !stdin.teeFailed
    ensures end ==> open && stdin.data == [] && copies.data == []
    ensures !end ==> 0 < toWrite && (open ==> toWrite <= |stdin.data| && copies.data == stdin.data[..toWrite])
  {
    var n := stdin.Tee(copies, capacity);
    end, open := n == 0, n >= 0;
    toWrite := if n > 0 then n else capacity;
  }

  /** One round: duplicate what is in the pipe, consume it, write the copy. */
  method CopyChunk(stdin: Pipe, copies: Pipe?, capacity: nat, spliced: File, splicedLimit: nat, teed: File,
      teedLimit: nat,
      ghost stream: seq<Byte>, splicedBefore: nat, teedBefore: nat, openBefore: bool, failedBefore: bool)
      returns (splicedSize: nat, teedSize: nat, open: bool, failed: bool, done: bool, died: bool)
    requires capacity > 0 && stdin != copies && spliced != teed && teedLimit <= splicedLimit
    requires Underway(stdin, copies, spliced, teed, stream, splicedBefore, splicedLimit, teedBefore, teedLimit,
      openBefore, failedBefore)
    requires Blamed(stdin, copies, failedBefore, false)
    requires Prefixes(stream, spliced.data, splicedLimit, teed.data, teedBefore, teedLimit)
    modifies stdin, copies, spliced, teed
    ensures !died ==> Underway(stdin, copies, spliced, teed, stream, splicedSize, splicedLimit, teedSize,
      teedLimit, open, failed)
    ensures Blamed(stdin, copies, failed, died)
    ensures Prefixes(stream, spliced.data, splicedLimit, teed.data, teedSize, teedLimit)
    ensures done && !died ==> splicedSize == Min(splicedLimit, |stream|)
    ensures !done ==> !died && |stdin.data| < |old(stdin.data)|
  {
    splicedSize, teedSize, open, failed, done, died := splicedBefore, teedBefore, openBefore, failedBefore, true, false;
    var toWrite: nat := capacity;
    if open {
      var end;
      end, toWrite, open := FillCopies(stdin, copies, capacity);
      if end { return; }
      failed := !open;
    }
    splicedSize, teedSize, open, failed, died :=
      WriteChunk(stdin, copies, toWrite, spliced, splicedLimit, teed, teedLimit, stream,
                 splicedBefore, teedBefore, open, failed);
    done := died || splicedSize == splicedBefore || splicedSize >= splicedLimit;
  }

  /** The second half of a round: the next bytes of the stream go to the spliced
      file, and what was duplicated goes to the tee'd one. */
  method WriteChunk(stdin: Pipe, copies: Pipe?, toWrite: nat, spliced: File, splicedLimit: nat, teed: File,
      teedLimit: nat,
      ghost stream: seq<Byte>, splicedBefore: nat, teedBefore: nat, openBefore: bool, failedBefore: bool)
      returns (splicedSize: nat, teedSize: nat, open: bool, failed: bool, died: bool)
    requires toWrite > 0 && stdin != copies && spliced != teed && teedLimit <= splicedLimit
    requires Copied(stream, splicedBefore, spliced.data, teed.data, teedBefore, teedLimit, openBefore, failedBefore)
    requires stdin.data == stream[splicedBefore..] && splicedBefore <= splicedLimit
    requires openBefore ==> copies != null && toWrite <= |stdin.data| && copies.data == stdin.data[..toWrite]
    requires Blamed(stdin, copies, failedBefore, false)
    requires Prefixes(stream, spliced.data, splicedLimit, teed.data, teedBefore, teedLimit)
    modifies stdin`data, stdin`spliceFailed, copies, spliced, teed
    ensures !died ==> Underway(stdin, copies, spliced, teed, stream, splicedSize, splicedLimit, teedSize,
      teedLimit, open, failed)
    ensures Blamed(stdin, copies, failed, died)
    ensures Prefixes(stream, spliced.data, splicedLimit, teed.data, teedSize, teedLimit)
    ensures var size := Min(toWrite, splicedLimit - splicedBefore);
      !died ==> splicedSize == splicedBefore + Min(size, |stream| - splicedBefore)
  {
    splicedSize, teedSize, open, failed, died := splicedBefore, teedBefore, openBefore, failedBefore, false;
    var moved := SpliceChunk(stdin, spliced, Min(toWrite, splicedLimit - splicedSize), stream, splicedSize);
    if moved < 0 {
      died := true;
      return;
    }
    splicedSize := splicedSize + moved;
    if open {
      teedSize, open, failed := Duplicate(copies, teed, toWrite, teedLimit, splicedLimit, stream, teedSize);
    }
  }

  /** The spliced file gets the next bytes of the stream. */
  method SpliceChunk(stdin: Pipe, file: File, size: nat, ghost stream: seq<Byte>, ghost at: nat) returns (moved: int)
    requires at <= |stream| && stdin.data == stream[at..] && file.data == stream[..at]
    modifies stdin`data, stdin`spliceFailed, file
    ensures stdin.spliceFailed == (old(stdin.spliceFailed) || moved < 0)
    ensures moved >= 0 ==>
      && moved == Min(size, |stream| - at)
      && file.data == stream[..at + moved] && stdin.data == stream[at + moved..]
    ensures stream[..at] <= file.data <= stream[..Min(at + size, |stream|)]
  {
    ghost var chunk;
    moved, chunk := stdin.SpliceFull(file, size);
    assert stream[..at] + stream[at..][..chunk] == stream[..at + chunk];
  }

  /** The tee'd file gets the bytes the spliced file just got, up to its own
      limit; the pipe pair stays open only if it needs more. */
  method Duplicate(copies: Pipe, file: File, toWrite: nat, limit: nat, ghost splicedLimit: nat,
      ghost stream: seq<Byte>, at: nat)
      returns (teedSize: nat, open: bool, failed: bool)
    requires 0 < toWrite && at + toWrite <= |stream| && copies.data == stream[at..at + toWrite]
    requires file.data == stream[..at]
    requires at <= limit <= splicedLimit && (at < limit || at == 0)
    requires !copies.spliceFailed
    modifies copies`data, copies`spliceFailed, file
    ensures failed <==> copies.spliceFailed
    ensures var done := at + Min(toWrite, splicedLimit - at);
      Copied(stream, done, stream[..done], file.data, teedSize, limit, open, failed)
    ensures teedSize <= |file.data| <= limit
    ensures open ==> copies.data == []
  {
    teedSize, open, failed := at, true, false;
    var copied := TeeChunk(copies, file, Min(toWrite, limit - at), stream, at);
    if copied < 0 {
      open, failed := false, true;
    } else {
      teedSize := at + copied;
    }
    if teedSize >= limit {
      open := false;
    }
  }

  /** The tee'd file gets bytes the spliced file already has. */
  method TeeChunk(copies: Pipe, file: File, size: nat, ghost stream: seq<Byte>, ghost at: nat) returns (moved: int)
    requires at + |copies.data| <= |stream| && copies.data == stream[at..at + |copies.data|]
    requires file.data == stream[..at]
    modifies copies`data, copies`spliceFailed, file
    ensures copies.spliceFailed == (old(copies.spliceFailed) || moved < 0)
    ensures moved >= 0 ==>
      && moved == Min(size, |old(copies.data)|)
      && file.data == stream[..at + moved] && copies.data == old(copies.data)[moved..]
    ensures file.data <= stream && at <= |file.data| <= at + Min(size, |old(copies.data)|)
  {
    ghost var chunk, all := 0, copies.data;
    moved, chunk := copies.SpliceFull(file, size);
    assert stream[..at] + all[..chunk] == stream[..at + chunk];
  }
}
