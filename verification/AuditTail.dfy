/**
 Tailing the audit log: every poll reads from the remembered offset to the end of the file,
 in chunks that end at a newline or after 64 KiB.
 */
module AuditTail {
  import opened Prelude

  newtype byte = b: int | 0 <= b < 256

  const NEWLINE: byte := 10
  const CARRIAGE_RETURN: byte := 13
  const MAX_LINE_BYTES: nat := 64 * 1024

  // ----- chunks ------------------------------------------------------------------------

  /** Where the chunk that goes on at `i` ends: after a newline, after `budget` bytes, or at the end. */
  function ChunkEnd(content: seq<byte>, i: nat, budget: nat): (e: nat)
    requires i <= |content|
    ensures i <= e <= |content| && e <= i + budget
    ensures i < |content| && budget > 0 ==> i < e
    ensures forall k :: i <= k < e - 1 ==> content[k] != NEWLINE
    ensures e < |content| && e < i + budget ==> i < e && content[e - 1] == NEWLINE
    decreases |content| - i
  {
    if i == |content| || budget == 0 then i
    else if content[i] == NEWLINE then i + 1
    else ChunkEnd(content, i + 1, budget - 1)
  }

  function EndFrom(content: seq<byte>, from: nat): nat
    requires from <= |content|
  {
    ChunkEnd(content, from, MAX_LINE_BYTES)
  }

  function Chunks(content: seq<byte>, from: nat): seq<seq<byte>>
    requires from <= |content|
    decreases |content| - from
  {
    if from == |content| then []
    else
      var e := EndFrom(content, from);
      [content[from..e]] + Chunks(content, e)
  }

  function Concat(chunks: seq<seq<byte>>): seq<byte> {
    if chunks == [] then [] else chunks[0] + Concat(chunks[1..])
  }

  /** At most 64 KiB, not empty, and a newline only at the end. */
  predicate GoodChunk(chunk: seq<byte>) {
    0 < |chunk| <= 65536 && forall k :: 0 <= k < |chunk| - 1 ==> chunk[k] != NEWLINE
  }

  lemma {:induction false} ChunksAreTheContent(content: seq<byte>, from: nat)
    requires from <= |content|
    ensures Concat(Chunks(content, from)) == content[from..]
    decreases |content| - from
  {
    if from < |content| {
      var e := EndFrom(content, from);
      ChunksAreTheContent(content, e);
      assert content[from..] == content[from..e] + content[e..];
      ConcatCons(content[from..e], Chunks(content, e));
    }
  }

  lemma ConcatCons(chunk: seq<byte>, rest: seq<seq<byte>>)
    ensures Concat([chunk] + rest) == chunk + Concat(rest)
  {
    assert ([chunk] + rest)[1..] == rest;
  }

  lemma FirstChunkIsGood(content: seq<byte>, from: nat)
    requires from < |content|
    ensures GoodChunk(content[from..EndFrom(content, from)])
  {
    var chunk := content[from..EndFrom(content, from)];
    assert forall k :: 0 <= k < |chunk| ==> chunk[k] == content[from + k];
  }

  lemma {:induction false} ChunksAreGood(content: seq<byte>, from: nat)
    requires from <= |content|
    ensures forall i :: 0 <= i < |Chunks(content, from)| ==> GoodChunk(Chunks(content, from)[i])
    decreases |content| - from
  {
    if from < |content| {
      ChunksAreGood(content, EndFrom(content, from));
      FirstChunkIsGood(content, from);
    }
  }

  /** It ends a line, or is as long as a chunk can be. */
  predicate FullChunk(chunk: seq<byte>) {
    chunk != [] && (chunk[|chunk| - 1] == NEWLINE || |chunk| == 65536)
  }

  predicate AllFull(chunks: seq<seq<byte>>) {
    forall i :: 0 <= i < |chunks| ==> FullChunk(chunks[i])
  }

  lemma FullCons(first: seq<byte>, rest: seq<seq<byte>>)
    requires FullChunk(first) && AllFull(rest)
    ensures AllFull([first] + rest)
  {
  }

  /** Every chunk but the one at the end of the file is full. */
  lemma {:induction false} ChunksAreMaximal(content: seq<byte>, from: nat)
    requires from < |content|
    ensures Chunks(content, from) != [] && AllFull(Chunks(content, from)[..|Chunks(content, from)| - 1])
    decreases |content| - from
  {
    var e := EndFrom(content, from);
    var first := content[from..e];
    if e < |content| {
      ChunksAreMaximal(content, e);
      var rest := Chunks(content, e);
      assert first[|first| - 1] == content[e - 1];
      FullCons(first, rest[..|rest| - 1]);
      assert ([first] + rest)[..|rest|] == [first] + rest[..|rest| - 1];
    }
  }

  // ----- one poll -------------------------------------------------------------------------

  /** The size reported for the file, what it holds when read, and the read that fails, if one does. */
  datatype Poll = Poll(size: nat, content: seq<byte>, failsAt: Option<nat>)

  datatype PollResult = PollResult(raw: seq<seq<byte>>, offset: nat, ok: bool)

  /** `tail_one`: chunks handed on, and the offset remembered. */
  function TailOne(offset: nat, poll: Poll): PollResult {
    var start := if poll.size < offset then 0 else offset;
    if poll.size == start then PollResult([], start, true)
    else if |poll.content| < start then PollResult([], start, Delivered([], poll.failsAt).1)
    else
      var (raw, ok) := Delivered(Chunks(poll.content, start), poll.failsAt);
      PollResult(raw, if ok then |poll.content| else start, ok)
  }

  /** What is handed on of the chunks; the read that finds the end of the file can fail as well. */
  function Delivered(chunks: seq<seq<byte>>, failsAt: Option<nat>): (seq<seq<byte>>, bool) {
    if failsAt.Some? && failsAt.value <= |chunks| then (chunks[..failsAt.value], false) else (chunks, true)
  }

  predicate LineEnd(b: byte) {
    b == NEWLINE || b == CARRIAGE_RETURN
  }

  /** The chunk up to its trailing line-end bytes. */
  function TrimEnd(chunk: seq<byte>): (r: seq<byte>)
    ensures r <= chunk && (forall k :: |r| <= k < |chunk| ==> LineEnd(chunk[k]))
    ensures r != [] ==> !LineEnd(r[|r| - 1])
  {
    if chunk != [] && (chunk[|chunk| - 1] == NEWLINE || chunk[|chunk| - 1] == CARRIAGE_RETURN)
    then TrimEnd(chunk[..|chunk| - 1]) else chunk
  }

  /** A record is a chunk without its line end, if anything is left. */
  function Records(chunks: seq<seq<byte>>): seq<seq<byte>> {
    if chunks == [] then []
    else
      Records(chunks[..|chunks| - 1])
      + (if TrimEnd(chunks[|chunks| - 1]) == [] then [] else [TrimEnd(chunks[|chunks| - 1])])
  }

  /** `read_line_capped` from position `from`: the bytes consumed. */
  method ReadLineCapped(content: seq<byte>, from: nat) returns (n: nat)
    requires from <= |content|
    ensures from + n == EndFrom(content, from) && (n == 0 <==> from == |content|)
  {
    n := 0;
    while n < MAX_LINE_BYTES && from + n < |content|
      invariant n <= MAX_LINE_BYTES && from + n <= |content|
      invariant EndFrom(content, from) == ChunkEnd(content, from + n, MAX_LINE_BYTES - n)
    {
      n := n + 1;
      if content[from + n - 1] == NEWLINE {
        return;
      }
    }
  }

  lemma ChunkStep(raw: seq<seq<byte>>, content: seq<byte>, from: nat)
    requires from < |content|
    ensures var e := EndFrom(content, from);
            raw + Chunks(content, from) == (raw + [content[from..e]]) + Chunks(content, e)
  {
    var e := EndFrom(content, from);
    assert Chunks(content, from) == [content[from..e]] + Chunks(content, e);
  }

  lemma DeliveredFails(raw: seq<seq<byte>>, rest: seq<seq<byte>>)
    ensures Delivered(raw + rest, Some(|raw|)) == (raw, false)
  {
    assert (raw + rest)[..|raw|] == raw;
  }

  lemma DeliveredAll(raw: seq<seq<byte>>, failsAt: Option<nat>)
    requires failsAt.Some? ==> |raw| <= failsAt.value
    ensures Delivered(raw + [], failsAt) == (raw, failsAt != Some(|raw|))
  {
    assert raw + [] == raw;
    assert raw[..|raw|] == raw;
  }

  lemma RecordsSnoc(raw: seq<seq<byte>>, line: seq<byte>)
    ensures Records(raw + [line]) == Records(raw) + (if TrimEnd(line) == [] then [] else [TrimEnd(line)])
  {
    assert (raw + [line])[..|raw|] == raw;
  }

  /** Of the chunks `all`, `raw` have been read and the rest starts at `at`. */
  ghost predicate ReadUpTo(content: seq<byte>, at: nat, raw: seq<seq<byte>>, all: seq<seq<byte>>) {
    at <= |content| && all == raw + Chunks(content, at)
  }

  /** One read, and the record handed on unless only a line end was read; `all` is what there was to read. */
  method ReadAndEmit(content: seq<byte>, at: nat, raw: seq<seq<byte>>, records: seq<seq<byte>>, ghost all: seq<seq<byte>>)
    returns (n: nat, raw': seq<seq<byte>>, records': seq<seq<byte>>)
    requires ReadUpTo(content, at, raw, all) && records == Records(raw)
    ensures n == 0 <==> at == |content|
    ensures if n == 0 then raw' == raw else |raw'| == |raw| + 1
    ensures records' == Records(raw') && ReadUpTo(content, at + n, raw', all)
  {
    n := ReadLineCapped(content, at);
    if n == 0 {
      return n, raw, records;
    }
    var line := content[at..at + n];
    ChunkStep(raw, content, at);
    RecordsSnoc(raw, line);
    raw', records' := raw + [line], records;
    var trimmed := TrimEnd(line);
    if trimmed != [] {
      records' := records' + [trimmed];
    }
  }

  /** The read loop of `tail_one`; `all` is what there is to read. */
  method ReadToEnd(content: seq<byte>, from: nat, failsAt: Option<nat>, ghost all: seq<seq<byte>>)
    returns (raw: seq<seq<byte>>, records: seq<seq<byte>>, consumed: nat, ok: bool)
    requires from <= |content| && all == Chunks(content, from)
    ensures records == Records(raw) && (ok ==> consumed == |content|)
    ensures raw == Delivered(all, failsAt).0 && ok == Delivered(all, failsAt).1
  {
    raw, records, consumed := [], [], from;
    while true
      invariant ReadUpTo(content, consumed, raw, all)
      invariant records == Records(raw)
      invariant failsAt.Some? ==> |raw| <= failsAt.value
      decreases |content| - consumed
    {
      if failsAt == Some(|raw|) {
        DeliveredFails(raw, Chunks(content, consumed));
        return raw, records, consumed, false;
      }
      var n;
      n, raw, records := ReadAndEmit(content, consumed, raw, records, all);
      if n == 0 {
        DeliveredAll(raw, failsAt);
        return raw, records, consumed, true;
      }
      consumed := consumed + n;
    }
  }

  class TailState {
    /** file path -> bytes already read */
    var offsets: map<string, nat>

    constructor ()
      ensures offsets == map[]
    {
      offsets := map[];
    }

    ghost function OffsetOf(path: string): nat
      reads this
    {
      if path in offsets then offsets[path] else 0
    }

    /** `raw` are the chunks read, `records` what is emitted for them. */
    method Tail(path: string, poll: Poll) returns (raw: seq<seq<byte>>, records: seq<seq<byte>>, ok: bool)
      modifies this
      ensures PollResult(raw, OffsetOf(path), ok) == TailOne(old(OffsetOf(path)), poll)
      ensures records == Records(raw)
      ensures offsets == old(offsets)[path := OffsetOf(path)]
    {
      raw, records, ok := [], [], true;
      var offset := if path in offsets then offsets[path] else 0;
      if poll.size < offset {
        offset := 0;
      }
      offsets := offsets[path := offset];
      if poll.size == offset {
        return;
      }
      if |poll.content| < offset {
        // beyond the end of the file: the first read finds nothing
        ok := poll.failsAt != Some(0);
        return;
      }
      var consumed;
      raw, records, consumed, ok := ReadToEnd(poll.content, offset, poll.failsAt, Chunks(poll.content, offset));
      if ok {
        offsets := offsets[path := consumed];
      }
    }
  }

  // ----- what is emitted -------------------------------------------------------------------

  /** Chunk by chunk, in order. */
  lemma {:induction false} RecordsConcat(a: seq<seq<byte>>, b: seq<seq<byte>>)
    ensures Records(a + b) == Records(a) + Records(b)
    decreases |b|
  {
    if b == [] {
      assert a + b == a && Records(a) + [] == Records(a);
    } else {
      var init, last := b[..|b| - 1], b[|b| - 1];
      assert a + b == (a + init) + [last] && b == init + [last];
      RecordsConcat(a, init);
      RecordsSnoc(a + init, last);
      RecordsSnoc(init, last);
    }
  }

  /** `record` is all of `chunk` but its trailing line-end bytes. */
  predicate RecordOf(record: seq<byte>, chunk: seq<byte>) {
    && record != [] && record <= chunk && !LineEnd(record[|record| - 1])
    && forall k :: |record| <= k < |chunk| ==> LineEnd(chunk[k])
  }

  /** One chunk yields nothing exactly when it is line-end bytes only, and otherwise the rest of it; there is one such rest. */
  lemma RecordsOfOne(chunk: seq<byte>, record: seq<byte>)
    ensures Records([chunk]) == [] <==> forall k :: 0 <= k < |chunk| ==> LineEnd(chunk[k])
    ensures Records([chunk]) == [record] <==> RecordOf(record, chunk)
  {
    var trimmed := TrimEnd(chunk);
    assert [chunk][..0] == [] && Records([chunk]) == (if trimmed == [] then [] else [trimmed]);
    if trimmed != [] {
      assert !LineEnd(chunk[|trimmed| - 1]);
    }
    if RecordOf(record, chunk) {
      assert !LineEnd(chunk[|record| - 1]);
      assert |record| == |trimmed|;
      assert record == chunk[..|record|] == trimmed;
    }
    if Records([chunk]) == [record] {
      assert record == [record][0] == trimmed;
    }
  }

  // ----- any number of polls ---------------------------------------------------------------

  /** All chunks of a run of polls, and the offset at its end. */
  function TailAll(offset: nat, polls: seq<Poll>): (seq<seq<byte>>, nat)
    decreases |polls|
  {
    if polls == [] then ([], offset)
    else
      var (raw, before) := TailAll(offset, polls[..|polls| - 1]);
      var last := TailOne(before, polls[|polls| - 1]);
      (raw + last.raw, last.offset)
  }

  /** The file only grows and every read succeeds; a poll may see more than the size it asked for. */
  ghost predicate OnlyGrows(polls: seq<Poll>) {
    && (forall i :: 0 <= i < |polls| ==> polls[i].size <= |polls[i].content| && polls[i].failsAt.None?)
    && (forall i, j :: 0 <= i < j < |polls| ==>
          polls[i].content <= polls[j].content && |polls[i].content| <= polls[j].size)
  }

  lemma {:induction false} ConcatAppend(a: seq<seq<byte>>, b: seq<seq<byte>>)
    ensures Concat(a + b) == Concat(a) + Concat(b)
  {
    if a == [] {
      assert a + b == b;
    } else {
      assert (a + b)[1..] == a[1..] + b;
      ConcatAppend(a[1..], b);
    }
  }

  /** The chunks are exactly the first `offset` bytes. */
  ghost predicate Covers(raw: seq<seq<byte>>, offset: nat, content: seq<byte>) {
    && offset <= |content|
    && Concat(raw) == content[..offset]
    && forall i :: 0 <= i < |raw| ==> GoodChunk(raw[i])
  }

  lemma CoversGrown(raw: seq<seq<byte>>, offset: nat, content: seq<byte>, grown: seq<byte>)
    requires Covers(raw, offset, content) && content <= grown
    ensures Covers(raw, offset, grown)
  {
    assert content[..offset] == grown[..offset];
  }

  lemma TailStep(raw: seq<seq<byte>>, offset: nat, poll: Poll)
    requires offset <= poll.size <= |poll.content| && poll.failsAt.None?
    requires Covers(raw, offset, poll.content)
    ensures var next := TailOne(offset, poll);
            poll.size <= next.offset && Covers(raw + next.raw, next.offset, poll.content)
  {
    if poll.size != offset {
      ChunksAreTheContent(poll.content, offset);
      ChunksAreGood(poll.content, offset);
      ConcatAppend(raw, Chunks(poll.content, offset));
      assert poll.content[..offset] + poll.content[offset..] == poll.content;
      assert poll.content[..|poll.content|] == poll.content;
    } else {
      assert raw + [] == raw;
    }
  }

  /** Nothing is skipped and nothing read twice: the chunks are exactly the bytes before the offset. */
  lemma {:induction false} TailedExactlyOnce(polls: seq<Poll>)
    requires polls != [] && OnlyGrows(polls)
    ensures var (raw, offset) := TailAll(0, polls);
            var last := polls[|polls| - 1];
            last.size <= offset && Covers(raw, offset, last.content)
    decreases |polls|
  {
    var init, last := polls[..|polls| - 1], polls[|polls| - 1];
    var (raw, before) := TailAll(0, init);
    if init == [] {
      assert Covers([], 0, last.content);
    } else {
      TailedExactlyOnce(init);
      var previous := polls[|polls| - 2];
      assert init[|init| - 1] == previous;
      CoversGrown(raw, before, previous.content, last.content);
    }
    TailStep(raw, before, last);
  }

  lemma TruncationIsNoticed(offset: nat, poll: Poll)
    requires poll.size < offset
    ensures TailOne(offset, poll) == TailOne(0, poll)
  {
  }

  /** A file found smaller than the offset is tailed from its beginning, as if it had never been tailed before. */
  lemma {:induction false} TruncationStartsOver(offset: nat, polls: seq<Poll>)
    requires polls != [] && polls[0].size < offset
    ensures TailAll(offset, polls) == TailAll(0, polls)
    decreases |polls|
  {
    var init := polls[..|polls| - 1];
    if init == [] {
      TruncationIsNoticed(offset, polls[0]);
    } else {
      TruncationStartsOver(offset, init);
    }
  }

  /** So its whole new content is handed on, however it grows from there. */
  lemma TruncatedFileIsReadAgain(offset: nat, polls: seq<Poll>)
    requires polls != [] && polls[0].size < offset && OnlyGrows(polls)
    ensures var (raw, end) := TailAll(offset, polls);
            var last := polls[|polls| - 1];
            last.size <= end && Covers(raw, end, last.content)
  {
    TruncationStartsOver(offset, polls);
    TailedExactlyOnce(polls);
  }

  /** A poll that fails after handing on chunks hands them on again next time. */
  lemma FailedPollRepeats(offset: nat, poll: Poll)
    requires offset <= poll.size && poll.failsAt.Some?
    ensures var failed := TailOne(offset, poll);
            var again := TailOne(failed.offset, poll.(failsAt := None));
            !failed.ok ==> failed.offset == offset && failed.raw <= again.raw
  {
  }

  // ----- when a poll falls between two chunks --------------------------------------------------

  /** A chunk of `content` read from `from` on ends at `mid`. */
  predicate Boundary(content: seq<byte>, from: nat, mid: nat)
    requires from <= |content|
    decreases |content| - from
  {
    mid == from || (from < |content| && EndFrom(content, from) <= mid && Boundary(content, EndFrom(content, from), mid))
  }

  lemma {:induction false} TruncatedEnd(content: seq<byte>, i: nat, budget: nat, mid: nat)
    requires i <= mid <= |content|
    ensures var e := ChunkEnd(content, i, budget);
            ChunkEnd(content[..mid], i, budget) == if e <= mid then e else mid
    decreases mid - i
  {
    if i < mid && budget > 0 && content[i] != NEWLINE {
      TruncatedEnd(content, i + 1, budget - 1, mid);
    }
  }

  /** A chunk that ends before the cut is read the same from the cut file. */
  lemma CutChunks(content: seq<byte>, from: nat, mid: nat)
    requires from < mid <= |content| && EndFrom(content, from) <= mid
    ensures var e := EndFrom(content, from);
            Chunks(content[..mid], from) == [content[from..e]] + Chunks(content[..mid], e)
  {
    var e := EndFrom(content, from);
    TruncatedEnd(content, from, MAX_LINE_BYTES, mid);
    assert content[..mid][from..e] == content[from..e];
  }

  /** A chunk that does not is cut short. */
  lemma ShortChunk(content: seq<byte>, from: nat, mid: nat)
    requires from < mid <= |content| && mid < EndFrom(content, from)
    ensures Chunks(content, from) != Chunks(content[..mid], from) + Chunks(content, mid)
  {
    TruncatedEnd(content, from, MAX_LINE_BYTES, mid);
    var cut := Chunks(content[..mid], from);
    assert (cut + Chunks(content, mid))[0] == cut[0] == content[..mid][from..mid];
    assert |Chunks(content, from)[0]| == EndFrom(content, from) - from;
  }

  lemma SameTails(head: seq<byte>, a: seq<seq<byte>>, b: seq<seq<byte>>, c: seq<seq<byte>>)
    ensures [head] + a == ([head] + b) + c <==> a == b + c
  {
    assert ([head] + b) + c == [head] + (b + c);
    assert ([head] + a)[1..] == a && ([head] + (b + c))[1..] == b + c;
  }

  /** A poll after `mid` bytes yields the same chunks as no poll there, exactly when a chunk ends there anyway. */
  lemma {:induction false} PollIsInvisibleExactlyWhen(content: seq<byte>, from: nat, mid: nat)
    requires from <= mid <= |content|
    ensures Chunks(content, from) == Chunks(content[..mid], from) + Chunks(content, mid) <==> Boundary(content, from, mid)
    decreases |content| - from
  {
    if from == mid {
      assert Chunks(content[..mid], from) == [];
      assert [] + Chunks(content, mid) == Chunks(content, mid);
    } else {
      var e := EndFrom(content, from);
      if e <= mid {
        PollIsInvisibleExactlyWhen(content, e, mid);
        CutChunks(content, from, mid);
        SameTails(content[from..e], Chunks(content, e), Chunks(content[..mid], e), Chunks(content, mid));
      } else {
        ShortChunk(content, from, mid);
      }
    }
  }

  /** In particular after a complete line. */
  lemma {:induction false} LineEndIsBoundary(content: seq<byte>, from: nat, mid: nat)
    requires from <= mid <= |content| && (mid == from || content[mid - 1] == NEWLINE)
    ensures Boundary(content, from, mid)
    decreases mid - from
  {
    if from < mid {
      var e := EndFrom(content, from);
      assert e <= mid;
      LineEndIsBoundary(content, e, mid);
    }
  }
}
