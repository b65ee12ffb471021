/**
 * The TypeScript event-stream parser: it keeps only the current event, in a byte array it grows in
 * place, and looks back from each line feed across the chunk boundary.
 */
module TsSse {
  import opened Wrappers
  import opened Protocol
  import opened SseSpec

  const INITIAL_BUFFER_BYTES := 4096
  const MAX_RETAINED_SSE_BUFFER_BYTES := 64 * 1024

  /** No terminator ends among the first `count` bytes. */
  ghost predicate Searched(rest: Bytes, count: nat) {
    count <= |rest| && forall i :: 0 <= i < count ==> TerminatorAt(rest, i) == 0
  }

  /** Only a line feed ends an event, so the search may jump to the next one. */
  lemma NextLineFeed(held: Bytes, chunk: Bytes, segmentStart: nat, searched: nat, lineFeed: nat)
    requires segmentStart <= searched <= lineFeed <= |chunk|
    requires Searched(held + chunk[segmentStart..], |held| + searched - segmentStart)
    requires forall i :: searched <= i < lineFeed ==> chunk[i] != LF
    ensures Searched(held + chunk[segmentStart..], |held| + lineFeed - segmentStart)
  {
    var rest := held + chunk[segmentStart..];
    forall i | |held| + searched - segmentStart <= i < |held| + lineFeed - segmentStart
      ensures TerminatorAt(rest, i) == 0
    {
      assert rest[i] == chunk[i - |held| + segmentStart];
    }
  }

  lemma EndsNothing(rest: Bytes, at: nat)
    requires Searched(rest, at) && at < |rest| && TerminatorAt(rest, at) == 0
    ensures Searched(rest, at + 1)
  {
  }

  /** The line feed ends the event held so far. */
  lemma EventEnds(stream: Bytes, emitted: seq<Bytes>, held: Bytes, chunk: Bytes, segmentStart: nat, lineFeed: nat)
    requires segmentStart <= lineFeed < |chunk|
    requires Progress(stream, emitted, [], held + chunk[segmentStart..])
    requires Searched(held + chunk[segmentStart..], |held| + lineFeed - segmentStart)
    requires TerminatorAt(held + chunk[segmentStart..], |held| + lineFeed - segmentStart) > 0
    ensures |held| + lineFeed + 1 - segmentStart > MAX_SSE_EVENT_BYTES ==> !Accepted(stream)
    ensures |held| + lineFeed + 1 - segmentStart <= MAX_SSE_EVENT_BYTES ==>
              var event := held + chunk[segmentStart..lineFeed + 1];
              var length := TerminatorAt(held + chunk[segmentStart..], |held| + lineFeed - segmentStart);
              Progress(stream, emitted + [event[..|event| - length]], [], [] + chunk[lineFeed + 1..])
  {
    hide Progress, Accepted, TerminatorAt;
    var rest, at := held + chunk[segmentStart..], |held| + lineFeed - segmentStart;
    var event := held + chunk[segmentStart..lineFeed + 1];
    ScanFinds(rest, at);
    ProgressOverEvent(stream, emitted, rest, at);
    assert rest[at + 1..] == [] + chunk[lineFeed + 1..];
    assert event == rest[..at + 1];
    assert event[..at + 1 - TerminatorAt(rest, at)] == rest[..at + 1 - TerminatorAt(rest, at)];
  }

  /** Without another terminator everything is handed out, and the rest is the tail. */
  lemma AllHandedOut(stream: Bytes, emitted: seq<Bytes>, rest: Bytes)
    requires Progress(stream, emitted, [], rest) && Searched(rest, |rest|)
    ensures Blocks(stream) == emitted && Tail(stream) == rest
    ensures Accepted(stream) <==> |rest| <= MAX_SSE_UNTERMINATED_EVENT_BYTES
  {
    ScanFindsNothing(rest);
    ScanFindsNothing([]);
    NothingReady(stream, emitted, [], rest);
    NothingLeft(stream, emitted, [], rest);
  }

  lemma NothingSearched(rest: Bytes)
    ensures Searched(rest, 0)
  {
  }

  lemma Begin(stream: Bytes, chunk: Bytes)
    requires Accepted(stream)
    ensures Progress(stream + chunk, Blocks(stream), [], Tail(stream) + chunk)
    ensures Searched(Tail(stream) + chunk, |Tail(stream)|)
  {
    hide Blocks, Tail, EventsFit, Searched, Progress, Scan;
    ProgressSoFar(stream);
    ProgressWithChunk(stream, Blocks(stream), [], Tail(stream), chunk);
    TailIsSearched(stream, chunk);
  }

  lemma NoBlocksYet()
    ensures Blocks([]) == [] && Accepted([])
  {
    ScanFindsNothing([]);
  }

  lemma TailIsSearched(stream: Bytes, chunk: Bytes)
    ensures Searched(Tail(stream) + chunk, |Tail(stream)|)
  {
    var tail := Tail(stream);
    TailHasNoTerminator(stream);
    forall i | 0 <= i < |tail| ensures TerminatorAt(tail + chunk, i) == 0 {
      TerminatorInLonger(tail, chunk, i);
    }
  }

  class SseParser {
    var buffer: array<Byte>
    var byteLength: nat

    /** Everything pushed so far. */
    ghost var consumed: Bytes

    ghost predicate Valid()
      reads this, buffer
    {
      && byteLength <= buffer.Length <= MAX_SSE_EVENT_BYTES
      && buffer[..byteLength] == Tail(consumed)
      && Accepted(consumed)
    }

    constructor ()
      ensures Valid() && consumed == [] && fresh(buffer)
    {
      buffer := new Byte[0];
      byteLength, consumed := 0, [];
      new;
      ScanFindsNothing([]);
    }

    /** The growing half of `#append`: the buffer grows geometrically up to the limit. */
    method Reserve(required: nat, maximumBytes: nat)
      requires byteLength <= buffer.Length <= maximumBytes && required <= maximumBytes
      modifies this`buffer
      ensures byteLength <= buffer.Length <= maximumBytes && required <= buffer.Length
      ensures buffer[..byteLength] == old(buffer[..byteLength])
      ensures buffer.Length == if required <= old(buffer.Length) then old(buffer.Length)
              else Min(maximumBytes, Max(required, Max(2 * old(buffer.Length), INITIAL_BUFFER_BYTES)))
      ensures buffer == old(buffer) || fresh(buffer)
    {
      if required > buffer.Length {
        var wanted := Max(required, Max(buffer.Length * 2, INITIAL_BUFFER_BYTES));
        var expanded := new Byte[Min(maximumBytes, wanted)];
        forall i | 0 <= i < byteLength {
          expanded[i] := buffer[i];
        }
        buffer := expanded;
      }
    }

    /** `#append`: fails exactly when the event would pass its limit. */
    method Append(bytes: Bytes, maximumBytes: nat) returns (ok: bool)
      requires byteLength <= buffer.Length <= maximumBytes
      modifies this`buffer, this`byteLength, buffer
      ensures ok <==> old(byteLength) + |bytes| <= maximumBytes
      ensures byteLength <= buffer.Length <= maximumBytes
      ensures buffer[..byteLength] == old(buffer[..byteLength]) + (if ok then bytes else [])
      ensures buffer == old(buffer) || fresh(buffer)
    {
      if |bytes| == 0 {
        return true;
      }
      if |bytes| > maximumBytes - byteLength {
        return false;
      }
      ghost var before := buffer[..byteLength];
      Reserve(byteLength + |bytes|, maximumBytes);
      for i := 0 to |bytes|
        invariant byteLength == old(byteLength) + i
        invariant buffer[..byteLength] == before + bytes[..i]
        modifies `byteLength, buffer
      {
        buffer[byteLength] := bytes[i];
        byteLength := byteLength + 1;
        assert buffer[..byteLength] == buffer[..byteLength - 1] + [bytes[i]];
      }
      assert bytes[..|bytes|] == bytes;
      return true;
    }

    /** The byte `distance` before a line feed, possibly from an earlier chunk. */
    function Before(chunk: Bytes, segmentStart: nat, lineFeed: nat, distance: nat): Option<Byte>
      requires segmentStart <= lineFeed < |chunk| && byteLength <= buffer.Length
      reads this, buffer
    {
      var localIndex := lineFeed - distance;
      if localIndex >= segmentStart then Some(chunk[localIndex])
      else if byteLength + localIndex - segmentStart >= 0
      then Some(buffer[byteLength + localIndex - segmentStart])
      else None
    }

    /** `#boundaryLength`: length of the terminator that this line feed ends, or zero. */
    method BoundaryLength(chunk: Bytes, segmentStart: nat, lineFeed: nat) returns (length: nat)
      requires segmentStart <= lineFeed < |chunk| && chunk[lineFeed] == LF
      requires byteLength <= buffer.Length
      ensures length == TerminatorAt(buffer[..byteLength] + chunk[segmentStart..],
                                     byteLength + lineFeed - segmentStart)
    {
      ghost var rest := buffer[..byteLength] + chunk[segmentStart..];
      ghost var at := byteLength + lineFeed - segmentStart;
      assert forall distance {:trigger Before(chunk, segmentStart, lineFeed, distance)} :: 0 < distance <= 3 ==>
        Before(chunk, segmentStart, lineFeed, distance)
        == if distance <= at then Some(rest[at - distance]) else None;
      if Before(chunk, segmentStart, lineFeed, 3) == Some(CR)
         && Before(chunk, segmentStart, lineFeed, 2) == Some(LF)
         && Before(chunk, segmentStart, lineFeed, 1) == Some(CR)
      {
        return 4;
      }
      return if Before(chunk, segmentStart, lineFeed, 1) == Some(LF) then 2 else 0;
    }

    /** `#takeBlock` and `#decodeBlock`: hands the event out and gives up a large buffer. */
    method TakeBlock(boundaryLength: nat) returns (block: Bytes)
      requires boundaryLength <= byteLength <= buffer.Length
      modifies this`buffer, this`byteLength
      ensures block == old(buffer[..byteLength - boundaryLength])
      ensures byteLength == 0
      ensures buffer.Length == if old(buffer.Length) > MAX_RETAINED_SSE_BUFFER_BYTES then 0 else old(buffer.Length)
      ensures buffer == old(buffer) || fresh(buffer)
    {
      block := buffer[..byteLength - boundaryLength];
      byteLength := 0;
      if buffer.Length > MAX_RETAINED_SSE_BUFFER_BYTES {
        buffer := new Byte[0];
      }
    }

    /** The last segment of an event, up to and with its terminator. */
    method EndEvent(segment: Bytes, boundaryLength: nat) returns (ok: bool, block: Bytes)
      requires byteLength <= buffer.Length <= MAX_SSE_EVENT_BYTES
      requires boundaryLength <= byteLength + |segment|
      modifies this`buffer, this`byteLength, buffer
      ensures ok <==> old(byteLength) + |segment| <= MAX_SSE_EVENT_BYTES
      ensures ok ==> byteLength == 0 && buffer.Length <= MAX_SSE_EVENT_BYTES
      ensures ok ==> var event := old(buffer[..byteLength]) + segment; block == event[..|event| - boundaryLength]
      ensures buffer == old(buffer) || fresh(buffer)
    {
      block := [];
      ok := Append(segment, MAX_SSE_EVENT_BYTES);
      if ok {
        ghost var event := buffer[..byteLength];
        block := TakeBlock(boundaryLength);
        assert block == event[..|event| - boundaryLength];
      }
    }

    /** `push`: returns the events this chunk completes; fails exactly when the stream so far holds an
        event or a tail over its limit. */
    method Push(chunk: Bytes) returns (ok: bool, events: seq<Bytes>)
      requires Valid()
      modifies this, buffer
      ensures ok <==> Accepted(old(consumed) + chunk)
      ensures ok ==> Valid() && consumed == old(consumed) + chunk
      ensures ok ==> Blocks(consumed) == Blocks(old(consumed)) + events
      ensures buffer == old(buffer) || fresh(buffer)
    {
      hide Searched, Progress, Accepted, Blocks, Tail, EventsFit, Scan, TerminatorAt;
      ghost var before := Blocks(consumed);
      Begin(consumed, chunk);
      assert chunk[0..] == chunk;
      consumed := consumed + chunk;
      events := [];
      ghost var handed := before;
      var segmentStart, searched := 0, 0;
      while true
        invariant segmentStart <= searched <= |chunk|
        invariant byteLength <= buffer.Length <= MAX_SSE_EVENT_BYTES
        invariant buffer == old(buffer) || fresh(buffer)
        invariant consumed == old(consumed) + chunk
        invariant handed == before + events
        invariant Progress(consumed, handed, [], buffer[..byteLength] + chunk[segmentStart..])
        invariant Searched(buffer[..byteLength] + chunk[segmentStart..], byteLength + searched - segmentStart)
        decreases |chunk| - searched
      {
        ghost var held := buffer[..byteLength];
        var index := IndexOf(LF, chunk, searched);
        if index.None? {
          NextLineFeed(held, chunk, segmentStart, searched, |chunk|);
          break;
        }
        var lineFeed := index.value;
        NextLineFeed(held, chunk, segmentStart, searched, lineFeed);
        var boundaryLength := BoundaryLength(chunk, segmentStart, lineFeed);
        searched := lineFeed + 1;
        if boundaryLength == 0 {
          EndsNothing(held + chunk[segmentStart..], byteLength + lineFeed - segmentStart);
          continue;
        }
        EventEnds(consumed, handed, held, chunk, segmentStart, lineFeed);
        var block;
        ok, block := EndEvent(chunk[segmentStart..lineFeed + 1], boundaryLength);
        if !ok {
          return false, [];
        }
        segmentStart := lineFeed + 1;
        handed := handed + [block];
        events := events + [block];
        assert buffer[..byteLength] == [];
        NothingSearched([] + chunk[segmentStart..]);
      }
      AllHandedOut(consumed, handed, buffer[..byteLength] + chunk[segmentStart..]);
      ok := Append(chunk[segmentStart..], MAX_SSE_UNTERMINATED_EVENT_BYTES);
    }
  }

  /** Reading events chunk by chunk: the same contract as the Rust parser's. */
  method ReadEvents(chunks: seq<Bytes>) returns (ok: bool, events: seq<Bytes>)
    ensures ok <==> Accepted(Concat(chunks))
    ensures ok ==> events == Blocks(Concat(chunks))
    ensures !ok ==> exists i: nat :: StopsAt(chunks, i) && events == Blocks(Concat(chunks[..i]))
  {
    hide Scan, Blocks, Tail, EventsFit, Progress, Accepted;
    var parser := new SseParser();
    events := [];
    NoBlocksYet();
    for i := 0 to |chunks|
      invariant parser.Valid() && fresh(parser) && fresh(parser.buffer)
      invariant parser.consumed == Concat(chunks[..i]) && events == Blocks(parser.consumed)
    {
      assert chunks[..i + 1][..i] == chunks[..i];
      var found: seq<Bytes>;
      ok, found := parser.Push(chunks[i]);
      if !ok {
        RejectedForGood(chunks, i);
        assert StopsAt(chunks, i);
        return;
      }
      events := events + found;
    }
    assert chunks[..|chunks|] == chunks;
    return true, events;
  }
}
