/**
 * The Rust event-stream parser: one growing buffer with a read offset, compacted from time to time,
 * that searches only new bytes plus a three-byte overlap for terminators.
 */
module RustSse {
  import opened Wrappers
  import opened Protocol
  import opened SseSpec

  const COMPACT_BYTES := 64 * 1024

  /** `sse_boundary`: index and length of the first terminator. */
  method SseBoundary(buffer: Bytes) returns (boundary: Option<(nat, nat)>)
    ensures boundary == Boundary(buffer)
  {
    var lo := 0;
    while true
      invariant lo <= |buffer|
      invariant forall i :: 0 <= i < lo ==> TerminatorAt(buffer, i) == 0
      decreases |buffer| - lo
    {
      var index := IndexOf(LF, buffer, lo);
      if index.None? {
        ScanFindsNothing(buffer);
        return None;
      }
      var at := index.value;
      if at >= 3 && buffer[at - 3] == CR && buffer[at - 2] == LF && buffer[at - 1] == CR {
        ScanFinds(buffer, at);
        return Some((at - 3, 4));
      }
      if at >= 1 && buffer[at - 1] == LF {
        ScanFinds(buffer, at);
        return Some((at - 1, 2));
      }
      lo := at + 1;
    }
  }

  /** The first terminator as the parser reports it. */
  function Boundary(buffer: Bytes): Option<(nat, nat)> {
    match Scan(buffer, 0)
    case None => None
    case Some(at) => Some((at + 1 - TerminatorAt(buffer, at), TerminatorAt(buffer, at)))
  }

  /** Searching from `pos` finds the event end that searching from `tailStart` finds. */
  ghost predicate SameEnd(buffer: Bytes, tailStart: nat, pos: nat)
    requires tailStart <= pos <= |buffer|
  {
    var found := Boundary(buffer[pos..]);
    match Scan(buffer[tailStart..], 0)
    case None => found.None?
    case Some(at) => found.Some? && pos + found.value.0 + found.value.1 == tailStart + at + 1
  }

  lemma SearchedBefore(buffer: Bytes, tailStart: nat, newStart: nat)
    requires tailStart <= newStart <= |buffer| && Scan(buffer[tailStart..newStart], 0) == None
    ensures forall i :: 0 <= i < newStart - tailStart ==> TerminatorAt(buffer[tailStart..], i) == 0
  {
    var searched, more := buffer[tailStart..newStart], buffer[newStart..];
    assert searched + more == buffer[tailStart..];
    forall i | 0 <= i < |searched|
      ensures TerminatorAt(searched + more, i) == 0
    {
      TerminatorInLonger(searched, more, i);
    }
  }

  /** Skipping bytes hides no terminator that begins behind them. */
  lemma TerminatorBehind(tail: Bytes, skip: nat, i: nat)
    requires skip + i < |tail|
    ensures i >= 3 || skip == 0 ==> TerminatorAt(tail[skip..], i) == TerminatorAt(tail, skip + i)
    ensures TerminatorAt(tail, skip + i) == 0 ==> TerminatorAt(tail[skip..], i) == 0
  {
  }

  /** Bytes up to `newStart` hold no terminator, so a search may skip all but the last three. */
  lemma OverlapSuffices(buffer: Bytes, tailStart: nat, newStart: nat, pos: nat)
    requires tailStart <= pos <= newStart <= |buffer|
    requires pos == tailStart || pos == newStart - 3
    requires Scan(buffer[tailStart..newStart], 0) == None
    ensures SameEnd(buffer, tailStart, pos)
  {
    hide TerminatorAt, Scan;
    var tail, skip := buffer[tailStart..], pos - tailStart;
    var later := tail[skip..];
    assert later == buffer[pos..];
    SearchedBefore(buffer, tailStart, newStart);
    forall i | 0 <= i < |later|
      ensures TerminatorAt(later, i) == TerminatorAt(tail, skip + i)
    {
      TerminatorBehind(tail, skip, i);
    }
    match Scan(tail, 0)
    case None => ScanFindsNothing(later);
    case Some(at) => ScanFinds(later, at - skip);
  }

  lemma EndsHere(buffer: Bytes, pos: nat)
    requires pos <= |buffer|
    ensures SameEnd(buffer, pos, pos)
  {
  }

  lemma SplitFurther(buffer: Bytes, lo: nat, mid: nat, hi: nat)
    requires lo <= mid <= hi <= |buffer|
    ensures buffer[lo..mid] + buffer[mid..][..hi - mid] == buffer[lo..hi]
    ensures buffer[mid..][hi - mid..] == buffer[hi..]
  {
  }

  class SseParser {
    var buffer: Bytes
    var offset: nat
    var tailStart: nat

    /** Everything pushed so far, and the blocks handed out so far. */
    ghost var consumed: Bytes
    ghost var emitted: seq<Bytes>

    /** The bytes between `offset` and `tailStart` are complete events not handed out yet; no
        terminator lies past `tailStart`. */
    ghost predicate Valid()
      reads this
    {
      && offset <= tailStart <= |buffer|
      && Progress(consumed, emitted, buffer[offset..tailStart], buffer[tailStart..])
      && Scan(buffer[tailStart..], 0) == None
      && Accepted(consumed)
    }

    constructor ()
      ensures Valid() && consumed == [] && emitted == []
    {
      buffer, offset, tailStart := [], 0, 0;
      consumed, emitted := [], [];
      new;
      ScanFindsNothing([]);
    }

    /** `push`: fails exactly when the stream so far holds an event or a tail over its limit. */
    method Push(chunk: Bytes) returns (ok: bool)
      requires Valid()
      modifies this
      ensures ok <==> Accepted(old(consumed) + chunk)
      ensures ok ==> Valid() && consumed == old(consumed) + chunk
      ensures emitted == old(emitted)
    {
      Compact();
      ProgressWithChunk(consumed, emitted, buffer[offset..tailStart], buffer[tailStart..], chunk);
      assert (buffer + chunk)[offset..tailStart] == buffer[offset..tailStart];
      assert (buffer + chunk)[tailStart..] == buffer[tailStart..] + chunk;
      assert (buffer + chunk)[tailStart..|buffer|] == buffer[tailStart..];
      hide Progress, Blocks, Tail, EventsFit, Scan, Accepted;
      buffer := buffer + chunk;
      consumed := consumed + chunk;
      ok := ValidateNewBytes(|chunk|);
    }

    /** `validate_new_bytes`: earlier bytes were searched when they arrived. */
    method ValidateNewBytes(pushed: nat) returns (ok: bool)
      requires offset <= tailStart <= |buffer| - pushed
      requires Progress(consumed, emitted, buffer[offset..tailStart], buffer[tailStart..])
      requires Scan(buffer[tailStart..|buffer| - pushed], 0) == None
      modifies `tailStart
      ensures ok <==> Accepted(consumed)
      ensures ok ==> Valid()
    {
      hide Blocks, Tail, EventsFit, Scan, TerminatorAt, Progress;
      var newStart := |buffer| - pushed;
      var pos := if newStart >= 3 && newStart - 3 > tailStart then newStart - 3 else tailStart;
      OverlapSuffices(buffer, tailStart, newStart, pos);
      while true
        invariant offset <= tailStart <= pos <= |buffer|
        invariant Progress(consumed, emitted, buffer[offset..tailStart], buffer[tailStart..])
        invariant SameEnd(buffer, tailStart, pos)
        decreases |buffer| - tailStart
      {
        var boundary := SseBoundary(buffer[pos..]);
        if boundary.None? {
          break;
        }
        var boundaryEnd := pos + boundary.value.0 + boundary.value.1;
        ProgressToNextEvent(consumed, emitted, buffer[offset..tailStart], buffer[tailStart..],
                            boundaryEnd - tailStart - 1);
        if boundaryEnd - tailStart > MAX_SSE_EVENT_BYTES {
          return false;
        }
        SplitFurther(buffer, offset, tailStart, boundaryEnd);
        tailStart := boundaryEnd;
        pos := boundaryEnd;
        EndsHere(buffer, pos);
      }
      NothingLeft(consumed, emitted, buffer[offset..tailStart], buffer[tailStart..]);
      return |buffer| - tailStart <= MAX_SSE_UNTERMINATED_EVENT_BYTES;
    }

    /** `next_event`: hands out the next complete block. */
    method NextEvent() returns (block: Option<Bytes>)
      requires Valid()
      modifies `offset, `emitted
      ensures Valid()
      ensures block.Some? ==> emitted == old(emitted) + [block.value] && offset > old(offset)
      ensures block.None? ==> emitted == old(emitted) == Blocks(consumed)
    {
      hide TerminatorAt, Scan, Blocks, Tail, EventsFit, Progress, Accepted;
      var ready, rest := buffer[offset..tailStart], buffer[tailStart..];
      var boundary := SseBoundary(ready);
      if boundary.None? {
        NothingReady(consumed, emitted, ready, rest);
        return None;
      }
      var start := offset;
      var (index, length) := boundary.value;
      ProgressByEvent(consumed, emitted, ready, rest, index + length - 1);
      assert ready[index + length..] == buffer[start + index + length..tailStart];
      assert ready[..index] == buffer[start..start + index];
      offset := offset + index + length;
      emitted := emitted + [buffer[start..start + index]];
      return Some(buffer[start..start + index]);
    }

    /** `compact`: drops the consumed prefix; nothing observable changes. */
    method Compact()
      requires Valid()
      modifies `buffer, `offset, `tailStart
      ensures Valid()
    {
      hide TerminatorAt, Scan, Blocks, Tail, EventsFit, Progress, Accepted;
      if offset >= COMPACT_BYTES && offset >= |buffer| / 2 {
        assert buffer[offset..][..tailStart - offset] == buffer[offset..tailStart];
        assert buffer[offset..][tailStart - offset..] == buffer[tailStart..];
        buffer := buffer[offset..];
        tailStart := tailStart - offset;
        offset := 0;
      }
    }
  }

  /** Reading events chunk by chunk, as the sessions do. */
  method ReadEvents(chunks: seq<Bytes>) returns (ok: bool, events: seq<Bytes>)
    ensures ok <==> Accepted(Concat(chunks))
    ensures ok ==> events == Blocks(Concat(chunks))
    ensures !ok ==> exists i: nat :: StopsAt(chunks, i) && events == Blocks(Concat(chunks[..i]))
  {
    hide Scan, Blocks, Tail, EventsFit, Progress, Accepted;
    var parser := new SseParser();
    events := [];
    for i := 0 to |chunks|
      invariant parser.Valid() && fresh(parser)
      invariant parser.consumed == Concat(chunks[..i]) && parser.emitted == events
    {
      assert chunks[..i + 1][..i] == chunks[..i];
      events := Drain(parser, events);
      ok := parser.Push(chunks[i]);
      if !ok {
        RejectedForGood(chunks, i);
        assert StopsAt(chunks, i);
        return;
      }
    }
    assert chunks[..|chunks|] == chunks;
    events := Drain(parser, events);
    return true, events;
  }

  method Drain(parser: SseParser, before: seq<Bytes>) returns (events: seq<Bytes>)
    requires parser.Valid() && parser.emitted == before
    modifies parser`offset, parser`emitted
    ensures parser.Valid() && parser.emitted == events == Blocks(parser.consumed)
  {
    events := before;
    while true
      invariant parser.Valid() && parser.emitted == events
      decreases parser.tailStart - parser.offset
    {
      var block := parser.NextEvent();
      if block.None? {
        return;
      }
      events := events + [block.value];
    }
  }
}
