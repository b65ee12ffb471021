/**
 * Greedy splitting of an event stream into event blocks.
 *
 * Only LF LF and CR LF CR LF end an event, a subset of section 9.2.5 of the WHATWG HTML Standard.
 * A terminator never reaches back over the end of the previous event.
 */
module SseSpec {
  import opened Wrappers
  import opened Protocol

  const CR: Byte := 13
  const MAX_SSE_EVENT_BYTES := 2 * 1024 * 1024
  const MAX_SSE_UNTERMINATED_EVENT_BYTES := 2 * 1024 * 1024

  /** Length of the terminator that ends at `at`, or zero. */
  function TerminatorAt(s: Bytes, at: nat): (length: nat)
    requires at < |s|
    ensures length <= at + 1
  {
    if s[at] != LF then 0
    else if at >= 3 && s[at - 1] == CR && s[at - 2] == LF && s[at - 3] == CR then 4
    else if at >= 1 && s[at - 1] == LF then 2
    else 0
  }

  /** Position of the first terminator's last byte, searching from `lo`. */
  function Scan(s: Bytes, lo: nat): (at: Option<nat>)
    requires lo <= |s|
    ensures at.Some? ==> lo <= at.value < |s| && TerminatorAt(s, at.value) > 0
    ensures at.Some? ==> forall i :: lo <= i < at.value ==> TerminatorAt(s, i) == 0
    ensures at.None? ==> forall i :: lo <= i < |s| ==> TerminatorAt(s, i) == 0
    decreases |s| - lo
  {
    if lo == |s| then None
    else if TerminatorAt(s, lo) > 0 then Some(lo)
    else Scan(s, lo + 1)
  }

  /** The event blocks of a stream, without their terminators. */
  function Blocks(s: Bytes): seq<Bytes>
    decreases |s|
  {
    match Scan(s, 0)
    case None => []
    case Some(at) => [s[..at + 1 - TerminatorAt(s, at)]] + Blocks(s[at + 1..])
  }

  /** What follows the last event. */
  function Tail(s: Bytes): Bytes
    decreases |s|
  {
    match Scan(s, 0)
    case None => s
    case Some(at) => Tail(s[at + 1..])
  }

  /** Every event, with its terminator, is within the event limit. */
  predicate EventsFit(s: Bytes)
    decreases |s|
  {
    match Scan(s, 0)
    case None => true
    case Some(at) => at + 1 <= MAX_SSE_EVENT_BYTES && EventsFit(s[at + 1..])
  }

  /** A stream both parsers accept. */
  predicate Accepted(s: Bytes) {
    EventsFit(s) && |Tail(s)| <= MAX_SSE_UNTERMINATED_EVENT_BYTES
  }

  /** A terminator is decided by the bytes up to its last one. */
  lemma TerminatorInLonger(s: Bytes, more: Bytes, at: nat)
    requires at < |s|
    ensures TerminatorAt(s + more, at) == TerminatorAt(s, at)
  {
  }

  lemma ScanFinds(s: Bytes, at: nat)
    requires at < |s| && TerminatorAt(s, at) > 0
    requires forall i :: 0 <= i < at ==> TerminatorAt(s, i) == 0
    ensures Scan(s, 0) == Some(at)
  {
  }

  lemma ScanFindsNothing(s: Bytes)
    requires forall i :: 0 <= i < |s| ==> TerminatorAt(s, i) == 0
    ensures Scan(s, 0) == None && Blocks(s) == [] && Tail(s) == s && EventsFit(s)
  {
  }

  /** Splitting goes on where it stopped: the events of the first bytes are final, and only the tail
      matters for what comes later. */
  lemma {:induction false} SplitGoesOn(s: Bytes, more: Bytes)
    ensures Blocks(s + more) == Blocks(s) + Blocks(Tail(s) + more)
    ensures Tail(s + more) == Tail(Tail(s) + more)
    ensures EventsFit(s + more) <==> EventsFit(s) && EventsFit(Tail(s) + more)
    decreases |s|
  {
    hide Scan, TerminatorAt;
    match Scan(s, 0)
    case None =>
    case Some(at) =>
      FirstEventInLonger(s, more, at);
      SplitGoesOn(s[at + 1..], more);
  }

  lemma FirstEventInLonger(s: Bytes, more: Bytes, at: nat)
    requires Scan(s, 0) == Some(at)
    ensures Scan(s + more, 0) == Some(at) && TerminatorAt(s + more, at) == TerminatorAt(s, at)
    ensures (s + more)[at + 1..] == s[at + 1..] + more
    ensures (s + more)[..at + 1 - TerminatorAt(s, at)] == s[..at + 1 - TerminatorAt(s, at)]
  {
    forall i | 0 <= i <= at
      ensures TerminatorAt(s + more, i) == TerminatorAt(s, i)
    {
      TerminatorInLonger(s, more, i);
    }
    hide TerminatorAt;
    ScanFinds(s + more, at);
  }

  lemma {:induction false} TailHasNoTerminator(s: Bytes)
    ensures Scan(Tail(s), 0) == None && |Tail(s)| <= |s|
    ensures s[|s| - |Tail(s)|..] == Tail(s)
    decreases |s|
  {
    match Scan(s, 0)
    case None =>
    case Some(at) => TailHasNoTerminator(s[at + 1..]);
  }

  /** The terminators that end the events. */
  function Terminators(s: Bytes): seq<Bytes>
    decreases |s|
  {
    match Scan(s, 0)
    case None => []
    case Some(at) => [s[at + 1 - TerminatorAt(s, at)..at + 1]] + Terminators(s[at + 1..])
  }

  function Interleave(blocks: seq<Bytes>, terminators: seq<Bytes>): Bytes
    requires |blocks| == |terminators|
  {
    if |blocks| == 0 then [] else blocks[0] + terminators[0] + Interleave(blocks[1..], terminators[1..])
  }

  lemma TerminatorForms(s: Bytes, at: nat)
    requires at < |s| && TerminatorAt(s, at) > 0
    ensures var terminator := s[at + 1 - TerminatorAt(s, at)..at + 1];
            terminator == [LF, LF] || terminator == [CR, LF, CR, LF]
    ensures s == s[..at + 1 - TerminatorAt(s, at)] + s[at + 1 - TerminatorAt(s, at)..at + 1] + s[at + 1..]
  {
    assert s == s[..at + 1] + s[at + 1..];
  }

  lemma NothingInterleaved(s: Bytes)
    ensures s == Interleave([], []) + s
  {
  }

  /** Splitting loses nothing: blocks and terminators in turn, then the tail, are the stream again, and
      a terminator is LF LF or CR LF CR LF. */
  lemma {:induction false} SplitLosesNothing(s: Bytes)
    ensures |Blocks(s)| == |Terminators(s)|
    ensures s == Interleave(Blocks(s), Terminators(s)) + Tail(s)
    ensures forall t <- Terminators(s) :: t == [LF, LF] || t == [CR, LF, CR, LF]
    decreases |s|
  {
    hide Scan, TerminatorAt, Interleave;
    match Scan(s, 0)
    case None => NothingInterleaved(s);
    case Some(at) =>
      var cut, rest := at + 1 - TerminatorAt(s, at), s[at + 1..];
      SplitLosesNothing(rest);
      TerminatorForms(s, at);
      InterleaveOneMore(s[..cut], s[cut..at + 1], Blocks(rest), Terminators(rest), Tail(rest));
  }

  lemma InterleaveOneMore(block: Bytes, terminator: Bytes, blocks: seq<Bytes>, terminators: seq<Bytes>, tail: Bytes)
    requires |blocks| == |terminators|
    ensures Interleave([block] + blocks, [terminator] + terminators) + tail
            == block + terminator + (Interleave(blocks, terminators) + tail)
  {
    assert ([block] + blocks)[1..] == blocks && ([terminator] + terminators)[1..] == terminators;
  }

  // ----- the split on bytes -----

  /** LF LF or CR LF CR LF begins at `i`. */
  predicate BeginsTerminator(s: Bytes, i: nat) {
    || (i + 2 <= |s| && s[i..i + 2] == [LF, LF])
    || (i + 4 <= |s| && s[i..i + 4] == [CR, LF, CR, LF])
  }

  ghost predicate HoldsTerminator(s: Bytes) {
    exists i: nat :: BeginsTerminator(s, i)
  }

  predicate IsTerminator(t: Bytes) {
    t == [LF, LF] || t == [CR, LF, CR, LF]
  }

  /** What a reader of the stream expects of a split: every event ends at the first LF LF or CR LF CR LF
      behind the previous event, and nothing that could end one is left over. */
  ghost predicate IsSplit(s: Bytes, blocks: seq<Bytes>, terminators: seq<Bytes>, tail: Bytes) {
    && |blocks| == |terminators|
    && s == Interleave(blocks, terminators) + tail
    && (forall t <- terminators :: IsTerminator(t))
    && (forall k :: 0 <= k < |blocks| ==> FirstTerminatorEnds(blocks[k], terminators[k]))
    && !HoldsTerminator(tail)
  }

  ghost predicate FirstTerminatorEnds(block: Bytes, terminator: Bytes) {
    && |terminator| > 0
    && !HoldsTerminator(block + terminator[..|terminator| - 1])
  }

  /** Scanning finds nothing if and only if no terminator is there. */
  lemma ScanFindsAll(s: Bytes)
    ensures Scan(s, 0) == None <==> !HoldsTerminator(s)
  {
    if i: nat :| BeginsTerminator(s, i) {
      var last := if i + 2 <= |s| && s[i..i + 2] == [LF, LF] then i + 1 else i + 3;
      assert s[i..last + 1][last - i] == LF;
      assert TerminatorAt(s, last) > 0 by {
        if last == i + 3 {
          var t := s[i..i + 4];
          assert s[i] == t[0] && s[i + 1] == t[1] && s[i + 2] == t[2];
        } else {
          var t := s[i..i + 2];
          assert s[i] == t[0];
        }
      }
    }
    match Scan(s, 0)
    case None =>
    case Some(at) =>
      TerminatorForms(s, at);
      assert BeginsTerminator(s, at + 1 - TerminatorAt(s, at));
  }

  /** The first event of a stream on its own bytes. */
  lemma FirstEventEnds(s: Bytes, at: nat)
    requires Scan(s, 0) == Some(at)
    ensures var cut := at + 1 - TerminatorAt(s, at);
      FirstTerminatorEnds(s[..cut], s[cut..at + 1]) && IsTerminator(s[cut..at + 1])
  {
    var cut := at + 1 - TerminatorAt(s, at);
    TerminatorForms(s, at);
    var terminator := s[cut..at + 1];
    assert s[..cut] + terminator[..|terminator| - 1] == s[..at];
    forall i | 0 <= i < at
      ensures TerminatorAt(s[..at], i) == 0
    {
      assert s[..at] + s[at..] == s;
      TerminatorInLonger(s[..at], s[at..], i);
    }
    ScanFindsNothing(s[..at]);
    ScanFindsAll(s[..at]);
  }

  /** The split meets that expectation on every stream: no terminator is overlooked. */
  lemma {:induction false} SplitFindsEveryEvent(s: Bytes)
    ensures IsSplit(s, Blocks(s), Terminators(s), Tail(s))
    decreases |s|
  {
    SplitLosesNothing(s);
    hide TerminatorAt, Scan, Interleave, HoldsTerminator;
    match Scan(s, 0)
    case None => ScanFindsAll(s);
    case Some(at) =>
      FirstEventEnds(s, at);
      SplitFindsEveryEvent(s[at + 1..]);
  }

  /** An event that ends at the first terminator is the one scanning finds. */
  lemma FirstEventFound(block: Bytes, terminator: Bytes, rest: Bytes)
    requires IsTerminator(terminator) && FirstTerminatorEnds(block, terminator)
    ensures var s, at := block + terminator + rest, |block| + |terminator| - 1;
      Scan(s, 0) == Some(at) && TerminatorAt(s, at) == |terminator|
      && s[..|block|] == block && s[|block|..at + 1] == terminator && s[at + 1..] == rest
  {
    var s, at := block + terminator + rest, |block| + |terminator| - 1;
    var shorter := block + terminator[..|terminator| - 1];
    ScanFindsAll(shorter);
    assert s[..at] == shorter && s == shorter + s[at..];
    forall i | 0 <= i < at
      ensures TerminatorAt(s, i) == 0
    {
      TerminatorInLonger(shorter, s[at..], i);
    }
    assert s[|block|..at + 1] == terminator;
    assert s[at] == terminator[|terminator| - 1] && s[at - 1] == terminator[|terminator| - 2];
    if |terminator| == 4 {
      assert s[at - 2] == terminator[1] && s[at - 3] == terminator[0];
    }
    ScanFinds(s, at);
  }

  lemma SplitRest(s: Bytes, blocks: seq<Bytes>, terminators: seq<Bytes>, tail: Bytes, rest: Bytes)
    requires IsSplit(s, blocks, terminators, tail) && |blocks| > 0
    requires rest == Interleave(blocks[1..], terminators[1..]) + tail
    ensures s == blocks[0] + terminators[0] + rest
    ensures IsTerminator(terminators[0]) && FirstTerminatorEnds(blocks[0], terminators[0])
    ensures IsSplit(rest, blocks[1..], terminators[1..], tail) && |rest| < |s|
  {
    hide HoldsTerminator;
  }

  lemma SplitByFirstEvent(s: Bytes, block: Bytes, terminator: Bytes, rest: Bytes)
    requires IsTerminator(terminator) && FirstTerminatorEnds(block, terminator)
    requires s == block + terminator + rest
    ensures Blocks(s) == [block] + Blocks(rest)
    ensures Terminators(s) == [terminator] + Terminators(rest) && Tail(s) == Tail(rest)
  {
    FirstEventFound(block, terminator, rest);
    hide Scan, TerminatorAt, FirstTerminatorEnds;
  }

  lemma NothingToSplit(s: Bytes, blocks: seq<Bytes>, terminators: seq<Bytes>, tail: Bytes)
    requires IsSplit(s, blocks, terminators, tail) && |blocks| == 0
    ensures Blocks(s) == blocks && Terminators(s) == terminators && Tail(s) == tail
  {
    assert s == tail;
    ScanFindsAll(s);
  }

  /** And it is the only split that does. */
  lemma {:induction false} SplitIsUnique(s: Bytes, blocks: seq<Bytes>, terminators: seq<Bytes>, tail: Bytes)
    requires IsSplit(s, blocks, terminators, tail)
    ensures blocks == Blocks(s) && terminators == Terminators(s) && tail == Tail(s)
    decreases |s|
  {
    assert |blocks| == |terminators|;
    hide IsSplit, Blocks, Terminators, Tail, Interleave, IsTerminator, FirstTerminatorEnds;
    if |blocks| == 0 {
      NothingToSplit(s, blocks, terminators, tail);
    } else {
      var rest := Interleave(blocks[1..], terminators[1..]) + tail;
      SplitRest(s, blocks, terminators, tail, rest);
      SplitByFirstEvent(s, blocks[0], terminators[0], rest);
      SplitIsUnique(rest, blocks[1..], terminators[1..], tail);
      assert blocks == [blocks[0]] + blocks[1..] && terminators == [terminators[0]] + terminators[1..];
    }
  }

  ghost predicate EachFits(blocks: seq<Bytes>, terminators: seq<Bytes>)
    requires |blocks| == |terminators|
  {
    forall k :: 0 <= k < |blocks| ==> |blocks[k]| + |terminators[k]| <= MAX_SSE_EVENT_BYTES
  }

  lemma EachFitsOneMore(block: Bytes, terminator: Bytes, blocks: seq<Bytes>, terminators: seq<Bytes>)
    requires |blocks| == |terminators|
    ensures EachFits([block] + blocks, [terminator] + terminators)
            <==> |block| + |terminator| <= MAX_SSE_EVENT_BYTES && EachFits(blocks, terminators)
  {
    var more, moreTerminators := [block] + blocks, [terminator] + terminators;
    if EachFits(more, moreTerminators) {
      assert |more[0]| + |moreTerminators[0]| <= MAX_SSE_EVENT_BYTES;
      forall k | 0 <= k < |blocks|
        ensures |blocks[k]| + |terminators[k]| <= MAX_SSE_EVENT_BYTES
      {
        assert more[k + 1] == blocks[k] && moreTerminators[k + 1] == terminators[k];
      }
    }
  }

  /** A stream is accepted if and only if every event, with its terminator, and the tail are within the
      limits. */
  lemma AcceptedIffEachFits(s: Bytes)
    ensures |Blocks(s)| == |Terminators(s)|
    ensures Accepted(s) <==>
              EachFits(Blocks(s), Terminators(s)) && |Tail(s)| <= MAX_SSE_UNTERMINATED_EVENT_BYTES
  {
    EventsFitIffEachFits(s);
  }

  lemma {:induction false} EventsFitIffEachFits(s: Bytes)
    ensures |Blocks(s)| == |Terminators(s)|
    ensures EventsFit(s) <==> EachFits(Blocks(s), Terminators(s))
    decreases |s|
  {
    match Scan(s, 0)
    case None =>
      ScanFindsNothing(s);
      NothingTooLarge();
    case Some(at) =>
      var cut, rest := at + 1 - TerminatorAt(s, at), s[at + 1..];
      EventsFitIffEachFits(rest);
      FirstEvent(s, at);
      FirstTerminator(s, at);
      EachFitsOneMore(s[..cut], s[cut..at + 1], Blocks(rest), Terminators(rest));
      hide EachFits, Terminators, Blocks, EventsFit, Scan, TerminatorAt;
  }

  lemma FirstTerminator(s: Bytes, at: nat)
    requires Scan(s, 0) == Some(at)
    ensures Terminators(s) == [s[at + 1 - TerminatorAt(s, at)..at + 1]] + Terminators(s[at + 1..])
  {
    hide Scan, TerminatorAt;
  }

  lemma NothingTooLarge()
    ensures EachFits([], [])
  {
  }

  /** The first event after bytes that hold no terminator is at least as long as they are, so a tail
      that is too long can never become acceptable. */
  lemma PrefixAccepted(s: Bytes, more: Bytes)
    requires Accepted(s + more)
    ensures Accepted(s)
  {
    SplitGoesOn(s, more);
    TailHasNoTerminator(s);
    var tail := Tail(s);
    match Scan(tail + more, 0)
    case None =>
    case Some(at) =>
      if at < |tail| {
        TerminatorInLonger(tail, more, at);
      }
  }

  /** How far a stream is processed: `emitted` blocks are out, `ready` holds complete events only,
      `rest` is still to be searched. */
  ghost predicate Progress(stream: Bytes, emitted: seq<Bytes>, ready: Bytes, rest: Bytes) {
    && Blocks(stream) == emitted + Blocks(ready) + Blocks(rest)
    && Tail(ready) == []
    && Tail(stream) == Tail(rest)
    && (EventsFit(stream) <==> EventsFit(rest))
  }

  /** New bytes join what the tail held. */
  lemma ProgressWithChunk(stream: Bytes, emitted: seq<Bytes>, ready: Bytes, tail: Bytes, chunk: Bytes)
    requires Progress(stream, emitted, ready, tail) && Scan(tail, 0) == None && EventsFit(stream)
    ensures Progress(stream + chunk, emitted, ready, tail + chunk)
  {
    SplitGoesOn(stream, chunk);
  }

  /** A found event moves from `rest` to `ready`. */
  lemma ProgressToNextEvent(stream: Bytes, emitted: seq<Bytes>, ready: Bytes, rest: Bytes, at: nat)
    requires Progress(stream, emitted, ready, rest) && Scan(rest, 0) == Some(at)
    ensures at + 1 > MAX_SSE_EVENT_BYTES ==> !Accepted(stream)
    ensures at + 1 <= MAX_SSE_EVENT_BYTES ==>
              Progress(stream, emitted, ready + rest[..at + 1], rest[at + 1..])
  {
    hide Scan, TerminatorAt, Blocks, Tail, EventsFit;
    OneEvent(rest, at);
    FirstEvent(rest, at);
    if at + 1 <= MAX_SSE_EVENT_BYTES {
      CompleteEventsJoin(ready, rest[..at + 1]);
      MoveAcross(emitted + Blocks(ready), rest[..at + 1 - TerminatorAt(rest, at)], [], Blocks(rest[at + 1..]));
    }
  }

  lemma CompleteEventsJoin(ready: Bytes, event: Bytes)
    requires Tail(ready) == [] && Tail(event) == []
    ensures Blocks(ready + event) == Blocks(ready) + Blocks(event)
    ensures Tail(ready + event) == []
  {
    SplitGoesOn(ready, event);
    assert [] + event == event;
  }

  /** Unfolding the split by one event. */
  lemma FirstEvent(rest: Bytes, at: nat)
    requires Scan(rest, 0) == Some(at)
    ensures Blocks(rest) == [rest[..at + 1 - TerminatorAt(rest, at)]] + Blocks(rest[at + 1..])
    ensures Tail(rest) == Tail(rest[at + 1..])
    ensures EventsFit(rest) <==> at + 1 <= MAX_SSE_EVENT_BYTES && EventsFit(rest[at + 1..])
  {
    hide TerminatorAt, Scan;
    assert Blocks(rest) == [rest[..at + 1 - TerminatorAt(rest, at)]] + Blocks(rest[at + 1..]) by {
      hide Tail, EventsFit;
    }
    hide Blocks;
    assert Tail(rest) == Tail(rest[at + 1..]) by {
      hide EventsFit;
    }
  }

  lemma OneEvent(rest: Bytes, at: nat)
    requires Scan(rest, 0) == Some(at)
    ensures Blocks(rest[..at + 1]) == [rest[..at + 1 - TerminatorAt(rest, at)]]
    ensures Tail(rest[..at + 1]) == []
  {
    var event := rest[..at + 1];
    forall i | 0 <= i <= at
      ensures TerminatorAt(event, i) == TerminatorAt(rest, i)
    {
      assert event + rest[at + 1..] == rest;
      TerminatorInLonger(event, rest[at + 1..], i);
    }
    hide TerminatorAt;
    ScanFinds(event, at);
    assert event[at + 1..] == [];
    assert event[..at + 1 - TerminatorAt(rest, at)] == rest[..at + 1 - TerminatorAt(rest, at)];
    ScanFindsNothing([]);
  }

  /** Nothing more to find: the rest is the tail. */
  lemma NothingLeft(stream: Bytes, emitted: seq<Bytes>, ready: Bytes, rest: Bytes)
    requires Progress(stream, emitted, ready, rest) && Scan(rest, 0) == None
    ensures Accepted(stream) <==> |rest| <= MAX_SSE_UNTERMINATED_EVENT_BYTES
  {
  }

  /** Handing out the first complete event. */
  lemma ProgressByEvent(stream: Bytes, emitted: seq<Bytes>, ready: Bytes, rest: Bytes, at: nat)
    requires Progress(stream, emitted, ready, rest) && Scan(ready, 0) == Some(at)
    ensures Progress(stream, emitted + [ready[..at + 1 - TerminatorAt(ready, at)]], ready[at + 1..], rest)
  {
    FirstEvent(ready, at);
    hide Scan, TerminatorAt, Blocks, Tail, EventsFit;
    MoveAcross(emitted, ready[..at + 1 - TerminatorAt(ready, at)], Blocks(ready[at + 1..]), Blocks(rest));
  }

  lemma MoveAcross(a: seq<Bytes>, x: Bytes, b: seq<Bytes>, c: seq<Bytes>)
    ensures a + ([x] + b) + c == (a + [x]) + b + c
  {
    assert a + ([x] + b) == (a + [x]) + b;
  }

  lemma NothingReady(stream: Bytes, emitted: seq<Bytes>, ready: Bytes, rest: Bytes)
    requires Progress(stream, emitted, ready, rest) && Scan(ready, 0) == None && Scan(rest, 0) == None
    ensures emitted == Blocks(stream)
  {
    ScanFindsNothing(ready);
    ScanFindsNothing(rest);
    hide Scan, TerminatorAt, Blocks, Tail, EventsFit;
  }

  /** Nothing is pending but the tail. */
  lemma ProgressSoFar(stream: Bytes)
    requires EventsFit(stream)
    ensures Progress(stream, Blocks(stream), [], Tail(stream)) && Scan(Tail(stream), 0) == None
  {
    TailHasNoTerminator(stream);
    hide TerminatorAt, Scan;
    ScanFindsNothing(Tail(stream));
    ScanFindsNothing([]);
    hide Blocks, Tail, EventsFit;
    assert Blocks(stream) + [] + [] == Blocks(stream);
  }

  /** The first event of `rest` is handed out at once. */
  lemma ProgressOverEvent(stream: Bytes, emitted: seq<Bytes>, rest: Bytes, at: nat)
    requires Progress(stream, emitted, [], rest) && Scan(rest, 0) == Some(at)
    ensures at + 1 > MAX_SSE_EVENT_BYTES ==> !Accepted(stream)
    ensures at + 1 <= MAX_SSE_EVENT_BYTES ==>
              Progress(stream, emitted + [rest[..at + 1 - TerminatorAt(rest, at)]], [], rest[at + 1..])
  {
    hide Scan, TerminatorAt, Blocks, Tail, EventsFit, Accepted;
    FirstEvent(rest, at);
    OneEvent(rest, at);
    ProgressToNextEvent(stream, emitted, [], rest, at);
    MoveAcross(emitted, rest[..at + 1 - TerminatorAt(rest, at)], [], Blocks(rest[at + 1..]));
    assert [] + rest[..at + 1] == rest[..at + 1];
  }

  /** The `i`-th chunk is the first one with which the stream is over a limit. */
  ghost predicate StopsAt(chunks: seq<Bytes>, i: nat) {
    i < |chunks| && Accepted(Concat(chunks[..i])) && !Accepted(Concat(chunks[..i + 1]))
  }

  /** Later chunks cannot undo a rejection, nor change the blocks already split off. */
  lemma RejectedForGood(chunks: seq<Bytes>, i: nat)
    requires i < |chunks| && !Accepted(Concat(chunks[..i]) + chunks[i])
    ensures !Accepted(Concat(chunks))
    ensures Blocks(Concat(chunks[..i])) <= Blocks(Concat(chunks))
  {
    hide Blocks, Accepted, Scan, Tail, EventsFit;
    var sofar, before := Concat(chunks[..i + 1]), Concat(chunks[..i]);
    assert chunks[..i + 1][..i] == chunks[..i];
    ConcatMonotone(chunks, i + 1);
    ConcatMonotone(chunks, i);
    RejectedInLonger(sofar, Concat(chunks));
    BlocksInLonger(before, Concat(chunks));
  }

  lemma RejectedInLonger(stream: Bytes, longer: Bytes)
    requires stream <= longer && !Accepted(stream)
    ensures !Accepted(longer)
  {
    hide Accepted;
    assert longer == stream + longer[|stream|..];
    if Accepted(longer) {
      PrefixAccepted(stream, longer[|stream|..]);
    }
  }

  lemma BlocksInLonger(stream: Bytes, longer: Bytes)
    requires stream <= longer
    ensures Blocks(stream) <= Blocks(longer)
  {
    hide Blocks;
    assert longer == stream + longer[|stream|..];
    SplitGoesOn(stream, longer[|stream|..]);
  }
}
