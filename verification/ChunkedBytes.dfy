/**
 * Payloads kept in physical chunks and consumed through a cursor, refined by flat bytes; content
 * equality whatever the storage shape; and printing a payload chunk by chunk.
 */
module ChunkedPayload {
  import opened Wrappers
  import opened Protocol
  import opened Assembly

  ghost predicate NoEmptyChunk(chunks: seq<Bytes>) {
    forall c <- chunks :: |c| > 0
  }

  lemma {:induction false} ConcatFromFront(chunks: seq<Bytes>)
    requires |chunks| > 0
    ensures Concat(chunks) == chunks[0] + Concat(chunks[1..])
    decreases |chunks|
  {
    var before := chunks[..|chunks| - 1];
    if |chunks| > 1 {
      ConcatFromFront(before);
      assert before[1..] == chunks[1..][..|chunks| - 2];
      assert chunks[0] + Concat(before[1..]) + chunks[|chunks| - 1]
          == chunks[0] + (Concat(before[1..]) + chunks[|chunks| - 1]);
    } else {
      assert chunks[1..] == [] && before == [];
      assert Concat(chunks) == [] + chunks[0];
    }
  }

  /** What lies from byte `offset` of chunk `index` on. */
  function From(chunks: seq<Bytes>, index: nat, offset: nat): Bytes
    requires index <= |chunks| && (if index < |chunks| then offset <= |chunks[index]| else offset == 0)
  {
    if index == |chunks| then [] else chunks[index][offset..] + Concat(chunks[index + 1..])
  }

  /** At the end of a chunk the next one begins. */
  lemma FromNextChunk(chunks: seq<Bytes>, index: nat)
    requires index < |chunks|
    ensures From(chunks, index, |chunks[index]|) == From(chunks, index + 1, 0)
  {
    if index + 1 < |chunks| {
      ConcatFromFront(chunks[index + 1..]);
      assert chunks[index + 1..][1..] == chunks[index + 2..];
    } else {
      assert chunks[index + 1..] == [];
    }
    hide Concat;
  }

  lemma FromFurther(chunks: seq<Bytes>, index: nat, offset: nat, cnt: nat)
    requires index < |chunks| && offset + cnt <= |chunks[index]|
    ensures cnt <= |From(chunks, index, offset)|
    ensures From(chunks, index, offset)[cnt..] == From(chunks, index, offset + cnt)
  {
    hide Concat;
  }

  /** Skipping to the next chunk skips as many bytes as the current one had left. */
  lemma FromAcross(chunks: seq<Bytes>, index: nat, offset: nat, cnt: nat)
    requires index < |chunks| && offset <= |chunks[index]|
    requires |chunks[index]| - offset <= cnt <= |From(chunks, index, offset)|
    ensures var left := cnt - (|chunks[index]| - offset);
            left <= |From(chunks, index + 1, 0)|
            && From(chunks, index + 1, 0)[left..] == From(chunks, index, offset)[cnt..]
  {
    var rest := |chunks[index]| - offset;
    FromFurther(chunks, index, offset, rest);
    FromNextChunk(chunks, index);
    hide *;
    DropTwice(From(chunks, index, offset), rest, cnt);
  }

  lemma DropTwice(data: Bytes, first: nat, second: nat)
    requires first <= second <= |data|
    ensures data[first..][second - first..] == data[second..]
  {
  }

  lemma FromTheEnd(chunks: seq<Bytes>)
    ensures From(chunks, |chunks|, 0) == []
  {
  }

  lemma ChunkIsNotEmpty(chunks: seq<Bytes>, index: nat)
    requires NoEmptyChunk(chunks) && index < |chunks|
    ensures |chunks[index]| > 0
  {
  }

  class ChunkedBytes {
    const chunks: seq<Bytes>
    var index: nat
    var offset: nat
    var remaining: nat

    ghost predicate Valid()
      reads this
    {
      && NoEmptyChunk(chunks)
      && index <= |chunks| && (if index < |chunks| then offset < |chunks[index]| else offset == 0)
      && remaining == |Unread()|
    }

    /** The unread suffix of the concatenation. */
    function Unread(): Bytes
      requires index <= |chunks| && (if index < |chunks| then offset <= |chunks[index]| else offset == 0)
      reads this
    {
      From(chunks, index, offset)
    }

    constructor (ordered: seq<Bytes>)
      requires NoEmptyChunk(ordered)
      ensures Valid() && chunks == ordered && Unread() == Concat(ordered)
    {
      chunks, index, offset, remaining := ordered, 0, 0, |Concat(ordered)|;
      new;
      if |chunks| > 0 {
        ConcatFromFront(chunks);
      }
    }

    /** Clones a cursor with its position. */
    constructor Clone(other: ChunkedBytes)
      requires other.Valid()
      ensures Valid() && Unread() == other.Unread()
    {
      chunks, index, offset, remaining := other.chunks, other.index, other.offset, other.remaining;
    }

    /** `chunk`: a prefix of what is unread, empty only at the end. */
    method Chunk() returns (chunk: Bytes)
      requires Valid()
      ensures chunk <= Unread() && (chunk == [] <==> Unread() == [])
    {
      if remaining == 0 {
        return [];
      }
      return chunks[index][offset..];
    }

    /** `advance`. */
    method Advance(count: nat)
      requires Valid() && count <= remaining
      modifies this`index, this`offset, this`remaining
      ensures Valid() && Unread() == old(Unread())[count..]
    {
      hide From, NoEmptyChunk;
      var cnt := count;
      FromTheEnd(chunks);
      remaining := remaining - cnt;
      ghost var after := Unread()[count..];
      while cnt > 0
        invariant NoEmptyChunk(chunks)
        invariant index <= |chunks| && (if index < |chunks| then offset < |chunks[index]| else offset == 0)
        invariant 0 <= cnt <= |Unread()| && Unread()[cnt..] == after
        invariant remaining == |after|
        decreases cnt
      {
        var currentRemaining := |chunks[index]| - offset;
        if cnt < currentRemaining {
          FromFurther(chunks, index, offset, cnt);
          offset := offset + cnt;
          return;
        }
        FromAcross(chunks, index, offset, cnt);
        cnt := cnt - currentRemaining;
        index := index + 1;
        offset := 0;
        if index < |chunks| {
          ChunkIsNotEmpty(chunks, index);
        }
      }
    }

    /** `into_bytes`: the unread suffix in one piece. */
    method IntoBytes() returns (data: Bytes)
      requires Valid()
      ensures data == Unread()
    {
      hide From, Gathered, NoEmptyChunk;
      if index + 1 == |chunks| {
        FromLastChunk(chunks, offset);
        return chunks[index][offset..];
      }
      FromTheEnd(chunks);
      data := [];
      for i := index to |chunks|
        invariant |data| == 0 <==> i == index
        invariant i > index ==> data == Gathered(chunks, index, offset, i)
      {
        ChunkIsNotEmpty(chunks, i);
        var bytes := if |data| == 0 && offset > 0 then chunks[i][offset..] else chunks[i];
        GatherOneMore(chunks, index, offset, i);
        data := data + bytes;
      }
      if index < |chunks| {
        GatheredAll(chunks, index, offset);
      }
    }
  }

  lemma FromLastChunk(chunks: seq<Bytes>, offset: nat)
    requires |chunks| > 0 && offset <= |chunks[|chunks| - 1]|
    ensures From(chunks, |chunks| - 1, offset) == chunks[|chunks| - 1][offset..]
  {
    assert chunks[|chunks|..] == [];
  }

  lemma GatheredAll(chunks: seq<Bytes>, index: nat, offset: nat)
    requires index < |chunks| && offset <= |chunks[index]|
    ensures Gathered(chunks, index, offset, |chunks|) == From(chunks, index, offset)
  {
    assert chunks[index + 1..|chunks|] == chunks[index + 1..];
  }

  /** The unread bytes of the chunks before `i`. */
  function Gathered(chunks: seq<Bytes>, index: nat, offset: nat, i: nat): Bytes
    requires index < i <= |chunks| && offset <= |chunks[index]|
  {
    chunks[index][offset..] + Concat(chunks[index + 1..i])
  }

  lemma GatherOneMore(chunks: seq<Bytes>, index: nat, offset: nat, i: nat)
    requires index <= i < |chunks| && offset <= |chunks[index]|
    ensures Gathered(chunks, index, offset, i + 1)
            == if i == index then chunks[i][offset..] else Gathered(chunks, index, offset, i) + chunks[i]
  {
    var middle := chunks[index + 1..i + 1];
    if i == index {
      assert middle == [];
    } else {
      assert middle[..|middle| - 1] == chunks[index + 1..i];
    }
  }

  /** `LogicalRecordData` as a buffer: a slice that shrinks, or chunks behind a cursor. */
  class RecordBuf {
    var flat: Bytes
    const chunked: ChunkedBytes?

    ghost predicate Valid()
      reads this, chunked
    {
      chunked != null ==> chunked.Valid()
    }

    function Unread(): Bytes
      requires Valid()
      reads this, chunked
    {
      if chunked != null then chunked.Unread() else flat
    }

    ghost function Repr(): set<object> {
      {this} + if chunked != null then {chunked} else {}
    }

    /** A record as the assembler emits it, unread. */
    constructor (data: LogicalRecordData)
      requires data.Chunked? ==> NoEmptyChunk(data.chunks)
      ensures Valid() && Unread() == data.Content() && fresh(Repr())
    {
      if data.Chunked? {
        var cursor := new ChunkedBytes(data.chunks);
        chunked := cursor;
        flat := [];
      } else {
        chunked := null;
        flat := data.data;
      }
    }

    /** Clones a record, possibly consumed in part. */
    constructor Clone(other: RecordBuf)
      requires other.Valid()
      ensures Valid() && Unread() == other.Unread() && fresh(Repr())
    {
      flat := other.flat;
      if other.chunked != null {
        var cursor := new ChunkedBytes.Clone(other.chunked);
        chunked := cursor;
      } else {
        chunked := null;
      }
    }

    method Remaining() returns (remaining: nat)
      requires Valid()
      ensures remaining == |Unread()|
    {
      return if chunked != null then chunked.remaining else |flat|;
    }

    method Chunk() returns (chunk: Bytes)
      requires Valid()
      ensures chunk <= Unread() && (chunk == [] <==> Unread() == [])
    {
      if chunked != null {
        chunk := chunked.Chunk();
      } else {
        chunk := flat;
      }
    }

    method Advance(count: nat)
      requires Valid() && count <= |Unread()|
      modifies this`flat, chunked
      ensures Valid() && Unread() == old(Unread())[count..]
    {
      if chunked != null {
        chunked.Advance(count);
      } else {
        flat := flat[count..];
      }
    }
  }

  /** Comparing the chunks in front and going on behind them decides equality. */
  lemma CompareChunks(left: Bytes, right: Bytes, leftChunk: Bytes, rightChunk: Bytes, shared: nat)
    requires leftChunk <= left && rightChunk <= right && shared == Min(|leftChunk|, |rightChunk|)
    requires (leftChunk == [] <==> left == []) && (rightChunk == [] <==> right == [])
    requires leftChunk != [] || rightChunk != []
    ensures shared == 0 ==> left != right
    ensures leftChunk[..shared] != rightChunk[..shared] ==> left != right
    ensures leftChunk[..shared] == rightChunk[..shared] ==> (left == right <==> left[shared..] == right[shared..])
  {
    assert leftChunk[..shared] == left[..shared] && rightChunk[..shared] == right[..shared];
    assert left == left[..shared] + left[shared..] && right == right[..shared] + right[shared..];
  }

  /** One round of `eq`: compares the chunks in front and moves both records behind the shared part.
      Nothing is returned while the comparison has to go on. */
  method CompareFront(mine: RecordBuf, other: RecordBuf) returns (verdict: Option<bool>)
    requires mine.Valid() && other.Valid() && mine.Repr() !! other.Repr()
    modifies mine.Repr(), other.Repr()
    ensures verdict.Some? ==> (verdict.value <==> old(mine.Unread()) == old(other.Unread()))
    ensures verdict.None? ==> mine.Valid() && other.Valid() && |mine.Unread()| < |old(mine.Unread())|
    ensures verdict.None? ==>
              (mine.Unread() == other.Unread() <==> old(mine.Unread()) == old(other.Unread()))
  {
    hide NoEmptyChunk, Concat, From, RecordBuf.Valid, RecordBuf.Unread;
    ghost var mineUnread, otherUnread := mine.Unread(), other.Unread();
    var leftChunk := mine.Chunk();
    var rightChunk := other.Chunk();
    if |leftChunk| == 0 && |rightChunk| == 0 {
      return Some(true);
    }
    var shared := Min(|leftChunk|, |rightChunk|);
    CompareChunks(mineUnread, otherUnread, leftChunk, rightChunk, shared);
    if shared == 0 || leftChunk[..shared] != rightChunk[..shared] {
      return Some(false);
    }
    mine.Advance(shared);
    other.Advance(shared);
    return None;
  }

  /** `eq`: compares what is left of two records chunk by chunk, whatever the storage shapes and however
      much of either was consumed. Neither record moves. */
  method EqualContents(left: RecordBuf, right: RecordBuf) returns (equal: bool)
    requires left.Valid() && right.Valid()
    ensures equal <==> left.Unread() == right.Unread()
  {
    hide NoEmptyChunk, Concat, From, RecordBuf.Valid, RecordBuf.Unread;
    var mine := new RecordBuf.Clone(left);
    var other := new RecordBuf.Clone(right);
    var remaining := mine.Remaining();
    var otherRemaining := other.Remaining();
    if remaining != otherRemaining {
      return false;
    }
    ghost var same := left.Unread() == right.Unread();
    while true
      invariant fresh(mine.Repr()) && fresh(other.Repr()) && mine.Repr() !! other.Repr()
      invariant mine.Valid() && other.Valid()
      invariant same <==> mine.Unread() == other.Unread()
      decreases |mine.Unread()|
    {
      var verdict := CompareFront(mine, other);
      if verdict.Some? {
        return verdict.value;
      }
    }
  }

  /** `write_record_data`: prints a payload chunk by chunk. The error for an empty chunk before the end
      does not occur. */
  method WriteRecordData(data: LogicalRecordData) returns (ok: bool, output: Bytes)
    requires data.Chunked? ==> NoEmptyChunk(data.chunks)
    ensures ok && output == data.Content()
  {
    hide NoEmptyChunk, Concat, From, RecordBuf.Valid, RecordBuf.Unread, LogicalRecordData.Content;
    var buf := new RecordBuf(data);
    output := [];
    var remaining := buf.Remaining();
    while remaining > 0
      invariant fresh(buf.Repr()) && buf.Valid()
      invariant remaining == |buf.Unread()|
      invariant output + buf.Unread() == data.Content()
      decreases remaining
    {
      var chunk := buf.Chunk();
      if |chunk| == 0 {
        return false, output;
      }
      PrintFurther(output, buf.Unread(), chunk);
      output := output + chunk;
      buf.Advance(|chunk|);
      remaining := buf.Remaining();
    }
    return true, output;
  }

  lemma PrintFurther(output: Bytes, unread: Bytes, chunk: Bytes)
    requires chunk <= unread
    ensures (output + chunk) + unread[|chunk|..] == output + unread
  {
    assert unread == chunk + unread[|chunk|..];
  }

  /** The assembler never keeps an empty chunk, so every record it emits may be read this way. */
  lemma AssembledChunksAreNotEmpty(writer: WriterState, record: ReadRecord)
    requires writer.pending.Some? ==> NoEmptyChunk(writer.pending.value.chunks)
    ensures var (after, out) := Accept(writer, record);
      && (after.pending.Some? ==> NoEmptyChunk(after.pending.value.chunks))
      && (out.Some? && out.value.Chunked? ==> NoEmptyChunk(out.value.chunks))
  {
    hide Concat;
  }
}
