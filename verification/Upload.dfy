/**
 Uploading a stream of read chunks through a writer, optionally regrouped into batches of
 a fixed size.
 */
module Upload {
  import opened Bytes
  import opened Files
  import opened Wrappers
  import opened Writer

  /** The read chunks that hold anything. */
  function NonEmpty(input: seq<Bytes>): seq<Bytes> {
    if input == [] then []
    else if input[0] == [] then NonEmpty(input[1..])
    else [input[0]] + NonEmpty(input[1..])
  }

  /** What the writer is handed: the read chunks as they come, or batches of a fixed size
      cut from their concatenation. */
  ghost function Batches(batchBytes: nat, input: seq<Bytes>): seq<Bytes> {
    if batchBytes == 0 then NonEmpty(input) else Pieces(Fixed(batchBytes), Concat(input), 0)
  }

  method MergeChunks(chunks: seq<Bytes>, totalBytes: nat) returns (merged: Bytes)
    requires totalBytes == |Concat(chunks)|
    ensures merged == Concat(chunks)
  {
    if |chunks| == 1 {
      ConcatOne(chunks[0]);
      return chunks[0];
    }
    merged := Merge(chunks, totalBytes);
  }

  class Uploader {
    const writer: StreamWriter
    const batchBytes: nat
    var bytesWritten: nat
    var bufferedChunks: seq<Bytes>
    var bufferedBytes: nat
    /** The batches handed to the writer. */
    ghost var batches: seq<Bytes>
    /** What the writer held before the upload. */
    ghost const start: Bytes
    ghost const startSize: nat

    ghost predicate Valid()
      reads this
    {
      bufferedBytes == |Concat(bufferedChunks)| && bytesWritten == |Concat(batches)|
    }

    /** The writer has been handed exactly the batches. */
    ghost predicate Handed()
      reads this, writer, writer.buffer, writer.store
    {
      && writer.Valid() && writer.Stored() && writer.Open() && writer.Tidy()
      && writer.Data() == start + Concat(batches)
      && writer.totalSize == startSize + |Concat(batches)|
    }

    /** All bytes read so far. */
    ghost function Seen(): Bytes
      reads this
    {
      Concat(batches) + Concat(bufferedChunks)
    }

    constructor (writer: StreamWriter, batchBytes: nat)
      requires writer.Valid() && writer.Stored() && writer.Open() && writer.Tidy()
      ensures Valid() && Handed() && Seen() == [] && batches == []
      ensures start == writer.Data() && startSize == writer.totalSize
      ensures this.writer == writer && this.batchBytes == batchBytes
    {
      this.writer := writer;
      this.batchBytes := batchBytes;
      bytesWritten := 0;
      bufferedChunks := [];
      bufferedBytes := 0;
      batches := [];
      start := writer.Data();
      startSize := writer.totalSize;
      new;
      assert start + [] == start;
    }

    /** The first `maxBytes` buffered bytes, or all of them when there are no more. */
    method TakeBuffered(maxBytes: Option<nat>) returns (batch: Option<Bytes>)
      requires Valid()
      modifies `bufferedChunks, `bufferedBytes
      ensures Valid()
      ensures batch.None? <==> old(bufferedBytes) == 0
      ensures batch.None? ==> bufferedBytes == 0 && Concat(bufferedChunks) == []
      ensures batch.Some? ==> batch.value + Concat(bufferedChunks) == old(Concat(bufferedChunks))
      ensures batch.Some? ==>
        |batch.value| == if maxBytes.Some? && 0 < maxBytes.value < old(bufferedBytes) then maxBytes.value else old(bufferedBytes)
    {
      if bufferedBytes == 0 {
        return None;
      }
      if maxBytes.None? || maxBytes.value == 0 || bufferedBytes <= maxBytes.value {
        var all := MergeChunks(bufferedChunks, bufferedBytes);
        bufferedChunks := [];
        bufferedBytes := 0;
        assert all + [] == all;
        return Some(all);
      }
      var parts: seq<Bytes> := [];
      var collected := 0;
      var remaining := maxBytes.value;
      assert [] + Concat(bufferedChunks) == Concat(bufferedChunks);
      while remaining > 0 && |bufferedChunks| > 0
        invariant Valid() && remaining + collected == maxBytes.value
        invariant collected == |Concat(parts)| && 0 <= remaining <= bufferedBytes
        invariant Concat(parts) + Concat(bufferedChunks) == old(Concat(bufferedChunks))
        decreases |bufferedChunks|, remaining
      {
        var head := bufferedChunks[0];
        if |head| <= remaining {
          TakeHead(parts, bufferedChunks);
          parts := parts + [head];
          bufferedChunks := bufferedChunks[1..];
          collected := collected + |head|;
          bufferedBytes := bufferedBytes - |head|;
          remaining := remaining - |head|;
        } else {
          SplitHead(parts, bufferedChunks, remaining);
          parts := parts + [head[..remaining]];
          bufferedChunks := bufferedChunks[0 := head[remaining..]];
          collected := collected + remaining;
          bufferedBytes := bufferedBytes - remaining;
          remaining := 0;
        }
      }
      assert bufferedChunks == [] ==> Concat(bufferedChunks) == [];
      assert remaining == 0;
      var merged := MergeChunks(parts, collected);
      batch := Some(merged);
    }

    /** Hand one batch to the writer, if anything is buffered. */
    method FlushOneBatch(maxBytes: Option<nat>) returns (flushed: bool)
      requires Valid() && Handed()
      modifies this, writer, writer.buffer, writer.store
      ensures Valid() && Handed() && Seen() == old(Seen())
      ensures flushed <==> old(bufferedBytes) > 0
      ensures !flushed ==> batches == old(batches) && bufferedBytes == 0
      ensures flushed ==>
        var batch := old(Concat(bufferedChunks))[..Size(maxBytes, old(bufferedBytes))];
        batches == old(batches) + [batch] && bufferedBytes == old(bufferedBytes) - |batch|
      ensures writer.buffer == old(writer.buffer) || fresh(writer.buffer)
      ensures Grown(writer.c, old(writer.store.blobs), writer.store.blobs)
    {
      var batch := TakeBuffered(maxBytes);
      if batch.None? {
        return false;
      }
      writer.Append(batch.value);
      BatchHanded(start, batches, batch.value, Concat(bufferedChunks));
      batches := batches + [batch.value];
      bytesWritten := bytesWritten + |batch.value|;
      flushed := true;
    }

    /** Write out the whole batches that are buffered. */
    method FlushWhole()
      requires Valid() && Handed() && batchBytes > 0 && Full(Fixed(batchBytes), batches, 0)
      modifies this, writer, writer.buffer, writer.store
      ensures Valid() && Handed() && Seen() == old(Seen())
      ensures bufferedBytes < batchBytes && Full(Fixed(batchBytes), batches, 0)
      ensures writer.buffer == old(writer.buffer) || fresh(writer.buffer)
      ensures Grown(writer.c, old(writer.store.blobs), writer.store.blobs)
    {
      while bufferedBytes >= batchBytes
        invariant Valid() && Handed() && Seen() == old(Seen()) && Full(Fixed(batchBytes), batches, 0)
        invariant writer.buffer == old(writer.buffer) || fresh(writer.buffer)
        invariant Grown(writer.c, old(writer.store.blobs), writer.store.blobs)
        decreases bufferedBytes
      {
        ghost var before, blobs := batches, writer.store.blobs;
        var _ := FlushOneBatch(Some(batchBytes));
        FullAppend(Fixed(batchBytes), before, batches[|before|]);
        GrownTransitive(writer.c, old(writer.store.blobs), blobs, writer.store.blobs);
      }
    }

    /** Flush until nothing is buffered; at most one batch is left by then. */
    method FlushRest(maxBytes: Option<nat>)
      requires Valid() && Handed()
      requires maxBytes.Some? ==> bufferedBytes < maxBytes.value
      modifies this, writer, writer.buffer, writer.store
      ensures Valid() && Handed() && Seen() == old(Seen()) && bufferedBytes == 0
      ensures batches == WithRest(old(batches), old(Concat(bufferedChunks)))
      ensures writer.buffer == old(writer.buffer) || fresh(writer.buffer)
      ensures Grown(writer.c, old(writer.store.blobs), writer.store.blobs)
    {
      ghost var rest := Concat(bufferedChunks);
      assert rest[..|rest|] == rest;
      var more := FlushOneBatch(maxBytes);
      while more
        invariant Valid() && Handed() && Seen() == old(Seen())
        invariant bufferedBytes == 0 && batches == WithRest(old(batches), old(Concat(bufferedChunks)))
        invariant writer.buffer == old(writer.buffer) || fresh(writer.buffer)
        invariant Grown(writer.c, old(writer.store.blobs), writer.store.blobs)
        decreases more
      {
        ghost var blobs := writer.store.blobs;
        more := FlushOneBatch(maxBytes);
        GrownTransitive(writer.c, old(writer.store.blobs), blobs, writer.store.blobs);
      }
    }

    /** Take one read chunk in. */
    method ReadChunk(ghost input: seq<Bytes>, ghost i: nat, chunk: Bytes)
      requires Valid() && Handed() && i < |input| && chunk == input[i]
      requires Seen() == Concat(input[..i]) && Grouped(input[..i])
      modifies this, writer, writer.buffer, writer.store
      ensures Valid() && Handed() && Seen() == Concat(input[..i + 1]) && Grouped(input[..i + 1])
      ensures writer.buffer == old(writer.buffer) || fresh(writer.buffer)
      ensures Grown(writer.c, old(writer.store.blobs), writer.store.blobs)
    {
      ReadMore(batches, bufferedChunks, input, i);
      if bufferedBytes == 0 { NothingBuffered(bufferedChunks, chunk); }
      bufferedChunks := bufferedChunks + [chunk];
      bufferedBytes := bufferedBytes + |chunk|;
      if batchBytes > 0 && bufferedBytes >= batchBytes {
        FlushWhole();
      }
      if batchBytes == 0 {
        FlushRest(None);
      }
    }

    /** With batching every batch so far is whole; without it every chunk went through. */
    ghost predicate Grouped(input: seq<Bytes>)
      reads this
    {
      if batchBytes > 0 then bufferedBytes < batchBytes && Full(Fixed(batchBytes), batches, 0)
      else bufferedBytes == 0 && batches == NonEmpty(input)
    }

    /** Read everything, regroup it into batches and hand them to the writer. */
    method Run(input: seq<Bytes>)
      requires Valid() && Handed() && Seen() == [] && batches == []
      modifies this, writer, writer.buffer, writer.store
      ensures Valid() && Handed() && Seen() == Concat(input) && bufferedBytes == 0
      ensures batches == Batches(batchBytes, input)
      ensures writer.buffer == old(writer.buffer) || fresh(writer.buffer)
      ensures Grown(writer.c, old(writer.store.blobs), writer.store.blobs)
    {
      assert input[..0] == [];
      for i := 0 to |input|
        invariant Valid() && Handed() && Seen() == Concat(input[..i]) && Grouped(input[..i])
        invariant writer.buffer == old(writer.buffer) || fresh(writer.buffer)
        invariant Grown(writer.c, old(writer.store.blobs), writer.store.blobs)
      {
        ghost var blobs := writer.store.blobs;
        ReadChunk(input, i, input[i]);
        GrownTransitive(writer.c, old(writer.store.blobs), blobs, writer.store.blobs);
      }
      assert input[..|input|] == input;
      ghost var whole, rest, blobs := batches, Concat(bufferedChunks), writer.store.blobs;
      FlushRest(if batchBytes > 0 then Some(batchBytes) else None);
      GrownTransitive(writer.c, old(writer.store.blobs), blobs, writer.store.blobs);
      if batchBytes > 0 {
        PiecesUnique(Fixed(batchBytes), whole, rest, 0);
      }
    }
  }

  lemma GrownTransitive(c: Crypto, first: Blobs, second: Blobs, third: Blobs)
    requires Grown(c, first, second) && Grown(c, second, third)
    ensures Grown(c, first, third)
  {
  }

  lemma NothingBuffered(buffered: seq<Bytes>, chunk: Bytes)
    requires Concat(buffered) == []
    ensures Concat(buffered + [chunk]) == chunk
  {
    ConcatAppend(buffered, [chunk]);
    ConcatOne(chunk);
    assert [] + chunk == chunk;
  }

  lemma BatchHanded(start: Bytes, batches: seq<Bytes>, batch: Bytes, rest: Bytes)
    ensures Concat(batches + [batch]) == Concat(batches) + batch
    ensures start + Concat(batches + [batch]) == start + Concat(batches) + batch
    ensures Concat(batches + [batch]) + rest == Concat(batches) + (batch + rest)
  {
    ConcatAppend(batches, [batch]);
    ConcatOne(batch);
  }

  lemma ReadMore(batches: seq<Bytes>, buffered: seq<Bytes>, input: seq<Bytes>, i: nat)
    requires i < |input| && Concat(batches) + Concat(buffered) == Concat(input[..i])
    ensures Concat(buffered + [input[i]]) == Concat(buffered) + input[i]
    ensures Concat(batches) + Concat(buffered + [input[i]]) == Concat(input[..i + 1])
    ensures NonEmpty(input[..i + 1]) == WithRest(NonEmpty(input[..i]), input[i])
  {
    ConcatAppend(buffered, [input[i]]);
    ConcatOne(input[i]);
    ConcatSplit(input, i);
    Reassociate(Concat(batches), Concat(buffered), input[i]);
    assert input[..i + 1] == input[..i] + [input[i]];
    NonEmptyAppend(input[..i], input[i]);
  }

  lemma Reassociate(a: Bytes, b: Bytes, c: Bytes)
    ensures a + (b + c) == (a + b) + c
  {
  }

  lemma {:induction false} NonEmptyAppend(input: seq<Bytes>, last: Bytes)
    ensures NonEmpty(input + [last]) == WithRest(NonEmpty(input), last)
  {
    if input != [] {
      assert (input + [last])[1..] == input[1..] + [last];
      NonEmptyAppend(input[1..], last);
    }
  }

  /** The writer is open and holds exactly these bytes. */
  ghost predicate Holds(writer: StreamWriter, data: Bytes)
    reads writer, writer.buffer, writer.store
  {
    writer.Valid() && writer.Open() && writer.Stored() && writer.Data() == data && writer.totalSize == |data|
  }

  /** Upload a stream into a fresh writer: the root is that of the whole content, however
      it was split on reading and whatever the batch size, and nothing is stored but the
      file's own blobs. */
  method StreamUpload(c: Crypto, store: Store, chunker: Chunker, unencrypted: bool, batchBytes: nat, input: seq<Bytes>)
    returns (cid: Cid, size: nat)
    requires Positive(chunker)
    modifies store
    ensures cid == FileCid(c, unencrypted, chunker, Concat(input)) && size == |Concat(input)|
    ensures HasFile(c, unencrypted, store.blobs, Pieces(chunker, Concat(input), 0))
    ensures Grown(c, old(store.blobs), store.blobs)
    ensures AddsOnly(c, unencrypted, old(store.blobs), store.blobs, FileBlobs(c, unencrypted, Pieces(chunker, Concat(input), 0)))
    ensures unencrypted && Lawful(c) && Honest(c, old(store.blobs)) ==>
      PublicReads(c, store.blobs, chunker, cid, Concat(input)) || PublicCollides(c, store.blobs, chunker, Concat(input))
  {
    var writer := new StreamWriter(c, store, chunker, unencrypted);
    UploadInto(writer, batchBytes, input);
    writer.WholeIsCut();
    cid, size := writer.Finalize();
  }

  /** Upload into a writer that holds nothing yet. */
  method UploadInto(writer: StreamWriter, batchBytes: nat, input: seq<Bytes>)
    requires Holds(writer, []) && writer.Tidy()
    modifies writer, writer.buffer, writer.store
    ensures Holds(writer, Concat(input)) && writer.Tidy()
    ensures Grown(writer.c, old(writer.store.blobs), writer.store.blobs)
  {
    var uploader := new Uploader(writer, batchBytes);
    uploader.Run(input);
    assert Concat(uploader.bufferedChunks) == [];
    SameBytes(Concat(uploader.batches));
  }

  lemma SameBytes(s: Bytes)
    ensures [] + s == s && s + [] == s
  {
  }

  function Size(maxBytes: Option<nat>, buffered: nat): (size: nat)
    ensures size <= buffered
  {
    if maxBytes.Some? && 0 < maxBytes.value < buffered then maxBytes.value else buffered
  }

  function Checkpoint(c: Crypto, plain: bool, chunker: Chunker, data: Bytes): Option<Cid>
    requires Positive(chunker)
  {
    if data == [] then None else Some(FileCid(c, plain, chunker, data))
  }

  /** Each checkpoint is the root of the parts up to it. */
  ghost predicate Checkpoints(c: Crypto, plain: bool, chunker: Chunker, input: seq<Bytes>, roots: seq<Option<Cid>>)
    requires Positive(chunker)
  {
    |roots| <= |input| && forall i :: 0 <= i < |roots| ==> roots[i] == Checkpoint(c, plain, chunker, Concat(input[..i + 1]))
  }

  lemma CheckpointsAppend(c: Crypto, plain: bool, chunker: Chunker, input: seq<Bytes>, roots: seq<Option<Cid>>, root: Option<Cid>)
    requires Positive(chunker) && Checkpoints(c, plain, chunker, input, roots) && |roots| < |input|
    requires root == Checkpoint(c, plain, chunker, Concat(input[..|roots| + 1]))
    ensures Checkpoints(c, plain, chunker, input, roots + [root])
  {
  }

  /** Append one part and ask for the root so far. */
  method AppendPart(writer: StreamWriter, ghost input: seq<Bytes>, ghost i: nat, part: Bytes) returns (root: Option<Cid>)
    requires i < |input| && part == input[i] && Holds(writer, Concat(input[..i]))
    modifies writer, writer.buffer, writer.store
    ensures Holds(writer, Concat(input[..i + 1]))
    ensures root == Checkpoint(writer.c, writer.unencrypted, writer.chunker, Concat(input[..i + 1]))
    ensures writer.buffer == old(writer.buffer) || fresh(writer.buffer)
    ensures Grown(writer.c, old(writer.store.blobs), writer.store.blobs)
  {
    ConcatSplit(input, i);
    writer.Append(part);
    ghost var blobs := writer.store.blobs;
    root := writer.CurrentRoot();
    GrownTransitive(writer.c, old(writer.store.blobs), blobs, writer.store.blobs);
  }

  /** Append the parts one by one to an empty writer, asking for the root after each. */
  method AppendAll(writer: StreamWriter, input: seq<Bytes>) returns (checkpoints: seq<Option<Cid>>)
    requires Holds(writer, [])
    modifies writer, writer.buffer, writer.store
    ensures Holds(writer, Concat(input)) && |checkpoints| == |input|
    ensures Checkpoints(writer.c, writer.unencrypted, writer.chunker, input, checkpoints)
  {
    checkpoints := [];
    assert input[..0] == [];
    for i := 0 to |input|
      invariant writer.buffer == old(writer.buffer) || fresh(writer.buffer)
      invariant Holds(writer, Concat(input[..i]))
      invariant |checkpoints| == i && Checkpoints(writer.c, writer.unencrypted, writer.chunker, input, checkpoints)
    {
      var root := AppendPart(writer, input, i, input[i]);
      CheckpointsAppend(writer.c, writer.unencrypted, writer.chunker, input, checkpoints, root);
      checkpoints := checkpoints + [root];
    }
    assert input[..|input|] == input;
  }

  /** Checkpointing a stream after every part: each checkpoint is the root of the bytes so
      far, and asking does not change the final one. */
  method StreamParts(c: Crypto, store: Store, chunker: Chunker, unencrypted: bool, input: seq<Bytes>)
    returns (checkpoints: seq<Option<Cid>>, cid: Cid, size: nat)
    requires Positive(chunker)
    modifies store
    ensures cid == FileCid(c, unencrypted, chunker, Concat(input)) && size == |Concat(input)|
    ensures |checkpoints| == |input| && Checkpoints(c, unencrypted, chunker, input, checkpoints)
  {
    var writer := new StreamWriter(c, store, chunker, unencrypted);
    checkpoints := AppendAll(writer, input);
    cid, size := writer.Finalize();
  }

  lemma TakeHead(parts: seq<Bytes>, chunks: seq<Bytes>)
    requires chunks != []
    ensures Concat(parts + [chunks[0]]) == Concat(parts) + chunks[0]
    ensures Concat(parts + [chunks[0]]) + Concat(chunks[1..]) == Concat(parts) + Concat(chunks)
  {
    ConcatAppend(parts, [chunks[0]]);
    ConcatOne(chunks[0]);
    assert Concat(parts) + chunks[0] + Concat(chunks[1..]) == Concat(parts) + (chunks[0] + Concat(chunks[1..]));
  }

  lemma SplitHead(parts: seq<Bytes>, chunks: seq<Bytes>, n: nat)
    requires chunks != [] && n <= |chunks[0]|
    ensures Concat(parts + [chunks[0][..n]]) == Concat(parts) + chunks[0][..n]
    ensures Concat(parts + [chunks[0][..n]]) + Concat(chunks[0 := chunks[0][n..]]) == Concat(parts) + Concat(chunks)
    ensures |Concat(chunks[0 := chunks[0][n..]])| == |Concat(chunks)| - n
  {
    var head, tail := chunks[0], chunks[1..];
    ConcatAppend(parts, [head[..n]]);
    ConcatOne(head[..n]);
    assert chunks[0 := head[n..]][1..] == tail;
    assert head == head[..n] + head[n..];
    assert Concat(parts) + head[..n] + (head[n..] + Concat(tail)) == Concat(parts) + (head + Concat(tail));
  }
}
