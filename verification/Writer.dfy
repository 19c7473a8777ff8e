/**
 Incremental writing of files: a buffer of one chunk, flushed when it is full, and the
 batching of an upload's read chunks before they reach the writer.
 */
module Writer {
  import opened Bytes
  import opened Files
  import opened Wrappers

  ghost predicate NoneEmpty(chunks: seq<Bytes>) {
    forall i :: 0 <= i < |chunks| ==> chunks[i] != []
  }

  lemma NoneEmptyAppend(chunks: seq<Bytes>, chunk: Bytes)
    requires NoneEmpty(chunks) && chunk != []
    ensures NoneEmpty(chunks + [chunk])
  {
  }

  lemma NoneEmptyConcat(chunks: seq<Bytes>)
    requires NoneEmpty(chunks)
    ensures Concat(chunks) == [] <==> chunks == []
  {
    if chunks != [] {
      assert chunks[0] != [];
    }
  }

  /** What changes when one more chunk is stored. */
  lemma ChunkStored(c: Crypto, plain: bool, chunker: Chunker, before: Blobs, after: Blobs, flushed: seq<Bytes>, chunk: Bytes)
    requires HasAll(c, plain, before, flushed) && Grows(before, after) && Has(c, plain, after, chunk)
    requires NoneEmpty(flushed) && chunk != []
    ensures HasAll(c, plain, after, flushed + [chunk]) && NoneEmpty(flushed + [chunk])
    ensures Links(c, plain, flushed + [chunk]) == Links(c, plain, flushed) + [LinkOf(c, plain, chunk)]
    ensures Concat(flushed + [chunk]) == Concat(flushed) + chunk
    ensures Full(chunker, flushed, 0) && |chunk| == chunker(|flushed|) ==> Full(chunker, flushed + [chunk], 0)
  {
    HasAllGrows(c, plain, before, after, flushed);
    HasAllAppend(c, plain, after, flushed, chunk);
    LinksAppend(c, plain, flushed, chunk);
    ConcatAppend(flushed, [chunk]);
    ConcatOne(chunk);
    NoneEmptyAppend(flushed, chunk);
    if Full(chunker, flushed, 0) && |chunk| == chunker(|flushed|) {
      FullAppend(chunker, flushed, chunk);
    }
  }

  /** A public file whose chunks are those of its data is read back. */
  lemma PublicOnceOpen(c: Crypto, plain: bool, open: bool, before: Blobs, after: Blobs, chunker: Chunker, data: Bytes)
    requires Positive(chunker) && Grown(c, before, after)
    requires open ==> HasFile(c, plain, after, Pieces(chunker, data, 0))
    ensures open && plain && Lawful(c) && Honest(c, before) ==>
      PublicReads(c, after, chunker, FileCid(c, true, chunker, data), data) || PublicCollides(c, after, chunker, data)
  {
    if open && plain && Lawful(c) && Honest(c, before) {
      PublicFile(c, after, chunker, data);
    }
  }

  class StreamWriter {
    const c: Crypto
    const store: Store
    const chunker: Chunker
    const unencrypted: bool
    var buffer: array<Byte>
    var bufferOffset: nat
    var chunks: seq<Link>
    var totalSize: nat
    /** The plaintext of the flushed chunks. */
    ghost var flushed: seq<Bytes>
    /** What the store held when writing began. */
    ghost const base: Blobs

    ghost predicate Valid()
      reads this
    {
      && Positive(chunker)
      && bufferOffset <= buffer.Length
      && bufferOffset < chunker(|flushed|)
      && chunks == Links(c, unencrypted, flushed)
      && NoneEmpty(flushed)
    }

    /** The flushed chunks are in the store. */
    ghost predicate Stored()
      reads this, store
    {
      HasAll(c, unencrypted, store.blobs, flushed)
    }

    /** Nothing but flushed chunks has been added to the store since writing began. */
    ghost predicate Tidy()
      reads this, store
    {
      AddsOnly(c, unencrypted, base, store.blobs, flushed)
    }

    /** No short chunk has been flushed yet, which only finalizing does. */
    ghost predicate Open()
      reads this
    {
      Full(chunker, flushed, 0)
    }

    /** All bytes written so far. */
    ghost function Data(): Bytes
      reads this, buffer
      requires bufferOffset <= buffer.Length
    {
      Concat(flushed) + buffer[..bufferOffset]
    }

    constructor (c: Crypto, store: Store, chunker: Chunker, unencrypted: bool)
      requires Positive(chunker)
      ensures Valid() && Open() && Data() == [] && totalSize == 0 && fresh(buffer)
      ensures this.c == c && this.store == store && this.chunker == chunker && this.unencrypted == unencrypted
      ensures base == store.blobs && Tidy()
    {
      this.c := c;
      this.store := store;
      this.chunker := chunker;
      this.unencrypted := unencrypted;
      buffer := new Byte[chunker(0)](_ => 0);
      bufferOffset := 0;
      chunks := [];
      totalSize := 0;
      flushed := [];
      base := store.blobs;
    }

    /** Make the buffer exactly as long as the current chunk. */
    method Resize(targetSize: nat)
      requires Valid() && bufferOffset <= targetSize
      modifies `buffer
      ensures Valid() && buffer.Length == targetSize && Data() == old(Data())
      ensures buffer == old(buffer) || fresh(buffer)
    {
      if buffer.Length != targetSize {
        var newBuffer := new Byte[targetSize](_ => 0);
        forall i | 0 <= i < bufferOffset {
          newBuffer[i] := buffer[i];
        }
        assert newBuffer[..bufferOffset] == buffer[..bufferOffset];
        buffer := newBuffer;
      }
    }

    /** Copy a part that fits behind what the buffer holds. */
    method Fill(part: Bytes)
      requires Valid() && bufferOffset + |part| <= buffer.Length && buffer.Length == chunker(|flushed|)
      modifies `bufferOffset, buffer
      ensures bufferOffset == old(bufferOffset) + |part| && Data() == old(Data()) + part
    {
      ghost var held := buffer[..bufferOffset];
      forall i | 0 <= i < |part| {
        buffer[bufferOffset + i] := part[i];
      }
      bufferOffset := bufferOffset + |part|;
      assert buffer[..bufferOffset] == held + part;
      assert Concat(flushed) + (held + part) == Concat(flushed) + held + part;
    }

    /** Store one chunk behind the flushed ones. */
    method StoreChunk(chunk: Bytes)
      requires Positive(chunker) && chunks == Links(c, unencrypted, flushed) && NoneEmpty(flushed) && Stored() && chunk != []
      modifies `chunks, `flushed, store
      ensures flushed == old(flushed) + [chunk] && chunks == Links(c, unencrypted, flushed) && NoneEmpty(flushed)
      ensures Concat(flushed) == Concat(old(flushed)) + chunk
      ensures old(Open()) && |chunk| == chunker(|old(flushed)|) ==> Open()
      ensures old(Tidy()) ==> Tidy()
      ensures Stored() && Grown(c, old(store.blobs), store.blobs)
    {
      var cid := PutBlob(c, store, unencrypted, chunk);
      ChunkStored(c, unencrypted, chunker, old(store.blobs), store.blobs, flushed, chunk);
      if old(Tidy()) {
        AddsChunk(c, unencrypted, base, old(store.blobs), store.blobs, flushed, chunk);
      }
      chunks := chunks + [Link(cid.hash, |chunk|, cid.key, Blob)];
      flushed := flushed + [chunk];
    }

    /** Store what the buffer holds as a chunk. */
    method FlushChunk()
      requires Positive(chunker) && bufferOffset <= buffer.Length && chunks == Links(c, unencrypted, flushed)
      requires NoneEmpty(flushed) && Stored()
      modifies `bufferOffset, `chunks, `flushed, store
      ensures Valid() && bufferOffset == 0 && Data() == old(Data())
      ensures flushed == WithRest(old(flushed), old(buffer[..bufferOffset]))
      ensures old(Open()) && old(bufferOffset) == chunker(|old(flushed)|) ==> Open()
      ensures old(Tidy()) ==> Tidy()
      ensures Stored() && Grown(c, old(store.blobs), store.blobs)
    {
      if bufferOffset == 0 {
        return;
      }
      StoreChunk(buffer[..bufferOffset]);
      bufferOffset := 0;
      assert Concat(flushed) + [] == Concat(flushed);
    }

    /** Write as much of `data` from `offset` on as the current chunk has room for. */
    method AppendPart(data: Bytes, offset: nat) returns (next: nat)
      requires Valid() && Stored() && offset < |data|
      modifies `buffer, buffer, `bufferOffset, `chunks, `flushed, store
      ensures Valid() && offset < next <= |data| && Data() == old(Data()) + data[offset..next]
      ensures old(Open()) ==> Open()
      ensures old(Tidy()) ==> Tidy()
      ensures Stored() && Grown(c, old(store.blobs), store.blobs)
      ensures buffer == old(buffer) || fresh(buffer)
    {
      var targetSize := chunker(|chunks|);
      Resize(targetSize);
      var space := targetSize - bufferOffset;
      var toWrite := if space < |data| - offset then space else |data| - offset;
      next := offset + toWrite;
      Fill(data[offset..next]);
      if bufferOffset == targetSize {
        FlushChunk();
      }
    }

    method Append(data: Bytes)
      requires Valid() && Stored()
      modifies this, buffer, store
      ensures Valid() && Data() == old(Data()) + data && totalSize == old(totalSize) + |data|
      ensures old(Open()) ==> Open()
      ensures old(Tidy()) ==> Tidy()
      ensures Stored() && Grown(c, old(store.blobs), store.blobs)
      ensures buffer == old(buffer) || fresh(buffer)
    {
      var offset := 0;
      assert Data() + data[..0] == Data();
      while offset < |data|
        invariant offset <= |data| && Valid() && Stored() && Data() == old(Data()) + data[..offset]
        invariant old(Open()) ==> Open()
        invariant old(Tidy()) ==> Tidy()
        invariant totalSize == old(totalSize)
        invariant Grown(c, old(store.blobs), store.blobs)
        invariant buffer == old(buffer) || fresh(buffer)
      {
        var next := AppendPart(data, offset);
        TakeMore(old(Data()), data, offset, next);
        offset := next;
      }
      assert data[..offset] == data;
      totalSize := totalSize + |data|;
    }

    /** The chunks that finalizing now would leave. */
    ghost function Whole(): seq<Bytes>
      reads this, buffer
      requires bufferOffset <= buffer.Length
    {
      WithRest(flushed, buffer[..bufferOffset])
    }

    /** Until the stream is finalized these are the pieces of all bytes written. */
    lemma WholeIsCut()
      requires Valid() && Open()
      ensures Whole() == Pieces(chunker, Data(), 0)
    {
      PiecesUnique(chunker, flushed, buffer[..bufferOffset], 0);
    }

    lemma WholeEmpty()
      requires Valid()
      ensures Whole() == [] <==> flushed == [] && bufferOffset == 0
      ensures Whole() == [] <==> Data() == []
    {
      NoneEmptyConcat(flushed);
    }

    /** The root of all bytes written so far; the writer's own state stays as it is. */
    method CurrentRoot() returns (root: Option<Cid>)
      requires Valid() && Stored()
      modifies store
      ensures root == if Data() == [] then None else Some(ChunksCid(c, unencrypted, Whole()))
      ensures Open() && Data() != [] ==> root == Some(FileCid(c, unencrypted, chunker, Data()))
      ensures root.Some? ==> HasFile(c, unencrypted, store.blobs, Whole())
      ensures Stored() && Grown(c, old(store.blobs), store.blobs)
    {
      WholeEmpty();
      if Open() { WholeIsCut(); }
      if |chunks| == 0 && bufferOffset == 0 {
        return None;
      }
      var tempChunks := chunks;
      if bufferOffset > 0 {
        var chunk := buffer[..bufferOffset];
        var part := PutBlob(c, store, unencrypted, chunk);
        ChunkStored(c, unencrypted, chunker, old(store.blobs), store.blobs, flushed, chunk);
        tempChunks := tempChunks + [Link(part.hash, |chunk|, part.key, Blob)];
      }
      ghost var before := store.blobs;
      var cid := BuildTree(c, store, unencrypted, tempChunks, Whole());
      HasAllGrows(c, unencrypted, before, store.blobs, Whole());
      HasAllGrows(c, unencrypted, old(store.blobs), store.blobs, flushed);
      root := Some(cid);
    }

    /** Flush the rest and return the root of all bytes written. */
    method Finalize() returns (cid: Cid, size: nat)
      requires Valid() && Stored()
      modifies `bufferOffset, `chunks, `flushed, store
      ensures cid == ChunksCid(c, unencrypted, old(Whole()))
      ensures old(Open()) ==> cid == FileCid(c, unencrypted, chunker, old(Data()))
      ensures size == if old(Data()) == [] then 0 else totalSize
      ensures Valid() && bufferOffset == 0 && flushed == old(Whole()) && Data() == old(Data())
      ensures HasFile(c, unencrypted, store.blobs, flushed)
      ensures old(Tidy()) ==> AddsOnly(c, unencrypted, base, store.blobs, FileBlobs(c, unencrypted, flushed))
      ensures old(Open()) && unencrypted && Lawful(c) && Honest(c, old(store.blobs)) ==>
        PublicReads(c, store.blobs, chunker, cid, Data()) || PublicCollides(c, store.blobs, chunker, Data())
      ensures Stored() && Grown(c, old(store.blobs), store.blobs)
    {
      WholeEmpty();
      if Open() { WholeIsCut(); }
      FlushChunk();
      ghost var before := store.blobs;
      if |chunks| == 0 {
        cid := PutBlob(c, store, unencrypted, []);
        if old(Tidy()) { AddsRoot(c, unencrypted, base, before, store.blobs, flushed, []); }
        PublicOnceOpen(c, unencrypted, old(Open()), old(store.blobs), store.blobs, chunker, Data());
        return cid, 0;
      }
      cid := BuildTree(c, store, unencrypted, chunks, flushed);
      if old(Tidy()) {
        AddsRoot(c, unencrypted, base, before, store.blobs, flushed, c.encode(NodeOf(c, unencrypted, flushed)));
      }
      HasAllGrows(c, unencrypted, before, store.blobs, flushed);
      PublicOnceOpen(c, unencrypted, old(Open()), old(store.blobs), store.blobs, chunker, Data());
      size := totalSize;
    }

    /** Forget everything. */
    method Clear()
      requires Positive(chunker)
      modifies this
      ensures Valid() && Open() && Stored() && Data() == [] && totalSize == 0 && fresh(buffer)
    {
      chunks := [];
      flushed := [];
      buffer := new Byte[0];
      bufferOffset := 0;
      totalSize := 0;
    }
  }
}
