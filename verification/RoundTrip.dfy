/**
 Reading files by hash and key, and the way from an uploaded stream back to its bytes.
 */
module RoundTrip {
  import opened Bytes
  import opened Files
  import opened Reader
  import opened ReaderRange
  import opened Upload
  import opened Wrappers

  /** The bytes behind a root: decrypted, unless only the stored form decodes as a node. */
  function RootBytes(c: Crypto, blobs: Blobs, hash: Bytes, key: Bytes): Result<Option<Bytes>, ReadError> {
    if hash !in blobs then Ok(None)
    else
      var stored := blobs[hash];
      var rawNode := c.decode(stored);
      var decrypted := c.decrypt(stored, key);
      if decrypted.None? then if rawNode.Some? then Ok(Some(stored)) else Err(DecryptFailed)
      else if c.decode(decrypted.value).Some? || rawNode.None? then Ok(Some(decrypted.value))
      else Ok(Some(stored))
  }

  /** What reading a root comes to: nothing exactly if it is not held; an error exactly if it
      is held, cannot be decrypted and does not itself decode; and unless what is stored
      decodes as a node, the decrypted bytes and nothing else. */
  lemma RootCases(c: Crypto, blobs: Blobs, hash: Bytes, key: Bytes)
    ensures RootBytes(c, blobs, hash, key) == Ok(None) <==> hash !in blobs
    ensures hash in blobs ==>
      var r, plain := RootBytes(c, blobs, hash, key), c.decrypt(blobs[hash], key);
      && (r == Err(DecryptFailed) <==> plain.None? && c.decode(blobs[hash]).None?)
      && (r.Err? ==> r == Err(DecryptFailed))
      && (plain.Some? && (c.decode(blobs[hash]).None? || c.decode(plain.value).Some?) ==> r == Ok(plain))
      && (r.Ok? && r != Ok(plain) ==> r == Ok(Some(blobs[hash])) && c.decode(blobs[hash]).Some?)
  {
  }

  /** The slice of a byte array in which negative bounds count from the end. */
  function SliceFromEnd(data: Bytes, start: int, end: int): Bytes {
    var from := if start < 0 then Clamp(|data| + start, 0, |data|) else Clamp(start, 0, |data|);
    var to := if end < 0 then Clamp(|data| + end, 0, |data|) else Clamp(end, 0, |data|);
    if from < to then data[from..to] else []
  }

  /** What a range of a single blob yields. */
  function BlobRange(data: Bytes, start: int, end: Option<int>): Bytes {
    if start >= |data| then []
    else SliceFromEnd(data, start, if end.Some? && end.value < |data| then end.value else |data|)
  }

  /** The bounds for which counting from the end makes no difference: neither is negative,
      or a negative start falls before the data, or nothing is left either way. */
  predicate BoundsAgree(length: nat, start: int, end: Option<int>) {
    if end.Some? && end.value < 0
    then length + end.value <= 0 || length + end.value <= if start < 0 then length + start else start
    else start >= 0 || length + start <= 0 || end == Some(0)
  }

  /** The range of a single blob is the range of its bytes exactly for those bounds, since
      there negative bounds count from the end and below a node they do not. */
  lemma NegativeBounds(data: Bytes, start: int, end: Option<int>)
    ensures BlobRange(data, start, end) == Range(data, start, end) <==> BoundsAgree(|data|, start, end)
  {
    var blob, range := BlobRange(data, start, end), Range(data, start, end);
    if !BoundsAgree(|data|, start, end) {
      assert |blob| != |range|;
    }
  }

  /** `parts` is what the links below the root lead to, if the root is a node. */
  ghost predicate UnfoldsRoot(c: Crypto, blobs: Blobs, hash: Bytes, key: Bytes, parts: seq<Part>) {
    var root := RootBytes(c, blobs, hash, key);
    root.Ok? && root.value.Some? && c.decode(root.value.value).Some? ==>
      Unfolds(c, blobs, c.decode(root.value.value).value.links, parts)
  }

  /** Links lead to one thing only. */
  lemma {:induction false} UnfoldsOnce(c: Crypto, blobs: Blobs, links: seq<Link>, p: seq<Part>, q: seq<Part>)
    requires Unfolds(c, blobs, links, p) && Unfolds(c, blobs, links, q)
    ensures p == q
    decreases p
  {
    forall i | 0 <= i < |p| ensures p[i] == q[i] {
      LinkUnfoldsOnce(c, blobs, links[i], p[i], q[i]);
    }
  }

  lemma {:induction false} LinkUnfoldsOnce(c: Crypto, blobs: Blobs, link: Link, p: Part, q: Part)
    requires UnfoldsLink(c, blobs, link, p) && UnfoldsLink(c, blobs, link, q)
    ensures p == q
    decreases p
  {
    if p.Inner? {
      UnfoldsOnce(c, blobs, p.node.links, p.parts, q.parts);
    }
  }

  /** What a read below a root has found. */
  function Found(r: Result<Bytes, ReadError>): Result<Option<Bytes>, ReadError> {
    if r.Ok? then Ok(Some(r.value)) else Err(r.error)
  }

  /** A range by root: of a blob with negative bounds counted from its end, which is the range
      of its bytes exactly for bounds that agree; of a node the range of what lies below. */
  ghost predicate GivesRange(c: Crypto, root: Result<Option<Bytes>, ReadError>, parts: seq<Part>, start: int, end: Option<int>,
                             r: Result<Option<Bytes>, ReadError>) {
    if root.Err? || root.value.None? then r == root
    else
      var data := root.value.value;
      var node := c.decode(data);
      if node.None? then
        && r == Ok(Some(BlobRange(data, start, end)))
        && (r == Ok(Some(Range(data, start, end))) <==> BoundsAgree(|data|, start, end))
      else
        && r == Found(NodeRange(node.value.links, parts, start, end))
        && (start <= 0 && end.None? ==> r == Found(OutcomeTo(parts, |parts|)))
        && (Faithful(node.value.links, parts) ==>
              OutcomeTo(parts, |parts|).Ok? && r == Ok(Some(Range(OutcomeTo(parts, |parts|).value, start, end))))
  }

  /** A range of a file, given its root. */
  method ReadFileRange(c: Crypto, store: Store, hash: Bytes, key: Bytes, start: int, end: Option<int>, ghost parts: seq<Part>)
    returns (r: Result<Option<Bytes>, ReadError>)
    requires UnfoldsRoot(c, store.blobs, hash, key, parts)
    ensures GivesRange(c, RootBytes(c, store.blobs, hash, key), parts, start, end, r)
  {
    var root := RootBytes(c, store.blobs, hash, key);
    if root.Err? {
      return Err(root.error);
    }
    if root.value.None? {
      return Ok(None);
    }
    var decrypted := root.value.value;
    var node := c.decode(decrypted);
    if node.None? {
      NegativeBounds(decrypted, start, end);
      if start >= |decrypted| {
        return Ok(Some([]));
      }
      var actualEnd := if end.Some? && end.value < |decrypted| then end.value else |decrypted|;
      return Ok(Some(SliceFromEnd(decrypted, start, actualEnd)));
    }
    var range := ReadRange(c, store, node.value, start, end, parts);
    r := if range.Ok? then Ok(Some(range.value)) else Err(range.error);
  }

  /** A whole read by root: the blob or the content below the node, refused above the limit;
      without one, or if it succeeds, the content or its first defect whatever the sizes. */
  ghost predicate GivesWhole(c: Crypto, root: Result<Option<Bytes>, ReadError>, parts: seq<Part>, maxBytes: Option<nat>,
                             r: Result<Option<Bytes>, ReadError>) {
    if root.Err? || root.value.None? then r == root
    else
      var data := root.value.value;
      var node := c.decode(data);
      if node.None? then r == Limited(data, maxBytes)
      else
        && (r.Ok? || maxBytes.None? ==> r == Found(OutcomeTo(parts, |parts|)))
        && (Faithful(node.value.links, parts) ==>
              OutcomeTo(parts, |parts|).Ok? && r == Limited(OutcomeTo(parts, |parts|).value, maxBytes))
  }

  /** A whole file, given its root, of at most `maxBytes` bytes. */
  method ReadFile(c: Crypto, store: Store, hash: Bytes, key: Bytes, maxBytes: Option<nat>, ghost parts: seq<Part>)
    returns (r: Result<Option<Bytes>, ReadError>)
    requires UnfoldsRoot(c, store.blobs, hash, key, parts)
    ensures GivesWhole(c, RootBytes(c, store.blobs, hash, key), parts, maxBytes, r)
  {
    var root := RootBytes(c, store.blobs, hash, key);
    if root.Err? {
      return Err(root.error);
    }
    if root.value.None? {
      return Ok(None);
    }
    var decrypted := root.value.value;
    var node := c.decode(decrypted);
    if node.None? {
      return if maxBytes.Some? && |decrypted| > maxBytes.value then Err(TooLarge) else Ok(Some(decrypted));
    }
    var whole := ReadNode(c, store, node.value, maxBytes, parts);
    r := if whole.Ok? then Ok(Some(whole.value)) else Err(whole.error);
  }

  /** The content, or the refusal of content above the limit. */
  function Limited(data: Bytes, maxBytes: Option<nat>): Result<Option<Bytes>, ReadError> {
    if maxBytes.None? || |data| <= maxBytes.value then Ok(Some(data)) else Err(TooLarge)
  }

  /** A stream by root: the blob or the content below the node from the offset on. */
  ghost predicate GivesStream(c: Crypto, root: Result<Option<Bytes>, ReadError>, parts: seq<Part>, offset: nat, prefetch: nat,
                              out: seq<Bytes>, error: Option<ReadError>) {
    if root.Err? then out == [] && error == Some(root.error)
    else if root.value.None? then out == [] && error.None?
    else
      var data := root.value.value;
      var node := c.decode(data);
      if node.None? then Concat(out) == Drop(data, offset) && error.None?
      else
        && |parts| == |node.value.links|
        && (prefetch > 0 ==> Stream(Concat(out), error) == NodeStream(node.value.links, parts, offset))
        && (prefetch > 0 && Faithful(node.value.links, parts) ==>
              && OutcomeTo(parts, |parts|).Ok? && error.None?
              && Concat(out) == Drop(OutcomeTo(parts, |parts|).value, offset))
  }

  /** A stream of a file from an offset on, given its root. */
  method ReadFileStream(c: Crypto, store: Store, hash: Bytes, key: Bytes, offset: nat, prefetch: nat, ghost parts: seq<Part>)
    returns (out: seq<Bytes>, error: Option<ReadError>)
    requires UnfoldsRoot(c, store.blobs, hash, key, parts)
    ensures GivesStream(c, RootBytes(c, store.blobs, hash, key), parts, offset, prefetch, out, error)
  {
    var root := RootBytes(c, store.blobs, hash, key);
    if root.Err? {
      return [], Some(root.error);
    }
    if root.value.None? {
      return [], None;
    }
    var decrypted := root.value.value;
    var node := c.decode(decrypted);
    if node.None? {
      if offset >= |decrypted| {
        return [], None;
      }
      ConcatOne(decrypted[offset..]);
      return [decrypted[offset..]], None;
    }
    out, error := StreamFrom(c, store, node.value, offset, prefetch, parts);
    if Faithful(node.value.links, parts) {
      FaithfulStream(node.value.links, parts, offset);
    }
  }

  lemma FewPieces(chunker: Chunker, data: Bytes)
    requires Positive(chunker)
    ensures |Pieces(chunker, data, 0)| <= 1 <==> |data| <= chunker(0)
  {
    if |data| > chunker(0) {
      assert data[chunker(0)..] != [];
    }
  }

  /** The content does not look like a node, in either of its forms; asked of a file of a
      single blob only. */
  ghost predicate PlainBlob(c: Crypto, chunker: Chunker, data: Bytes) {
    |data| <= chunker(0) ==> c.decode(data).None? && c.decode(c.encrypt(data)).None?
  }

  /** The bytes behind the root of a written file are the content of a single blob, or the
      encoded node over the chunks; or a held byte string shares a hash with one of them. */
  lemma WrittenRoot(c: Crypto, blobs: Blobs, chunker: Chunker, data: Bytes)
    requires Positive(chunker) && Lawful(c) && Honest(c, blobs) && PlainBlob(c, chunker, data)
    requires HasFile(c, false, blobs, Pieces(chunker, data, 0))
    ensures FileCid(c, false, chunker, data).key.Some?
    ensures var root := FileCid(c, false, chunker, data);
      || RootBytes(c, blobs, root.hash, root.key.value)
         == Ok(Some(if |data| <= chunker(0) then data else c.encode(NodeOf(c, false, Pieces(chunker, data, 0)))))
      || FileCollides(c, false, blobs, Pieces(chunker, data, 0))
  {
    WrittenFile(c, blobs, chunker, data);
    FewPieces(chunker, data);
    if |data| <= chunker(0) && !FileCollides(c, false, blobs, Pieces(chunker, data, 0)) {
      SingleBlobStored(c, blobs, chunker, data);
    }
  }

  lemma SingleBlobStored(c: Crypto, blobs: Blobs, chunker: Chunker, data: Bytes)
    requires Positive(chunker) && Honest(c, blobs) && |data| <= chunker(0)
    requires HasFile(c, false, blobs, Pieces(chunker, data, 0)) && !FileCollides(c, false, blobs, Pieces(chunker, data, 0))
    ensures CidOf(c, false, data).hash in blobs && blobs[CidOf(c, false, data).hash] == c.encrypt(data)
  {
    OneBlob(c, blobs, chunker, data);
    HasFinds(c, false, blobs, data);
  }

  lemma OnePiece(chunker: Chunker, data: Bytes)
    requires Positive(chunker) && |data| <= chunker(0)
    ensures Pieces(chunker, data, 0) == if data == [] then [] else [data]
  {
  }

  lemma OneBlob(c: Crypto, blobs: Blobs, chunker: Chunker, data: Bytes)
    requires Positive(chunker) && |data| <= chunker(0) && HasFile(c, false, blobs, Pieces(chunker, data, 0))
    ensures Has(c, false, blobs, data) && data in FileBlobs(c, false, Pieces(chunker, data, 0))
  {
    OnePiece(chunker, data);
    var chunks := Pieces(chunker, data, 0);
    if data != [] {
      assert Has(c, false, blobs, chunks[0]);
    }
    FirstOwnBlob(c, chunks);
  }

  lemma FirstOwnBlob(c: Crypto, chunks: seq<Bytes>)
    ensures (if chunks == [] then [] else chunks[0]) in FileBlobs(c, false, chunks)
  {
    assert FileBlobs(c, false, chunks)[0] == if chunks == [] then [] else chunks[0];
  }

  /** A file that a writer has left in the store under its root; `parts` is what lies below
      the root, so that reading ends. */
  ghost predicate Left(c: Crypto, blobs: Blobs, chunker: Chunker, data: Bytes, cid: Cid, parts: seq<Part>) {
    && Positive(chunker) && Lawful(c) && Honest(c, blobs) && PlainBlob(c, chunker, data)
    && HasFile(c, false, blobs, Pieces(chunker, data, 0)) && cid == FileCid(c, false, chunker, data)
    && cid.key.Some? && UnfoldsRoot(c, blobs, cid.hash, cid.key.value, parts)
  }

  /** A held byte string has the hash of one of the file's blobs without being it. */
  ghost predicate Clashes(c: Crypto, blobs: Blobs, chunker: Chunker, data: Bytes)
    requires Positive(chunker)
  {
    FileCollides(c, false, blobs, Pieces(chunker, data, 0))
  }

  /** What a reader of such a file finds: the content as one blob, or a node with true sizes
      below which lies the content. */
  lemma LeftReads(c: Crypto, blobs: Blobs, chunker: Chunker, data: Bytes, cid: Cid, parts: seq<Part>)
    requires Left(c, blobs, chunker, data, cid, parts) && !Clashes(c, blobs, chunker, data)
    ensures var root := RootBytes(c, blobs, cid.hash, cid.key.value);
      && root.Ok? && root.value.Some?
      && if |data| <= chunker(0) then root.value.value == data && c.decode(data).None?
         else var node := c.decode(root.value.value);
           node.Some? && Faithful(node.value.links, parts) && OutcomeTo(parts, |parts|) == Ok(data)
  {
    WrittenRoot(c, blobs, chunker, data);
    WrittenFile(c, blobs, chunker, data);
    FewPieces(chunker, data);
    if |data| > chunker(0) {
      var chunks := Pieces(chunker, data, 0);
      UnfoldsOnce(c, blobs, NodeOf(c, false, chunks).links, parts, Leaves(chunks));
    }
  }

  /** Read a range of a written file: the range of the content comes back, or a held byte
      string shares a hash with one of the file's blobs. */
  method ReadWritten(c: Crypto, store: Store, chunker: Chunker, ghost data: Bytes, cid: Cid, start: int, end: Option<int>,
                     ghost parts: seq<Part>)
    returns (r: Result<Option<Bytes>, ReadError>)
    requires Left(c, store.blobs, chunker, data, cid, parts)
    ensures Clashes(c, store.blobs, chunker, data)
         || r == Ok(Some(if |data| <= chunker(0) then BlobRange(data, start, end) else Range(data, start, end)))
  {
    if !Clashes(c, store.blobs, chunker, data) { LeftReads(c, store.blobs, chunker, data, cid, parts); }
    r := ReadFileRange(c, store, cid.hash, cid.key.value, start, end, parts);
  }

  /** Read a written file as a whole: its content comes back, or is refused by the limit. */
  method ReadWrittenWhole(c: Crypto, store: Store, chunker: Chunker, ghost data: Bytes, cid: Cid, maxBytes: Option<nat>,
                          ghost parts: seq<Part>)
    returns (r: Result<Option<Bytes>, ReadError>)
    requires Left(c, store.blobs, chunker, data, cid, parts)
    ensures Clashes(c, store.blobs, chunker, data) || r == Limited(data, maxBytes)
  {
    if !Clashes(c, store.blobs, chunker, data) { LeftReads(c, store.blobs, chunker, data, cid, parts); }
    r := ReadFile(c, store, cid.hash, cid.key.value, maxBytes, parts);
  }

  /** Stream a written file: its content from the offset on is handed on, without an error. */
  method StreamWritten(c: Crypto, store: Store, chunker: Chunker, ghost data: Bytes, cid: Cid, offset: nat, prefetch: nat,
                       ghost parts: seq<Part>)
    returns (out: seq<Bytes>, error: Option<ReadError>)
    requires Left(c, store.blobs, chunker, data, cid, parts)
    ensures Clashes(c, store.blobs, chunker, data) || (prefetch == 0 && |data| > chunker(0))
         || (Concat(out) == Drop(data, offset) && error.None?)
  {
    if !Clashes(c, store.blobs, chunker, data) { LeftReads(c, store.blobs, chunker, data, cid, parts); }
    out, error := ReadFileStream(c, store, cid.hash, cid.key.value, offset, prefetch, parts);
  }

  /** Upload a stream: what a writer leaves, and no collision where there was none among the
      byte strings at hand, held before or part of the file. */
  method UploadFile(c: Crypto, store: Store, chunker: Chunker, batchBytes: nat, input: seq<Bytes>)
    returns (cid: Cid, ghost parts: seq<Part>)
    requires Positive(chunker) && Lawful(c) && Honest(c, store.blobs) && PlainBlob(c, chunker, Concat(input))
    requires NoClash(c, false, store.blobs, FileBlobs(c, false, Pieces(chunker, Concat(input), 0)))
    modifies store
    ensures Left(c, store.blobs, chunker, Concat(input), cid, parts) && !Clashes(c, store.blobs, chunker, Concat(input))
  {
    ghost var data := Concat(input);
    ghost var chunks := Pieces(chunker, data, 0);
    var size;
    cid, size := StreamUpload(c, store, chunker, false, batchBytes, input);
    parts := Leaves(chunks);
    NoClashNoCollision(c, false, old(store.blobs), store.blobs, chunks);
    UploadedUnfolds(c, store.blobs, chunker, data);
  }

  lemma UploadedUnfolds(c: Crypto, blobs: Blobs, chunker: Chunker, data: Bytes)
    requires Positive(chunker) && Lawful(c) && Honest(c, blobs) && PlainBlob(c, chunker, data)
    requires HasFile(c, false, blobs, Pieces(chunker, data, 0)) && !Clashes(c, blobs, chunker, data)
    ensures var root := FileCid(c, false, chunker, data);
      root.key.Some? && UnfoldsRoot(c, blobs, root.hash, root.key.value, Leaves(Pieces(chunker, data, 0)))
  {
    WrittenRoot(c, blobs, chunker, data);
    WrittenFile(c, blobs, chunker, data);
    FewPieces(chunker, data);
  }

  /** Upload a stream and read a range of it back: whatever the split into read chunks, the
      batch size and the chunk sizes, the range of the original bytes comes back, for a
      file of a single blob exactly with bounds that agree. */
  method UploadThenRead(c: Crypto, store: Store, chunker: Chunker, batchBytes: nat, input: seq<Bytes>, start: int, end: Option<int>)
    returns (r: Result<Option<Bytes>, ReadError>)
    requires Positive(chunker) && Lawful(c) && Honest(c, store.blobs) && PlainBlob(c, chunker, Concat(input))
    requires NoClash(c, false, store.blobs, FileBlobs(c, false, Pieces(chunker, Concat(input), 0)))
    modifies store
    ensures r == Ok(Some(Range(Concat(input), start, end)))
       <==> |Concat(input)| > chunker(0) || BoundsAgree(|Concat(input)|, start, end)
    ensures r.Ok? && r.value.Some?
  {
    var cid;
    ghost var parts;
    cid, parts := UploadFile(c, store, chunker, batchBytes, input);
    NegativeBounds(Concat(input), start, end);
    r := ReadWritten(c, store, chunker, Concat(input), cid, start, end, parts);
  }

  /** Upload a stream, read it back as a whole and stream it from an offset: the original
      bytes, unless the limit or a missing queue is in the way. */
  method UploadThenReadAll(c: Crypto, store: Store, chunker: Chunker, batchBytes: nat, input: seq<Bytes>,
                           maxBytes: Option<nat>, offset: nat, prefetch: nat)
    returns (r: Result<Option<Bytes>, ReadError>, out: seq<Bytes>, error: Option<ReadError>)
    requires Positive(chunker) && Lawful(c) && Honest(c, store.blobs) && PlainBlob(c, chunker, Concat(input))
    requires NoClash(c, false, store.blobs, FileBlobs(c, false, Pieces(chunker, Concat(input), 0)))
    modifies store
    ensures r == Limited(Concat(input), maxBytes)
    ensures prefetch > 0 || |Concat(input)| <= chunker(0) ==> Concat(out) == Drop(Concat(input), offset) && error.None?
  {
    var cid;
    ghost var parts;
    cid, parts := UploadFile(c, store, chunker, batchBytes, input);
    r := ReadWrittenWhole(c, store, chunker, Concat(input), cid, maxBytes, parts);
    out, error := StreamWritten(c, store, chunker, Concat(input), cid, offset, prefetch, parts);
  }
}
