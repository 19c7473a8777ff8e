/**
 Content-addressed files: chunking, links and nodes, and what a file's root stands for.
 Hashing, encryption and node encoding are abstract functions with inverse laws.
 */
module Files {
  import opened Bytes
  import opened Wrappers

  // ------------------------------------------------------ hashes and nodes

  datatype Kind = Blob | File | Dir

  datatype Link = Link(hash: Bytes, size: nat, key: Option<Bytes>, kind: Kind)

  datatype Node = Node(kind: Kind, links: seq<Link>)

  datatype Cid = Cid(hash: Bytes, key: Option<Bytes>)

  /** The key of an encrypted blob is the hash of its plaintext. */
  datatype Crypto = Crypto(
    sha: Bytes -> Bytes,
    encrypt: Bytes -> Bytes,
    decrypt: (Bytes, Bytes) -> Option<Bytes>,
    encode: Node -> Bytes,
    decode: Bytes -> Option<Node>)

  /** Decryption undoes encryption under the content key, and decoding undoes encoding. */
  ghost predicate Lawful(c: Crypto) {
    && (forall data: Bytes :: c.decrypt(c.encrypt(data), c.sha(data)) == Some(data))
    && (forall node: Node :: c.decode(c.encode(node)) == Some(node))
  }

  // ------------------------------------------------------------ the store

  type Blobs = map<Bytes, Bytes>

  ghost predicate Honest(c: Crypto, blobs: Blobs) {
    forall h :: h in blobs ==> c.sha(blobs[h]) == h
  }

  /** Nothing stored is lost or changed. */
  ghost predicate Grows(before: Blobs, after: Blobs) {
    forall h :: h in before ==> h in after && after[h] == before[h]
  }

  /** Nothing stored is lost or changed, and an honest store stays honest. */
  ghost predicate Grown(c: Crypto, before: Blobs, after: Blobs) {
    Grows(before, after) && (Honest(c, before) ==> Honest(c, after))
  }

  /** A store in memory: a hash that is present keeps its first data. */
  class Store {
    var blobs: Blobs

    constructor ()
      ensures blobs == map[]
    {
      blobs := map[];
    }

    method Put(hash: Bytes, data: Bytes) returns (isNew: bool)
      modifies this
      ensures isNew <==> hash !in old(blobs)
      ensures blobs == if isNew then old(blobs)[hash := data] else old(blobs)
    {
      if hash in blobs {
        return false;
      }
      blobs := blobs[hash := data];
      isNew := true;
    }
  }

  // -------------------------------------------------------------- chunking

  type Chunker = nat -> nat

  ghost predicate Positive(chunker: Chunker) {
    forall k: nat :: chunker(k) > 0
  }

  function Fixed(size: nat): (chunker: Chunker)
    ensures size > 0 ==> Positive(chunker)
  {
    (_: nat) => size
  }

  /** The chunks of `data` when the next chunk has number `k`. */
  function Pieces(chunker: Chunker, data: Bytes, k: nat): seq<Bytes>
    requires Positive(chunker)
    decreases |data|
  {
    if data == [] then []
    else if |data| <= chunker(k) then [data]
    else [data[..chunker(k)]] + Pieces(chunker, data[chunker(k)..], k + 1)
  }

  ghost predicate Full(chunker: Chunker, chunks: seq<Bytes>, k: nat) {
    forall i :: 0 <= i < |chunks| ==> |chunks[i]| == chunker(k + i)
  }

  /** The chunks with what has not filled one yet. */
  function WithRest(chunks: seq<Bytes>, rest: Bytes): seq<Bytes> {
    if rest == [] then chunks else chunks + [rest]
  }

  /** Full chunks followed by at most one more chunk are the pieces of their
      concatenation: there is one way to cut the data. */
  lemma {:induction false} PiecesUnique(chunker: Chunker, chunks: seq<Bytes>, rest: Bytes, k: nat)
    requires Positive(chunker) && Full(chunker, chunks, k) && |rest| <= chunker(k + |chunks|)
    ensures Pieces(chunker, Concat(chunks) + rest, k) == WithRest(chunks, rest)
    decreases |chunks|
  {
    if chunks == [] {
      assert Concat(chunks) + rest == rest;
    } else {
      var tail := chunks[1..];
      TailFull(chunker, chunks, k);
      PiecesUnique(chunker, tail, rest, k + 1);
      FirstPiece(chunker, chunks[0], Concat(tail) + rest, k);
      assert Concat(chunks) + rest == chunks[0] + (Concat(tail) + rest);
      assert [chunks[0]] + WithRest(tail, rest) == WithRest(chunks, rest);
    }
  }

  lemma TailFull(chunker: Chunker, chunks: seq<Bytes>, k: nat)
    requires Full(chunker, chunks, k) && chunks != []
    ensures Full(chunker, chunks[1..], k + 1) && |chunks[0]| == chunker(k)
  {
    var tail := chunks[1..];
    forall i | 0 <= i < |tail| ensures |tail[i]| == chunker(k + 1 + i) {
      assert tail[i] == chunks[i + 1] && |chunks[i + 1]| == chunker(k + (i + 1));
    }
  }

  lemma FullAppend(chunker: Chunker, chunks: seq<Bytes>, chunk: Bytes)
    requires Full(chunker, chunks, 0) && |chunk| == chunker(|chunks|)
    ensures Full(chunker, chunks + [chunk], 0)
  {
  }

  lemma FirstPiece(chunker: Chunker, first: Bytes, more: Bytes, k: nat)
    requires Positive(chunker) && |first| == chunker(k)
    ensures Pieces(chunker, first + more, k) == [first] + Pieces(chunker, more, k + 1)
  {
    assert (first + more)[..chunker(k)] == first && (first + more)[chunker(k)..] == more;
    if more == [] {
      assert first + more == first;
    }
  }

  /** Every chunk is non-empty, and every chunk but the last has its full size. */
  ghost predicate Cut(chunker: Chunker, chunks: seq<Bytes>, k: nat) {
    && (forall i :: 0 <= i < |chunks| ==> 0 < |chunks[i]| <= chunker(k + i))
    && (forall i :: 0 <= i < |chunks| - 1 ==> |chunks[i]| == chunker(k + i))
  }

  lemma CutCons(chunker: Chunker, first: Bytes, tail: seq<Bytes>, k: nat)
    requires Positive(chunker) && |first| == chunker(k) && Cut(chunker, tail, k + 1)
    ensures Cut(chunker, [first] + tail, k)
  {
    var chunks := [first] + tail;
    forall i | 0 <= i < |chunks| ensures 0 < |chunks[i]| <= chunker(k + i) {
      if i > 0 { assert chunks[i] == tail[i - 1] && k + 1 + (i - 1) == k + i; }
    }
    forall i | 0 <= i < |chunks| - 1 ensures |chunks[i]| == chunker(k + i) {
      if i > 0 { assert chunks[i] == tail[i - 1] && |tail[i - 1]| == chunker(k + 1 + (i - 1)); }
    }
  }

  lemma CutOne(chunker: Chunker, data: Bytes, k: nat)
    requires 0 < |data| <= chunker(k)
    ensures Cut(chunker, [data], k)
  {
  }

  /** Cutting loses nothing, and every chunk but the last has its full size. */
  lemma {:induction false} PiecesCover(chunker: Chunker, data: Bytes, k: nat)
    requires Positive(chunker)
    ensures Concat(Pieces(chunker, data, k)) == data && Cut(chunker, Pieces(chunker, data, k), k)
    decreases |data|
  {
    if data == [] {
    } else if |data| <= chunker(k) {
      ConcatOne(data);
      CutOne(chunker, data, k);
    } else {
      PiecesCoverStep(chunker, data, k);
    }
  }

  lemma {:induction false} PiecesCoverStep(chunker: Chunker, data: Bytes, k: nat)
    requires Positive(chunker) && |data| > chunker(k)
    ensures Concat(Pieces(chunker, data, k)) == data && Cut(chunker, Pieces(chunker, data, k), k)
    decreases |data|, 0
  {
    var first, more := data[..chunker(k)], data[chunker(k)..];
    var tail := Pieces(chunker, more, k + 1);
    PiecesCover(chunker, more, k + 1);
    CutCons(chunker, first, tail, k);
    ConcatCons(first, tail);
    assert data == first + more;
  }

  lemma ConcatCons(first: Bytes, tail: seq<Bytes>)
    ensures Concat([first] + tail) == first + Concat(tail)
  {
    assert ([first] + tail)[1..] == tail;
  }

  // ------------------------------------------------------- what files become

  /** The bytes stored for a blob, in public or in encrypted form. */
  function StoredForm(c: Crypto, plain: bool, data: Bytes): Bytes {
    if plain then data else c.encrypt(data)
  }

  function CidOf(c: Crypto, plain: bool, data: Bytes): Cid {
    Cid(c.sha(StoredForm(c, plain, data)), if plain then None else Some(c.sha(data)))
  }

  function LinkOf(c: Crypto, plain: bool, chunk: Bytes): Link {
    Link(CidOf(c, plain, chunk).hash, |chunk|, CidOf(c, plain, chunk).key, Blob)
  }

  function Links(c: Crypto, plain: bool, chunks: seq<Bytes>): (links: seq<Link>)
    ensures |links| == |chunks|
    ensures forall i :: 0 <= i < |chunks| ==> links[i] == LinkOf(c, plain, chunks[i])
  {
    seq(|chunks|, i requires 0 <= i < |chunks| => LinkOf(c, plain, chunks[i]))
  }

  function NodeOf(c: Crypto, plain: bool, chunks: seq<Bytes>): Node {
    Node(File, Links(c, plain, chunks))
  }

  /** The root of a list of chunks: the blob itself when there is at most one, or else a
      node that links to all of them. */
  function ChunksCid(c: Crypto, plain: bool, chunks: seq<Bytes>): Cid {
    if chunks == [] then CidOf(c, plain, [])
    else if |chunks| == 1 then CidOf(c, plain, chunks[0])
    else CidOf(c, plain, c.encode(NodeOf(c, plain, chunks)))
  }

  /** The root of a file depends on its content and the chunker alone. */
  function FileCid(c: Crypto, plain: bool, chunker: Chunker, data: Bytes): Cid
    requires Positive(chunker)
  {
    ChunksCid(c, plain, Pieces(chunker, data, 0))
  }

  lemma LinksAppend(c: Crypto, plain: bool, chunks: seq<Bytes>, chunk: Bytes)
    ensures Links(c, plain, chunks + [chunk]) == Links(c, plain, chunks) + [LinkOf(c, plain, chunk)]
  {
  }

  /** A blob is in the store under its hash. */
  ghost predicate Has(c: Crypto, plain: bool, blobs: Blobs, data: Bytes) {
    CidOf(c, plain, data).hash in blobs
  }

  /** A held byte string has the hash of `stored` without being it. */
  ghost predicate Collides(c: Crypto, blobs: Blobs, stored: Bytes) {
    exists h :: h in blobs && blobs[h] != stored && c.sha(blobs[h]) == c.sha(stored)
  }

  /** In an honest store a blob is found under its hash, or two byte strings share it. */
  lemma HasFinds(c: Crypto, plain: bool, blobs: Blobs, data: Bytes)
    requires Has(c, plain, blobs, data) && Honest(c, blobs)
    ensures blobs[CidOf(c, plain, data).hash] == StoredForm(c, plain, data) || Collides(c, blobs, StoredForm(c, plain, data))
  {
    var h := CidOf(c, plain, data).hash;
    assert h in blobs && c.sha(blobs[h]) == h;
  }

  /** The blobs that a file of these chunks may consist of. */
  function FileBlobs(c: Crypto, plain: bool, chunks: seq<Bytes>): seq<Bytes> {
    chunks + [[], c.encode(NodeOf(c, plain, chunks))]
  }

  /** A held byte string has the hash of one of the file's own blobs without being it. */
  ghost predicate FileCollides(c: Crypto, plain: bool, blobs: Blobs, chunks: seq<Bytes>) {
    exists x :: x in FileBlobs(c, plain, chunks) && Collides(c, blobs, StoredForm(c, plain, x))
  }

  ghost predicate FormOf(c: Crypto, plain: bool, own: seq<Bytes>, stored: Bytes) {
    exists x :: x in own && stored == StoredForm(c, plain, x)
  }

  /** Whatever is in the store afterwards was there before or is one of our own blobs. */
  ghost predicate AddsOnly(c: Crypto, plain: bool, before: Blobs, after: Blobs, own: seq<Bytes>) {
    forall h :: h in after ==> (h in before && after[h] == before[h]) || FormOf(c, plain, own, after[h])
  }

  lemma AddsMore(c: Crypto, plain: bool, first: Blobs, second: Blobs, third: Blobs, own: seq<Bytes>, more: seq<Bytes>, all: seq<Bytes>)
    requires AddsOnly(c, plain, first, second, own) && AddsOnly(c, plain, second, third, more)
    requires forall x :: x in own || x in more ==> x in all
    ensures AddsOnly(c, plain, first, third, all)
  {
    forall h | h in third && !(h in first && third[h] == first[h]) ensures FormOf(c, plain, all, third[h]) {
      if h in second && third[h] == second[h] {
        var x :| x in own && second[h] == StoredForm(c, plain, x);
        assert x in all;
      } else {
        var x :| x in more && third[h] == StoredForm(c, plain, x);
        assert x in all;
      }
    }
  }

  lemma AddsChunk(c: Crypto, plain: bool, first: Blobs, second: Blobs, third: Blobs, own: seq<Bytes>, chunk: Bytes)
    requires AddsOnly(c, plain, first, second, own) && AddsOnly(c, plain, second, third, [chunk])
    ensures AddsOnly(c, plain, first, third, own + [chunk])
  {
    AddsMore(c, plain, first, second, third, own, [chunk], own + [chunk]);
  }

  lemma AddsRoot(c: Crypto, plain: bool, first: Blobs, second: Blobs, third: Blobs, chunks: seq<Bytes>, root: Bytes)
    requires AddsOnly(c, plain, first, second, chunks) && AddsOnly(c, plain, second, third, [root])
    requires root == [] || root == c.encode(NodeOf(c, plain, chunks))
    ensures AddsOnly(c, plain, first, third, FileBlobs(c, plain, chunks))
  {
    AddsMore(c, plain, first, second, third, chunks, [root], FileBlobs(c, plain, chunks));
  }

  ghost predicate Known(c: Crypto, plain: bool, blobs: Blobs, own: seq<Bytes>, stored: Bytes) {
    (exists h :: h in blobs && blobs[h] == stored) || FormOf(c, plain, own, stored)
  }

  /** Among the byte strings at hand, those in the store and our own blobs, no two have
      one hash. */
  ghost predicate NoClash(c: Crypto, plain: bool, blobs: Blobs, own: seq<Bytes>) {
    forall a, b :: Known(c, plain, blobs, own, a) && Known(c, plain, blobs, own, b) && c.sha(a) == c.sha(b) ==> a == b
  }

  lemma NoClashNoCollision(c: Crypto, plain: bool, before: Blobs, after: Blobs, chunks: seq<Bytes>)
    requires NoClash(c, plain, before, FileBlobs(c, plain, chunks))
    requires AddsOnly(c, plain, before, after, FileBlobs(c, plain, chunks))
    ensures !FileCollides(c, plain, after, chunks)
  {
    var own := FileBlobs(c, plain, chunks);
    forall x, h | x in own && h in after && c.sha(after[h]) == c.sha(StoredForm(c, plain, x))
      ensures after[h] == StoredForm(c, plain, x)
    {
      assert Known(c, plain, before, own, StoredForm(c, plain, x));
      assert Known(c, plain, before, own, after[h]);
    }
  }

  ghost predicate HasAll(c: Crypto, plain: bool, blobs: Blobs, chunks: seq<Bytes>) {
    forall i :: 0 <= i < |chunks| ==> Has(c, plain, blobs, chunks[i])
  }

  /** Everything a reader needs of a list of chunks is in the store. */
  ghost predicate HasFile(c: Crypto, plain: bool, blobs: Blobs, chunks: seq<Bytes>) {
    && HasAll(c, plain, blobs, chunks)
    && (chunks == [] ==> Has(c, plain, blobs, []))
    && (|chunks| > 1 ==> Has(c, plain, blobs, c.encode(NodeOf(c, plain, chunks))))
  }

  // --------------------------------------------------------- public files

  /** A small public file is its own root: its content lies under its hash, without a key. */
  lemma SmallPublicFile(c: Crypto, chunker: Chunker, data: Bytes)
    requires Positive(chunker) && |data| <= chunker(0)
    ensures FileCid(c, true, chunker, data) == Cid(c.sha(data), None)
  {
  }

  /** A link that needs no key, with the byte string that it leads to. */
  ghost predicate PublicLink(blobs: Blobs, link: Link, chunk: Bytes) {
    link.kind == Blob && link.key.None? && link.size == |chunk| && link.hash in blobs && blobs[link.hash] == chunk
  }

  ghost predicate PublicLinks(blobs: Blobs, links: seq<Link>, chunks: seq<Bytes>) {
    |links| == |chunks| && forall i :: 0 <= i < |links| ==> PublicLink(blobs, links[i], chunks[i])
  }

  /** A public file is read with its hash alone: what lies under it is the content, or a
      file node whose links lead without keys to byte strings that make up the content. */
  ghost predicate PublicReads(c: Crypto, blobs: Blobs, chunker: Chunker, root: Cid, data: Bytes)
    requires Positive(chunker)
  {
    && root.key.None? && root.hash in blobs
    && (|data| <= chunker(0) ==> blobs[root.hash] == data)
    && (|data| > chunker(0) ==>
          var chunks := Pieces(chunker, data, 0); var node := c.decode(blobs[root.hash]);
          Concat(chunks) == data && node.Some? && node.value.kind == File && PublicLinks(blobs, node.value.links, chunks))
  }

  /** A held byte string has the hash of one of the file's public blobs without being it. */
  ghost predicate PublicCollides(c: Crypto, blobs: Blobs, chunker: Chunker, data: Bytes)
    requires Positive(chunker)
  {
    exists x :: x in FileBlobs(c, true, Pieces(chunker, data, 0)) && Collides(c, blobs, x)
  }

  lemma PublicBlob(c: Crypto, blobs: Blobs, chunker: Chunker, data: Bytes, x: Bytes)
    requires Positive(chunker) && Honest(c, blobs) && Has(c, true, blobs, x)
    requires x in FileBlobs(c, true, Pieces(chunker, data, 0)) && !PublicCollides(c, blobs, chunker, data)
    ensures c.sha(x) in blobs && blobs[c.sha(x)] == x
  {
    HasFinds(c, true, blobs, x);
  }

  lemma PublicNode(c: Crypto, blobs: Blobs, chunker: Chunker, data: Bytes)
    requires Positive(chunker) && Honest(c, blobs) && HasAll(c, true, blobs, Pieces(chunker, data, 0))
    requires !PublicCollides(c, blobs, chunker, data)
    ensures PublicLinks(blobs, Links(c, true, Pieces(chunker, data, 0)), Pieces(chunker, data, 0))
  {
    var chunks := Pieces(chunker, data, 0);
    var links := Links(c, true, chunks);
    forall i | 0 <= i < |links| ensures PublicLink(blobs, links[i], chunks[i]) {
      assert FileBlobs(c, true, chunks)[i] == chunks[i];
      PublicBlob(c, blobs, chunker, data, chunks[i]);
    }
  }

  /** Whatever is stored as a public file is read back, unless a held byte string collides
      with one of its blobs. */
  lemma PublicFile(c: Crypto, blobs: Blobs, chunker: Chunker, data: Bytes)
    requires Positive(chunker) && Lawful(c) && Honest(c, blobs) && HasFile(c, true, blobs, Pieces(chunker, data, 0))
    ensures PublicReads(c, blobs, chunker, FileCid(c, true, chunker, data), data) || PublicCollides(c, blobs, chunker, data)
  {
    if !PublicCollides(c, blobs, chunker, data) {
      var chunks := Pieces(chunker, data, 0);
      var own := FileBlobs(c, true, chunks);
      PiecesCover(chunker, data, 0);
      if |data| <= chunker(0) {
        assert own[0] == data;
        PublicBlob(c, blobs, chunker, data, data);
      } else {
        SeveralPieces(chunker, data);
        var encoded := c.encode(NodeOf(c, true, chunks));
        assert own[|chunks| + 1] == encoded;
        PublicBlob(c, blobs, chunker, data, encoded);
        PublicNode(c, blobs, chunker, data);
      }
    }
  }

  lemma SeveralPieces(chunker: Chunker, data: Bytes)
    requires Positive(chunker) && |data| > chunker(0)
    ensures |Pieces(chunker, data, 0)| > 1
  {
    assert data[chunker(0)..] != [];
  }

  lemma HasAllGrows(c: Crypto, plain: bool, before: Blobs, after: Blobs, chunks: seq<Bytes>)
    requires HasAll(c, plain, before, chunks) && Grows(before, after)
    ensures HasAll(c, plain, after, chunks)
  {
    forall i | 0 <= i < |chunks| ensures Has(c, plain, after, chunks[i]) {
      assert Has(c, plain, before, chunks[i]);
    }
  }

  lemma HasAllAppend(c: Crypto, plain: bool, blobs: Blobs, chunks: seq<Bytes>, chunk: Bytes)
    requires HasAll(c, plain, blobs, chunks) && Has(c, plain, blobs, chunk)
    ensures HasAll(c, plain, blobs, chunks + [chunk])
  {
  }

  /** Store a blob, in public or in encrypted form. */
  method PutBlob(c: Crypto, store: Store, plain: bool, data: Bytes) returns (cid: Cid)
    modifies store
    ensures cid == if plain then Cid(c.sha(data), None) else Cid(c.sha(c.encrypt(data)), Some(c.sha(data)))
    ensures store.blobs == if cid.hash in old(store.blobs) then old(store.blobs)
                           else old(store.blobs)[cid.hash := if plain then data else c.encrypt(data)]
    ensures cid == CidOf(c, plain, data)
    ensures Has(c, plain, store.blobs, data)
    ensures Grown(c, old(store.blobs), store.blobs)
    ensures AddsOnly(c, plain, old(store.blobs), store.blobs, [data])
  {
    var stored := if plain then data else c.encrypt(data);
    var hash := c.sha(stored);
    var _ := store.Put(hash, stored);
    assert data in [data] && stored == StoredForm(c, plain, data);
    cid := Cid(hash, if plain then None else Some(c.sha(data)));
  }

  /** Store the node over a list of chunks unless one chunk is the whole file. */
  method BuildTree(c: Crypto, store: Store, plain: bool, links: seq<Link>, ghost chunks: seq<Bytes>) returns (cid: Cid)
    requires links == Links(c, plain, chunks) && chunks != [] && HasAll(c, plain, store.blobs, chunks)
    modifies store
    ensures cid == ChunksCid(c, plain, chunks) && HasFile(c, plain, store.blobs, chunks)
    ensures Grown(c, old(store.blobs), store.blobs)
    ensures AddsOnly(c, plain, old(store.blobs), store.blobs, [c.encode(NodeOf(c, plain, chunks))])
  {
    if |links| == 1 {
      return Cid(links[0].hash, links[0].key);
    }
    cid := PutBlob(c, store, plain, c.encode(Node(File, links)));
    HasAllGrows(c, plain, old(store.blobs), store.blobs, chunks);
  }

  /** The first `k` chunks of `data`, up to `offset`, are stored and linked. */
  ghost predicate Linked(c: Crypto, plain: bool, chunker: Chunker, data: Bytes, blobs: Blobs,
                         offset: int, chunks: seq<Bytes>, links: seq<Link>)
    requires Positive(chunker)
  {
    && 0 <= offset <= |data|
    && chunks + Pieces(chunker, data[offset..], |chunks|) == Pieces(chunker, data, 0)
    && links == Links(c, plain, chunks)
    && HasAll(c, plain, blobs, chunks)
  }

  lemma LinkedNext(c: Crypto, plain: bool, chunker: Chunker, data: Bytes, before: Blobs, after: Blobs,
                   offset: int, end: int, chunks: seq<Bytes>, links: seq<Link>)
    requires Positive(chunker) && Linked(c, plain, chunker, data, before, offset, chunks, links) && offset < |data|
    requires end == if offset + chunker(|chunks|) < |data| then offset + chunker(|chunks|) else |data|
    requires Grows(before, after) && Has(c, plain, after, data[offset..end])
    ensures Linked(c, plain, chunker, data, after, end, chunks + [data[offset..end]],
                   links + [LinkOf(c, plain, data[offset..end])])
  {
    var chunk := data[offset..end];
    NextPiece(chunker, data, offset, end, |chunks|);
    HasAllGrows(c, plain, before, after, chunks);
    HasAllAppend(c, plain, after, chunks, chunk);
    LinksAppend(c, plain, chunks, chunk);
  }

  /** Store a whole file that is at hand: cut it, store the chunks, store the node. */
  method PutFile(c: Crypto, store: Store, plain: bool, chunker: Chunker, data: Bytes) returns (cid: Cid, size: nat)
    requires Positive(chunker)
    modifies store
    ensures cid == FileCid(c, plain, chunker, data) && size == |data|
    ensures HasFile(c, plain, store.blobs, Pieces(chunker, data, 0))
    ensures Grown(c, old(store.blobs), store.blobs)
    ensures AddsOnly(c, plain, old(store.blobs), store.blobs, FileBlobs(c, plain, Pieces(chunker, data, 0)))
    ensures plain && Lawful(c) && Honest(c, old(store.blobs)) ==>
      PublicReads(c, store.blobs, chunker, cid, data) || PublicCollides(c, store.blobs, chunker, data)
  {
    size := |data|;
    if |data| <= chunker(0) {
      cid := PutBlob(c, store, plain, data);
      AddsSmall(c, plain, old(store.blobs), store.blobs, chunker, data);
    } else {
      cid := PutLarge(c, store, plain, chunker, data);
    }
    if plain && Lawful(c) && Honest(c, old(store.blobs)) { PublicFile(c, store.blobs, chunker, data); }
  }

  lemma AddsSmall(c: Crypto, plain: bool, before: Blobs, after: Blobs, chunker: Chunker, data: Bytes)
    requires Positive(chunker) && |data| <= chunker(0) && AddsOnly(c, plain, before, after, [data])
    ensures AddsOnly(c, plain, before, after, FileBlobs(c, plain, Pieces(chunker, data, 0)))
  {
    var own := FileBlobs(c, plain, Pieces(chunker, data, 0));
    assert own[0] == data;
    AddsMore(c, plain, before, before, after, [], [data], own);
  }

  /** Store a file of more than one chunk. */
  method PutLarge(c: Crypto, store: Store, plain: bool, chunker: Chunker, data: Bytes) returns (cid: Cid)
    requires Positive(chunker) && |data| > chunker(0)
    modifies store
    ensures cid == FileCid(c, plain, chunker, data)
    ensures HasFile(c, plain, store.blobs, Pieces(chunker, data, 0))
    ensures Grown(c, old(store.blobs), store.blobs)
    ensures AddsOnly(c, plain, old(store.blobs), store.blobs, FileBlobs(c, plain, Pieces(chunker, data, 0)))
  {
    var links: seq<Link> := [];
    ghost var chunks: seq<Bytes> := [];
    var offset := 0;
    var chunkIndex := 0;
    while offset < |data|
      invariant chunkIndex == |chunks| && Linked(c, plain, chunker, data, store.blobs, offset, chunks, links)
      invariant Grown(c, old(store.blobs), store.blobs)
      invariant AddsOnly(c, plain, old(store.blobs), store.blobs, chunks)
      decreases |data| - offset
    {
      var end := if offset + chunker(chunkIndex) < |data| then offset + chunker(chunkIndex) else |data|;
      var chunk := data[offset..end];
      ghost var before := store.blobs;
      var part := PutBlob(c, store, plain, chunk);
      LinkedNext(c, plain, chunker, data, before, store.blobs, offset, end, chunks, links);
      AddsChunk(c, plain, old(store.blobs), before, store.blobs, chunks, chunk);
      links := links + [Link(part.hash, |chunk|, part.key, Blob)];
      chunks := chunks + [chunk];
      offset := end;
      chunkIndex := chunkIndex + 1;
    }
    LinkedAll(c, plain, chunker, data, store.blobs, chunks, links);
    ghost var before := store.blobs;
    cid := BuildTree(c, store, plain, links, chunks);
    AddsRoot(c, plain, old(store.blobs), before, store.blobs, chunks, c.encode(NodeOf(c, plain, chunks)));
  }

  lemma LinkedAll(c: Crypto, plain: bool, chunker: Chunker, data: Bytes, blobs: Blobs, chunks: seq<Bytes>, links: seq<Link>)
    requires Positive(chunker) && Linked(c, plain, chunker, data, blobs, |data|, chunks, links) && data != []
    ensures chunks == Pieces(chunker, data, 0) && chunks != []
  {
    assert data[|data|..] == [];
    assert chunks + [] == chunks;
  }

  lemma NextPiece(chunker: Chunker, data: Bytes, offset: nat, end: nat, k: nat)
    requires Positive(chunker) && offset < |data|
    requires end == if offset + chunker(k) < |data| then offset + chunker(k) else |data|
    ensures Pieces(chunker, data[offset..], k) == [data[offset..end]] + Pieces(chunker, data[end..], k + 1)
  {
    if end == |data| {
      assert data[offset..end] == data[offset..];
    } else {
      FirstPiece(chunker, data[offset..end], data[end..], k);
      assert data[offset..end] + data[end..] == data[offset..];
    }
  }
}
