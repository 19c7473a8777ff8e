/**
 BEP 52 files: 16 KiB blocks, their hashes, the root and the piece layers, built from data
 at hand or from a stream.
 */
module Bep52 {
  import opened Bytes
  import Files
  import Merkle
  import opened Wrappers

  const BLOCK_SIZE: nat := 16384

  datatype Summary = Summary(root: Bytes, size: nat, blockCount: nat, leafHashes: seq<Bytes>, pieceLayers: Option<seq<Bytes>>)

  function Blocks(data: Bytes): seq<Bytes> {
    Files.Pieces(Files.Fixed(BLOCK_SIZE), data, 0)
  }

  function Hashes(sha: Bytes -> Bytes, blocks: seq<Bytes>): (hashes: seq<Bytes>)
    ensures |hashes| == |blocks|
    ensures forall i :: 0 <= i < |blocks| ==> hashes[i] == sha(blocks[i])
  {
    seq(|blocks|, i requires 0 <= i < |blocks| => sha(blocks[i]))
  }

  lemma HashesAppend(sha: Bytes -> Bytes, blocks: seq<Bytes>, block: Bytes)
    ensures Hashes(sha, blocks + [block]) == Hashes(sha, blocks) + [sha(block)]
  {
  }

  function BlockCount(size: nat): nat {
    (size + BLOCK_SIZE - 1) / BLOCK_SIZE
  }

  /** The pieces of `data` from block `k` on are as many as its size asks for. */
  lemma {:induction false} PiecesCount(data: Bytes, k: nat)
    ensures |Files.Pieces(Files.Fixed(BLOCK_SIZE), data, k)| == BlockCount(|data|)
    decreases |data|
  {
    if |data| > BLOCK_SIZE {
      PiecesCount(data[BLOCK_SIZE..], k + 1);
    }
  }

  /** The blocks are the stretches of 16 KiB, the last one as long as what is left. */
  lemma {:induction false} BlockIsStretch(data: Bytes, k: nat, i: nat)
    requires i < |Files.Pieces(Files.Fixed(BLOCK_SIZE), data, k)|
    ensures 16384 * i < |data|
    ensures Files.Pieces(Files.Fixed(BLOCK_SIZE), data, k)[i] == data[16384 * i..MinOf(16384 * (i + 1), |data|)]
    decreases i
  {
    if |data| <= BLOCK_SIZE {
      assert data[0..|data|] == data;
    } else if i > 0 {
      var rest := data[BLOCK_SIZE..];
      BlockIsStretch(rest, k + 1, i - 1);
      assert MinOf(16384 * i, |rest|) + BLOCK_SIZE == MinOf(16384 * (i + 1), |data|);
      SliceOfRest(data, BLOCK_SIZE, 16384 * (i - 1), MinOf(16384 * i, |rest|));
    }
  }

  lemma SliceOfRest(data: Bytes, from: nat, a: nat, b: nat)
    requires from <= |data| && a <= b <= |data| - from
    ensures data[from..][a..b] == data[from + a..from + b]
  {
  }

  /** The root that leaf hashes determine. */
  function LeavesRoot(hs: Merkle.Hasher<Bytes>, leafHashes: seq<Bytes>): Bytes {
    if leafHashes == [] then hs.zero else Merkle.Root(hs, leafHashes, Merkle.Depth(|leafHashes|))
  }

  /** A summary describes the file `data`. */
  ghost predicate Describes(sha: Bytes -> Bytes, hs: Merkle.Hasher<Bytes>, data: Bytes, s: Summary) {
    && s.root == LeavesRoot(hs, Hashes(sha, Blocks(data)))
    && s.size == |data| && s.blockCount == BlockCount(|data|)
    && s.leafHashes == Hashes(sha, Blocks(data))
  }

  /** The layers are the nodes over a piece each, and they reduce to the same root. */
  ghost predicate Layers(hs: Merkle.Hasher<Bytes>, leaves: seq<Bytes>, root: Bytes, p: nat, layers: seq<Bytes>) {
    && |layers| == (|leaves| + Merkle.Pow2(p) - 1) / Merkle.Pow2(p)
    && (forall i: nat :: i < |layers| ==> layers[i] == Merkle.NodeAt(hs, leaves, hs.zero, p, i))
    && (|leaves| > Merkle.Pow2(p) ==>
          var d := Merkle.Depth(|leaves|); d > p && Merkle.NodeAt(hs, layers, Merkle.Pad(hs, p), d - p, 0) == root)
  }

  lemma BlocksNonEmpty(data: Bytes)
    ensures |Blocks(data)| == BlockCount(|data|)
    ensures BlockCount(|data|) == 0 <==> data == []
  {
    PiecesCount(data, 0);
  }

  method RootOf(hs: Merkle.Hasher<Bytes>, leafHashes: seq<Bytes>) returns (root: Bytes)
    requires |leafHashes| <= 0x4000_0000
    ensures root == LeavesRoot(hs, leafHashes)
  {
    var numLeafs := Merkle.NumLeafs(|leafHashes|);
    root := Merkle.MerkleRoot(hs, leafHashes, Some(numLeafs), Merkle.Depth(|leafHashes|));
  }

  function MinOf(a: nat, b: nat): nat {
    if a < b then a else b
  }

  /** `blocks` are the first `i` blocks of the data. */
  ghost predicate HashedTo(data: Bytes, i: nat, blocks: seq<Bytes>) {
    && |blocks| == i
    && blocks + Files.Pieces(Files.Fixed(BLOCK_SIZE), data[MinOf(i * BLOCK_SIZE, |data|)..], i) == Blocks(data)
  }

  lemma HashedNext(data: Bytes, i: nat, blocks: seq<Bytes>, end: nat)
    requires HashedTo(data, i, blocks) && i * BLOCK_SIZE < |data| && end == MinOf(i * BLOCK_SIZE + BLOCK_SIZE, |data|)
    ensures HashedTo(data, i + 1, blocks + [data[i * BLOCK_SIZE..end]])
  {
    Files.NextPiece(Files.Fixed(BLOCK_SIZE), data, i * BLOCK_SIZE, end, i);
  }

  lemma HashedAll(data: Bytes, blocks: seq<Bytes>)
    requires HashedTo(data, BlockCount(|data|), blocks)
    ensures blocks == Blocks(data)
  {
    assert data[|data|..] == [];
    assert blocks + [] == blocks;
  }

  class TreeBuilder {
    const sha: Bytes -> Bytes
    const hs: Merkle.Hasher<Bytes>
    const blocksPerPiece: nat
    ghost const p: nat

    /** The piece size is a power of two of blocks. */
    constructor (sha: Bytes -> Bytes, hs: Merkle.Hasher<Bytes>, blocksPerPiece: nat, ghost p: nat)
      requires blocksPerPiece == Merkle.Pow2(p)
      ensures this.sha == sha && this.hs == hs && this.blocksPerPiece == Merkle.Pow2(this.p) && this.p == p
    {
      this.sha := sha;
      this.hs := hs;
      this.blocksPerPiece := blocksPerPiece;
      this.p := p;
    }

    method BuildFromHashes(leafHashes: seq<Bytes>, size: nat) returns (s: Summary)
      requires blocksPerPiece == Merkle.Pow2(p) && |leafHashes| <= 0x4000_0000
      ensures s.root == LeavesRoot(hs, leafHashes) && s.leafHashes == leafHashes
      ensures s.size == size && s.blockCount == |leafHashes|
      ensures s.pieceLayers.Some? <==> p > 0
      ensures s.pieceLayers.Some? ==> Layers(hs, leafHashes, s.root, p, s.pieceLayers.value)
    {
      var root := RootOf(hs, leafHashes);
      Merkle.OneLeaf(p);
      if blocksPerPiece == 1 {
        return Summary(root, size, |leafHashes|, leafHashes, None);
      }
      var layers := Merkle.ComputePieceLayers(hs, leafHashes, blocksPerPiece, p);
      if |leafHashes| > blocksPerPiece {
        Merkle.ManyBlocksDeep(|leafHashes|, p);
        Merkle.PieceLayersRoot(hs, leafHashes, layers, p, Merkle.Depth(|leafHashes|));
      }
      s := Summary(root, size, |leafHashes|, leafHashes, Some(layers));
    }

    method BuildFromData(data: Bytes) returns (s: Summary)
      requires blocksPerPiece == Merkle.Pow2(p) && BlockCount(|data|) <= 0x4000_0000
      ensures Describes(sha, hs, data, s)
      ensures s.pieceLayers.Some? <==> p > 0 && data != []
      ensures s.pieceLayers.Some? ==> Layers(hs, s.leafHashes, s.root, p, s.pieceLayers.value)
    {
      BlocksNonEmpty(data);
      var blockCount := BlockCount(|data|);
      if blockCount == 0 {
        return Summary(hs.zero, 0, 0, [], None);
      }
      var leafHashes: seq<Bytes> := [];
      ghost var blocks: seq<Bytes> := [];
      for i := 0 to blockCount
        invariant HashedTo(data, i, blocks) && leafHashes == Hashes(sha, blocks)
      {
        var start := i * BLOCK_SIZE;
        var end := MinOf(start + BLOCK_SIZE, |data|);
        var block := data[start..end];
        HashedNext(data, i, blocks, end);
        HashesAppend(sha, blocks, block);
        leafHashes := leafHashes + [sha(block)];
        blocks := blocks + [block];
      }
      HashedAll(data, blocks);
      s := BuildFromHashes(leafHashes, |data|);
    }
  }

  class StreamBuilder {
    const sha: Bytes -> Bytes
    const hs: Merkle.Hasher<Bytes>
    const buffer: array<Byte>
    var bufferOffset: nat
    var leafHashes: seq<Bytes>
    var totalSize: nat
    ghost var blocks: seq<Bytes>

    ghost predicate Valid()
      reads this
    {
      && buffer.Length == BLOCK_SIZE && bufferOffset < BLOCK_SIZE
      && leafHashes == Hashes(sha, blocks)
    }

    /** Only finalizing flushes a short block. */
    ghost predicate Open()
      reads this
    {
      Files.Full(Files.Fixed(BLOCK_SIZE), blocks, 0)
    }

    ghost function Data(): Bytes
      reads this, buffer
      requires bufferOffset <= buffer.Length
    {
      Concat(blocks) + buffer[..bufferOffset]
    }

    constructor (sha: Bytes -> Bytes, hs: Merkle.Hasher<Bytes>)
      ensures Valid() && Open() && Data() == [] && totalSize == 0
      ensures this.sha == sha && this.hs == hs && fresh(buffer)
    {
      this.sha := sha;
      this.hs := hs;
      buffer := new Byte[BLOCK_SIZE](_ => 0);
      bufferOffset := 0;
      leafHashes := [];
      totalSize := 0;
      blocks := [];
    }

    method FlushBlock()
      requires buffer.Length == BLOCK_SIZE && bufferOffset <= BLOCK_SIZE && leafHashes == Hashes(sha, blocks)
      modifies `bufferOffset, `leafHashes, `blocks
      ensures Valid() && bufferOffset == 0 && Data() == old(Data())
      ensures blocks == Files.WithRest(old(blocks), old(buffer[..bufferOffset]))
      ensures old(Open()) && old(bufferOffset) == BLOCK_SIZE ==> Open()
    {
      if bufferOffset == 0 {
        return;
      }
      var block := buffer[..bufferOffset];
      HashesAppend(sha, blocks, block);
      ConcatAppend(blocks, [block]);
      ConcatOne(block);
      if Open() && bufferOffset == BLOCK_SIZE {
        Files.FullAppend(Files.Fixed(BLOCK_SIZE), blocks, block);
      }
      leafHashes := leafHashes + [sha(block)];
      blocks := blocks + [block];
      bufferOffset := 0;
    }

    /** Take as much of `data` from `offset` on as the block has room for. */
    method AppendPart(data: Bytes, offset: nat) returns (next: nat)
      requires Valid() && offset < |data|
      modifies buffer, `bufferOffset, `leafHashes, `blocks
      ensures Valid() && offset < next <= |data| && Data() == old(Data()) + data[offset..next]
      ensures old(Open()) ==> Open()
    {
      var space := BLOCK_SIZE - bufferOffset;
      var toWrite := MinOf(space, |data| - offset);
      next := offset + toWrite;
      var part := data[offset..next];
      ghost var held := buffer[..bufferOffset];
      forall i | 0 <= i < toWrite {
        buffer[bufferOffset + i] := part[i];
      }
      bufferOffset := bufferOffset + toWrite;
      assert buffer[..bufferOffset] == held + part;
      assert Concat(blocks) + (held + part) == Concat(blocks) + held + part;
      if bufferOffset == BLOCK_SIZE {
        FlushBlock();
      }
    }

    method Append(data: Bytes)
      requires Valid()
      modifies this, buffer
      ensures Valid() && Data() == old(Data()) + data && totalSize == old(totalSize) + |data|
      ensures old(Open()) ==> Open()
    {
      var offset := 0;
      assert Data() + data[..0] == Data();
      while offset < |data|
        invariant offset <= |data| && Valid() && Data() == old(Data()) + data[..offset]
        invariant old(Open()) ==> Open()
        invariant totalSize == old(totalSize)
      {
        var next := AppendPart(data, offset);
        TakeMore(old(Data()), data, offset, next);
        offset := next;
      }
      assert data[..offset] == data;
      totalSize := totalSize + |data|;
    }

    method Finalize() returns (s: Summary)
      requires Valid() && Open() && totalSize == |Data()| && BlockCount(totalSize) <= 0x4000_0000
      modifies `bufferOffset, `leafHashes, `blocks
      ensures Describes(sha, hs, old(Data()), s) && s.pieceLayers.None?
      ensures Valid() && bufferOffset == 0 && Data() == old(Data())
    {
      ghost var data := Data();
      Files.PiecesUnique(Files.Fixed(BLOCK_SIZE), blocks, buffer[..bufferOffset], 0);
      FlushBlock();
      BlocksNonEmpty(data);
      var blockCount := |leafHashes|;
      if blockCount == 0 {
        return Summary(hs.zero, 0, 0, [], None);
      }
      var root := RootOf(hs, leafHashes);
      s := Summary(root, totalSize, blockCount, leafHashes, None);
    }
  }

  /** Streaming a file in any split gives the root, leaf hashes and size of building it whole. */
  method StreamFile(sha: Bytes -> Bytes, hs: Merkle.Hasher<Bytes>, input: seq<Bytes>) returns (s: Summary)
    requires BlockCount(|Concat(input)|) <= 0x4000_0000
    ensures Describes(sha, hs, Concat(input), s)
  {
    var builder := new StreamBuilder(sha, hs);
    assert input[..0] == [];
    for i := 0 to |input|
      invariant fresh(builder) && fresh(builder.buffer) && builder.Valid() && builder.Open()
      invariant builder.sha == sha && builder.hs == hs
      invariant builder.Data() == Concat(input[..i]) && builder.totalSize == |Concat(input[..i])|
    {
      ConcatSplit(input, i);
      builder.Append(input[i]);
    }
    assert input[..|input|] == input;
    s := builder.Finalize();
  }
}
