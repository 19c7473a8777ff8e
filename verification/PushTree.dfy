/**
 A push and its walk together: the blocks that `push` counts are those that the walk of
 the tree yields, and as many as the total it asked `pull` for at the start.
 */
module PushTree {
  import opened Wrappers
  import opened Bytes
  import opened Push
  import opened Walk

  /** The walked hashes with the data the store holds for them. */
  function BlocksOf(hashes: seq<Bytes>, data: Bytes -> Bytes): (blocks: seq<Block>)
    ensures |blocks| == |hashes|
  {
    seq(|hashes|, i requires 0 <= i < |hashes| => Block(hashes[i], data(hashes[i])))
  }

  /** A run that was never aborted and can go no further. */
  ghost predicate Complete(all: seq<Block>, concurrency: nat, steps: seq<Step>) {
    Legal(Init(all, concurrency), steps) && Stuck(Run(Init(all, concurrency), steps)) && Aborts !in steps
  }

  /** What has been counted: every held block that can be reached, each once, and nothing
      else. */
  ghost predicate CountsTheTree(g: Graph, keyOf: KeyOf, root: Bytes, data: Bytes -> Bytes, done: seq<(Block, Outcome)>) {
    forall b: Block :: multiset(Counted(done))[b]
      == if b.hash in g.present && Reachable(g, keyOf, root, b.hash) && b.data == data(b.hash) then 1 else 0
  }

  lemma {:induction false} CountOne(hashes: seq<Bytes>, data: Bytes -> Bytes, b: Block)
    requires forall i, j :: 0 <= i < j < |hashes| ==> hashes[i] != hashes[j]
    ensures multiset(BlocksOf(hashes, data))[b] == if b.hash in hashes && b.data == data(b.hash) then 1 else 0
  {
    var blocks := BlocksOf(hashes, data);
    if hashes != [] {
      var n := |hashes| - 1;
      CountOne(hashes[..n], data, b);
      assert blocks == BlocksOf(hashes[..n], data) + [blocks[n]];
      assert hashes == hashes[..n] + [hashes[n]];
    }
  }

  lemma CompleteCounts(g: Graph, keyOf: KeyOf, root: Bytes, data: Bytes -> Bytes,
                       hashes: seq<Bytes>, concurrency: nat, steps: seq<Step>)
    requires forall i, j :: 0 <= i < j < |hashes| ==> hashes[i] != hashes[j]
    requires forall h :: h in hashes <==> h in g.present && Reachable(g, keyOf, root, h)
    requires concurrency >= 1 && Complete(BlocksOf(hashes, data), concurrency, steps)
    ensures var s := Run(Init(BlocksOf(hashes, data), concurrency), steps);
      Final(s) && |s.done| == |hashes| && CountsTheTree(g, keyOf, root, data, s.done)
  {
    var all := BlocksOf(hashes, data);
    CompleteRun(all, concurrency, steps);
    forall b: Block
      ensures multiset(all)[b] == if b.hash in g.present && Reachable(g, keyOf, root, b.hash) && b.data == data(b.hash) then 1 else 0
    {
      CountOne(hashes, data, b);
    }
  }

  /** `chunks` is the total that a push reports at its start, by pulling the tree; every
      complete push of what the walk yields counts exactly that many blocks, each
      reachable held block once. */
  method PushCountsThePull(g: Graph, root: Link, ghost keyOf: KeyOf, data: Bytes -> Bytes)
    returns (chunks: nat, all: seq<Block>)
    requires OneKey(g, keyOf, root)
    ensures forall concurrency: nat, steps :: concurrency >= 1 && Complete(all, concurrency, steps) ==>
      var s := Run(Init(all, concurrency), steps);
      && Final(s) && |s.done| == chunks && CountsTheTree(g, keyOf, root.hash, data, s.done)
      && Tally(s.done, Success) + Tally(s.done, Skipped) + Tally(s.done, Failed) == chunks
  {
    ghost var reached: set<Bytes>;
    chunks, reached := Pull(g, root, keyOf);
    var hashes := WalkBlocks(g, root, keyOf);
    assert Lists(hashes, reached);
    ListsSize(hashes, reached);
    all := BlocksOf(hashes, data);
    forall concurrency: nat, steps | concurrency >= 1 && Complete(all, concurrency, steps)
      ensures var s := Run(Init(all, concurrency), steps);
        && Final(s) && |s.done| == chunks && CountsTheTree(g, keyOf, root.hash, data, s.done)
        && Tally(s.done, Success) + Tally(s.done, Skipped) + Tally(s.done, Failed) == chunks
    {
      CompleteCounts(g, keyOf, root.hash, data, hashes, concurrency, steps);
      TalliesAddUp(Run(Init(all, concurrency), steps).done);
    }
  }
}
