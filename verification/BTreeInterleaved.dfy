/**
 Insertions and deletions in any order: exactly the runs in which every lookup is right
 all along.
 */
module BTreeInterleaved {
  import opened Wrappers
  import opened Keys
  import opened BTree
  import opened BTreeProofs
  import opened BTreeRange
  import opened BTreeRuns
  import opened BTreeReinsert

  datatype Op<V> = InsertOp(key: Key, val: V) | DeleteOp(key: Key)

  function Apply<V(==)>(order: nat, root: Option<Node<V>>, op: Op<V>): Option<Node<V>>
    requires order >= 2
  {
    match op
    case InsertOp(k, v) => Some(Insert(order, root, k, v))
    case DeleteOp(k) => DeleteRoot(root, k)
  }

  function ApplyAll<V(==)>(order: nat, ops: seq<Op<V>>): Option<Node<V>>
    requires order >= 2
  {
    if ops == [] then None else Apply(order, ApplyAll(order, ops[..|ops| - 1]), ops[|ops| - 1])
  }

  /** What one operation does to the map that the tree stands for. */
  function Meant<V>(m: map<Key, V>, op: Op<V>): map<Key, V> {
    match op
    case InsertOp(k, v) => if k == [] then m else m[k := v]
    case DeleteOp(k) => m - {k}
  }

  /** The map an interleaved run stands for. */
  function Meaning<V>(ops: seq<Op<V>>): map<Key, V> {
    if ops == [] then map[] else Meant(Meaning(ops[..|ops| - 1]), ops[|ops| - 1])
  }

  /** Every lookup in the tree finds what the map holds. */
  ghost predicate Right<V>(root: Option<Node<V>>, m: map<Key, V>) {
    forall k :: GetRoot(root, k) == Lookup(m, k)
  }

  /** A deletion is always safe; an insertion is when it changes nothing or when every child
      that it splits is filed in its place. */
  ghost predicate SafeOp<V>(order: nat, root: Option<Node<V>>, op: Op<V>)
    requires order >= 2
  {
    op.InsertOp? && root.Some? ==> Get(root.value, op.key) == Some(op.val) || Safe(order - 1, root.value, op.key)
  }

  /** Operation `n` is safe in the tree that it meets. */
  ghost predicate SafeAt<V>(order: nat, ops: seq<Op<V>>, n: nat)
    requires order >= 2 && n < |ops|
  {
    SafeOp(order, ApplyAll(order, ops[..n]), ops[n])
  }

  ghost predicate AllSafe<V>(order: nat, ops: seq<Op<V>>)
    requires order >= 2
  {
    forall n :: 0 <= n < |ops| ==> SafeAt(order, ops, n)
  }

  /** Every lookup after the first `n` operations is right. */
  ghost predicate RightAfter<V>(order: nat, ops: seq<Op<V>>, n: nat)
    requires order >= 2 && n <= |ops|
  {
    Right(ApplyAll(order, ops[..n]), Meaning(ops[..n]))
  }

  ghost predicate AlwaysRight<V>(order: nat, ops: seq<Op<V>>)
    requires order >= 2
  {
    forall n :: 0 <= n <= |ops| ==> RightAfter(order, ops, n)
  }

  // -------------------------------------------------------------- one step

  lemma EmptyRootInsert<V>(order: nat, root: Option<Node<V>>, m: map<Key, V>, k: Key, v: V)
    requires order >= 3 && Shrunk(root, m) && (root.None? || root.value == Leaf([]))
    ensures Shrunk(Some(Insert(order, root, k, v)), Meant(m, InsertOp(k, v)))
  {
    if root.Some? { EmptyContents(root.value, m); }
    var u := Insert(order, root, k, v);
    assert u == Leaf(if k == [] then [] else [Entry(k, v)]);
    LessTotal(k, k);
    assert k != [] ==> k in m[k := v];
    assert m == map[];
    forall j ensures Find(Items(u), j) == Lookup(Meant(m, InsertOp(k, v)), j) {
      assert k != [] ==> Find(Items(u)[1..], j).None?;
    }
  }

  lemma SafeInsert<V>(order: nat, t: Node<V>, m: map<Key, V>, k: Key, v: V)
    requires order >= 3 && Shrunk(Some(t), m) && t != Leaf([]) && Get(t, k) != Some(v) && Safe(order - 1, t, k)
    ensures Shrunk(Some(Insert(order, Some(t), k, v)), Meant(m, InsertOp(k, v)))
  {
    var u, m' := Insert(order, Some(t), k, v), Meant(m, InsertOp(k, v));
    InsertKeepsWeak(order, t, k, v);
    forall j ensures Find(Items(u), j) == Lookup(m', j) {
      PutFind(Items(t), k, v, j);
      assert Find(Items(t), j) == Lookup(m, j);
    }
    EmptyContents(u, m');
    ItemsOrdered(u, None, None);
  }

  /** Between right trees: an operation keeps the tree sound if it is safe, and otherwise
      makes some lookup wrong. */
  lemma StepIsExact<V>(order: nat, root: Option<Node<V>>, m: map<Key, V>, op: Op<V>)
    requires order >= 3 && Shrunk(root, m)
    ensures SafeOp(order, root, op) ==> Shrunk(Apply(order, root, op), Meant(m, op))
    ensures !SafeOp(order, root, op) ==> !Right(Apply(order, root, op), Meant(m, op))
  {
    match op
    case DeleteOp(k) =>
      if root.Some? {
        DeleteStep(root.value, k, m);
      } else {
        assert m - {k} == m;
      }
    case InsertOp(k, v) =>
      if root.None? || root.value == Leaf([]) {
        EmptyRootInsert(order, root, m, k, v);
      } else {
        InsertIsExact(order, root.value, m, k, v);
      }
  }

  lemma InsertIsExact<V>(order: nat, t: Node<V>, m: map<Key, V>, k: Key, v: V)
    requires order >= 3 && Shrunk(Some(t), m) && t != Leaf([])
    ensures var op := InsertOp(k, v);
      if SafeOp(order, Some(t), op) then Shrunk(Apply(order, Some(t), op), Meant(m, op))
      else !Right(Apply(order, Some(t), op), Meant(m, op))
  {
    var u, m' := Insert(order, Some(t), k, v), Meant(m, InsertOp(k, v));
    forall j ensures Lookup(m', j) == if j == k && k != [] then Some(v) else Get(t, j) {
      ShrunkLookup(Some(t), m, j);
    }
    if Get(t, k) == Some(v) {
      ShrunkLookup(Some(t), m, k);
      assert m' == m;
    } else if Safe(order - 1, t, k) {
      SafeInsert(order, t, m, k, v);
    } else {
      InsertExact(order, t, k, v);
      var j :| Get(u, j) != if j == k && k != [] then Some(v) else Get(t, j);
      assert GetRoot(Some(u), j) != Lookup(m', j);
    }
  }

  // -------------------------------------------------------------- whole runs

  lemma ShrunkIsRight<V>(root: Option<Node<V>>, m: map<Key, V>)
    requires Shrunk(root, m)
    ensures Right(root, m)
  {
    forall k ensures GetRoot(root, k) == Lookup(m, k) {
      ShrunkLookup(root, m, k);
    }
  }

  lemma AllSafeParts<V>(order: nat, ops: seq<Op<V>>)
    requires order >= 2 && ops != []
    ensures var n := |ops| - 1;
      AllSafe(order, ops) <==> AllSafe(order, ops[..n]) && SafeOp(order, ApplyAll(order, ops[..n]), ops[n])
  {
    var n := |ops| - 1;
    forall i | 0 <= i < n ensures SafeAt(order, ops[..n], i) <==> SafeAt(order, ops, i) {
      assert ops[..n][..i] == ops[..i];
    }
    assert SafeAt(order, ops, n) <==> SafeOp(order, ApplyAll(order, ops[..n]), ops[n]);
  }

  lemma RightBefore<V>(order: nat, ops: seq<Op<V>>, n: nat, i: nat)
    requires order >= 2 && i <= n <= |ops|
    ensures RightAfter(order, ops[..n], i) <==> RightAfter(order, ops, i)
  {
    assert ops[..n][..i] == ops[..i];
  }

  lemma RightAtEnd<V>(order: nat, ops: seq<Op<V>>)
    requires order >= 2
    ensures RightAfter(order, ops, |ops|) <==> Right(ApplyAll(order, ops), Meaning(ops))
  {
    assert ops[..|ops|] == ops;
  }

  lemma AlwaysRightParts<V>(order: nat, ops: seq<Op<V>>, n: nat)
    requires order >= 2 && |ops| == n + 1
    ensures AlwaysRight(order, ops) <==> AlwaysRight(order, ops[..n]) && Right(ApplyAll(order, ops), Meaning(ops))
  {
    forall i | 0 <= i <= n ensures RightAfter(order, ops[..n], i) <==> RightAfter(order, ops, i) {
      RightBefore(order, ops, n, i);
    }
    RightAtEnd(order, ops);
  }

  /** In a run of insertions and deletions in any order, every lookup is right at every
      moment if and only if every operation is safe in the tree that it meets. */
  lemma {:induction false} InterleavedRun<V>(order: nat, ops: seq<Op<V>>)
    requires order >= 3
    ensures AlwaysRight(order, ops) <==> AllSafe(order, ops)
    ensures AllSafe(order, ops) ==> Shrunk(ApplyAll(order, ops), Meaning(ops))
  {
    if ops == [] {
      assert RightAfter(order, ops, 0);
    } else {
      var n := |ops| - 1;
      InterleavedRun(order, ops[..n]);
      AllSafeParts(order, ops);
      AlwaysRightParts(order, ops, n);
      if AllSafe(order, ops[..n]) {
        StepIsExact(order, ApplyAll(order, ops[..n]), Meaning(ops[..n]), ops[n]);
        if AllSafe(order, ops) {
          ShrunkIsRight(ApplyAll(order, ops), Meaning(ops));
        }
      }
    }
  }

  /** A range of the tree that a run leaves in which every lookup is right: it is complete
      if and only if the tree is exact for it. */
  method RangeOfRun<V>(root: Node<V>, start: Option<Key>, end: Option<Key>, ghost order: nat, ghost ops: seq<Op<V>>)
    returns (out: Dir<V>)
    requires order >= 3 && AlwaysRight(order, ops) && Some(root) == ApplyAll(order, ops)
    ensures Represents(root, Meaning(ops)) && BTreeRange.Sound(out, Items(root), start, end)
    ensures out == Select(Items(root), start, end) <==> Exact(root, start, end)
  {
    InterleavedRun(order, ops);
    out := RangeLinkTraverse(root, start, end, None, None);
  }

  // --------------------------------------------------- without deletions

  /** In an insert-built node that does not lie on the left edge, the first name is the lower
      bound and stays so. */
  lemma {:induction false} TightFiledName<V>(max: nat, n: Node<V>, k: Key, lo: Key, hi: Option<Key>, h: nat)
    requires Tight(max, n, Some(lo), hi, h) && Leq(lo, k)
    ensures FiledName(max, n, k) == lo
    decreases n
  {
    if n.Internal? {
      assert Tight(max, n.kids[0].val, Some(lo), Hi(n.kids, 0, hi), h - 1);
      TightFiledName(max, n.kids[0].val, k, lo, Hi(n.kids, 0, hi), h - 1);
    }
  }

  /** Without deletions the condition never fails: in an insert-built tree every insertion
      is safe. */
  lemma {:induction false} TightIsSafe<V>(max: nat, n: Node<V>, k: Key, lo: Option<Key>, hi: Option<Key>, h: nat)
    requires Tight(max, n, lo, hi, h)
    ensures Safe(max, n, k)
    decreases n
  {
    if n.Internal? {
      var d := n.kids;
      var i := FindChild(d, k);
      assert Tight(max, d[i].val, Lo(d, i, lo), Hi(d, i, hi), h - 1);
      TightIsSafe(max, d[i].val, k, Lo(d, i, lo), Hi(d, i, hi), h - 1);
      if i > 0 {
        KidPlaced(max, d, i, k, lo, hi, h - 1);
      }
    }
  }

  lemma KidPlaced<V>(max: nat, d: Dir<Node<V>>, i: nat, k: Key, lo: Option<Key>, hi: Option<Key>, h: nat)
    requires TightKids(max, d, lo, hi, h) && 0 < i < |d| && Leq(d[i].key, k)
    ensures Placed(d[i - 1], FiledName(max, d[i].val, k), Items(d[i].val), k)
  {
    assert Tight(max, d[i].val, Lo(d, i, lo), Hi(d, i, hi), h);
    TightFiledName(max, d[i].val, k, d[i].key, Hi(d, i, hi), h);
    OwnNamePlaced(max, d, i, k, lo, hi, h);
  }

  lemma OwnNamePlaced<V>(max: nat, d: Dir<Node<V>>, i: nat, k: Key, lo: Option<Key>, hi: Option<Key>, h: nat)
    requires TightKids(max, d, lo, hi, h) && 0 < i < |d| && Leq(d[i].key, k)
    ensures Placed(d[i - 1], d[i].key, Items(d[i].val), k)
  {
    var before, here := d[i - 1].val, d[i].val;
    assert Tight(max, before, Lo(d, i - 1, lo), Hi(d, i - 1, hi), h);
    assert Tight(max, here, Lo(d, i, lo), Hi(d, i, hi), h);
    TightIsWeak(max, before, Lo(d, i - 1, lo), Hi(d, i - 1, hi), h);
    TightIsWeak(max, here, Lo(d, i, lo), Hi(d, i, hi), h);
    ItemsOrdered(before, Lo(d, i - 1, lo), Hi(d, i - 1, hi));
    ItemsOrdered(here, Lo(d, i, lo), Hi(d, i, hi));
  }

  /** Neither does it in a whole run of insertions. */
  lemma {:induction false} InsertionsAreSafe<V>(order: nat, ops: seq<Op<V>>)
    requires order >= 3 && forall n :: 0 <= n < |ops| ==> ops[n].InsertOp?
    ensures AllSafe(order, ops)
    ensures var root := ApplyAll(order, ops); root.Some? ==> WellFormed(order, root.value)
  {
    if ops != [] {
      var n := |ops| - 1;
      InsertionsAreSafe(order, ops[..n]);
      AllSafeParts(order, ops);
      var before := ApplyAll(order, ops[..n]);
      if before.Some? {
        InsertStep(order, before.value, ops[n].key, ops[n].val);
        if before.value != Leaf([]) {
          TightIsSafe(order - 1, before.value, ops[n].key, None, None, Height(before.value));
        }
      } else {
        LessTotal(ops[n].key, ops[n].key);
      }
    }
  }
}
