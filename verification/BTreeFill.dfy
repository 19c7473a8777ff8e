/**
 How full the nodes of the B-tree are: insertions keep every node below the root at least
 half full, so the height stays logarithmic, and deletions leave no node with one child.
 */
module BTreeFill {
  import opened Wrappers
  import opened Keys
  import opened BTree
  import opened BTreeProofs
  import opened BTreeRuns

  function NodeSize<V>(n: Node<V>): nat {
    match n case Leaf(d) => |d| case Internal(d) => |d|
  }

  /** Every node below this one holds at least `min` entries. */
  ghost predicate Filled<V>(min: nat, n: Node<V>) {
    match n
    case Leaf(_) => true
    case Internal(d) => forall i :: 0 <= i < |d| ==> NodeSize(d[i].val) >= min && Filled(min, d[i].val)
  }

  ghost predicate FilledKids<V>(min: nat, d: Dir<Node<V>>) {
    forall i :: 0 <= i < |d| ==> NodeSize(d[i].val) >= min && Filled(min, d[i].val)
  }

  /** What an insertion below a node gives back: a node that is no smaller, or two halves. */
  ghost predicate FilledResult<V>(min: nat, r: Inserted<V>, size: nat) {
    match r.split
    case None => Filled(min, r.node) && NodeSize(r.node) >= size
    case Some(s) =>
      NodeSize(s.left) >= min && Filled(min, s.left) && NodeSize(s.right) >= min && Filled(min, s.right)
  }

  /** Splitting gives two halves, neither of which is too small. */
  lemma SplitFills<V>(max: nat, min: nat, d: Dir<Node<V>>)
    requires |d| > max >= 1 && 2 * min <= max + 1 && FilledKids(min, d)
    ensures FilledResult(min, Inserted(Internal(d), Some(SplitInternal(d))), 0)
  {
  }

  lemma KidFitsFills<V>(max: nat, min: nat, d: Dir<Node<V>>, k: Key, v: V, i: nat)
    requires max >= 1 && |d| <= max && Listing(d) && FilledKids(min, d) && i == FindChild(d, k)
    requires var r := InsertRecursive(max, d[i].val, k, v); r.split.None? && FilledResult(min, r, NodeSize(d[i].val))
    ensures FilledResult(min, InsertRecursive(max, Internal(d), k, v), |d|)
  {
    var r := InsertRecursive(max, d[i].val, k, v);
    SetChild(d, i, r.node);
    KidReplaced(min, d, i, r.node);
  }

  lemma KidSplitsFills<V>(max: nat, min: nat, d: Dir<Node<V>>, k: Key, v: V, i: nat)
    requires max >= 1 && 2 * min <= max + 1 && Listing(d) && FilledKids(min, d) && i == FindChild(d, k)
    requires var r := InsertRecursive(max, d[i].val, k, v); r.split.Some? && FilledResult(min, r, NodeSize(d[i].val))
    requires var s := InsertRecursive(max, d[i].val, k, v).split.value;
      && s.leftFirstKey != [] && Less(s.leftFirstKey, s.rightFirstKey)
      && AllBelow(d[..i], s.leftFirstKey) && AllAbove(s.rightFirstKey, d[i + 1..])
    ensures FilledResult(min, InsertRecursive(max, Internal(d), k, v), |d|)
  {
    var r := InsertRecursive(max, d[i].val, k, v);
    KidSplitsShape(d, i, r.node, r.split.value);
    KidHalved(min, d, i, r.split.value);
    var d' := d[..i] + TwoEntries(r.split.value) + d[i + 1..];
    if |d'| > max {
      SplitFills(max, min, d');
    }
  }

  lemma KidGrownFills<V>(max: nat, min: nat, d: Dir<Node<V>>, k: Key, v: V, i: nat, lo: Option<Key>, hi: Option<Key>, h: nat)
    requires max >= 1 && 2 * min <= max + 1 && |d| <= max && Listing(d) && FilledKids(min, d) && i == FindChild(d, k)
    requires var r := InsertRecursive(max, d[i].val, k, v);
      && FilledResult(min, r, NodeSize(d[i].val)) && Grown(max, r, d[i].val, k, v, Lo(d, i, lo), Hi(d, i, hi), h)
    ensures FilledResult(min, InsertRecursive(max, Internal(d), k, v), |d|)
  {
    var r := InsertRecursive(max, d[i].val, k, v);
    if r.split.None? {
      KidFitsFills(max, min, d, k, v, i);
    } else {
      HalvesInOrder(max, d, i, r.split.value, lo, hi, h);
      KidSplitsFills(max, min, d, k, v, i);
    }
  }

  /** The child that an insertion goes into. */
  lemma ChildHolds<V>(max: nat, d: Dir<Node<V>>, k: Key, i: nat, lo: Option<Key>, hi: Option<Key>, h: nat)
    requires TightKids(max, d, lo, hi, h) && |d| <= max && Within(k, lo, hi) && i == FindChild(d, k)
    ensures i < |d| && Tight(max, d[i].val, Lo(d, i, lo), Hi(d, i, hi), h) && Within(k, Lo(d, i, lo), Hi(d, i, hi))
  {
  }

  lemma LeafFills<V>(max: nat, min: nat, d: Dir<V>, k: Key, v: V)
    requires max >= 1 && 2 * min <= max + 1 && k != []
    ensures FilledResult(min, InsertRecursive(max, Leaf(d), k, v), |d|)
  {
    PutEntries(d, k, v);
  }

  lemma {:induction false} InsertFills<V>(max: nat, min: nat, n: Node<V>, k: Key, v: V, lo: Option<Key>, hi: Option<Key>, h: nat)
    requires max >= 1 && 2 * min <= max + 1 && k != [] && Tight(max, n, lo, hi, h) && Within(k, lo, hi) && Filled(min, n)
    ensures FilledResult(min, InsertRecursive(max, n, k, v), NodeSize(n))
    decreases n
  {
    if n.Leaf? {
      LeafFills(max, min, n.items, k, v);
    } else {
      InsertFillsBelow(max, min, n.kids, k, v, lo, hi, h - 1);
    }
  }

  lemma {:induction false} InsertFillsBelow<V>(max: nat, min: nat, d: Dir<Node<V>>, k: Key, v: V, lo: Option<Key>, hi: Option<Key>, h: nat)
    requires max >= 1 && 2 * min <= max + 1 && k != [] && TightKids(max, d, lo, hi, h) && |d| <= max && Within(k, lo, hi)
    requires FilledKids(min, d)
    ensures FilledResult(min, InsertRecursive(max, Internal(d), k, v), |d|)
    decreases d
  {
    var i := FindChild(d, k);
    ChildHolds(max, d, k, i, lo, hi, h);
    InsertFills(max, min, d[i].val, k, v, Lo(d, i, lo), Hi(d, i, hi), h);
    InsertGrows(max, d[i].val, k, v, Lo(d, i, lo), Hi(d, i, hi), h);
    KidGrownFills(max, min, d, k, v, i, lo, hi, h);
  }

  lemma KidReplaced<V>(min: nat, d: Dir<Node<V>>, i: nat, c: Node<V>)
    requires FilledKids(min, d) && i < |d| && NodeSize(c) >= min && Filled(min, c)
    ensures FilledKids(min, d[i := Entry(d[i].key, c)])
  {
  }

  lemma KidHalved<V>(min: nat, d: Dir<Node<V>>, i: nat, s: Split<V>)
    requires FilledKids(min, d) && i < |d|
    requires NodeSize(s.left) >= min && Filled(min, s.left) && NodeSize(s.right) >= min && Filled(min, s.right)
    ensures FilledKids(min, d[..i] + TwoEntries(s) + d[i + 1..])
  {
    var e := d[..i] + TwoEntries(s) + d[i + 1..];
    forall j | 0 <= j < |e| ensures NodeSize(e[j].val) >= min && Filled(min, e[j].val) {
      if j > i + 1 { assert e[j] == d[j - 1]; }
    }
  }

  /** A root that insertions leave: filled below, and with at least two children. */
  ghost predicate Rooted<V>(min: nat, t: Node<V>) {
    match t
    case Leaf(_) => true
    case Internal(d) => |d| >= 2 && FilledKids(min, d)
  }

  /** The root that an insertion's result becomes. */
  function Topped<V>(r: Inserted<V>): Node<V> {
    match r.split
    case None => r.node
    case Some(s) => Internal(SetEntry(SetEntry([], s.leftFirstKey, s.left), s.rightFirstKey, s.right))
  }

  lemma InsertTops<V>(order: nat, t: Node<V>, k: Key, v: V)
    requires order >= 3 && Get(t, k) != Some(v)
    ensures Insert(order, Some(t), k, v) == Topped(InsertRecursive(order - 1, t, k, v))
  {
  }

  lemma SameKind<V>(max: nat, t: Node<V>, k: Key, v: V)
    requires max >= 1
    ensures InsertRecursive(max, t, k, v).node.Internal? <==> !IsLeaf(t)
  {
  }

  lemma ToppedIsRooted<V>(max: nat, min: nat, t: Node<V>, r: Inserted<V>, k: Key, v: V, h: nat)
    requires Rooted(min, t) && FilledResult(min, r, NodeSize(t)) && (r.node.Internal? ==> t.Internal?)
    requires Grown(max, r, t, k, v, None, None, h)
    ensures Rooted(min, Topped(r))
  {
    if r.split.Some? {
      HalvesAreRooted(max, min, r.split.value, h);
    }
  }

  lemma HalvesAreRooted<V>(max: nat, min: nat, s: Split<V>, h: nat)
    requires Halves(max, s, None, None, h)
    requires NodeSize(s.left) >= min && Filled(min, s.left) && NodeSize(s.right) >= min && Filled(min, s.right)
    ensures Rooted(min, Internal(SetEntry(SetEntry([], s.leftFirstKey, s.left), s.rightFirstKey, s.right)))
  {
    var none, d: Dir<Node<V>> := [], TwoEntries(s);
    AddHalves(none, none, d[0], d[1]);
    assert none + none + none == none;
    assert none + [d[0], d[1]] + none == d;
    LessTotal(s.leftFirstKey, s.leftFirstKey);
  }

  lemma RootedIsFilled<V>(min: nat, t: Node<V>)
    requires Rooted(min, t)
    ensures Filled(min, t)
  {
  }

  lemma TightRootFills<V>(order: nat, t: Node<V>, k: Key, v: V, h: nat)
    requires order >= 3 && Tight(order - 1, t, None, None, h) && Rooted(order / 2, t)
    ensures Rooted(order / 2, Insert(order, Some(t), k, v))
  {
    if Get(t, k) != Some(v) {
      if k == [] {
        InsertUnnamed(order - 1, t, v, None, None, h);
      } else {
        var r := InsertRecursive(order - 1, t, k, v);
        RootedIsFilled(order / 2, t);
        InsertFills(order - 1, order / 2, t, k, v, None, None, h);
        InsertGrows(order - 1, t, k, v, None, None, h);
        SameKind(order - 1, t, k, v);
        ToppedIsRooted(order - 1, order / 2, t, r, k, v, h);
        InsertTops(order, t, k, v);
      }
    }
  }

  lemma EmptyRootFills<V>(order: nat, t: Node<V>, k: Key, v: V)
    requires order >= 3 && t == Leaf([])
    ensures Rooted(order / 2, Insert(order, Some(t), k, v))
  {
  }

  /** After any run of insertions every node below the root holds at least half of the
      order, and a root that is no leaf has at least two children. */
  lemma {:induction false} InsertRunFills<V>(order: nat, ops: seq<(Key, V)>)
    requires order >= 3 && ops != []
    ensures Rooted(order / 2, InsertAll(order, None, ops).value)
  {
    var n := |ops| - 1;
    if n > 0 {
      var before := InsertAll(order, None, ops[..n]).value;
      InsertRunFills(order, ops[..n]);
      InsertRun(order, ops[..n]);
      if before == Leaf([]) {
        EmptyRootFills(order, before, ops[n].0, ops[n].1);
      } else {
        TightRootFills(order, before, ops[n].0, ops[n].1, Height(before));
      }
    }
  }

  // ------------------------------------------------------------------ height

  function Power(base: nat, exponent: nat): nat {
    if exponent == 0 then 1 else base * Power(base, exponent - 1)
  }

  lemma {:induction false} FlatSize<V>(d: Dir<Node<V>>, size: nat)
    requires forall i :: 0 <= i < |d| ==> |Items(d[i].val)| >= size
    ensures |Flat(d)| >= |d| * size
  {
    if d != [] {
      FlatSize(d[1..], size);
      assert |d| * size == size + (|d| - 1) * size;
    }
  }

  lemma TimesAtLeast(a: nat, b: nat, c: nat)
    requires a >= b
    ensures a * c >= b * c
  {
  }

  /** A tree of height `h` whose nodes are filled holds many entries. */
  lemma {:induction false} ItemsGrow<V>(max: nat, min: nat, n: Node<V>, lo: Option<Key>, hi: Option<Key>, h: nat)
    requires Tight(max, n, lo, hi, h) && Filled(min, n)
    ensures |Items(n)| >= NodeSize(n) * Power(min, h)
    decreases n
  {
    if n.Internal? {
      var d := n.kids;
      forall i | 0 <= i < |d| ensures |Items(d[i].val)| >= Power(min, h) {
        ItemsGrow(max, min, d[i].val, Lo(d, i, lo), Hi(d, i, hi), h - 1);
        TimesAtLeast(NodeSize(d[i].val), min, Power(min, h - 1));
      }
      FlatSize(d, Power(min, h));
    }
  }

  /** The height stays logarithmic: a tree of insertions that is `h` levels high above its
      leaves, all of them at that depth, holds at least 2 * (order / 2)^h entries. */
  lemma HeightIsLogarithmic<V>(order: nat, ops: seq<(Key, V)>)
    requires order >= 3 && ops != []
    ensures var t := InsertAll(order, None, ops).value; t.Internal? ==> |Items(t)| >= 2 * Power(order / 2, Height(t))
  {
    InsertRunFills(order, ops);
    InsertRun(order, ops);
    var t := InsertAll(order, None, ops).value;
    if t.Internal? {
      ItemsGrow(order - 1, order / 2, t, None, None, Height(t));
      TimesAtLeast(|t.kids|, 2, Power(order / 2, Height(t)));
    }
  }

  // --------------------------------------------------------------- deletion

  /** No node has a single child. */
  ghost predicate Branching<V>(n: Node<V>) {
    match n
    case Leaf(_) => true
    case Internal(d) => |d| >= 2 && forall i :: 0 <= i < |d| ==> Branching(d[i].val)
  }

  /** A deletion leaves no node with a single child where there was none: such a node gives
      way to its child. */
  lemma {:induction false} DeleteBranches<V>(n: Node<V>, k: Key, lo: Option<Key>, hi: Option<Key>)
    requires Weak(n, lo, hi) && Branching(n)
    ensures Delete(n, k).Some? ==> Branching(Delete(n, k).value)
    decreases n
  {
    if n.Internal? {
      var d := n.kids;
      var i := FindChild(d, k);
      assert Weak(d[i].val, Lo(d, i, lo), Hi(d, i, hi));
      DeleteBranches(d[i].val, k, Lo(d, i, lo), Hi(d, i, hi));
      var r := Delete(d[i].val, k);
      if r.None? {
        DropOne(d, i);
        RestBranches(d, i);
      } else {
        SetChild(d, i, r.value);
      }
    }
  }

  lemma RestBranches<V>(d: Dir<Node<V>>, i: nat)
    requires i < |d| && forall j :: 0 <= j < |d| ==> Branching(d[j].val)
    ensures var e := d[..i] + d[i + 1..]; forall j :: 0 <= j < |e| ==> Branching(e[j].val)
  {
    var e := d[..i] + d[i + 1..];
    forall j | 0 <= j < |e| ensures Branching(e[j].val) {
      assert e[j] == d[if j < i then j else j + 1];
    }
  }

  lemma {:induction false} FilledBranches<V>(min: nat, n: Node<V>)
    requires min >= 2 && Rooted(min, n)
    ensures Branching(n)
    decreases n
  {
    if n.Internal? {
      forall i | 0 <= i < |n.kids| ensures Branching(n.kids[i].val) {
        FilledBranches(min, n.kids[i].val);
      }
    }
  }

  /** After any insertions and then any deletions, from order 4 on, no node has a single
      child. */
  lemma {:induction false} DeleteRunBranches<V>(order: nat, ops: seq<(Key, V)>, keys: seq<Key>)
    requires order >= 4 && ops != []
    ensures var root := DeleteAll(InsertAll(order, None, ops), keys); root.Some? ==> Branching(root.value)
  {
    var root := InsertAll(order, None, ops);
    if keys == [] {
      InsertRunFills(order, ops);
      FilledBranches(order / 2, root.value);
    } else {
      var n := |keys| - 1;
      DeleteRunBranches(order, ops, keys[..n]);
      var before := DeleteAll(root, keys[..n]);
      DeleteRun(order, ops, keys[..n]);
      if before.Some? && before.value.Internal? {
        DeleteBranches(before.value, keys[n], None, None);
      }
    }
  }
}
