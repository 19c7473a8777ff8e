/** The B-tree theorems about whole runs: insertions from nothing, then deletions. */
module BTreeRuns {
  import opened Wrappers
  import opened Keys
  import opened BTree
  import opened BTreeProofs

  // -------------------------------------------------------------- insertion

  ghost function Height<V>(n: Node<V>): nat {
    if IsLeaf(n) then 0 else 1 + Height(n.kids[0].val)
  }

  /** A root that insertions produce: either nothing was ever listed, or a tight tree. */
  ghost predicate WellFormed<V>(order: nat, t: Node<V>)
    requires order >= 1
  {
    t == Leaf([]) || Tight(order - 1, t, None, None, Height(t))
  }

  ghost predicate Represents<V>(t: Node<V>, m: map<Key, V>) {
    forall k :: Find(Items(t), k) == Lookup(m, k)
  }

  lemma {:induction false} TightHeight<V>(max: nat, n: Node<V>, lo: Option<Key>, hi: Option<Key>, h: nat)
    requires Tight(max, n, lo, hi, h)
    ensures h == Height(n)
    decreases n
  {
    if n.Internal? {
      assert Tight(max, n.kids[0].val, Lo(n.kids, 0, lo), Hi(n.kids, 0, hi), h - 1);
      TightHeight(max, n.kids[0].val, Lo(n.kids, 0, lo), Hi(n.kids, 0, hi), h - 1);
    }
  }

  lemma WellFormedFind<V>(order: nat, t: Node<V>, k: Key)
    requires order >= 1 && WellFormed(order, t)
    ensures Get(t, k) == Find(Items(t), k)
    ensures Sorted(Items(t))
  {
    if t != Leaf([]) {
      TightIsWeak(order - 1, t, None, None, Height(t));
      GetIsFind(t, k, None, None);
      ItemsOrdered(t, None, None);
    }
  }

  /** An entry without a name is not listed, so inserting it changes nothing. */
  lemma {:induction false} InsertUnnamed<V>(max: nat, n: Node<V>, v: V, lo: Option<Key>, hi: Option<Key>, h: nat)
    requires max >= 1 && Tight(max, n, lo, hi, h)
    ensures InsertRecursive(max, n, [], v) == Inserted(n, None)
    decreases n
  {
    if n.Internal? {
      var d := n.kids;
      var i := FindChild(d, []);
      assert Tight(max, d[i].val, Lo(d, i, lo), Hi(d, i, hi), h - 1);
      InsertUnnamed(max, d[i].val, v, Lo(d, i, lo), Hi(d, i, hi), h - 1);
      SetChild(d, i, d[i].val);
      assert d[i := Entry(d[i].key, d[i].val)] == d;
    }
  }

  /** One insertion updates the contents, and the tree stays well formed. */
  lemma InsertStep<V>(order: nat, t: Node<V>, k: Key, v: V)
    requires order >= 3 && WellFormed(order, t)
    ensures WellFormed(order, Insert(order, Some(t), k, v))
    ensures forall j :: Find(Items(Insert(order, Some(t), k, v)), j)
                        == if j == k && k != [] then Some(v) else Find(Items(t), j)
  {
    WellFormedFind(order, t, k);
    var max, r := order - 1, InsertRecursive(order - 1, t, k, v);
    if Get(t, k) != Some(v) {
      forall j { PutFind(Items(t), k, v, j); }
      if k == [] {
        if t != Leaf([]) {
          InsertUnnamed(max, t, v, None, None, Height(t));
        }
      } else if t == Leaf([]) {
        assert r.node == Leaf([Entry(k, v)]);
        LessTotal(k, k);
      } else {
        InsertGrows(max, t, k, v, None, None, Height(t));
        if r.split.None? {
          TightHeight(max, r.node, None, None, Height(t));
        } else {
          NewRoot(max, r.split.value, Height(t));
        }
      }
    }
  }

  /** A split root gains a level over its two halves. */
  lemma NewRoot<V>(max: nat, s: Split<V>, h: nat)
    requires max >= 2 && Halves(max, s, None, None, h)
    ensures var root := Internal(SetEntry(SetEntry([], s.leftFirstKey, s.left), s.rightFirstKey, s.right));
      Tight(max, root, None, None, Height(root)) && Items(root) == Items(s.left) + Items(s.right)
  {
    AddHalves([], [], TwoEntries(s)[0], TwoEntries(s)[1]);
    var d := TwoEntries(s);
    assert [] + TwoEntries(s) + [] == d;
    assert SetEntry(SetEntry([], s.leftFirstKey, s.left), s.rightFirstKey, s.right) == d by {
      var none: Dir<Node<V>> := [];
      assert none + [] + none == none;
      assert none + [d[0], d[1]] + none == d;
    }
    FlatTwo([], s, []);
    LessTotal(s.leftFirstKey, s.leftFirstKey);
    forall i | 0 <= i < 2 ensures Tight(max, d[i].val, Lo(d, i, None), Hi(d, i, None), h) {
    }
    assert TightKids(max, d, None, None, h);
    TightHeight(max, Internal(d), None, None, h + 1);
  }

  /** After any run of insertions a lookup finds the last value given to the key, the
      tree is balanced, and no node holds more than order - 1 entries. */
  lemma {:induction false} InsertRun<V>(order: nat, ops: seq<(Key, V)>)
    requires order >= 3
    ensures var root := InsertAll(order, None, ops);
      && (root.None? <==> ops == [])
      && (root.Some? ==> WellFormed(order, root.value) && Represents(root.value, Assigned(ops)))
      && forall k :: GetRoot(root, k) == Lookup(Assigned(ops), k)
  {
    var root := InsertAll(order, None, ops);
    if ops != [] {
      var n := |ops| - 1;
      var (k, v) := ops[n];
      InsertRun(order, ops[..n]);
      var before := InsertAll(order, None, ops[..n]);
      if before.Some? {
        InsertStep(order, before.value, k, v);
      } else {
        assert root.value == Leaf(SetEntry([], k, v));
        LessTotal(k, k);
      }
      forall j ensures Find(Items(root.value), j) == Lookup(Assigned(ops), j) {
        if before.Some? {
          assert Find(Items(before.value), j) == Lookup(Assigned(ops[..n]), j);
        }
      }
      forall j ensures GetRoot(root, j) == Lookup(Assigned(ops), j) {
        WellFormedFind(order, root.value, j);
      }
    }
  }

  // --------------------------------------------------------------- deletion

  lemma {:induction false} WeakWidens<V>(n: Node<V>, lo: Option<Key>, hi: Option<Key>, lo': Option<Key>, hi': Option<Key>)
    requires Weak(n, lo, hi)
    requires lo'.Some? ==> lo.Some? && Leq(lo'.value, lo.value)
    requires hi'.Some? ==> hi.Some? && Leq(hi.value, hi'.value)
    ensures Weak(n, lo', hi')
    decreases n
  {
    match n
    case Leaf(d) =>
      forall i | 0 <= i < |d| ensures Within(d[i].key, lo', hi') {
        if lo'.Some? { LeqChains(lo'.value, lo.value, d[i].key); }
        if hi'.Some? { LeqChains(d[i].key, hi.value, hi'.value); }
      }
    case Internal(d) =>
      forall i | 0 <= i < |d| ensures Weak(d[i].val, Lo(d, i, lo'), Hi(d, i, hi')) {
        LessTotal(d[i].key, d[i].key);
        if i + 1 < |d| { LessTotal(d[i + 1].key, d[i + 1].key); }
        WeakWidens(d[i].val, Lo(d, i, lo), Hi(d, i, hi), Lo(d, i, lo'), Hi(d, i, hi'));
      }
  }

  /** What one deletion below a node must return: nothing exactly when the contents
      are gone, and otherwise a sound node holding the rest. */
  ghost predicate Pruned<V>(r: Option<Node<V>>, items: Dir<V>, k: Key, lo: Option<Key>, hi: Option<Key>) {
    match r
    case None => Drop(items, k) == []
    case Some(n) => Weak(n, lo, hi) && Items(n) == Drop(items, k)
  }

  lemma DropFromLeaf<V>(d: Dir<V>, k: Key, lo: Option<Key>, hi: Option<Key>)
    requires Listing(d) && AllWithin(d, lo, hi)
    ensures Drop(d, k) != [] ==> Listing(Drop(d, k)) && AllWithin(Drop(d, k), lo, hi)
    ensures Find(d, k).None? ==> Drop(d, k) == d
  {
    DropIsRemoval(d, k);
    var p := Drop(d, k);
    if p != [] {
      assert p[0] in d;
      var j :| 0 <= j < |d| && d[j] == p[0];
      NamesInOrder(d, j);
    }
  }

  /** The bounds of the children that stay when child `i` goes: only its neighbours change. */
  lemma BoundsAfterRemoval<T>(d: Dir<T>, i: nat, j: nat, lo: Option<Key>, hi: Option<Key>)
    requires i < |d| && j < |d| - 1
    ensures var e := d[..i] + d[i + 1..];
      && e[j] == d[if j < i then j else j + 1]
      && Lo(e, j, lo) == (if j == 0 then lo else Lo(d, if j < i then j else j + 1, lo))
      && Hi(e, j, hi) == (if j + 1 == i then Hi(d, i, hi) else Hi(d, if j < i then j else j + 1, hi))
  {
  }

  lemma ListingAfterRemoval<T>(d: Dir<T>, i: nat)
    requires Listing(d) && i < |d| && |d| > 1
    ensures Listing(d[..i] + d[i + 1..])
  {
    NamesInOrder(d, 1);
    var e := d[..i] + d[i + 1..];
    forall a, b | 0 <= a < b < |e| ensures Less(e[a].key, e[b].key) {
      var a', b' := if a < i then a else a + 1, if b < i then b else b + 1;
      assert e[a] == d[a'] && e[b] == d[b'];
    }
  }

  lemma DropOne<T>(d: Dir<T>, i: nat)
    requires Sorted(d) && i < |d|
    ensures Drop(d, d[i].key) == d[..i] + d[i + 1..]
  {
    Neighbours(d, i);
    DropInside(d[..i], [d[i]], d[i + 1..], d[i].key);
    assert Drop([d[i]], d[i].key) == [];
    assert d[..i] + [] + d[i + 1..] == d[..i] + d[i + 1..];
  }

  /** Removing an emptied child: its neighbour takes over the range. */
  lemma RemoveKid<V>(d: Dir<Node<V>>, i: nat, lo: Option<Key>, hi: Option<Key>)
    requires WeakKids(d, lo, hi) && i < |d| && |d| > 1
    ensures WeakKids(d[..i] + d[i + 1..], lo, hi)
    ensures Drop(d, d[i].key) == d[..i] + d[i + 1..]
  {
    ListingAfterRemoval(d, i);
    DropOne(d, i);
    var e := d[..i] + d[i + 1..];
    forall j | 0 <= j < |e| ensures Weak(e[j].val, Lo(e, j, lo), Hi(e, j, hi)) {
      BoundsAfterRemoval(d, i, j, lo, hi);
      if j + 1 == i {
        KidHigh(d, i, lo, hi);
      } else if j == i == 0 {
        KidLow(d, lo, hi);
      } else {
        var o := if j < i then j else j + 1;
        assert Weak(d[o].val, Lo(d, o, lo), Hi(d, o, hi));
      }
    }
  }

  lemma KidLow<V>(d: Dir<Node<V>>, lo: Option<Key>, hi: Option<Key>)
    requires WeakKids(d, lo, hi) && |d| > 1
    ensures Weak(d[1].val, lo, Hi(d, 1, hi))
  {
    assert Weak(d[0].val, lo, Hi(d, 0, hi));
    assert Weak(d[1].val, Lo(d, 1, lo), Hi(d, 1, hi));
    BoundsOrdered(d[0].val, lo, Some(d[1].key));
    var h := Hi(d, 1, hi);
    if h.Some? { LessTotal(h.value, h.value); }
    WeakWidens(d[1].val, Some(d[1].key), h, lo, h);
  }

  lemma KidHigh<V>(d: Dir<Node<V>>, i: nat, lo: Option<Key>, hi: Option<Key>)
    requires WeakKids(d, lo, hi) && 0 < i < |d|
    ensures Weak(d[i - 1].val, Lo(d, i - 1, lo), Hi(d, i, hi))
  {
    assert Weak(d[i - 1].val, Lo(d, i - 1, lo), Hi(d, i - 1, hi));
    assert Weak(d[i].val, Lo(d, i, lo), Hi(d, i, hi));
    BoundsOrdered(d[i].val, Some(d[i].key), Hi(d, i, hi));
    var l := Lo(d, i - 1, lo);
    if l.Some? { LessTotal(l.value, l.value); }
    WeakWidens(d[i - 1].val, l, Some(d[i].key), l, Hi(d, i, hi));
  }

  /** A non-empty node has its bounds in order. */
  lemma BoundsOrdered<V>(n: Node<V>, lo: Option<Key>, hi: Option<Key>)
    requires Weak(n, lo, hi)
    ensures lo.Some? && hi.Some? ==> Leq(lo.value, hi.value)
  {
    ItemsOrdered(n, lo, hi);
    assert Within(Items(n)[0].key, lo, hi);
    if lo.Some? && hi.Some? {
      LeqChains(lo.value, Items(n)[0].key, hi.value);
      LessTotal(lo.value, hi.value);
    }
  }

  lemma {:induction false} DeletePrunes<V>(n: Node<V>, k: Key, lo: Option<Key>, hi: Option<Key>)
    requires Weak(n, lo, hi)
    ensures Pruned(Delete(n, k), Items(n), k, lo, hi)
    decreases n
  {
    if n.Leaf? {
      DropFromLeaf(n.items, k, lo, hi);
    } else {
      var d := n.kids;
      var i := FindChild(d, k);
      AroundChild(d, k, lo, hi);
      assert Weak(d[i].val, Lo(d, i, lo), Hi(d, i, hi));
      DeletePrunes(d[i].val, k, Lo(d, i, lo), Hi(d, i, hi));
      DropInside(Flat(d[..i]), Items(d[i].val), Flat(d[i + 1..]), k);
      DeletePrunesAt(d, i, Delete(d[i].val, k), k, lo, hi);
    }
  }

  lemma DeletePrunesAt<V>(d: Dir<Node<V>>, i: nat, r: Option<Node<V>>, k: Key, lo: Option<Key>, hi: Option<Key>)
    requires WeakKids(d, lo, hi) && i < |d| && Pruned(r, Items(d[i].val), k, Lo(d, i, lo), Hi(d, i, hi))
    requires Drop(Flat(d), k) == Flat(d[..i]) + Drop(Items(d[i].val), k) + Flat(d[i + 1..])
    ensures r.Some? ==> Pruned(Some(Internal(SetEntry(d, d[i].key, r.value))), Flat(d), k, lo, hi)
    ensures r.None? ==> var e := Drop(d, d[i].key);
      Pruned(if e == [] then None else if |e| == 1 then Some(e[0].val) else Some(Internal(e)), Flat(d), k, lo, hi)
  {
    if r.Some? {
      KidShrinks(d, i, r.value, lo, hi);
    } else {
      KidVanishes(d, i, lo, hi);
    }
  }

  lemma KidShrinks<V>(d: Dir<Node<V>>, i: nat, c: Node<V>, lo: Option<Key>, hi: Option<Key>)
    requires WeakKids(d, lo, hi) && i < |d| && Weak(c, Lo(d, i, lo), Hi(d, i, hi))
    ensures Weak(Internal(SetEntry(d, d[i].key, c)), lo, hi)
    ensures Flat(SetEntry(d, d[i].key, c)) == Flat(d[..i]) + Items(c) + Flat(d[i + 1..])
  {
    SetChild(d, i, c);
    var e := d[i := Entry(d[i].key, c)];
    forall j | 0 <= j < |e| ensures Weak(e[j].val, Lo(e, j, lo), Hi(e, j, hi)) {
      UpdateBounds(d, i, c, j, lo, hi);
    }
  }

  lemma KidVanishes<V>(d: Dir<Node<V>>, i: nat, lo: Option<Key>, hi: Option<Key>)
    requires WeakKids(d, lo, hi) && i < |d|
    ensures var e := Drop(d, d[i].key);
      && Flat(e) == Flat(d[..i]) + Flat(d[i + 1..])
      && (|e| == 1 ==> Weak(e[0].val, lo, hi) && Items(e[0].val) == Flat(e))
      && (|e| > 1 ==> Weak(Internal(e), lo, hi))
  {
    if |d| > 1 {
      RemoveKid(d, i, lo, hi);
      FlatAppend(d[..i], d[i + 1..]);
      var e := Drop(d, d[i].key);
      assert Weak(e[0].val, Lo(e, 0, lo), Hi(e, 0, hi));
    }
  }

  /** What holds of a root between deletions. */
  ghost predicate Shrunk<V>(root: Option<Node<V>>, m: map<Key, V>) {
    match root
    case None => m == map[]
    case Some(t) => Represents(t, m) && if m == map[] then t == Leaf([]) else Weak(t, None, None)
  }

  lemma EmptyContents<V>(t: Node<V>, m: map<Key, V>)
    requires Represents(t, m)
    ensures Items(t) == [] <==> m == map[]
  {
    if Items(t) == [] {
      forall j ensures j !in m {
        assert Find(Items(t), j) == Lookup(m, j);
      }
    } else {
      var e := Items(t)[0];
      assert Find(Items(t), e.key) == Lookup(m, e.key);
    }
  }

  lemma ShrunkLookup<V>(root: Option<Node<V>>, m: map<Key, V>, k: Key)
    requires Shrunk(root, m)
    ensures GetRoot(root, k) == Lookup(m, k)
  {
    if root.Some? && m != map[] {
      GetIsFind(root.value, k, None, None);
    }
  }

  lemma DeleteStep<V>(t: Node<V>, k: Key, m: map<Key, V>)
    requires Shrunk(Some(t), m)
    ensures Shrunk(Delete(t, k), m - {k})
    ensures m != map[] && m - {k} == map[] ==> Delete(t, k).None?
    ensures m == map[] ==> Delete(t, k) == Some(t)
  {
    if m == map[] {
      assert m - {k} == m;
    } else {
      ItemsOrdered(t, None, None);
      DeletePrunes(t, k, None, None);
      DropIsRemoval(Items(t), k);
      var rest := Drop(Items(t), k);
      forall j ensures Lookup(m - {k}, j) == Find(rest, j) {
        assert Find(Items(t), j) == Lookup(m, j);
      }
      EmptyContents(Leaf(rest), m - {k});
      if Delete(t, k).Some? {
        ItemsOrdered(Delete(t, k).value, None, None);
      }
    }
  }

  ghost function Without<V>(m: map<Key, V>, keys: seq<Key>): map<Key, V> {
    m - (set k | k in keys)
  }

  /** After any insertions followed by any deletions a lookup sees the map without the
      deleted keys, and the root is null exactly when the last entry has been deleted. */
  lemma {:induction false} DeleteRun<V>(order: nat, ops: seq<(Key, V)>, keys: seq<Key>)
    requires order >= 3
    ensures var root := DeleteAll(InsertAll(order, None, ops), keys);
      && Shrunk(root, Without(Assigned(ops), keys))
      && (forall k :: GetRoot(root, k) == Lookup(Without(Assigned(ops), keys), k))
      && (Assigned(ops) != map[] ==> (root.None? <==> Without(Assigned(ops), keys) == map[]))
  {
    var start := InsertAll(order, None, ops);
    var all := Assigned(ops);
    var m := Without(all, keys);
    var root := DeleteAll(start, keys);
    if keys == [] {
      assert m == all;
      StartShrunk(order, ops);
    } else {
      var n := |keys| - 1;
      DeleteRun(order, ops, keys[..n]);
      var before := DeleteAll(start, keys[..n]);
      assert forall k :: k in keys <==> k in keys[..n] || k == keys[n];
      assert m == Without(all, keys[..n]) - {keys[n]};
      if before.Some? {
        DeleteStep(before.value, keys[n], Without(all, keys[..n]));
      }
    }
    forall k ensures GetRoot(root, k) == Lookup(m, k) {
      ShrunkLookup(root, m, k);
    }
  }

  lemma StartShrunk<V>(order: nat, ops: seq<(Key, V)>)
    requires order >= 3
    ensures Shrunk(InsertAll(order, None, ops), Assigned(ops))
    ensures Assigned(ops) != map[] ==> InsertAll(order, None, ops).Some?
  {
    InsertRun(order, ops);
    if ops != [] {
      var t := InsertAll(order, None, ops).value;
      EmptyContents(t, Assigned(ops));
      if t != Leaf([]) {
        TightIsWeak(order - 1, t, None, None, Height(t));
        ItemsOrdered(t, None, None);
      }
    }
  }
}
