/**
 Where insertion and deletion stop composing. A child that splits gives up its name in
 its parent: its left half is filed under the first name stored in it, which deletions
 and earlier insertions may have moved away from its contents. `InsertExact` says, for
 every tree with bounded names, exactly when the next insertion keeps all lookups right;
 `InterleavedRun` carries that over to the trees that runs leave.
 */
module BTreeReinsert {
  import opened Wrappers
  import opened Keys
  import opened BTree
  import opened BTreeProofs
  import opened BTreeRuns

  // ---------------------------------- the condition, before the insertion

  /** Whether inserting `k` makes a node split: the nodes on the way down are full. */
  predicate Splits<V>(max: nat, n: Node<V>, k: Key) {
    if IsLeaf(n) then |LeafItems(n)| + (if k != [] && Find(LeafItems(n), k).None? then 1 else 0) > max
    else |n.kids| + (if Splits(max, n.kids[FindChild(n.kids, k)].val, k) then 1 else 0) > max
  }

  /** The name under which the left half will be filed if the node splits: the first one
      stored in it, which only a split on its left edge changes. */
  function FiledName<V>(max: nat, n: Node<V>, k: Key): Key {
    if IsLeaf(n) then
      if LeafItems(n) == [] || (k != [] && Less(k, First(n))) then k else First(n)
    else
      var i := FindChild(n.kids, k);
      if i == 0 && Splits(max, n.kids[0].val, k) then FiledName(max, n.kids[0].val, k) else First(n)
  }

  /** The name fits between the sibling before and the contents of the child: it is above
      the sibling's own name and all its keys, and not above any key of the child. */
  ghost predicate Placed<V>(sibling: Entry<Node<V>>, name: Key, items: Dir<V>, k: Key) {
    && Less(sibling.key, name) && AllBelow(Items(sibling.val), name)
    && Leq(name, k) && forall x :: 0 <= x < |items| ==> Leq(name, items[x].key)
  }

  /** Every child on the way down that will split and is not the first of its node will be
      filed in its place. */
  ghost predicate Safe<V>(max: nat, n: Node<V>, k: Key) {
    IsLeaf(n) ||
    (var i := FindChild(n.kids, k);
     var c := n.kids[i].val;
     && Safe(max, c, k)
     && (i > 0 && Splits(max, c, k) ==> Placed(n.kids[i - 1], FiledName(max, c, k), Items(c), k)))
  }

  // ------------------------------------------------------ routing of lookups

  lemma FindChildIs<T>(d: Dir<T>, j: Key, i: nat)
    requires Sorted(d) && i < |d|
    requires i > 0 ==> Leq(d[i].key, j)
    requires i + 1 < |d| ==> Less(j, d[i + 1].key)
    ensures FindChild(d, j) == i
  {
    var r := FindChild(d, j);
    if r < i {
      LessTotal(d[r + 1].key, d[i].key);
      LeqChains(d[r + 1].key, d[i].key, j);
    } else if r > i {
      LessTotal(d[i + 1].key, d[r].key);
      LeqChains(d[i + 1].key, d[r].key, j);
    }
  }

  /** A lookup in what an insertion returned: a split is searched by its right name. */
  ghost function GetInserted<V>(r: Inserted<V>, j: Key): Option<V> {
    match r.split
    case None => Get(r.node, j)
    case Some(s) => if Less(j, s.rightFirstKey) then Get(s.left, j) else Get(s.right, j)
  }

  lemma SplitKeepsRouting<V>(d: Dir<Node<V>>, j: Key)
    requires Sorted(d) && |d| >= 2
    ensures GetInserted(Inserted(Internal(d), Some(SplitInternal(d))), j) == Get(Internal(d), j)
  {
    var mid, i := |d| / 2, FindChild(d, j);
    if i < mid {
      if i + 1 < mid { LessTotal(d[i + 1].key, d[mid].key); }
      LeqChains(j, d[i + 1].key, d[mid].key);
      LessTotal(d[i + 1].key, d[mid].key);
      FindChildIs(d[..mid], j, i);
      assert Less(j, d[mid].key) by {
        if i + 1 < mid { LessTransitive(j, d[i + 1].key, d[mid].key); }
      }
    } else {
      LessTotal(d[mid].key, d[i].key);
      LeqChains(d[mid].key, d[i].key, j);
      FindChildIs(d[mid..], j, i - mid);
    }
  }

  // ---------------------------------------------- a safe insertion is sound

  /** What one sound insertion returns: the right contents, within the bounds. */
  ghost predicate Sound<V>(r: Inserted<V>, items: Dir<V>, k: Key, v: V, lo: Option<Key>, hi: Option<Key>) {
    match r.split
    case None => Items(r.node) == SetEntry(items, k, v) && Weak(r.node, lo, hi)
    case Some(s) =>
      && Items(s.left) + Items(s.right) == SetEntry(items, k, v)
      && s.leftFirstKey != [] && Less(s.leftFirstKey, s.rightFirstKey)
      && Weak(s.left, lo, Some(s.rightFirstKey)) && Weak(s.right, Some(s.rightFirstKey), hi)
  }

  lemma {:induction false} WeakNarrows<V>(n: Node<V>, lo: Option<Key>, hi: Option<Key>, x: Key)
    requires Weak(n, lo, hi) && Items(n) != [] && Leq(x, Items(n)[0].key)
    ensures Weak(n, Some(x), hi)
    decreases n
  {
    match n
    case Leaf(d) =>
      forall i | 0 <= i < |d| ensures Within(d[i].key, Some(x), hi) {
        if i > 0 {
          LeqChains(x, d[0].key, d[i].key);
          LessTotal(x, d[i].key);
        }
      }
    case Internal(d) =>
      assert Weak(d[0].val, lo, Hi(d, 0, hi));
      ItemsOrdered(d[0].val, lo, Hi(d, 0, hi));
      WeakNarrows(d[0].val, lo, Hi(d, 0, hi), x);
      forall i | 0 <= i < |d| ensures Weak(d[i].val, Lo(d, i, Some(x)), Hi(d, i, hi)) {
        assert Weak(d[i].val, Lo(d, i, lo), Hi(d, i, hi));
      }
  }

  lemma LastKidBelow<V>(d: Dir<Node<V>>, x: Key)
    requires d != [] && AllBelow(Flat(d), x)
    ensures AllBelow(Items(d[|d| - 1].val), x)
  {
    var m := |d| - 1;
    FlatAround(d, m);
    MiddleBelow(Flat(d[..m]), Items(d[m].val), Flat(d[m + 1..]), x);
  }

  lemma MiddleBelow<T>(a: Dir<T>, m: Dir<T>, b: Dir<T>, x: Key)
    requires AllBelow(a + m + b, x)
    ensures AllBelow(m, x)
  {
    forall i | 0 <= i < |m| ensures Less(m[i].key, x) {
      assert (a + m + b)[|a| + i] == m[i];
    }
  }

  /** A node whose contents are all below a key keeps that key as its bound. */
  lemma {:induction false} WeakTrims<V>(n: Node<V>, lo: Option<Key>, hi: Option<Key>, x: Key)
    requires Weak(n, lo, hi) && AllBelow(Items(n), x)
    ensures Weak(n, lo, Some(x))
    decreases n
  {
    match n
    case Leaf(d) =>
      forall i | 0 <= i < |d| ensures Within(d[i].key, lo, Some(x)) {
        assert Less(Items(n)[i].key, x);
      }
    case Internal(d) =>
      var m := |d| - 1;
      LastKidBelow(d, x);
      assert Weak(d[m].val, Lo(d, m, lo), Hi(d, m, hi));
      WeakTrims(d[m].val, Lo(d, m, lo), Hi(d, m, hi), x);
      forall i | 0 <= i < |d| ensures Weak(d[i].val, Lo(d, i, lo), Hi(d, i, Some(x))) {
        assert Weak(d[i].val, Lo(d, i, lo), Hi(d, i, hi));
      }
  }

  lemma {:induction false} PutSize<T>(d: Dir<T>, k: Key, x: T)
    requires Sorted(d)
    ensures |Put(d, k, x)| == |d| + if Find(d, k).None? then 1 else 0
    ensures Put(d, k, x)[0].key == if d == [] || Less(k, d[0].key) then k else d[0].key
  {
    if d != [] {
      LessTotal(k, d[0].key);
      if Less(k, d[0].key) {
        forall i | 0 <= i < |d| ensures Less(k, d[i].key) {
          if i > 0 { LessTransitive(k, d[0].key, d[i].key); }
        }
        Elsewhere(d, k);
      } else if d[0].key != k {
        PutSize(d[1..], k, x);
      }
    }
  }

  lemma SoundLeaf<V>(max: nat, d: Dir<V>, k: Key, v: V, lo: Option<Key>, hi: Option<Key>)
    requires max >= 1 && Listing(d) && AllWithin(d, lo, hi) && Within(k, lo, hi)
    ensures Sound(InsertRecursive(max, Leaf(d), k, v), d, k, v, lo, hi)
    ensures Reports(max, Leaf(d), k, InsertRecursive(max, Leaf(d), k, v))
  {
    if k != [] {
      PutListing(d, k, v, lo, hi);
      PutSize(d, k, v);
    }
    if |SetEntry(d, k, v)| > max {
      CutLeaf(SetEntry(d, k, v), lo, hi);
    }
  }

  lemma CutLeaf<V>(p: Dir<V>, lo: Option<Key>, hi: Option<Key>)
    requires |p| >= 2 && Listing(p) && AllWithin(p, lo, hi)
    ensures var s := SplitLeaf(p);
      && Items(s.left) + Items(s.right) == p && s.leftFirstKey == p[0].key && Less(s.leftFirstKey, s.rightFirstKey)
      && Weak(s.left, lo, Some(s.rightFirstKey)) && Weak(s.right, Some(s.rightFirstKey), hi)
  {
    var mid := |p| / 2;
    NamesInOrder(p, mid);
    assert p[..mid] + p[mid..] == p;
    forall i | mid <= i < |p| ensures Leq(p[mid].key, p[i].key) {
      LessTotal(p[mid].key, p[i].key);
    }
  }

  lemma SetInside<V>(a: Dir<V>, m: Dir<V>, b: Dir<V>, k: Key, v: V)
    requires AllBelow(a, k) && AllAbove(k, b)
    ensures SetEntry(a + m + b, k, v) == a + SetEntry(m, k, v) + b
  {
    PutInside(a, m, b, k, v);
  }

  lemma PutListing<T>(d: Dir<T>, k: Key, x: T, lo: Option<Key>, hi: Option<Key>)
    requires k != [] && Listing(d) && AllWithin(d, lo, hi) && Within(k, lo, hi)
    ensures Listing(Put(d, k, x)) && AllWithin(Put(d, k, x), lo, hi)
  {
    var p := Put(d, k, x);
    PutOrdered(d, k, x);
    PutEntries(d, k, x);
    forall i | 0 <= i < |p| ensures Within(p[i].key, lo, hi) {
      assert p[i] in p;
    }
  }

  /** The entries of an internal node once its child `i` has been inserted into. */
  ghost function Updated<V>(d: Dir<Node<V>>, i: nat, r: Inserted<V>): Dir<Node<V>>
    requires i < |d|
  {
    var d1 := SetEntry(d, d[i].key, r.node);
    match r.split
    case None => d1
    case Some(s) => SetEntry(SetEntry(Drop(d1, d[i].key), s.leftFirstKey, s.left), s.rightFirstKey, s.right)
  }

  /** The internal node after its child has changed: overfull or not. */
  ghost function Rebuilt<V>(max: nat, d: Dir<Node<V>>): Inserted<V>
    requires max >= 1
  {
    Inserted(Internal(d), if |d| > max then Some(SplitInternal(d)) else None)
  }

  /** The prediction is right: whether the node splits, and under which name. */
  ghost predicate Reports<V>(max: nat, n: Node<V>, k: Key, r: Inserted<V>) {
    && (r.split.Some? <==> Splits(max, n, k))
    && (r.split.Some? ==> r.split.value.leftFirstKey == FiledName(max, n, k))
  }

  lemma {:induction false} InsertSound<V>(max: nat, n: Node<V>, k: Key, v: V, lo: Option<Key>, hi: Option<Key>)
    requires max >= 1 && Weak(n, lo, hi) && Within(k, lo, hi) && Safe(max, n, k)
    ensures Sound(InsertRecursive(max, n, k, v), Items(n), k, v, lo, hi)
    ensures Reports(max, n, k, InsertRecursive(max, n, k, v))
    decreases n
  {
    match n
    case Leaf(d) =>
      SoundLeaf(max, d, k, v, lo, hi);
    case Internal(d) =>
      var i := FindChild(d, k);
      var c := d[i].val;
      AroundChild(d, k, lo, hi);
      assert Weak(c, Lo(d, i, lo), Hi(d, i, hi));
      InsertSound(max, c, k, v, Lo(d, i, lo), Hi(d, i, hi));
      SetInside(Flat(d[..i]), Items(c), Flat(d[i + 1..]), k, v);
      SoundAtChild(max, d, i, InsertRecursive(max, c, k, v), k, v, lo, hi);
  }

  lemma SoundAtChild<V>(max: nat, d: Dir<Node<V>>, i: nat, r: Inserted<V>, k: Key, v: V, lo: Option<Key>, hi: Option<Key>)
    requires max >= 1 && WeakKids(d, lo, hi) && i < |d|
    requires Sound(r, Items(d[i].val), k, v, Lo(d, i, lo), Hi(d, i, hi))
    requires SetEntry(Flat(d), k, v) == Flat(d[..i]) + SetEntry(Items(d[i].val), k, v) + Flat(d[i + 1..])
    requires i > 0 && r.split.Some? ==> Placed(d[i - 1], r.split.value.leftFirstKey, Items(d[i].val), k)
    ensures Sound(Rebuilt(max, Updated(d, i, r)), Flat(d), k, v, lo, hi)
    ensures |Updated(d, i, r)| == |d| + if r.split.Some? then 1 else 0
    ensures Updated(d, i, r)[0].key == if i == 0 && r.split.Some? then r.split.value.leftFirstKey else d[0].key
  {
    if r.split.None? {
      SetChild(d, i, r.node);
      KidShrinks(d, i, r.node, lo, hi);
    } else {
      SoundSplit(d, i, r.node, r.split.value, k, v, lo, hi);
    }
    SoundRebuilt(max, Updated(d, i, r), lo, hi);
  }

  lemma SoundRebuilt<V>(max: nat, d: Dir<Node<V>>, lo: Option<Key>, hi: Option<Key>)
    requires max >= 1 && WeakKids(d, lo, hi)
    ensures var r := Rebuilt(max, d);
      && (r.split.None? ==> Items(r.node) == Flat(d) && Weak(r.node, lo, hi))
      && (r.split.Some? ==> var s := r.split.value;
          && Items(s.left) + Items(s.right) == Flat(d)
          && s.leftFirstKey != [] && Less(s.leftFirstKey, s.rightFirstKey)
          && Weak(s.left, lo, Some(s.rightFirstKey)) && Weak(s.right, Some(s.rightFirstKey), hi))
  {
    if |d| > max {
      SoundHalves(d, |d| / 2, lo, hi);
    }
  }

  lemma SoundHalves<V>(d: Dir<Node<V>>, mid: nat, lo: Option<Key>, hi: Option<Key>)
    requires WeakKids(d, lo, hi) && 0 < mid < |d|
    ensures Flat(d[..mid]) + Flat(d[mid..]) == Flat(d)
    ensures WeakKids(d[..mid], lo, Some(d[mid].key)) && WeakKids(d[mid..], Some(d[mid].key), hi)
    ensures Weak(Internal(d[..mid]), lo, Some(d[mid].key)) && Weak(Internal(d[mid..]), Some(d[mid].key), hi)
    ensures d[0].key != [] && Less(d[0].key, d[mid].key)
  {
    FlatHalves(d, mid);
    WeakPrefix(d, mid, lo, hi);
    WeakSuffix(d, mid, lo, hi);
  }

  lemma SoundSplit<V>(d: Dir<Node<V>>, i: nat, x: Node<V>, s: Split<V>, k: Key, v: V, lo: Option<Key>, hi: Option<Key>)
    requires WeakKids(d, lo, hi) && i < |d|
    requires Sound(Inserted(x, Some(s)), Items(d[i].val), k, v, Lo(d, i, lo), Hi(d, i, hi))
    requires i > 0 ==> Placed(d[i - 1], s.leftFirstKey, Items(d[i].val), k)
    ensures var d' := d[..i] + TwoEntries(s) + d[i + 1..];
      && Updated(d, i, Inserted(x, Some(s))) == d'
      && Flat(d') == Flat(d[..i]) + (Items(s.left) + Items(s.right)) + Flat(d[i + 1..])
      && WeakKids(d', lo, hi)
  {
    SplitPlaces(d, i, s, lo, hi);
    KidSplitsShape(d, i, x, s);
    FlatTwo(d[..i], s, d[i + 1..]);
    SplitChildOrder(d, i, TwoEntries(s)[0], TwoEntries(s)[1]);
    if i > 0 {
      LeftHalfFrom(s, Items(d[i].val), k, v, Lo(d, i, lo), Hi(d, i, hi));
    }
    SplitKids(d, i, s, lo, hi);
  }

  /** The two names keep the order of the directory. */
  lemma SplitPlaces<V>(d: Dir<Node<V>>, i: nat, s: Split<V>, lo: Option<Key>, hi: Option<Key>)
    requires Listing(d) && i < |d| && (i > 0 ==> Less(d[i - 1].key, s.leftFirstKey))
    requires Weak(s.right, Some(s.rightFirstKey), Hi(d, i, hi))
    ensures AllBelow(d[..i], s.leftFirstKey) && AllAbove(s.rightFirstKey, d[i + 1..])
  {
    forall j | 0 <= j < i ensures Less(d[j].key, s.leftFirstKey) {
      if j < i - 1 { LessTransitive(d[j].key, d[i - 1].key, s.leftFirstKey); }
    }
    RightNameBelow(s, Some(s.rightFirstKey), Hi(d, i, hi));
    forall j | i + 1 <= j < |d| ensures Less(s.rightFirstKey, d[j].key) {
      if j > i + 1 { LessTransitive(s.rightFirstKey, d[i + 1].key, d[j].key); }
    }
  }

  lemma RightNameBelow<V>(s: Split<V>, lo: Option<Key>, hi: Option<Key>)
    requires Weak(s.right, lo, hi) && lo == Some(s.rightFirstKey)
    ensures hi.Some? ==> Less(s.rightFirstKey, hi.value)
  {
    ItemsOrdered(s.right, lo, hi);
    assert Within(Items(s.right)[0].key, lo, hi);
    if hi.Some? { LeqChains(s.rightFirstKey, Items(s.right)[0].key, hi.value); }
  }

  /** The keys of the left half are old ones or the new one. */
  lemma LeftHalfFrom<V>(s: Split<V>, items: Dir<V>, k: Key, v: V, lo: Option<Key>, hi: Option<Key>)
    requires Items(s.left) + Items(s.right) == SetEntry(items, k, v) && Weak(s.left, lo, Some(s.rightFirstKey))
    requires Leq(s.leftFirstKey, k) && forall x :: 0 <= x < |items| ==> Leq(s.leftFirstKey, items[x].key)
    ensures Items(s.left) != [] && Leq(s.leftFirstKey, Items(s.left)[0].key)
  {
    ItemsOrdered(s.left, lo, Some(s.rightFirstKey));
    PutEntries(items, k, v);
    var e := Items(s.left)[0];
    assert e == SetEntry(items, k, v)[0];
    assert e in SetEntry(items, k, v);
    assert e == Entry(k, v) || e in items;
  }

  lemma SplitKids<V>(d: Dir<Node<V>>, i: nat, s: Split<V>, lo: Option<Key>, hi: Option<Key>)
    requires WeakKids(d, lo, hi) && i < |d|
    requires Weak(s.left, Lo(d, i, lo), Some(s.rightFirstKey)) && Weak(s.right, Some(s.rightFirstKey), Hi(d, i, hi))
    requires i > 0 ==> Items(s.left) != [] && Leq(s.leftFirstKey, Items(s.left)[0].key)
    requires i > 0 ==> AllBelow(Items(d[i - 1].val), s.leftFirstKey)
    ensures var d' := d[..i] + TwoEntries(s) + d[i + 1..];
      forall j :: 0 <= j < |d'| ==> Weak(d'[j].val, Lo(d', j, lo), Hi(d', j, hi))
  {
    var d' := d[..i] + TwoEntries(s) + d[i + 1..];
    if i > 0 {
      WeakNarrows(s.left, Lo(d, i, lo), Some(s.rightFirstKey), s.leftFirstKey);
      assert Weak(d[i - 1].val, Lo(d, i - 1, lo), Hi(d, i - 1, hi));
      WeakTrims(d[i - 1].val, Lo(d, i - 1, lo), Hi(d, i - 1, hi), s.leftFirstKey);
    }
    forall j | 0 <= j < |d'| ensures Weak(d'[j].val, Lo(d', j, lo), Hi(d', j, hi)) {
      SplitBounds(d, i, s, j, lo, hi);
    }
  }

  // ------------------------------------------- an unsafe insertion hides a key

  lemma {:induction false} PutHas<T>(d: Dir<T>, k: Key, x: T, e: Entry<T>)
    ensures Entry(k, x) in Put(d, k, x)
    ensures e in d && e.key != k ==> e in Put(d, k, x)
  {
    if d != [] {
      PutHas(d[1..], k, x, e);
    }
  }

  /** The directory after a split, wherever its two names have landed: the halves are in it,
      every other entry is an old one, and an old one is missing only under a new name. */
  ghost predicate Rearranged<V>(d': Dir<Node<V>>, d: Dir<Node<V>>, i: nat, s: Split<V>)
    requires i < |d|
  {
    && Listing(d') && TwoEntries(s)[0] in d' && TwoEntries(s)[1] in d'
    && (forall m :: 0 <= m < |d'| ==> d'[m] in TwoEntries(s) || OldEntry(d, i, d'[m]))
    && (forall q :: 0 <= q < |d| && q != i && d[q].key != s.leftFirstKey && d[q].key != s.rightFirstKey ==> d[q] in d')
    && (forall m :: 0 <= m < |d'| && d'[m].key == s.leftFirstKey ==> d'[m] == TwoEntries(s)[0])
  }

  ghost predicate OldEntry<V>(d: Dir<Node<V>>, i: nat, e: Entry<Node<V>>) {
    exists q :: 0 <= q < |d| && q != i && d[q] == e
  }

  lemma UpdatedIs<V>(d: Dir<Node<V>>, i: nat, x: Node<V>, s: Split<V>)
    requires Listing(d) && i < |d| && s.leftFirstKey != [] && s.rightFirstKey != []
    ensures Updated(d, i, Inserted(x, Some(s)))
         == Put(Put(d[..i] + d[i + 1..], s.leftFirstKey, s.left), s.rightFirstKey, s.right)
    ensures Sorted(d[..i] + d[i + 1..])
  {
    SetChild(d, i, x);
    var d1 := d[i := Entry(d[i].key, x)];
    DropOne(d1, i);
    DropOrdered(d1, d[i].key);
    assert d1[..i] + d1[i + 1..] == d[..i] + d[i + 1..];
  }

  lemma HalvesAreIn<V>(e: Dir<Node<V>>, s: Split<V>)
    requires Sorted(e) && Less(s.leftFirstKey, s.rightFirstKey)
    ensures var g := Put(Put(e, s.leftFirstKey, s.left), s.rightFirstKey, s.right);
      Sorted(g) && g != [] && TwoEntries(s)[0] in g && TwoEntries(s)[1] in g
  {
    var f := Put(e, s.leftFirstKey, s.left);
    PutOrdered(e, s.leftFirstKey, s.left);
    PutOrdered(f, s.rightFirstKey, s.right);
    PutEntries(f, s.rightFirstKey, s.right);
    PutHas(e, s.leftFirstKey, s.left, TwoEntries(s)[0]);
    PutHas(f, s.rightFirstKey, s.right, TwoEntries(s)[0]);
    LessTotal(s.leftFirstKey, s.rightFirstKey);
  }

  lemma OldStays<V>(d: Dir<Node<V>>, i: nat, s: Split<V>, q: nat)
    requires i < |d| && q < |d| && q != i && d[q].key != s.leftFirstKey && d[q].key != s.rightFirstKey
    ensures d[q] in Put(Put(d[..i] + d[i + 1..], s.leftFirstKey, s.left), s.rightFirstKey, s.right)
  {
    var e := d[..i] + d[i + 1..];
    assert d[q] == if q < i then e[q] else e[q - 1];
    PutHas(e, s.leftFirstKey, s.left, d[q]);
    PutHas(Put(e, s.leftFirstKey, s.left), s.rightFirstKey, s.right, d[q]);
  }

  lemma SplitRearranges<V>(d: Dir<Node<V>>, i: nat, x: Node<V>, s: Split<V>)
    requires Listing(d) && i < |d| && s.leftFirstKey != [] && Less(s.leftFirstKey, s.rightFirstKey)
    ensures Rearranged(Updated(d, i, Inserted(x, Some(s))), d, i, s)
  {
    UpdatedIs(d, i, x, s);
    var e := d[..i] + d[i + 1..];
    var g := Put(Put(e, s.leftFirstKey, s.left), s.rightFirstKey, s.right);
    HalvesAreIn(e, s);
    forall m | 0 <= m < |g| ensures g[m].key != [] && (g[m] in TwoEntries(s) || OldEntry(d, i, g[m])) {
      OriginOf(d, i, s, e, Put(e, s.leftFirstKey, s.left), g[m]);
    }
    forall q | 0 <= q < |d| && q != i && d[q].key != s.leftFirstKey && d[q].key != s.rightFirstKey ensures d[q] in g {
      OldStays(d, i, s, q);
    }
    OneOfName(g, TwoEntries(s)[0]);
  }

  lemma OneOfName<T>(d: Dir<T>, e: Entry<T>)
    requires Sorted(d) && e in d
    ensures forall m :: 0 <= m < |d| && d[m].key == e.key ==> d[m] == e
  {
    var p :| 0 <= p < |d| && d[p] == e;
    forall m | 0 <= m < |d| && m != p ensures d[m].key != e.key {
      LessTotal(e.key, e.key);
      if m < p { assert Less(d[m].key, d[p].key); } else { assert Less(d[p].key, d[m].key); }
    }
  }

  lemma OriginOf<V>(d: Dir<Node<V>>, i: nat, s: Split<V>, e: Dir<Node<V>>, f: Dir<Node<V>>, x: Entry<Node<V>>)
    requires Listing(d) && i < |d| && e == d[..i] + d[i + 1..]
    requires s.leftFirstKey != [] && s.rightFirstKey != []
    requires f == Put(e, s.leftFirstKey, s.left) && x in Put(f, s.rightFirstKey, s.right)
    ensures x.key != [] && (x in TwoEntries(s) || OldEntry(d, i, x))
  {
    PutEntries(e, s.leftFirstKey, s.left);
    PutEntries(f, s.rightFirstKey, s.right);
    if x !in TwoEntries(s) {
      var j :| 0 <= j < |e| && e[j] == x;
      var q := if j < i then j else j + 1;
      assert d[q] == x;
      NamesInOrder(d, q);
    }
  }

  lemma NotBefore<V>(d: Dir<Node<V>>, i: nat, q: nat, j: Key, lo: Option<Key>, hi: Option<Key>)
    requires WeakKids(d, lo, hi) && q < i < |d| && Leq(d[i].key, j)
    ensures AllBelow(Items(d[q].val), j)
  {
    var items := Items(d[q].val);
    assert Weak(d[q].val, Lo(d, q, lo), Hi(d, q, hi));
    ItemsOrdered(d[q].val, Lo(d, q, lo), Hi(d, q, hi));
    LessTotal(d[q + 1].key, d[i].key);
    forall x | 0 <= x < |items| ensures Less(items[x].key, j) {
      LeqChains(items[x].key, d[q + 1].key, d[i].key);
      LeqChains(items[x].key, d[i].key, j);
    }
  }

  lemma NotAfter<V>(d: Dir<Node<V>>, i: nat, q: nat, j: Key, lo: Option<Key>, hi: Option<Key>)
    requires WeakKids(d, lo, hi) && i < q < |d| && Less(j, d[i + 1].key)
    ensures AllAbove(j, Items(d[q].val))
  {
    var items := Items(d[q].val);
    assert Weak(d[q].val, Lo(d, q, lo), Hi(d, q, hi));
    ItemsOrdered(d[q].val, Lo(d, q, lo), Hi(d, q, hi));
    LessTotal(d[i + 1].key, d[q].key);
    LeqChains(j, d[i + 1].key, d[q].key);
    forall x | 0 <= x < |items| ensures Less(j, items[x].key) {
      LeqChains(j, d[q].key, items[x].key);
    }
  }

  /** A key within the bounds of child `i` is in no other child. */
  lemma NotInSibling<V>(d: Dir<Node<V>>, i: nat, q: nat, j: Key, lo: Option<Key>, hi: Option<Key>)
    requires WeakKids(d, lo, hi) && i < |d| && q < |d| && q != i && Within(j, Lo(d, i, lo), Hi(d, i, hi))
    ensures Get(d[q].val, j).None?
  {
    assert Weak(d[q].val, Lo(d, q, lo), Hi(d, q, hi));
    GetIsFind(d[q].val, j, Lo(d, q, lo), Hi(d, q, hi));
    if q < i {
      NotBefore(d, i, q, j, lo, hi);
    } else {
      NotAfter(d, i, q, j, lo, hi);
    }
    Elsewhere(Items(d[q].val), j);
  }

  /** Where a lookup in the rearranged directory goes. */
  lemma GoesTo<V>(d': Dir<Node<V>>, d: Dir<Node<V>>, i: nat, s: Split<V>, j: Key) returns (e: Entry<Node<V>>)
    requires i < |d| && Rearranged(d', d, i, s) && Less(s.leftFirstKey, s.rightFirstKey)
    ensures Get(Internal(d'), j) == Get(e.val, j) && e in d'
    ensures e == TwoEntries(s)[0] || e == TwoEntries(s)[1] || OldEntry(d, i, e)
    ensures e == TwoEntries(s)[0] ==> Less(j, s.rightFirstKey)
    ensures e == TwoEntries(s)[1] ==> Leq(s.rightFirstKey, j)
    ensures forall x :: x in d' && Leq(x.key, j) ==> Leq(x.key, e.key) && Leq(e.key, j)
  {
    var m := FindChild(d', j);
    e := d'[m];
    assert e in TwoEntries(s) || OldEntry(d, i, e);
    var l :| 0 <= l < |d'| && d'[l] == TwoEntries(s)[0];
    var r :| 0 <= r < |d'| && d'[r] == TwoEntries(s)[1];
    LessTotal(s.leftFirstKey, s.rightFirstKey);
    LessTotal(s.leftFirstKey, s.leftFirstKey);
    InOrderAt(d', l, r);
    if m == l && m + 1 < r {
      assert Less(d'[m + 1].key, d'[r].key);
      LessTransitive(j, d'[m + 1].key, d'[r].key);
    }
    forall x | x in d' && Leq(x.key, j) ensures Leq(x.key, e.key) && Leq(e.key, j) {
      var p :| 0 <= p < |d'| && d'[p] == x;
      AtOrBefore(d', m, p, j);
    }
  }

  lemma InOrderAt<T>(d: Dir<T>, l: nat, r: nat)
    requires Sorted(d) && l < |d| && r < |d| && Less(d[l].key, d[r].key)
    ensures l < r
  {
    LessTotal(d[l].key, d[r].key);
  }

  lemma AtOrBefore<T>(d: Dir<T>, m: nat, p: nat, j: Key)
    requires Sorted(d) && m < |d| && p < |d| && m == FindChild(d, j) && Leq(d[p].key, j)
    ensures Leq(d[p].key, d[m].key) && Leq(d[m].key, j)
  {
    LessTotal(d[p].key, d[m].key);
    if m < p {
      if m + 1 < p { LessTransitive(j, d[m + 1].key, d[p].key); }
    } else {
      if p < m { assert Less(d[p].key, d[m].key); }
    }
  }

  lemma MissFits<V>(d: Dir<Node<V>>, i: nat, c: Node<V>, j: Key, lo: Option<Key>, hi: Option<Key>)
    requires Listing(d) && i < |d| && Within(j, Lo(d, i, lo), Hi(d, i, hi)) && Get(c, j).None?
    ensures Listing(SetEntry(d, d[i].key, c)) && Get(Internal(SetEntry(d, d[i].key, c)), j).None?
  {
    SetChild(d, i, c);
    FindChildIs(d[i := Entry(d[i].key, c)], j, i);
  }

  lemma MissRebuilt<V>(max: nat, d: Dir<Node<V>>, j: Key)
    requires max >= 1 && Listing(d) && Get(Internal(d), j).None?
    ensures GetInserted(Rebuilt(max, d), j).None?
    ensures NamesFit(Rebuilt(max, d))
  {
    if |d| > max {
      NamesInOrder(d, 0);
      assert Less(d[0].key, d[|d| / 2].key);
      SplitKeepsRouting(d, j);
    }
  }

  ghost predicate NamesFit<V>(r: Inserted<V>) {
    r.split.Some? ==> r.split.value.leftFirstKey != [] && Less(r.split.value.leftFirstKey, r.split.value.rightFirstKey)
  }

  /** A key that child `i` does not give back any more is not given back by the node. */
  lemma MissAbove<V>(d: Dir<Node<V>>, i: nat, r: Inserted<V>, j: Key, lo: Option<Key>, hi: Option<Key>)
    requires WeakKids(d, lo, hi) && i < |d| && Within(j, Lo(d, i, lo), Hi(d, i, hi))
    requires NamesFit(r) && GetInserted(r, j).None?
    ensures Listing(Updated(d, i, r)) && Get(Internal(Updated(d, i, r)), j).None?
  {
    if r.split.None? {
      MissFits(d, i, r.node, j, lo, hi);
    } else {
      var s := r.split.value;
      SplitRearranges(d, i, r.node, s);
      var e := GoesTo(Updated(d, i, r), d, i, s, j);
      if OldEntry(d, i, e) && e != TwoEntries(s)[0] && e != TwoEntries(s)[1] {
        var q :| 0 <= q < |d| && q != i && d[q] == e;
        NotInSibling(d, i, q, j, lo, hi);
      }
    }
  }

  /** The key that a child filed out of its place hides. There are three ways: its least key
      is below the new name, the new name is not above the name of the sibling before, or
      that sibling holds a key at or above it. */
  lemma Misplaced<V>(d: Dir<Node<V>>, i: nat, x: Node<V>, s: Split<V>, k: Key, v: V, lo: Option<Key>, hi: Option<Key>) returns (j: Key)
    requires WeakKids(d, lo, hi) && 0 < i < |d| && i == FindChild(d, k)
    requires Sound(Inserted(x, Some(s)), Items(d[i].val), k, v, Lo(d, i, lo), Hi(d, i, hi))
    requires !Placed(d[i - 1], s.leftFirstKey, Items(d[i].val), k)
    ensures Find(SetEntry(Flat(d), k, v), j).Some?
    ensures Listing(Updated(d, i, Inserted(x, Some(s)))) && Get(Internal(Updated(d, i, Inserted(x, Some(s)))), j).None?
  {
    var least := LeastKey(d, i, s, k, v, lo, hi);
    SplitRearranges(d, i, x, s);
    var d' := Updated(d, i, Inserted(x, Some(s)));
    LessTotal(s.leftFirstKey, d[i - 1].key);
    if Less(least, s.leftFirstKey) {
      j := least;
      LeastBelowName(d', d, i, s, least, lo, hi);
    } else if Less(s.leftFirstKey, d[i - 1].key) {
      j := least;
      NameBelowSibling(d', d, i, s, least, lo, hi);
    } else {
      var p := PassedKey(d, i, s, k, v, least, lo, hi);
      j := Items(d[i - 1].val)[p].key;
      PassedIsLost(d', d, i, s, k, v, p, lo, hi);
    }
  }

  /** The least key of the left half: one of the child's, with bounds of its own. */
  lemma LeastKey<V>(d: Dir<Node<V>>, i: nat, s: Split<V>, k: Key, v: V, lo: Option<Key>, hi: Option<Key>) returns (j: Key)
    requires WeakKids(d, lo, hi) && 0 < i < |d| && i == FindChild(d, k)
    requires Sound(Inserted(s.left, Some(s)), Items(d[i].val), k, v, Lo(d, i, lo), Hi(d, i, hi))
    ensures Items(s.left) != [] && j == Items(s.left)[0].key
    ensures Leq(d[i].key, j) && Less(j, s.rightFirstKey) && Within(j, Lo(d, i, lo), Hi(d, i, hi))
    ensures Find(SetEntry(Flat(d), k, v), j).Some?
    ensures Leq(s.leftFirstKey, j) ==> Leq(s.leftFirstKey, k) && forall x :: 0 <= x < |Items(d[i].val)| ==> Leq(s.leftFirstKey, Items(d[i].val)[x].key)
  {
    var items := Items(d[i].val);
    ItemsOrdered(s.left, Lo(d, i, lo), Some(s.rightFirstKey));
    j := Items(s.left)[0].key;
    assert Within(Items(s.left)[0].key, Lo(d, i, lo), Some(s.rightFirstKey));
    RightNameBelow(s, Some(s.rightFirstKey), Hi(d, i, hi));
    if i + 1 < |d| { LessTransitive(j, s.rightFirstKey, d[i + 1].key); }
    else if hi.Some? { LessTransitive(j, s.rightFirstKey, hi.value); }
    AroundChild(d, k, lo, hi);
    SetInside(Flat(d[..i]), items, Flat(d[i + 1..]), k, v);
    var all := SetEntry(Flat(d), k, v);
    assert all[|Flat(d[..i])|] == Items(s.left)[0];
    InIsFound(all, all[|Flat(d[..i])|]);
    assert Weak(d[i].val, Lo(d, i, lo), Hi(d, i, hi));
    ItemsOrdered(d[i].val, Lo(d, i, lo), Hi(d, i, hi));
    if Leq(s.leftFirstKey, j) {
      FirstIsLeast(items, k, v, j, s.leftFirstKey);
    }
  }

  lemma {:induction false} InIsFound<T>(d: Dir<T>, e: Entry<T>)
    requires e in d
    ensures Find(d, e.key).Some?
  {
    if d[0] != e && d[0].key != e.key {
      InIsFound(d[1..], e);
    }
  }

  lemma FirstIsLeast<V>(items: Dir<V>, k: Key, v: V, j: Key, name: Key)
    requires Listing(items) && k != [] && j == Put(items, k, v)[0].key && Leq(name, j)
    ensures Leq(name, k) && forall x :: 0 <= x < |items| ==> Leq(name, items[x].key)
  {
    PutSize(items, k, v);
    LessTotal(k, items[0].key);
    LeqChains(name, j, k);
    forall x | 0 <= x < |items| ensures Leq(name, items[x].key) {
      LessTotal(items[0].key, items[x].key);
      LeqChains(j, items[0].key, items[x].key);
      LeqChains(name, j, items[x].key);
    }
  }

  lemma LeastBelowName<V>(d': Dir<Node<V>>, d: Dir<Node<V>>, i: nat, s: Split<V>, j: Key, lo: Option<Key>, hi: Option<Key>)
    requires WeakKids(d, lo, hi) && 0 < i < |d| && Rearranged(d', d, i, s) && Less(s.leftFirstKey, s.rightFirstKey)
    requires Leq(d[i].key, j) && Within(j, Lo(d, i, lo), Hi(d, i, hi)) && Less(j, s.leftFirstKey)
    ensures Get(Internal(d'), j).None?
  {
    var e := GoesTo(d', d, i, s, j);
    LeqChains(d[i - 1].key, d[i].key, j);
    LessTotal(d[i - 1].key, j);
    LessTransitive(d[i - 1].key, j, s.leftFirstKey);
    LessTotal(d[i - 1].key, s.leftFirstKey);
    LessTransitive(d[i - 1].key, s.leftFirstKey, s.rightFirstKey);
    LessTotal(d[i - 1].key, s.rightFirstKey);
    LessTransitive(j, s.leftFirstKey, s.rightFirstKey);
    assert d[i - 1] in d';
    OldMisses(d, i, e, j, lo, hi);
  }

  lemma OldMisses<V>(d: Dir<Node<V>>, i: nat, e: Entry<Node<V>>, j: Key, lo: Option<Key>, hi: Option<Key>)
    requires WeakKids(d, lo, hi) && i < |d| && Within(j, Lo(d, i, lo), Hi(d, i, hi))
    ensures OldEntry(d, i, e) ==> Get(e.val, j).None?
  {
    if OldEntry(d, i, e) {
      var q :| 0 <= q < |d| && q != i && d[q] == e;
      NotInSibling(d, i, q, j, lo, hi);
    }
  }

  lemma NameBelowSibling<V>(d': Dir<Node<V>>, d: Dir<Node<V>>, i: nat, s: Split<V>, j: Key, lo: Option<Key>, hi: Option<Key>)
    requires WeakKids(d, lo, hi) && 0 < i < |d| && Rearranged(d', d, i, s) && Less(s.leftFirstKey, d[i - 1].key)
    requires Leq(d[i].key, j) && Within(j, Lo(d, i, lo), Hi(d, i, hi)) && Less(j, s.rightFirstKey)
    ensures Get(Internal(d'), j).None?
  {
    LeqChains(d[i - 1].key, d[i].key, j);
    LessTotal(d[i - 1].key, j);
    LessTransitive(d[i - 1].key, j, s.rightFirstKey);
    LessTransitive(s.leftFirstKey, d[i - 1].key, s.rightFirstKey);
    LessTotal(d[i - 1].key, s.rightFirstKey);
    LessTotal(d[i - 1].key, s.leftFirstKey);
    var e := GoesTo(d', d, i, s, j);
    assert d[i - 1] in d';
    OldMisses(d, i, e, j, lo, hi);
  }

  /** A key of the sibling before at or above the new name. */
  lemma PassedKey<V>(d: Dir<Node<V>>, i: nat, s: Split<V>, k: Key, v: V, least: Key, lo: Option<Key>, hi: Option<Key>) returns (p: nat)
    requires WeakKids(d, lo, hi) && 0 < i < |d|
    requires !Placed(d[i - 1], s.leftFirstKey, Items(d[i].val), k)
    requires Leq(s.leftFirstKey, k) && forall x :: 0 <= x < |Items(d[i].val)| ==> Leq(s.leftFirstKey, Items(d[i].val)[x].key)
    requires Leq(d[i - 1].key, s.leftFirstKey)
    ensures p < |Items(d[i - 1].val)|
    ensures s.leftFirstKey == d[i - 1].key || Leq(s.leftFirstKey, Items(d[i - 1].val)[p].key)
  {
    LessTotal(d[i - 1].key, s.leftFirstKey);
    assert Weak(d[i - 1].val, Lo(d, i - 1, lo), Hi(d, i - 1, hi));
    ItemsOrdered(d[i - 1].val, Lo(d, i - 1, lo), Hi(d, i - 1, hi));
    if s.leftFirstKey == d[i - 1].key {
      p := 0;
    } else {
      p :| 0 <= p < |Items(d[i - 1].val)| && !Less(Items(d[i - 1].val)[p].key, s.leftFirstKey);
    }
  }

  /** A key of the sibling before that is asked for under the new name, or whose entry has
      been overwritten, is lost. */
  lemma PassedIsLost<V>(d': Dir<Node<V>>, d: Dir<Node<V>>, i: nat, s: Split<V>, k: Key, v: V, p: nat, lo: Option<Key>, hi: Option<Key>)
    requires WeakKids(d, lo, hi) && 0 < i < |d| && Rearranged(d', d, i, s) && Less(s.leftFirstKey, s.rightFirstKey)
    requires Weak(s.left, Some(d[i].key), Some(s.rightFirstKey)) && Weak(s.right, Some(s.rightFirstKey), Hi(d, i, hi))
    requires p < |Items(d[i - 1].val)|
    requires s.leftFirstKey == d[i - 1].key
          || (Less(d[i - 1].key, s.leftFirstKey) && Leq(s.leftFirstKey, Items(d[i - 1].val)[p].key))
    ensures var j := Items(d[i - 1].val)[p].key; Find(SetEntry(Flat(d), k, v), j).Some? && Get(Internal(d'), j).None?
  {
    var j := Items(d[i - 1].val)[p].key;
    SiblingKey(d, i, p, lo, hi);
    SiblingIsIn(d, i, k, v, p);
    HalvesMiss(s, d[i].key, Hi(d, i, hi), j);
    var e := GoesTo(d', d, i, s, j);
    if e == d[i - 1] { NotTheSibling(d', d, i, s, j, e); }
    if OldEntry(d, i, e) && e != d[i - 1] { OtherMisses(d, i, e, j, lo, hi); }
  }

  lemma OtherMisses<V>(d: Dir<Node<V>>, i: nat, e: Entry<Node<V>>, j: Key, lo: Option<Key>, hi: Option<Key>)
    requires WeakKids(d, lo, hi) && 0 < i < |d| && Within(j, Lo(d, i - 1, lo), Hi(d, i - 1, hi))
    requires OldEntry(d, i, e) && e != d[i - 1]
    ensures Get(e.val, j).None?
  {
    var q :| 0 <= q < |d| && q != i && d[q] == e;
    assert q != i - 1;
    NotInSibling(d, i - 1, q, j, lo, hi);
  }

  lemma NotTheSibling<V>(d': Dir<Node<V>>, d: Dir<Node<V>>, i: nat, s: Split<V>, j: Key, e: Entry<Node<V>>)
    requires 0 < i < |d| && Rearranged(d', d, i, s) && e in d' && e == d[i - 1]
    requires forall x :: x in d' && Leq(x.key, j) ==> Leq(x.key, e.key) && Leq(e.key, j)
    requires s.leftFirstKey == d[i - 1].key || (Less(d[i - 1].key, s.leftFirstKey) && Leq(s.leftFirstKey, j))
    ensures e == TwoEntries(s)[0]
  {
    LessTotal(d[i - 1].key, s.leftFirstKey);
  }

  lemma HalvesMiss<V>(s: Split<V>, lo: Key, hi: Option<Key>, j: Key)
    requires Weak(s.left, Some(lo), Some(s.rightFirstKey)) && Weak(s.right, Some(s.rightFirstKey), hi) && Less(j, lo)
    ensures Get(s.left, j).None? && Get(s.right, j).None?
  {
    HalfMisses(s.left, lo, Some(s.rightFirstKey), j);
    LeftBelowRight(s, lo);
    LessTransitive(j, lo, s.rightFirstKey);
    HalfMisses(s.right, s.rightFirstKey, hi, j);
  }

  lemma LeftBelowRight<V>(s: Split<V>, lo: Key)
    requires Weak(s.left, Some(lo), Some(s.rightFirstKey))
    ensures Less(lo, s.rightFirstKey)
  {
    ItemsOrdered(s.left, Some(lo), Some(s.rightFirstKey));
    assert Within(Items(s.left)[0].key, Some(lo), Some(s.rightFirstKey));
    LeqChains(lo, Items(s.left)[0].key, s.rightFirstKey);
  }

  lemma HalfMisses<V>(n: Node<V>, lo: Key, hi: Option<Key>, j: Key)
    requires Weak(n, Some(lo), hi) && Less(j, lo)
    ensures Get(n, j).None?
  {
    ItemsOrdered(n, Some(lo), hi);
    GetIsFind(n, j, Some(lo), hi);
    forall x | 0 <= x < |Items(n)| ensures Less(j, Items(n)[x].key) {
      LeqChains(j, lo, Items(n)[x].key);
    }
    Elsewhere(Items(n), j);
  }

  lemma SiblingKey<V>(d: Dir<Node<V>>, i: nat, p: nat, lo: Option<Key>, hi: Option<Key>)
    requires WeakKids(d, lo, hi) && 0 < i < |d| && p < |Items(d[i - 1].val)|
    ensures var j := Items(d[i - 1].val)[p].key; Within(j, Lo(d, i - 1, lo), Hi(d, i - 1, hi)) && Less(j, d[i].key)
  {
    assert Weak(d[i - 1].val, Lo(d, i - 1, lo), Hi(d, i - 1, hi));
    ItemsOrdered(d[i - 1].val, Lo(d, i - 1, lo), Hi(d, i - 1, hi));
    assert Within(Items(d[i - 1].val)[p].key, Lo(d, i - 1, lo), Hi(d, i - 1, hi));
  }

  lemma SiblingIsIn<V>(d: Dir<Node<V>>, i: nat, k: Key, v: V, p: nat)
    requires 0 < i < |d| && p < |Items(d[i - 1].val)|
    ensures Find(SetEntry(Flat(d), k, v), Items(d[i - 1].val)[p].key).Some?
  {
    var items := Items(d[i - 1].val);
    FlatAround(d, i - 1);
    assert Flat(d)[|Flat(d[..i - 1])| + p] == items[p];
    InIsFound(Flat(d), items[p]);
    PutFind(Flat(d), k, v, items[p].key);
  }

  /** A key that is among the contents after an unsafe insertion, and that a lookup in the
      result does not reach. */
  lemma {:induction false} HiddenKey<V>(max: nat, n: Node<V>, k: Key, v: V, lo: Option<Key>, hi: Option<Key>) returns (j: Key)
    requires max >= 1 && Weak(n, lo, hi) && Within(k, lo, hi) && !Safe(max, n, k)
    ensures Find(SetEntry(Items(n), k, v), j).Some? && GetInserted(InsertRecursive(max, n, k, v), j).None?
    ensures Within(j, lo, hi) && NamesFit(InsertRecursive(max, n, k, v))
    decreases n
  {
    var d := n.kids;
    var i := FindChild(d, k);
    var c := d[i].val;
    AroundChild(d, k, lo, hi);
    assert Weak(c, Lo(d, i, lo), Hi(d, i, hi));
    var r := InsertRecursive(max, c, k, v);
    if !Safe(max, c, k) {
      j := HiddenKey(max, c, k, v, Lo(d, i, lo), Hi(d, i, hi));
      MissAbove(d, i, r, j, lo, hi);
      FoundAbove(d, i, k, v, j, lo, hi);
    } else {
      j := HiddenHere(max, d, i, k, v, lo, hi);
    }
    MissRebuilt(max, Updated(d, i, r), j);
    FoundWithin(n, k, v, j, lo, hi);
  }

  /** The case in which this node is the one that files its child out of place. */
  lemma HiddenHere<V>(max: nat, d: Dir<Node<V>>, i: nat, k: Key, v: V, lo: Option<Key>, hi: Option<Key>) returns (j: Key)
    requires max >= 1 && WeakKids(d, lo, hi) && i == FindChild(d, k) && Within(k, lo, hi)
    requires Safe(max, d[i].val, k) && !Safe(max, Internal(d), k)
    ensures var u := Updated(d, i, InsertRecursive(max, d[i].val, k, v));
      Find(SetEntry(Flat(d), k, v), j).Some? && Listing(u) && Get(Internal(u), j).None?
  {
    var c := d[i].val;
    assert Weak(c, Lo(d, i, lo), Hi(d, i, hi));
    AroundChild(d, k, lo, hi);
    InsertSound(max, c, k, v, Lo(d, i, lo), Hi(d, i, hi));
    var r := InsertRecursive(max, c, k, v);
    j := Misplaced(d, i, r.node, r.split.value, k, v, lo, hi);
  }

  lemma FoundAbove<V>(d: Dir<Node<V>>, i: nat, k: Key, v: V, j: Key, lo: Option<Key>, hi: Option<Key>)
    requires WeakKids(d, lo, hi) && i == FindChild(d, k) && Find(SetEntry(Items(d[i].val), k, v), j).Some?
    ensures Find(SetEntry(Flat(d), k, v), j).Some?
  {
    AroundChild(d, k, lo, hi);
    var mid := SetEntry(Items(d[i].val), k, v);
    SetInside(Flat(d[..i]), Items(d[i].val), Flat(d[i + 1..]), k, v);
    FindAppend(Flat(d[..i]) + mid, Flat(d[i + 1..]), j);
    FindAppend(Flat(d[..i]), mid, j);
  }

  lemma FoundWithin<V>(n: Node<V>, k: Key, v: V, j: Key, lo: Option<Key>, hi: Option<Key>)
    requires Weak(n, lo, hi) && Within(k, lo, hi) && Find(SetEntry(Items(n), k, v), j).Some?
    ensures Within(j, lo, hi)
  {
    ItemsOrdered(n, lo, hi);
    var p := SetEntry(Items(n), k, v);
    PutEntries(Items(n), k, v);
    FoundIsIn(p, j);
    var x :| 0 <= x < |p| && p[x].key == j;
    assert p[x] in p;
    assert p[x] == Entry(k, v) || p[x] in Items(n);
  }

  lemma {:induction false} FoundIsIn<T>(d: Dir<T>, j: Key)
    requires Find(d, j).Some?
    ensures exists x :: 0 <= x < |d| && d[x].key == j
  {
    if d[0].key == j {
      assert d[0].key == j;
    } else {
      FoundIsIn(d[1..], j);
      var x :| 0 <= x < |d[1..]| && d[1..][x].key == j;
      assert d[x + 1].key == j;
    }
  }

  // ------------------------------------------------------------- the theorem

  /** In any tree with bounded names one insertion keeps all lookups right if and only if it
      changes nothing or is safe on its way down. */
  lemma InsertExact<V>(order: nat, t: Node<V>, k: Key, v: V)
    requires order >= 3 && Weak(t, None, None)
    ensures (forall j :: Get(Insert(order, Some(t), k, v), j) == if j == k && k != [] then Some(v) else Get(t, j))
            <==> (Get(t, k) == Some(v) || Safe(order - 1, t, k))
  {
    var u := Insert(order, Some(t), k, v);
    forall j ensures Find(SetEntry(Items(t), k, v), j) == if j == k && k != [] then Some(v) else Get(t, j) {
      PutFind(Items(t), k, v, j);
      GetIsFind(t, j, None, None);
    }
    if Get(t, k) == Some(v) {
    } else if Safe(order - 1, t, k) {
      InsertKeepsWeak(order, t, k, v);
      forall j ensures Get(u, j) == if j == k && k != [] then Some(v) else Get(t, j) {
        GetIsFind(u, j, None, None);
      }
    } else {
      var j := HiddenKey(order - 1, t, k, v, None, None);
      RootRoutes(order, t, k, v, j);
      assert Get(u, j) != if j == k && k != [] then Some(v) else Get(t, j);
    }
  }

  /** A safe insertion at the root keeps the tree's bounds and sets its contents. */
  lemma InsertKeepsWeak<V>(order: nat, t: Node<V>, k: Key, v: V)
    requires order >= 3 && Weak(t, None, None) && Safe(order - 1, t, k) && Get(t, k) != Some(v)
    ensures Weak(Insert(order, Some(t), k, v), None, None)
    ensures Items(Insert(order, Some(t), k, v)) == SetEntry(Items(t), k, v)
  {
    InsertSound(order - 1, t, k, v, None, None);
    var r := InsertRecursive(order - 1, t, k, v);
    if r.split.Some? {
      RootShape(r.split.value);
      RootWeak(r.split.value);
    }
  }

  lemma RootWeak<V>(s: Split<V>)
    requires s.leftFirstKey != [] && Less(s.leftFirstKey, s.rightFirstKey)
    requires Weak(s.left, None, Some(s.rightFirstKey)) && Weak(s.right, Some(s.rightFirstKey), None)
    ensures Weak(Internal(TwoEntries(s)), None, None) && Items(Internal(TwoEntries(s))) == Items(s.left) + Items(s.right)
  {
    var d := TwoEntries(s);
    FlatTwo([], s, []);
    assert [] + d + [] == d;
    forall j | 0 <= j < 2 ensures Weak(d[j].val, Lo(d, j, None), Hi(d, j, None)) {
    }
  }

  /** The new root over two halves is searched as the split itself. */
  lemma RootRoutes<V>(order: nat, t: Node<V>, k: Key, v: V, j: Key)
    requires order >= 3 && Get(t, k) != Some(v) && NamesFit(InsertRecursive(order - 1, t, k, v))
    ensures Get(Insert(order, Some(t), k, v), j) == GetInserted(InsertRecursive(order - 1, t, k, v), j)
  {
    var r := InsertRecursive(order - 1, t, k, v);
    if r.split.Some? {
      var s := r.split.value;
      RootShape(s);
      var d := TwoEntries(s);
      FindChildIs(d, j, if Less(j, s.rightFirstKey) then 0 else 1);
    }
  }

  lemma RootShape<V>(s: Split<V>)
    requires s.leftFirstKey != [] && Less(s.leftFirstKey, s.rightFirstKey)
    ensures SetEntry(SetEntry([], s.leftFirstKey, s.left), s.rightFirstKey, s.right) == TwoEntries(s)
  {
    var none: Dir<Node<V>> := [];
    AddHalves(none, none, TwoEntries(s)[0], TwoEntries(s)[1]);
    assert none + [] + none == none;
    assert none + [TwoEntries(s)[0], TwoEntries(s)[1]] + none == TwoEntries(s);
  }
}
