/** Correctness of the B-tree: its contents behave as a map, through any run. */
module BTreeProofs {
  import opened Wrappers
  import opened Keys
  import opened BTree

  // ------------------------------------------------------- directory edits

  ghost predicate AllBelow<T>(d: Dir<T>, k: Key) {
    forall i :: 0 <= i < |d| ==> Less(d[i].key, k)
  }

  ghost predicate AllAbove<T>(k: Key, d: Dir<T>) {
    forall i :: 0 <= i < |d| ==> Less(k, d[i].key)
  }

  lemma {:induction false} PutAfter<T>(a: Dir<T>, r: Dir<T>, k: Key, x: T)
    requires AllBelow(a, k)
    ensures Put(a + r, k, x) == a + Put(r, k, x)
  {
    if a == [] {
      assert a + r == r;
    } else {
      LessTotal(a[0].key, k);
      assert (a + r)[0] == a[0] && (a + r)[1..] == a[1..] + r;
      PutAfter(a[1..], r, k, x);
    }
  }

  lemma {:induction false} PutBefore<T>(m: Dir<T>, b: Dir<T>, k: Key, x: T)
    requires AllAbove(k, b)
    ensures Put(m + b, k, x) == Put(m, k, x) + b
  {
    if m != [] {
      assert (m + b)[0] == m[0] && (m + b)[1..] == m[1..] + b;
      PutBefore(m[1..], b, k, x);
    } else if b != [] {
      assert m + b == b;
      LessTotal(k, b[0].key);
    }
  }

  lemma PutInside<T>(a: Dir<T>, m: Dir<T>, b: Dir<T>, k: Key, x: T)
    requires AllBelow(a, k) && AllAbove(k, b)
    ensures Put(a + m + b, k, x) == a + Put(m, k, x) + b
  {
    assert a + m + b == a + (m + b);
    PutAfter(a, m + b, k, x);
    PutBefore(m, b, k, x);
    assert a + Put(m, k, x) + b == a + (Put(m, k, x) + b);
  }

  lemma {:induction false} FindAppend<T>(a: Dir<T>, b: Dir<T>, k: Key)
    ensures Find(a + b, k) == if Find(a, k).Some? then Find(a, k) else Find(b, k)
  {
    if a == [] {
      assert a + b == b;
    } else {
      assert (a + b)[0] == a[0] && (a + b)[1..] == a[1..] + b;
      FindAppend(a[1..], b, k);
    }
  }

  lemma {:induction false} DropAppend<T>(a: Dir<T>, b: Dir<T>, k: Key)
    ensures Drop(a + b, k) == Drop(a, k) + Drop(b, k)
  {
    if a == [] {
      assert a + b == b;
    } else {
      assert (a + b)[0] == a[0] && (a + b)[1..] == a[1..] + b;
      DropAppend(a[1..], b, k);
    }
  }

  lemma {:induction false} Elsewhere<T>(d: Dir<T>, k: Key)
    requires AllBelow(d, k) || AllAbove(k, d)
    ensures Find(d, k).None? && Drop(d, k) == d
  {
    if d != [] {
      LessTotal(d[0].key, k);
      Elsewhere(d[1..], k);
    }
  }

  lemma FindInside<T>(a: Dir<T>, m: Dir<T>, b: Dir<T>, k: Key)
    requires AllBelow(a, k) && AllAbove(k, b)
    ensures Find(a + m + b, k) == Find(m, k)
  {
    Elsewhere(a, k);
    Elsewhere(b, k);
    FindAppend(a + m, b, k);
    FindAppend(a, m, k);
  }

  lemma DropInside<T>(a: Dir<T>, m: Dir<T>, b: Dir<T>, k: Key)
    requires AllBelow(a, k) && AllAbove(k, b)
    ensures Drop(a + m + b, k) == a + Drop(m, k) + b
  {
    Elsewhere(a, k);
    Elsewhere(b, k);
    DropAppend(a + m, b, k);
    DropAppend(a, m, k);
  }

  /** `Put` is map update on the entries. */
  lemma {:induction false} PutFind<T>(d: Dir<T>, k: Key, x: T, j: Key)
    ensures Find(Put(d, k, x), j) == if j == k then Some(x) else Find(d, j)
  {
    if d != [] && d[0].key != k && !Less(k, d[0].key) {
      PutFind(d[1..], k, x, j);
    }
  }

  lemma {:induction false} PutEntries<T>(d: Dir<T>, k: Key, x: T)
    ensures |d| <= |Put(d, k, x)| <= |d| + 1 && Put(d, k, x) != []
    ensures forall e :: e in Put(d, k, x) ==> e == Entry(k, x) || e in d
  {
    if d != [] && d[0].key != k && !Less(k, d[0].key) {
      PutEntries(d[1..], k, x);
    }
  }

  /** `Put` keeps the entries in order and within any bounds that hold the new key. */
  lemma {:induction false} PutOrdered<T>(d: Dir<T>, k: Key, x: T)
    requires Sorted(d)
    ensures Sorted(Put(d, k, x))
  {
    if d != [] && d[0].key != k {
      LessTotal(d[0].key, k);
      if Less(k, d[0].key) {
        forall i | 1 <= i < |d| ensures Less(k, d[i].key) {
          LessTransitive(k, d[0].key, d[i].key);
        }
      } else {
        PutOrdered(d[1..], k, x);
        PutEntries(d[1..], k, x);
        var p := Put(d[1..], k, x);
        forall i | 0 <= i < |p| ensures Less(d[0].key, p[i].key) {
          assert p[i] in p;
          assert p[i] == Entry(k, x) || p[i] in d[1..];
        }
      }
    }
  }

  lemma {:induction false} DropEntries<T>(d: Dir<T>, k: Key)
    ensures |Drop(d, k)| <= |d|
    ensures forall i :: 0 <= i < |Drop(d, k)| ==> Drop(d, k)[i] in d
  {
    if d != [] {
      DropEntries(d[1..], k);
    }
  }

  lemma {:induction false} DropFinds<T>(d: Dir<T>, k: Key)
    ensures forall j :: Find(Drop(d, k), j) == if j == k then None else Find(d, j)
    ensures Find(d, k).None? ==> Drop(d, k) == d
  {
    if d != [] {
      DropFinds(d[1..], k);
    }
  }

  lemma {:induction false} DropOrdered<T>(d: Dir<T>, k: Key)
    requires Sorted(d)
    ensures Sorted(Drop(d, k))
  {
    if d != [] {
      DropOrdered(d[1..], k);
      DropEntries(d[1..], k);
      var p := Drop(d[1..], k);
      forall i | 0 <= i < |p| ensures Less(d[0].key, p[i].key) {
        assert p[i] in d[1..];
      }
    }
  }

  /** `Drop` is map removal on the entries, and keeps them in order. */
  lemma DropIsRemoval<T>(d: Dir<T>, k: Key)
    requires Sorted(d)
    ensures Sorted(Drop(d, k)) && |Drop(d, k)| <= |d|
    ensures forall j :: Find(Drop(d, k), j) == if j == k then None else Find(d, j)
    ensures forall i :: 0 <= i < |Drop(d, k)| ==> Drop(d, k)[i] in d
    ensures Find(d, k).None? ==> Drop(d, k) == d
  {
    DropEntries(d, k);
    DropFinds(d, k);
    DropOrdered(d, k);
  }

  lemma NamesInOrder<T>(d: Dir<T>, i: nat)
    requires Listing(d) && i < |d|
    ensures d[i].key != [] && Less([], d[i].key)
  {
    if i > 0 {
      assert Less(d[0].key, d[i].key);
    }
  }

  lemma ListingSlice<T>(d: Dir<T>, a: nat, b: nat)
    requires Listing(d) && a < b <= |d|
    ensures Listing(d[a..b])
  {
    NamesInOrder(d, a);
    var s := d[a..b];
    forall i, j | 0 <= i < j < |s| ensures Less(s[i].key, s[j].key) {
      assert Less(d[a + i].key, d[a + j].key);
    }
  }

  lemma ListingUpdate<T>(d: Dir<T>, i: nat, x: T)
    requires Listing(d) && i < |d|
    ensures Listing(d[i := Entry(d[i].key, x)])
  {
    var e := d[i := Entry(d[i].key, x)];
    forall a, b | 0 <= a < b < |e| ensures Less(e[a].key, e[b].key) {
      assert Less(d[a].key, d[b].key);
    }
  }

  /** The entries around entry `i` are below and above it. */
  lemma Neighbours<T>(d: Dir<T>, i: nat)
    requires Sorted(d) && i < |d|
    ensures AllBelow(d[..i], d[i].key) && AllAbove(d[i].key, d[i + 1..])
    ensures d == d[..i] + [d[i]] + d[i + 1..]
  {
    var a, b := d[..i], d[i + 1..];
    forall j | 0 <= j < |a| ensures Less(a[j].key, d[i].key) {
      assert Less(d[j].key, d[i].key);
    }
    forall j | 0 <= j < |b| ensures Less(d[i].key, b[j].key) {
      assert Less(d[i].key, d[i + 1 + j].key);
    }
  }

  // ------------------------------------------------------- contents of nodes

  lemma {:induction false} FlatAppend<V>(a: Dir<Node<V>>, b: Dir<Node<V>>)
    ensures Flat(a + b) == Flat(a) + Flat(b)
  {
    if a == [] {
      assert a + b == b;
    } else {
      assert (a + b)[0] == a[0] && (a + b)[1..] == a[1..] + b;
      FlatAppend(a[1..], b);
    }
  }

  lemma FlatHalves<V>(d: Dir<Node<V>>, mid: nat)
    requires mid <= |d|
    ensures Flat(d[..mid]) + Flat(d[mid..]) == Flat(d)
  {
    assert d == d[..mid] + d[mid..];
    FlatAppend(d[..mid], d[mid..]);
  }

  lemma FlatAround<V>(d: Dir<Node<V>>, i: nat)
    requires i < |d|
    ensures Flat(d) == Flat(d[..i]) + Items(d[i].val) + Flat(d[i + 1..])
  {
    assert d == d[..i] + d[i..];
    FlatAppend(d[..i], d[i..]);
    assert d[i..][1..] == d[i + 1..];
  }

  ghost predicate WeakKids<V>(d: Dir<Node<V>>, lo: Option<Key>, hi: Option<Key>) {
    && Listing(d)
    && forall i :: 0 <= i < |d| ==> Weak(d[i].val, Lo(d, i, lo), Hi(d, i, hi))
  }

  lemma PrefixBounds<T>(d: Dir<T>, m: nat, j: nat, lo: Option<Key>, hi: Option<Key>)
    requires j < m < |d|
    ensures d[..m][j] == d[j]
    ensures Lo(d[..m], j, lo) == Lo(d, j, lo) && Hi(d[..m], j, Some(d[m].key)) == Hi(d, j, hi)
  {
  }

  lemma SuffixBounds<T>(d: Dir<T>, m: nat, j: nat, lo: Option<Key>, hi: Option<Key>)
    requires 0 < m && m + j < |d|
    ensures d[m..][j] == d[m + j]
    ensures Lo(d[m..], j, Some(d[m].key)) == Lo(d, m + j, lo) && Hi(d[m..], j, hi) == Hi(d, m + j, hi)
  {
  }

  lemma UpdateBounds<T>(d: Dir<T>, i: nat, x: T, j: nat, lo: Option<Key>, hi: Option<Key>)
    requires i < |d| && j < |d|
    ensures var e := d[i := Entry(d[i].key, x)];
      Lo(e, j, lo) == Lo(d, j, lo) && Hi(e, j, hi) == Hi(d, j, hi) && e[j] == if j == i then Entry(d[i].key, x) else d[j]
  {
  }

  lemma WeakPrefix<V>(d: Dir<Node<V>>, i: nat, lo: Option<Key>, hi: Option<Key>)
    requires WeakKids(d, lo, hi) && 0 < i < |d|
    ensures WeakKids(d[..i], lo, Some(d[i].key))
  {
    ListingSlice(d, 0, i);
    var p := d[..i];
    forall j | 0 <= j < |p| ensures Weak(p[j].val, Lo(p, j, lo), Hi(p, j, Some(d[i].key))) {
      PrefixBounds(d, i, j, lo, hi);
    }
  }

  lemma WeakSuffix<V>(d: Dir<Node<V>>, i: nat, lo: Option<Key>, hi: Option<Key>)
    requires WeakKids(d, lo, hi) && 0 < i < |d|
    ensures WeakKids(d[i..], Some(d[i].key), hi)
  {
    ListingSlice(d, i, |d|);
    var s := d[i..];
    forall j | 0 <= j < |s| ensures Weak(s[j].val, Lo(s, j, Some(d[i].key)), Hi(s, j, hi)) {
      SuffixBounds(d, i, j, lo, hi);
    }
  }

  /** The contents of a node are in strict order, within its bounds, and not empty. */
  lemma {:induction false} ItemsOrdered<V>(n: Node<V>, lo: Option<Key>, hi: Option<Key>)
    requires Weak(n, lo, hi)
    ensures Listing(Items(n)) && AllWithin(Items(n), lo, hi)
    decreases n, 1
  {
    if n.Internal? {
      FlatOrdered(n.kids, lo, hi);
    }
  }

  lemma {:induction false} FlatOrdered<V>(d: Dir<Node<V>>, lo: Option<Key>, hi: Option<Key>)
    requires WeakKids(d, lo, hi)
    ensures Listing(Flat(d)) && AllWithin(Flat(d), lo, hi)
    decreases d, 0
  {
    var head := Items(d[0].val);
    assert Weak(d[0].val, lo, Hi(d, 0, hi));
    ItemsOrdered(d[0].val, lo, Hi(d, 0, hi));
    if |d| == 1 {
      assert Flat(d) == head;
    } else {
      WeakSuffix(d, 1, lo, hi);
      FlatOrdered(d[1..], Some(d[1].key), hi);
      JoinOrdered(head, Flat(d[1..]), d[1].key, lo, hi);
    }
  }

  lemma JoinOrdered<V>(a: Dir<V>, b: Dir<V>, k: Key, lo: Option<Key>, hi: Option<Key>)
    requires Listing(a) && Listing(b)
    requires AllWithin(a, lo, Some(k)) && AllWithin(b, Some(k), hi)
    ensures Listing(a + b) && AllWithin(a + b, lo, hi)
  {
    forall i, j | 0 <= i < |a| && 0 <= j < |b| ensures Less(a[i].key, b[j].key) {
      LeqChains(a[i].key, k, b[j].key);
    }
    forall i | 0 <= i < |a| ensures Within(a[i].key, lo, hi) {
      if hi.Some? {
        LeqChains(a[i].key, b[0].key, hi.value);
        LessTotal(a[i].key, b[0].key);
      }
    }
    forall j | 0 <= j < |b| ensures Within(b[j].key, lo, hi) {
      if lo.Some? {
        LeqChains(lo.value, a[0].key, b[j].key);
        LessTotal(lo.value, b[j].key);
      }
    }
  }

  /** Everything left of the chosen child is below the key, everything right of it above. */
  lemma {:induction false} AroundChild<V>(d: Dir<Node<V>>, k: Key, lo: Option<Key>, hi: Option<Key>)
    requires WeakKids(d, lo, hi)
    ensures var i := FindChild(d, k);
      && AllBelow(Flat(d[..i]), k) && AllAbove(k, Flat(d[i + 1..]))
      && AllBelow(d[..i], d[i].key) && AllAbove(d[i].key, d[i + 1..])
      && Flat(d) == Flat(d[..i]) + Items(d[i].val) + Flat(d[i + 1..])
      && (Within(k, lo, hi) ==> Within(k, Lo(d, i, lo), Hi(d, i, hi)))
  {
    var i := FindChild(d, k);
    FlatAround(d, i);
    Neighbours(d, i);
    if i > 0 {
      FlatPrefix(d, i, lo, hi);
      forall j | 0 <= j < |Flat(d[..i])| ensures Less(Flat(d[..i])[j].key, k) {
        LeqChains(Flat(d[..i])[j].key, d[i].key, k);
      }
    }
    if i + 1 < |d| {
      FlatSuffix(d, i + 1, lo, hi);
      var post := Flat(d[i + 1..]);
      forall j | 0 <= j < |post| ensures Less(k, post[j].key) {
        LeqChains(k, d[i + 1].key, post[j].key);
      }
    }
  }

  lemma FlatPrefix<V>(d: Dir<Node<V>>, i: nat, lo: Option<Key>, hi: Option<Key>)
    requires WeakKids(d, lo, hi) && 0 < i < |d|
    ensures WeakKids(d[..i], lo, Some(d[i].key))
    ensures AllWithin(Flat(d[..i]), lo, Some(d[i].key))
  {
    WeakPrefix(d, i, lo, hi);
    FlatOrdered(d[..i], lo, Some(d[i].key));
  }

  lemma FlatSuffix<V>(d: Dir<Node<V>>, i: nat, lo: Option<Key>, hi: Option<Key>)
    requires WeakKids(d, lo, hi) && 0 < i < |d|
    ensures WeakKids(d[i..], Some(d[i].key), hi)
    ensures AllWithin(Flat(d[i..]), Some(d[i].key), hi)
  {
    WeakSuffix(d, i, lo, hi);
    FlatOrdered(d[i..], Some(d[i].key), hi);
  }

  /** Lookup by descent finds exactly the entry that the contents hold. */
  lemma {:induction false} GetIsFind<V>(n: Node<V>, k: Key, lo: Option<Key>, hi: Option<Key>)
    requires Weak(n, lo, hi)
    ensures Get(n, k) == Find(Items(n), k)
    decreases n
  {
    if n.Internal? {
      var d := n.kids;
      var i := FindChild(d, k);
      AroundChild(d, k, lo, hi);
      assert Weak(d[i].val, Lo(d, i, lo), Hi(d, i, hi));
      GetIsFind(d[i].val, k, Lo(d, i, lo), Hi(d, i, hi));
      FindInside(Flat(d[..i]), Items(d[i].val), Flat(d[i + 1..]), k);
    }
  }

  lemma {:induction false} TightIsWeak<V>(max: nat, n: Node<V>, lo: Option<Key>, hi: Option<Key>, h: nat)
    requires Tight(max, n, lo, hi, h)
    ensures Weak(n, lo, hi)
    decreases n
  {
    if n.Internal? {
      forall i | 0 <= i < |n.kids| ensures Weak(n.kids[i].val, Lo(n.kids, i, lo), Hi(n.kids, i, hi)) {
        TightIsWeak(max, n.kids[i].val, Lo(n.kids, i, lo), Hi(n.kids, i, hi), h - 1);
      }
    }
  }

  // -------------------------------------------------------------- insertion

  /** What one insertion below a node must return. */
  ghost predicate Grown<V>(max: nat, r: Inserted<V>, n: Node<V>, k: Key, v: V,
                           lo: Option<Key>, hi: Option<Key>, h: nat)
  {
    match r.split
    case None =>
      Tight(max, r.node, lo, hi, h) && Items(r.node) == Put(Items(n), k, v) && Leq(First(r.node), First(n))
    case Some(s) =>
      && Halves(max, s, lo, hi, h)
      && Items(s.left) + Items(s.right) == Put(Items(n), k, v)
      && Leq(s.leftFirstKey, First(n))
  }

  lemma PutWithin<T>(d: Dir<T>, k: Key, x: T, lo: Option<Key>, hi: Option<Key>)
    requires Listing(d) && AllWithin(d, lo, hi) && Within(k, lo, hi) && k != []
    requires lo.Some? ==> d[0].key == lo.value
    ensures Listing(Put(d, k, x)) && AllWithin(Put(d, k, x), lo, hi)
    ensures Leq(Put(d, k, x)[0].key, d[0].key)
    ensures lo.Some? ==> Put(d, k, x)[0].key == lo.value
  {
    var p := Put(d, k, x);
    PutOrdered(d, k, x);
    PutEntries(d, k, x);
    LessTotal(k, d[0].key);
    LessTotal(d[0].key, d[0].key);
    forall i | 0 <= i < |p| ensures Within(p[i].key, lo, hi) {
      assert p[i] in p;
    }
  }

  lemma SplitLeafTight<V>(max: nat, d: Dir<V>, lo: Option<Key>, hi: Option<Key>)
    requires max >= 1 && |d| == max + 1 && Listing(d) && AllWithin(d, lo, hi)
    requires lo.Some? ==> d[0].key == lo.value
    ensures var s := SplitLeaf(d);
      Halves(max, s, lo, hi, 0) && Items(s.left) + Items(s.right) == d && s.leftFirstKey == d[0].key
  {
    var mid := |d| / 2;
    forall i | mid <= i < |d| ensures Leq(d[mid].key, d[i].key) {
      LessTotal(d[mid].key, d[i].key);
    }
    LessTotal(d[0].key, d[mid].key);
  }

  lemma TightPrefix<V>(max: nat, d: Dir<Node<V>>, mid: nat, lo: Option<Key>, hi: Option<Key>, h: nat)
    requires 0 < mid < |d| && TightKids(max, d, lo, hi, h)
    ensures TightKids(max, d[..mid], lo, Some(d[mid].key), h)
  {
    ListingSlice(d, 0, mid);
    var l, m := d[..mid], Some(d[mid].key);
    forall i | 0 <= i < |l| ensures Tight(max, l[i].val, Lo(l, i, lo), Hi(l, i, m), h) {
      PrefixBounds(d, mid, i, lo, hi);
    }
  }

  lemma TightSuffix<V>(max: nat, d: Dir<Node<V>>, mid: nat, lo: Option<Key>, hi: Option<Key>, h: nat)
    requires 0 < mid < |d| && TightKids(max, d, lo, hi, h)
    ensures TightKids(max, d[mid..], Some(d[mid].key), hi, h)
  {
    ListingSlice(d, mid, |d|);
    var r, m := d[mid..], Some(d[mid].key);
    forall i | 0 <= i < |r| ensures Tight(max, r[i].val, Lo(r, i, m), Hi(r, i, hi), h) {
      SuffixBounds(d, mid, i, lo, hi);
    }
    LessTotal(d[mid].key, d[mid].key);
    NamesInOrder(d, mid);
    assert Tight(max, d[mid].val, m, Hi(d, mid, hi), h);
    FirstOfTight(max, d[mid].val, d[mid].key, Hi(d, mid, hi), h);
  }

  lemma InternalTight<V>(max: nat, d: Dir<Node<V>>, lo: Option<Key>, hi: Option<Key>, h: nat)
    requires TightKids(max, d, lo, hi, h) && |d| <= max
    ensures Tight(max, Internal(d), lo, hi, h + 1)
  {
  }

  lemma MiddleName<V>(max: nat, d: Dir<Node<V>>, mid: nat, lo: Option<Key>, hi: Option<Key>, h: nat)
    requires 0 < mid < |d| && TightKids(max, d, lo, hi, h)
    ensures d[0].key != [] && Less(d[0].key, d[mid].key) && (hi.Some? ==> Less(d[mid].key, hi.value))
  {
    if hi.Some? && mid < |d| - 1 {
      LessTransitive(d[mid].key, d[|d| - 1].key, hi.value);
    }
  }

  lemma SplitInternalTight<V>(max: nat, d: Dir<Node<V>>, lo: Option<Key>, hi: Option<Key>, h: nat)
    requires max >= 1 && |d| == max + 1 && TightKids(max, d, lo, hi, h)
    ensures var s := SplitInternal(d);
      Halves(max, s, lo, hi, h + 1) && Items(s.left) + Items(s.right) == Flat(d) && s.leftFirstKey == d[0].key
  {
    var mid := |d| / 2;
    FlatHalves(d, mid);
    TightHalves(max, d, mid, lo, hi, h);
    MiddleName(max, d, mid, lo, hi, h);
  }

  lemma TightHalves<V>(max: nat, d: Dir<Node<V>>, mid: nat, lo: Option<Key>, hi: Option<Key>, h: nat)
    requires TightKids(max, d, lo, hi, h) && 0 < mid < |d| && mid <= max && |d| - mid <= max
    ensures Tight(max, Internal(d[..mid]), lo, Some(d[mid].key), h + 1)
    ensures Tight(max, Internal(d[mid..]), Some(d[mid].key), hi, h + 1)
  {
    TightPrefix(max, d, mid, lo, hi, h);
    TightSuffix(max, d, mid, lo, hi, h);
    InternalTight(max, d[..mid], lo, Some(d[mid].key), h);
    InternalTight(max, d[mid..], Some(d[mid].key), hi, h);
  }

  lemma FirstOfTight<V>(max: nat, n: Node<V>, lo: Key, hi: Option<Key>, h: nat)
    requires Tight(max, n, Some(lo), hi, h)
    ensures First(n) == lo
  {
  }

  lemma ReplaceChild<V>(max: nat, d: Dir<Node<V>>, i: nat, c: Node<V>, lo: Option<Key>, hi: Option<Key>, h: nat)
    requires TightKids(max, d, lo, hi, h) && i < |d|
    requires Tight(max, c, Lo(d, i, lo), Hi(d, i, hi), h) && Leq(First(c), First(d[i].val))
    ensures TightKids(max, d[i := Entry(d[i].key, c)], lo, hi, h)
  {
    var d' := d[i := Entry(d[i].key, c)];
    ListingUpdate(d, i, c);
    LeqChains(First(c), First(d[i].val), d[i].key);
    forall j | 0 <= j < |d'| ensures Tight(max, d'[j].val, Lo(d', j, lo), Hi(d', j, hi), h) {
      UpdateBounds(d, i, c, j, lo, hi);
    }
  }

  /** Setting the entry of an existing child replaces it in place. */
  lemma SetChild<V>(d: Dir<Node<V>>, i: nat, c: Node<V>)
    requires Listing(d) && i < |d|
    ensures var d' := d[i := Entry(d[i].key, c)];
      SetEntry(d, d[i].key, c) == d' && Listing(d') && Flat(d') == Flat(d[..i]) + Items(c) + Flat(d[i + 1..])
  {
    NamesInOrder(d, i);
    Neighbours(d, i);
    ListingUpdate(d, i, c);
    PutInside(d[..i], [d[i]], d[i + 1..], d[i].key, c);
    var d' := d[i := Entry(d[i].key, c)];
    assert d' == d[..i] + [Entry(d[i].key, c)] + d[i + 1..];
    FlatAround(d', i);
  }

  /** The directory after a child has split: its entry gives way to the two halves. */
  lemma SplitChildShape<T>(a: Dir<T>, e: Entry<T>, b: Dir<T>, x: T, l: Entry<T>, r: Entry<T>)
    requires AllBelow(a, e.key) && AllAbove(e.key, b) && e.key != []
    requires AllBelow(a, l.key) && Less(l.key, r.key) && AllAbove(r.key, b) && l.key != []
    ensures SetEntry(SetEntry(Drop(SetEntry(a + [e] + b, e.key, x), e.key), l.key, l.val), r.key, r.val)
            == a + [l, r] + b
  {
    PutInside(a, [e], b, e.key, x);
    DropInside(a, [Entry(e.key, x)], b, e.key);
    assert SetEntry(a + [e] + b, e.key, x) == a + [Entry(e.key, x)] + b;
    assert Drop([Entry(e.key, x)], e.key) == [];
    assert Drop(a + [Entry(e.key, x)] + b, e.key) == a + [] + b;
    AddHalves(a, b, l, r);
  }

  lemma AddHalves<T>(a: Dir<T>, b: Dir<T>, l: Entry<T>, r: Entry<T>)
    requires AllBelow(a, l.key) && Less(l.key, r.key) && AllAbove(r.key, b) && l.key != []
    ensures SetEntry(SetEntry(a + [] + b, l.key, l.val), r.key, r.val) == a + [l, r] + b
  {
    forall i | 0 <= i < |b| ensures Less(l.key, b[i].key) {
      LessTransitive(l.key, r.key, b[i].key);
    }
    PutInside(a, [], b, l.key, l.val);
    forall i | 0 <= i < |a| ensures Less(a[i].key, r.key) {
      LessTransitive(a[i].key, l.key, r.key);
    }
    LessTotal(l.key, r.key);
    PutInside(a, [l], b, r.key, r.val);
    assert [l][1..] == [];
    assert Put([l], r.key, r.val) == [l, r];
  }

  ghost predicate Halves<V>(max: nat, s: Split<V>, lo: Option<Key>, hi: Option<Key>, h: nat) {
    && Tight(max, s.left, lo, Some(s.rightFirstKey), h)
    && Tight(max, s.right, Some(s.rightFirstKey), hi, h)
    && s.leftFirstKey == First(s.left) && s.leftFirstKey != []
    && Less(s.leftFirstKey, s.rightFirstKey)
    && (hi.Some? ==> Less(s.rightFirstKey, hi.value))
  }

  function TwoEntries<V>(s: Split<V>): Dir<Node<V>> {
    [Entry(s.leftFirstKey, s.left), Entry(s.rightFirstKey, s.right)]
  }

  lemma HalvesInOrder<V>(max: nat, d: Dir<Node<V>>, i: nat, s: Split<V>, lo: Option<Key>, hi: Option<Key>, h: nat)
    requires Sorted(d) && i < |d| && Halves(max, s, Lo(d, i, lo), Hi(d, i, hi), h)
    ensures i > 0 ==> s.leftFirstKey == d[i].key
    ensures AllBelow(d[..i], s.leftFirstKey) && AllAbove(s.rightFirstKey, d[i + 1..])
  {
    if i > 0 {
      FirstOfTight(max, s.left, d[i].key, Some(s.rightFirstKey), h);
    }
    forall j | i + 1 <= j < |d| ensures Less(s.rightFirstKey, d[j].key) {
      if j > i + 1 {
        LessTransitive(s.rightFirstKey, d[i + 1].key, d[j].key);
      }
    }
  }

  lemma SplitChild<V>(max: nat, d: Dir<Node<V>>, i: nat, s: Split<V>, lo: Option<Key>, hi: Option<Key>, h: nat)
    requires TightKids(max, d, lo, hi, h) && i < |d|
    requires Halves(max, s, Lo(d, i, lo), Hi(d, i, hi), h)
    requires Leq(s.leftFirstKey, First(d[i].val))
    ensures var d' := d[..i] + TwoEntries(s) + d[i + 1..];
      TightKids(max, d', lo, hi, h) && Leq(d'[0].key, d[0].key)
  {
    HalvesInOrder(max, d, i, s, lo, hi, h);
    SplitChildOrder(d, i, TwoEntries(s)[0], TwoEntries(s)[1]);
    SplitChildKids(max, d, i, s, lo, hi, h);
    SplitChildEdges(max, d, i, s, lo, hi, h);
  }

  lemma SplitChildEdges<V>(max: nat, d: Dir<Node<V>>, i: nat, s: Split<V>, lo: Option<Key>, hi: Option<Key>, h: nat)
    requires TightKids(max, d, lo, hi, h) && i < |d|
    requires Halves(max, s, Lo(d, i, lo), Hi(d, i, hi), h)
    requires Leq(s.leftFirstKey, First(d[i].val))
    ensures var d' := d[..i] + TwoEntries(s) + d[i + 1..];
      && d'[0].key != [] && Leq(d'[0].key, d[0].key) && Leq(First(d'[0].val), d'[0].key)
      && (lo.Some? ==> d'[0].key == lo.value)
      && (hi.Some? ==> Less(d'[|d'| - 1].key, hi.value))
  {
    LeqChains(s.leftFirstKey, First(d[i].val), d[i].key);
    LessTotal(s.leftFirstKey, s.leftFirstKey);
    LessTotal(d[0].key, d[0].key);
    if i == 0 && lo.Some? {
      FirstOfTight(max, s.left, lo.value, Some(s.rightFirstKey), h);
    }
  }

  /** The bounds of the children around a split one. */
  lemma SplitBounds<V>(d: Dir<Node<V>>, i: nat, s: Split<V>, j: nat, lo: Option<Key>, hi: Option<Key>)
    requires i < |d| && j <= |d|
    ensures var e := d[..i] + TwoEntries(s) + d[i + 1..];
      && |e| == |d| + 1
      && (j < i ==> e[j] == d[j] && Lo(e, j, lo) == Lo(d, j, lo))
      && (j + 1 < i ==> Hi(e, j, hi) == Hi(d, j, hi))
      && (j + 1 == i ==> Hi(e, j, hi) == Some(s.leftFirstKey))
      && (j == i ==> e[j] == TwoEntries(s)[0] && Hi(e, j, hi) == Some(s.rightFirstKey)
                     && Lo(e, j, lo) == if i == 0 then lo else Some(s.leftFirstKey))
      && (j == i + 1 ==> e[j] == TwoEntries(s)[1] && Lo(e, j, lo) == Some(s.rightFirstKey) && Hi(e, j, hi) == Hi(d, i, hi))
      && (j > i + 1 ==> e[j] == d[j - 1] && Lo(e, j, lo) == Lo(d, j - 1, lo) && Hi(e, j, hi) == Hi(d, j - 1, hi))
  {
  }

  lemma SplitChildKids<V>(max: nat, d: Dir<Node<V>>, i: nat, s: Split<V>, lo: Option<Key>, hi: Option<Key>, h: nat)
    requires i < |d| && forall j :: 0 <= j < |d| ==> Tight(max, d[j].val, Lo(d, j, lo), Hi(d, j, hi), h)
    requires Halves(max, s, Lo(d, i, lo), Hi(d, i, hi), h)
    requires i > 0 ==> s.leftFirstKey == d[i].key
    ensures var d' := d[..i] + TwoEntries(s) + d[i + 1..];
      forall j :: 0 <= j < |d'| ==> Tight(max, d'[j].val, Lo(d', j, lo), Hi(d', j, hi), h)
  {
    var d' := d[..i] + TwoEntries(s) + d[i + 1..];
    forall j | 0 <= j < |d'| ensures Tight(max, d'[j].val, Lo(d', j, lo), Hi(d', j, hi), h) {
      SplitBounds(d, i, s, j, lo, hi);
    }
  }

  lemma FlatTwo<V>(a: Dir<Node<V>>, s: Split<V>, b: Dir<Node<V>>)
    ensures Flat(a + TwoEntries(s) + b) == Flat(a) + (Items(s.left) + Items(s.right)) + Flat(b)
  {
    var t := TwoEntries(s);
    FlatAppend(a + t, b);
    FlatAppend(a, t);
    assert t[1..] == [t[1]] && t[1..][1..] == [];
    assert Flat(t[1..]) == Items(s.right);
  }

  lemma SplitChildOrder<T>(d: Dir<T>, i: nat, l: Entry<T>, r: Entry<T>)
    requires Sorted(d) && i < |d|
    requires AllBelow(d[..i], l.key) && Less(l.key, r.key) && AllAbove(r.key, d[i + 1..])
    ensures Sorted(d[..i] + [l, r] + d[i + 1..])
  {
    var d' := d[..i] + [l, r] + d[i + 1..];
    forall a, b | 0 <= a < b < |d'| ensures Less(d'[a].key, d'[b].key) {
      if a < i {
        assert d'[a] == d[..i][a];
        if b == i + 1 {
          LessTransitive(d[a].key, l.key, r.key);
        } else if b > i + 1 {
          assert d'[b] == d[b - 1];
        }
      } else if b > i + 1 {
        assert d'[b] == d[i + 1..][b - i - 2] == d[b - 1];
        if a == i {
          LessTransitive(l.key, r.key, d[b - 1].key);
        } else if a > i + 1 {
          assert d'[a] == d[a - 1];
        }
      }
    }
  }

  lemma {:induction false} InsertGrows<V>(max: nat, n: Node<V>, k: Key, v: V,
                                          lo: Option<Key>, hi: Option<Key>, h: nat)
    requires max >= 1 && k != [] && Tight(max, n, lo, hi, h) && Within(k, lo, hi)
    ensures Grown(max, InsertRecursive(max, n, k, v), n, k, v, lo, hi, h)
    decreases n
  {
    if n.Leaf? {
      PutWithin(n.items, k, v, lo, hi);
      PutEntries(n.items, k, v);
      if |Put(n.items, k, v)| > max {
        SplitLeafTight(max, Put(n.items, k, v), lo, hi);
      }
    } else {
      InsertGrowsBelow(max, n.kids, k, v, lo, hi, h - 1);
    }
  }

  lemma {:induction false} InsertGrowsBelow<V>(max: nat, d: Dir<Node<V>>, k: Key, v: V,
                                               lo: Option<Key>, hi: Option<Key>, h: nat)
    requires max >= 1 && k != [] && |d| <= max && TightKids(max, d, lo, hi, h) && Within(k, lo, hi)
    ensures Grown(max, InsertRecursive(max, Internal(d), k, v), Internal(d), k, v, lo, hi, h + 1)
    decreases d
  {
    var i := FindChild(d, k);
    var c := d[i].val;
    TightIsWeak(max, Internal(d), lo, hi, h + 1);
    AroundChild(d, k, lo, hi);
    assert Tight(max, c, Lo(d, i, lo), Hi(d, i, hi), h);
    InsertGrows(max, c, k, v, Lo(d, i, lo), Hi(d, i, hi), h);
    PutInside(Flat(d[..i]), Items(c), Flat(d[i + 1..]), k, v);
    var r := InsertRecursive(max, c, k, v);
    if r.split.None? {
      KidFits(max, d, i, r.node, k, v, lo, hi, h);
    } else {
      KidSplits(max, d, i, r, k, v, lo, hi, h);
    }
  }

  lemma KidFits<V>(max: nat, d: Dir<Node<V>>, i: nat, c: Node<V>, k: Key, v: V,
                   lo: Option<Key>, hi: Option<Key>, h: nat)
    requires i < |d| <= max && TightKids(max, d, lo, hi, h)
    requires Tight(max, c, Lo(d, i, lo), Hi(d, i, hi), h) && Leq(First(c), First(d[i].val))
    requires Put(Flat(d), k, v) == Flat(d[..i]) + Items(c) + Flat(d[i + 1..])
    ensures Grown(max, Inserted(Internal(SetEntry(d, d[i].key, c)), None), Internal(d), k, v, lo, hi, h + 1)
    ensures |SetEntry(d, d[i].key, c)| == |d|
  {
    SetChild(d, i, c);
    ReplaceChild(max, d, i, c, lo, hi, h);
    LessTotal(d[0].key, d[0].key);
  }

  lemma KidSplits<V>(max: nat, d: Dir<Node<V>>, i: nat, r: Inserted<V>, k: Key, v: V,
                     lo: Option<Key>, hi: Option<Key>, h: nat)
    requires max >= 1 && i < |d| <= max && TightKids(max, d, lo, hi, h)
    requires r.split.Some? && Halves(max, r.split.value, Lo(d, i, lo), Hi(d, i, hi), h)
    requires Leq(r.split.value.leftFirstKey, First(d[i].val))
    requires Put(Flat(d), k, v)
          == Flat(d[..i]) + (Items(r.split.value.left) + Items(r.split.value.right)) + Flat(d[i + 1..])
    ensures var s := r.split.value;
      var d' := SetEntry(SetEntry(Drop(SetEntry(d, d[i].key, r.node), d[i].key), s.leftFirstKey, s.left),
                         s.rightFirstKey, s.right);
      Grown(max, Inserted(Internal(d'), if |d'| > max then Some(SplitInternal(d')) else None),
            Internal(d), k, v, lo, hi, h + 1)
  {
    var s := r.split.value;
    var d' := d[..i] + TwoEntries(s) + d[i + 1..];
    HalvesInOrder(max, d, i, s, lo, hi, h);
    KidSplitsShape(d, i, r.node, s);
    SplitChild(max, d, i, s, lo, hi, h);
    FlatTwo(d[..i], s, d[i + 1..]);
    KidSplitsGrown(max, d, d', k, v, lo, hi, h);
  }

  lemma KidSplitsShape<V>(d: Dir<Node<V>>, i: nat, x: Node<V>, s: Split<V>)
    requires Listing(d) && i < |d| && s.leftFirstKey != [] && Less(s.leftFirstKey, s.rightFirstKey)
    requires AllBelow(d[..i], s.leftFirstKey) && AllAbove(s.rightFirstKey, d[i + 1..])
    ensures SetEntry(SetEntry(Drop(SetEntry(d, d[i].key, x), d[i].key), s.leftFirstKey, s.left),
                     s.rightFirstKey, s.right)
            == d[..i] + TwoEntries(s) + d[i + 1..]
  {
    NamesInOrder(d, i);
    Neighbours(d, i);
    SplitChildShape(d[..i], d[i], d[i + 1..], x, TwoEntries(s)[0], TwoEntries(s)[1]);
    assert TwoEntries(s) == [TwoEntries(s)[0], TwoEntries(s)[1]];
  }

  lemma KidSplitsGrown<V>(max: nat, d: Dir<Node<V>>, d': Dir<Node<V>>, k: Key, v: V,
                          lo: Option<Key>, hi: Option<Key>, h: nat)
    requires max >= 1 && d != [] && |d'| <= max + 1 && TightKids(max, d', lo, hi, h)
    requires Leq(d'[0].key, d[0].key) && Flat(d') == Put(Flat(d), k, v)
    ensures Grown(max, Inserted(Internal(d'), if |d'| > max then Some(SplitInternal(d')) else None),
                  Internal(d), k, v, lo, hi, h + 1)
  {
    if |d'| > max {
      SplitInternalTight(max, d', lo, hi, h);
    }
  }
}
