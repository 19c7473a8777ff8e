/** Traversals of the B-tree (in order, by range, by prefix), merging, and the loops
    that copy entries into new nodes. Each generator returns the list of what it yields. */
module BTreeRange {
  import opened Wrappers
  import opened Keys
  import opened BTree
  import opened BTreeProofs
  import opened BTreeRuns

  /** The entries with start <= key < end, either bound optional. */
  function Select<V>(d: Dir<V>, start: Option<Key>, end: Option<Key>): Dir<V> {
    if d == [] then []
    else (if Within(d[0].key, start, end) then [d[0]] else []) + Select(d[1..], start, end)
  }

  /** The entries whose key begins with `p`. */
  function BeginningWith<V>(d: Dir<V>, p: Key): Dir<V> {
    if d == [] then [] else (if p <= d[0].key then [d[0]] else []) + BeginningWith(d[1..], p)
  }

  lemma {:induction false} SelectAppend<V>(a: Dir<V>, b: Dir<V>, start: Option<Key>, end: Option<Key>)
    ensures Select(a + b, start, end) == Select(a, start, end) + Select(b, start, end)
  {
    if a == [] {
      assert a + b == b;
    } else {
      assert (a + b)[0] == a[0] && (a + b)[1..] == a[1..] + b;
      SelectAppend(a[1..], b, start, end);
    }
  }

  lemma {:induction false} SelectNothing<V>(d: Dir<V>, start: Option<Key>, end: Option<Key>)
    requires forall i :: 0 <= i < |d| ==> !Within(d[i].key, start, end)
    ensures Select(d, start, end) == []
  {
    if d != [] {
      SelectNothing(d[1..], start, end);
    }
  }

  ghost predicate PartOf<V>(s: Dir<V>, d: Dir<V>, start: Option<Key>, end: Option<Key>) {
    forall i :: 0 <= i < |s| ==> s[i] in d && Within(s[i].key, start, end)
  }

  lemma {:induction false} SelectIsPart<V>(d: Dir<V>, start: Option<Key>, end: Option<Key>)
    ensures PartOf(Select(d, start, end), d, start, end)
    ensures forall e :: e in d && Within(e.key, start, end) ==> e in Select(d, start, end)
  {
    if d != [] {
      SelectIsPart(d[1..], start, end);
      var head := if Within(d[0].key, start, end) then [d[0]] else [];
      var tail := Select(d[1..], start, end);
      assert PartOf(head + tail, d, start, end);
    }
  }

  /** Stopping at the first key at or above `end` loses nothing further right. */
  lemma SelectBeyond<V>(d: Dir<V>, start: Option<Key>, end: Key, at: Key)
    requires Leq(end, at) && AllWithin(d, Some(at), None)
    ensures Select(d, start, Some(end)) == []
  {
    forall i | 0 <= i < |d| ensures !Within(d[i].key, start, Some(end)) {
      LeqChains(end, at, d[i].key);
    }
    SelectNothing(d, start, Some(end));
  }

  /** The `end` test on a node's first name is harmless: where it stops the walk,
      everything in the node is at or above `end`. */
  ghost predicate Covered<V>(n: Node<V>, end: Option<Key>) {
    match n
    case Leaf(d) => true
    case Internal(d) =>
      && d != []
      && (end.Some? && Leq(end.value, d[0].key) ==> AllWithin(Flat(d), end, None))
      && forall i :: 0 <= i < |d| ==> Covered(d[i].val, end)
  }

  predicate StartsBeyond<V>(d: Dir<Node<V>>, end: Option<Key>) {
    d != [] && end.Some? && Leq(end.value, d[0].key)
  }

  /** The trees on which a range walk loses nothing: it passes over an internal node whose
      first name is not below `end`, so nothing below that node may be in range, and it
      reads the others child by child. */
  ghost predicate Exact<V>(n: Node<V>, start: Option<Key>, end: Option<Key>) {
    match n
    case Leaf(d) => true
    case Internal(d) =>
      if StartsBeyond(d, end) then Select(Flat(d), start, end) == []
      else forall i :: 0 <= i < |d| ==> Exact(d[i].val, start, end)
  }

  ghost predicate KidsExact<V>(d: Dir<Node<V>>, i: nat, start: Option<Key>, end: Option<Key>)
    requires i <= |d|
  {
    forall j :: 0 <= j < i ==> Exact(d[j].val, start, end)
  }

  /** What has been yielded of `items`: all that is in range, or less of it. */
  ghost predicate Yields<V>(out: Dir<V>, items: Dir<V>, start: Option<Key>, end: Option<Key>, all: bool) {
    var wanted := Select(items, start, end);
    if all then out == wanted else |out| < |wanted|
  }

  lemma SelectAround<V>(d: Dir<Node<V>>, i: nat, start: Option<Key>, end: Option<Key>)
    requires i < |d| && Select(Flat(d), start, end) == []
    ensures Select(Items(d[i].val), start, end) == []
  {
    FlatAround(d, i);
    SelectAppend(Flat(d[..i]) + Items(d[i].val), Flat(d[i + 1..]), start, end);
    SelectAppend(Flat(d[..i]), Items(d[i].val), start, end);
  }

  /** Where nothing is in range nothing can be lost. */
  lemma {:induction false} EmptyIsExact<V>(n: Node<V>, start: Option<Key>, end: Option<Key>)
    requires Select(Items(n), start, end) == []
    ensures Exact(n, start, end)
    decreases n
  {
    if n.Internal? {
      forall i | 0 <= i < |n.kids| ensures Exact(n.kids[i].val, start, end) {
        SelectAround(n.kids, i, start, end);
        EmptyIsExact(n.kids[i].val, start, end);
      }
    }
  }

  /** Covered trees are among them, whatever the start. */
  lemma {:induction false} CoveredIsExact<V>(n: Node<V>, start: Option<Key>, end: Option<Key>)
    requires Covered(n, end)
    ensures Exact(n, start, end)
    decreases n
  {
    if n.Internal? {
      var d := n.kids;
      if StartsBeyond(d, end) {
        LessTotal(end.value, end.value);
        SelectBeyond(Flat(d), start, end.value, end.value);
      } else {
        forall i | 0 <= i < |d| ensures Exact(d[i].val, start, end) {
          CoveredIsExact(d[i].val, start, end);
        }
      }
    }
  }

  /** What a range walk over `d` has yielded so far. */
  ghost predicate Sound<V>(out: Dir<V>, d: Dir<V>, start: Option<Key>, end: Option<Key>) {
    Sorted(out) && PartOf(out, d, start, end)
  }

  lemma SelectOne<V>(d: Dir<V>, i: nat, start: Option<Key>, end: Option<Key>)
    requires i < |d|
    ensures Select(d[..i + 1], start, end) == Select(d[..i], start, end) + if Within(d[i].key, start, end) then [d[i]] else []
  {
    assert d[..i + 1] == d[..i] + [d[i]];
    SelectAppend(d[..i], [d[i]], start, end);
  }

  /** From an entry at or above `end` on nothing is in range. */
  lemma SelectStops<V>(d: Dir<V>, i: nat, start: Option<Key>, end: Key)
    requires Sorted(d) && i < |d| && Leq(end, d[i].key)
    ensures Select(d, start, Some(end)) == Select(d[..i], start, Some(end))
  {
    assert d == d[..i] + d[i..];
    SelectAppend(d[..i], d[i..], start, Some(end));
    forall j | i <= j < |d| ensures Leq(d[i].key, d[j].key) {
      LessTotal(d[i].key, d[j].key);
    }
    SelectBeyond(d[i..], start, end, d[i].key);
  }

  method LeafRange<V>(d: Dir<V>, start: Option<Key>, end: Option<Key>) returns (out: Dir<V>)
    requires Sorted(d)
    ensures out == Select(d, start, end)
  {
    out := [];
    var i := 0;
    while i < |d|
      invariant 0 <= i <= |d|
      invariant out == Select(d[..i], start, end)
    {
      SelectOne(d, i, start, end);
      if end.Some? && !Less(d[i].key, end.value) && !(start.Some? && Less(d[i].key, start.value)) {
        SelectStops(d, i, start, end.value);
        return;
      }
      if !(start.Some? && Less(d[i].key, start.value)) {
        out := out + [d[i]];
      }
      i := i + 1;
    }
    assert d[..i] == d;
  }

  /** Joining what a child yielded keeps the order. */
  lemma SoundJoin<V>(d: Dir<Node<V>>, i: nat, out: Dir<V>, more: Dir<V>, start: Option<Key>, end: Option<Key>,
                     lo: Option<Key>, hi: Option<Key>)
    requires WeakKids(d, lo, hi) && i < |d|
    requires Sound(out, Flat(d[..i]), start, end) && Sound(more, Items(d[i].val), start, end)
    ensures Sound(out + more, Flat(d[..i + 1]), start, end)
  {
    FlatStep(d, i);
    assert Weak(d[i].val, Lo(d, i, lo), Hi(d, i, hi));
    ItemsOrdered(d[i].val, Lo(d, i, lo), Hi(d, i, hi));
    if i > 0 {
      FlatPrefix(d, i, lo, hi);
      forall a, b | 0 <= a < |out| && 0 <= b < |more| ensures Less(out[a].key, more[b].key) {
        LeqChains(out[a].key, d[i].key, more[b].key);
      }
    } else {
      assert d[..0] == [];
      OnlyEmptyPart(out, start, end);
    }
  }

  lemma OnlyEmptyPart<V>(out: Dir<V>, start: Option<Key>, end: Option<Key>)
    ensures PartOf(out, [], start, end) ==> out == []
  {
    if out != [] {
      var e := out[0];
      assert e !in [];
    }
  }

  lemma FlatStep<V>(d: Dir<Node<V>>, i: nat)
    requires i < |d|
    ensures Flat(d[..i + 1]) == Flat(d[..i]) + Items(d[i].val)
  {
    assert d[..i + 1] == d[..i] + [d[i]];
    FlatAppend(d[..i], [d[i]]);
    assert Flat([d[i]]) == Items(d[i].val);
  }

  /** Skipping a child whose successor's name is at or below `start` loses nothing. */
  lemma SkipChild<V>(d: Dir<Node<V>>, i: nat, start: Key, end: Option<Key>, lo: Option<Key>, hi: Option<Key>)
    requires WeakKids(d, lo, hi) && i + 1 < |d| && Leq(d[i + 1].key, start)
    ensures Select(Items(d[i].val), Some(start), end) == []
  {
    assert Weak(d[i].val, Lo(d, i, lo), Hi(d, i, hi));
    ItemsOrdered(d[i].val, Lo(d, i, lo), Hi(d, i, hi));
    var items := Items(d[i].val);
    forall j | 0 <= j < |items| ensures !Within(items[j].key, Some(start), end) {
      LeqChains(items[j].key, d[i + 1].key, start);
      LessTotal(items[j].key, start);
    }
    SelectNothing(items, Some(start), end);
  }

  /** Everything from a child whose name is at or above `end` is, too. */
  lemma KidBeyond<V>(d: Dir<Node<V>>, j: nat, start: Option<Key>, end: Key, lo: Option<Key>, hi: Option<Key>)
    requires WeakKids(d, lo, hi) && 0 < j < |d| && Leq(end, d[j].key)
    ensures Select(Items(d[j].val), start, Some(end)) == [] && Exact(d[j].val, start, Some(end))
  {
    assert Weak(d[j].val, Lo(d, j, lo), Hi(d, j, hi));
    ItemsOrdered(d[j].val, Lo(d, j, lo), Hi(d, j, hi));
    var items := Items(d[j].val);
    forall x | 0 <= x < |items| ensures !Within(items[x].key, start, Some(end)) {
      assert Within(items[x].key, Lo(d, j, lo), Hi(d, j, hi));
      LeqChains(end, d[j].key, items[x].key);
    }
    SelectNothing(items, start, Some(end));
    EmptyIsExact(d[j].val, start, Some(end));
  }

  /** The state of the walk over the children before child `i`: everything in range has been
      yielded, or less if one of these children is not exact. */
  ghost predicate Walked<V>(out: Dir<V>, d: Dir<Node<V>>, i: nat, start: Option<Key>, end: Option<Key>)
    requires i <= |d|
  {
    Sound(out, Flat(d[..i]), start, end) && Yields(out, Flat(d[..i]), start, end, KidsExact(d, i, start, end))
  }

  lemma SelectStep<V>(d: Dir<Node<V>>, i: nat, start: Option<Key>, end: Option<Key>)
    requires i < |d|
    ensures Select(Flat(d[..i + 1]), start, end) == Select(Flat(d[..i]), start, end) + Select(Items(d[i].val), start, end)
  {
    FlatStep(d, i);
    SelectAppend(Flat(d[..i]), Items(d[i].val), start, end);
  }

  lemma PartGrows<V>(out: Dir<V>, a: Dir<V>, b: Dir<V>, start: Option<Key>, end: Option<Key>)
    requires PartOf(out, a, start, end)
    ensures PartOf(out, a + b, start, end)
  {
    forall i | 0 <= i < |out| ensures out[i] in a + b && Within(out[i].key, start, end) {
      assert out[i] in a;
    }
  }

  /** A child with nothing in range adds nothing, read or not. */
  lemma WalkPast<V>(out: Dir<V>, d: Dir<Node<V>>, i: nat, start: Option<Key>, end: Option<Key>)
    requires i < |d| && Walked(out, d, i, start, end)
    requires Select(Items(d[i].val), start, end) == []
    ensures Walked(out, d, i + 1, start, end)
  {
    SelectStep(d, i, start, end);
    FlatStep(d, i);
    PartGrows(out, Flat(d[..i]), Items(d[i].val), start, end);
    EmptyIsExact(d[i].val, start, end);
  }

  lemma {:induction false} WalkStop<V>(out: Dir<V>, d: Dir<Node<V>>, i: nat, start: Option<Key>, end: Key,
                                       lo: Option<Key>, hi: Option<Key>)
    requires WeakKids(d, lo, hi) && 0 < i <= |d| && Walked(out, d, i, start, Some(end))
    requires i < |d| ==> Leq(end, d[i].key)
    ensures Walked(out, d, |d|, start, Some(end))
    decreases |d| - i
  {
    if i < |d| {
      KidBeyond(d, i, start, end, lo, hi);
      WalkPast(out, d, i, start, Some(end));
      if i + 1 < |d| {
        LeqChains(end, d[i].key, d[i + 1].key);
        LessTotal(end, d[i + 1].key);
      }
      WalkStop(out, d, i + 1, start, end, lo, hi);
    }
  }

  lemma WalkVisit<V>(out: Dir<V>, more: Dir<V>, d: Dir<Node<V>>, i: nat, start: Option<Key>, end: Option<Key>,
                     lo: Option<Key>, hi: Option<Key>)
    requires WeakKids(d, lo, hi) && i < |d|
    requires Walked(out, d, i, start, end)
    requires Sound(more, Items(d[i].val), start, end)
    requires Yields(more, Items(d[i].val), start, end, Exact(d[i].val, start, end))
    ensures Walked(out + more, d, i + 1, start, end)
  {
    SelectStep(d, i, start, end);
    SoundJoin(d, i, out, more, start, end, lo, hi);
    assert KidsExact(d, i + 1, start, end) <==> KidsExact(d, i, start, end) && Exact(d[i].val, start, end);
  }

  lemma NamesRise<T>(d: Dir<T>, i: nat, end: Key)
    requires Sorted(d) && i < |d| && Leq(end, d[0].key)
    ensures Leq(end, d[i].key)
  {
    if i > 0 {
      LeqChains(end, d[0].key, d[i].key);
      LessTotal(end, d[i].key);
    }
  }

  /** The range walk yields only keys in range, in strict order, and all of them if and only
      if the tree is exact for the range; below the first name of an internal root it yields
      nothing. */
  method RangeLinkTraverse<V>(n: Node<V>, start: Option<Key>, end: Option<Key>, ghost lo: Option<Key>, ghost hi: Option<Key>)
    returns (out: Dir<V>)
    requires Weak(n, lo, hi) || n == Leaf([])
    ensures Sound(out, Items(n), start, end)
    ensures out == Select(Items(n), start, end) <==> Exact(n, start, end)
    ensures |out| < |Select(Items(n), start, end)| <==> !Exact(n, start, end)
    ensures n.Internal? && end.Some? && Leq(end.value, First(n)) ==> out == []
    decreases n, 2
  {
    match n
    case Leaf(d) =>
      out := LeafRange(d, start, end);
      SelectIsPart(d, start, end);
      SelectSorted(d, start, end);
    case Internal(d) =>
      out := KidsRange(d, start, end, lo, hi);
      assert d[..|d|] == d;
  }

  /** Where the walk is before child `i`: it yields nothing from a node that starts beyond
      `end`. */
  ghost predicate WalkedTo<V>(out: Dir<V>, d: Dir<Node<V>>, i: nat, start: Option<Key>, end: Option<Key>)
    requires i <= |d|
  {
    if StartsBeyond(d, end) then out == [] else Walked(out, d, i, start, end)
  }

  lemma WalkStarts<V>(out: Dir<V>, d: Dir<Node<V>>, i: nat, start: Option<Key>, end: Option<Key>)
    requires out == [] && i == 0
    ensures WalkedTo(out, d, i, start, end)
  {
    assert d[..i] == [];
  }

  /** One round of the walk over the children: skip, stop or visit. */
  method WalkChild<V>(d: Dir<Node<V>>, i: nat, out: Dir<V>, start: Option<Key>, end: Option<Key>,
                      ghost lo: Option<Key>, ghost hi: Option<Key>)
    returns (next: Dir<V>, stop: bool)
    requires Weak(Internal(d), lo, hi) && i < |d| && WalkedTo(out, d, i, start, end)
    ensures WalkedTo(next, d, if stop then |d| else i + 1, start, end)
    decreases d, 0
  {
    if start.Some? && i + 1 < |d| && Leq(d[i + 1].key, start.value) {
      SkipChild(d, i, start.value, end, lo, hi);
      if !StartsBeyond(d, end) { WalkPast(out, d, i, start, end); }
      return out, false;
    }
    if StartsBeyond(d, end) {
      NamesRise(d, i, end.value);
    }
    if end.Some? && Leq(end.value, d[i].key) {
      if !StartsBeyond(d, end) { WalkStop(out, d, i, start, end.value, lo, hi); }
      return out, true;
    }
    assert Weak(d[i].val, Lo(d, i, lo), Hi(d, i, hi));
    var more := RangeLinkTraverse(d[i].val, start, end, Lo(d, i, lo), Hi(d, i, hi));
    WalkVisit(out, more, d, i, start, end, lo, hi);
    return out + more, false;
  }

  /** The branch of the walk for an internal node. */
  method KidsRange<V>(d: Dir<Node<V>>, start: Option<Key>, end: Option<Key>, ghost lo: Option<Key>, ghost hi: Option<Key>)
    returns (out: Dir<V>)
    requires Weak(Internal(d), lo, hi)
    ensures WalkedTo(out, d, |d|, start, end)
    decreases d, 1
  {
    out := [];
    var i := 0;
    var stop := false;
    ghost var reached := i;
    WalkStarts(out, d, i, start, end);
    while i < |d| && !stop
      invariant 0 <= i <= |d| && reached == if stop then |d| else i
      invariant WalkedTo(out, d, reached, start, end)
      decreases |d| - i
    {
      out, stop := WalkChild(d, i, out, start, end, lo, hi);
      i := i + 1;
      reached := if stop then |d| else i;
    }
  }

  lemma {:induction false} SelectSorted<V>(d: Dir<V>, start: Option<Key>, end: Option<Key>)
    requires Sorted(d)
    ensures Sorted(Select(d, start, end))
  {
    if d != [] {
      var s := Select(d[1..], start, end);
      SelectSorted(d[1..], start, end);
      SelectIsPart(d[1..], start, end);
      forall i | 0 <= i < |s| ensures Less(d[0].key, s[i].key) {
        assert s[i] in d[1..];
      }
    }
  }

  // ------------------------------------------------ when a tree is covered

  /** An insert-built tree is covered for every `end` above the root's first name. */
  lemma {:induction false} TightIsCovered<V>(max: nat, n: Node<V>, lo: Option<Key>, hi: Option<Key>, h: nat, end: Option<Key>)
    requires Tight(max, n, lo, hi, h)
    requires lo.Some? || end.None? || Less(First(n), end.value)
    ensures Covered(n, end)
    decreases n
  {
    if n.Internal? {
      var d := n.kids;
      forall i | 0 <= i < |d| ensures Covered(d[i].val, end) {
        assert Tight(max, d[i].val, Lo(d, i, lo), Hi(d, i, hi), h - 1);
        if i == 0 && end.Some? {
          LeqChains(First(d[0].val), d[0].key, end.value);
        }
        TightIsCovered(max, d[i].val, Lo(d, i, lo), Hi(d, i, hi), h - 1, end);
      }
      if lo.Some? && end.Some? && Leq(end.value, lo.value) {
        TightIsWeak(max, n, lo, hi, h);
        ItemsOrdered(n, lo, hi);
        AllAtLeast(Flat(d), lo.value, hi, end.value);
      }
    }
  }

  lemma AllAtLeast<T>(d: Dir<T>, lo: Key, hi: Option<Key>, end: Key)
    requires AllWithin(d, Some(lo), hi) && Leq(end, lo)
    ensures AllWithin(d, Some(end), None)
  {
    forall i | 0 <= i < |d| ensures Within(d[i].key, Some(end), None) {
      LeqChains(end, lo, d[i].key);
    }
  }

  /** Deletion keeps a tree covered, so ranges stay complete through a delete run. */
  lemma {:induction false} DeleteKeepsCovered<V>(n: Node<V>, k: Key, lo: Option<Key>, hi: Option<Key>, end: Option<Key>)
    requires Weak(n, lo, hi) && Covered(n, end)
    ensures Delete(n, k).Some? ==> Covered(Delete(n, k).value, end)
    decreases n
  {
    if n.Internal? {
      var d := n.kids;
      var i := FindChild(d, k);
      assert Weak(d[i].val, Lo(d, i, lo), Hi(d, i, hi));
      DeleteKeepsCovered(d[i].val, k, Lo(d, i, lo), Hi(d, i, hi), end);
      DeletePrunes(n, k, lo, hi);
      ItemsOrdered(n, lo, hi);
      var r := Delete(d[i].val, k);
      if r.Some? {
        SetChild(d, i, r.value);
        CoveredSubset(d, d[i := Entry(d[i].key, r.value)], k, end);
      } else if |d| > 1 {
        var e := Drop(d, d[i].key);
        assert Delete(n, k) == if e == [] then None else if |e| == 1 then Some(e[0].val) else Some(Internal(e));
        CoveredWithout(d, i, k, lo, hi, end);
      } else {
        DropOne(d, i);
      }
    }
  }

  lemma CoveredWithout<V>(d: Dir<Node<V>>, i: nat, k: Key, lo: Option<Key>, hi: Option<Key>, end: Option<Key>)
    requires WeakKids(d, lo, hi) && Covered(Internal(d), end) && Sorted(Flat(d)) && |d| > 1
    requires i == FindChild(d, k) && Delete(d[i].val, k).None?
    ensures Covered(Internal(Drop(d, d[i].key)), end)
  {
    DropOne(d, i);
    var e := d[..i] + d[i + 1..];
    if i == 0 {
      assert e == d[1..];
      FlatSuffix(d, 1, lo, hi);
      CoveredByName(e, end);
    } else {
      DropVanished(d, i, k, lo, hi);
      CoveredSubset(d, e, k, end);
    }
  }

  lemma DropVanished<V>(d: Dir<Node<V>>, i: nat, k: Key, lo: Option<Key>, hi: Option<Key>)
    requires WeakKids(d, lo, hi) && i == FindChild(d, k) && Delete(d[i].val, k).None?
    ensures Flat(d[..i] + d[i + 1..]) == Drop(Flat(d), k)
  {
    AroundChild(d, k, lo, hi);
    KidEmptied(d, i, k, lo, hi);
    DropBetween(Flat(d[..i]), Items(d[i].val), Flat(d[i + 1..]), k);
    FlatAppend(d[..i], d[i + 1..]);
  }

  lemma DropBetween<V>(a: Dir<V>, m: Dir<V>, b: Dir<V>, k: Key)
    requires AllBelow(a, k) && AllAbove(k, b) && Drop(m, k) == []
    ensures Drop(a + m + b, k) == a + b
  {
    DropInside(a, m, b, k);
    assert a + [] + b == a + b;
  }

  lemma KidEmptied<V>(d: Dir<Node<V>>, i: nat, k: Key, lo: Option<Key>, hi: Option<Key>)
    requires WeakKids(d, lo, hi) && i < |d| && Delete(d[i].val, k).None?
    ensures Drop(Items(d[i].val), k) == []
  {
    assert Weak(d[i].val, Lo(d, i, lo), Hi(d, i, hi));
    DeletePrunes(d[i].val, k, Lo(d, i, lo), Hi(d, i, hi));
  }

  lemma CoveredSubset<V>(d: Dir<Node<V>>, e: Dir<Node<V>>, k: Key, end: Option<Key>)
    requires Covered(Internal(d), end) && e != [] && e[0].key == d[0].key
    requires Flat(e) == Drop(Flat(d), k) && Sorted(Flat(d))
    requires forall i :: 0 <= i < |e| ==> Covered(e[i].val, end)
    ensures Covered(Internal(e), end)
  {
    DropIsRemoval(Flat(d), k);
    forall i | 0 <= i < |Flat(e)| && end.Some? && Leq(end.value, d[0].key) ensures Within(Flat(e)[i].key, end, None) {
      assert Flat(e)[i] in Flat(d);
    }
  }

  lemma CoveredByName<V>(e: Dir<Node<V>>, end: Option<Key>)
    requires e != [] && AllWithin(Flat(e), Some(e[0].key), None)
    requires forall i :: 0 <= i < |e| ==> Covered(e[i].val, end)
    ensures Covered(Internal(e), end)
  {
    forall i | 0 <= i < |Flat(e)| && end.Some? && Leq(end.value, e[0].key) ensures Within(Flat(e)[i].key, end, None) {
      LeqChains(end.value, e[0].key, Flat(e)[i].key);
    }
  }

  /** Every internal node of the tree is covered for each `end` above its first name. */
  ghost predicate CoveredAbove<V>(n: Node<V>) {
    match n
    case Leaf(d) => true
    case Internal(d) =>
      && (forall end: Option<Key> :: end.None? || Less(First(n), end.value) ==> Covered(n, end))
      && forall i :: 0 <= i < |d| ==> CoveredAbove(d[i].val)
  }

  lemma {:induction false} TightIsCoveredAbove<V>(max: nat, n: Node<V>, lo: Option<Key>, hi: Option<Key>, h: nat)
    requires Tight(max, n, lo, hi, h)
    ensures CoveredAbove(n)
    decreases n
  {
    if n.Internal? {
      var d := n.kids;
      forall end: Option<Key> | end.None? || Less(First(n), end.value) ensures Covered(n, end) {
        TightIsCovered(max, n, lo, hi, h, end);
      }
      forall i | 0 <= i < |d| ensures CoveredAbove(d[i].val) {
        assert Tight(max, d[i].val, Lo(d, i, lo), Hi(d, i, hi), h - 1);
        TightIsCoveredAbove(max, d[i].val, Lo(d, i, lo), Hi(d, i, hi), h - 1);
      }
    }
  }

  /** A node that deletion has made of a node with a name no higher is covered above
      its own first name. */
  lemma StillCoveredAbove<V>(n: Node<V>, k: Key, e: Dir<Node<V>>, lo: Option<Key>, hi: Option<Key>)
    requires Weak(n, lo, hi) && CoveredAbove(n) && n.Internal? && Delete(n, k) == Some(Internal(e))
    requires e != [] && Leq(n.kids[0].key, e[0].key)
    requires forall j :: 0 <= j < |e| ==> CoveredAbove(e[j].val)
    ensures CoveredAbove(Internal(e))
  {
    forall end: Option<Key> | end.None? || Less(First(Internal(e)), end.value) ensures Covered(Internal(e), end) {
      if end.Some? { LeqChains(n.kids[0].key, e[0].key, end.value); }
      DeleteKeepsCovered(n, k, lo, hi, end);
    }
  }

  lemma KidGone<V>(d: Dir<Node<V>>, i: nat)
    requires Listing(d) && i < |d| && |d| > 1
    requires forall j :: 0 <= j < |d| ==> CoveredAbove(d[j].val)
    ensures var e := Drop(d, d[i].key);
      |e| == |d| - 1 && Leq(d[0].key, e[0].key) && forall j :: 0 <= j < |e| ==> CoveredAbove(e[j].val)
  {
    DropOne(d, i);
    var e := d[..i] + d[i + 1..];
    LessTotal(d[0].key, e[0].key);
    assert e[0] == if i == 0 then d[1] else d[0];
    forall j | 0 <= j < |e| ensures CoveredAbove(e[j].val) {
      assert e[j] == d[if j < i then j else j + 1];
    }
  }

  /** Deletion keeps every node covered above its own first name, wherever that name
      has moved. */
  lemma {:induction false} DeleteKeepsCoveredAbove<V>(n: Node<V>, k: Key, lo: Option<Key>, hi: Option<Key>)
    requires Weak(n, lo, hi) && CoveredAbove(n)
    ensures Delete(n, k).Some? ==> CoveredAbove(Delete(n, k).value)
    decreases n
  {
    if n.Internal? {
      var d := n.kids;
      var i := FindChild(d, k);
      assert Weak(d[i].val, Lo(d, i, lo), Hi(d, i, hi));
      DeleteKeepsCoveredAbove(d[i].val, k, Lo(d, i, lo), Hi(d, i, hi));
      var r := Delete(d[i].val, k);
      if r.Some? {
        SetChild(d, i, r.value);
        LessTotal(d[0].key, d[0].key);
        StillCoveredAbove(n, k, d[i := Entry(d[i].key, r.value)], lo, hi);
      } else if |d| > 1 {
        KidGone(d, i);
        var e := Drop(d, d[i].key);
        if |e| > 1 {
          StillCoveredAbove(n, k, e, lo, hi);
        }
      } else {
        DropOne(d, i);
      }
    }
  }

  /** After any insertions followed by any deletions, the tree at hand is covered for
      every `end` above its own first name. */
  lemma {:induction false} RunIsCoveredAbove<V>(order: nat, ops: seq<(Key, V)>, keys: seq<Key>)
    requires order >= 3
    ensures var root := DeleteAll(InsertAll(order, None, ops), keys); root.Some? ==> CoveredAbove(root.value)
  {
    if keys == [] {
      InsertRun(order, ops);
      var root := InsertAll(order, None, ops);
      if root.Some? && root.value.Internal? {
        TightIsCoveredAbove(order - 1, root.value, None, None, Height(root.value));
      }
    } else {
      var n := |keys| - 1;
      RunIsCoveredAbove(order, ops, keys[..n]);
      DeleteRun(order, ops, keys[..n]);
      var before := DeleteAll(InsertAll(order, None, ops), keys[..n]);
      if before.Some? && before.value.Internal? {
        EmptyContents(before.value, Without(Assigned(ops), keys[..n]));
        DeleteKeepsCoveredAbove(before.value, keys[n], None, None);
      }
    }
  }

  /** When the walk reaches everything: the root is a leaf, or the range has no `end` or
      one above the root's first name. */
  predicate Reaches<V>(root: Node<V>, end: Option<Key>) {
    root.Leaf? || end.None? || Less(First(root), end.value)
  }

  /** After any insertions followed by any deletions, a range is complete if and only if
      the walk of the tree at hand reaches everything, or nothing is in range. */
  method RangeAfterRun<V>(root: Node<V>, start: Option<Key>, end: Option<Key>,
                          ghost order: nat, ghost ops: seq<(Key, V)>, ghost keys: seq<Key>)
    returns (out: Dir<V>)
    requires order >= 3 && Some(root) == DeleteAll(InsertAll(order, None, ops), keys)
    ensures Sound(out, Items(root), start, end)
    ensures out == Select(Items(root), start, end) <==> Reaches(root, end) || Select(Items(root), start, end) == []
    ensures !Reaches(root, end) ==> out == []
  {
    RunIsCoveredAbove(order, ops, keys);
    DeleteRun(order, ops, keys);
    EmptyContents(root, Without(Assigned(ops), keys));
    if Reaches(root, end) && root.Internal? { CoveredIsExact(root, start, end); }
    out := RangeLinkTraverse(root, start, end, None, None);
    if end.Some? { LessTotal(First(root), end.value); }
  }

  /** An ordered listing that represents a map holds exactly the map's pairs. */
  lemma {:induction false} EntriesOfMap<V>(d: Dir<V>, e: Entry<V>)
    requires Sorted(d)
    ensures e in d <==> Find(d, e.key) == Some(e.val)
  {
    if d != [] {
      EntriesOfMap(d[1..], e);
      if d[0].key == e.key {
        LessTotal(e.key, e.key);
        forall i | 1 <= i < |d| ensures d[i] != e {
          assert Less(d[0].key, d[i].key);
        }
      }
    }
  }

  // ------------------------------------------------------------ traversals

  /** In-order traversal yields the contents. */
  method TraverseLinksInOrder<V>(n: Node<V>) returns (out: Dir<V>)
    ensures out == Items(n)
    decreases n
  {
    if n.Leaf? {
      return n.items;
    }
    out := [];
    for i := 0 to |n.kids|
      invariant out == Flat(n.kids[..i])
    {
      FlatStep(n.kids, i);
      var more := TraverseLinksInOrder(n.kids[i].val);
      out := out + more;
    }
    assert n.kids[..|n.kids|] == n.kids;
  }

  lemma {:induction false} PrefixSelect<V>(d: Dir<V>, p: Key)
    requires p != [] && p[|p| - 1] < 0xFFFF
    ensures Select(d, Some(p), Some(IncrementPrefix(p))) == BeginningWith(d, p)
  {
    if d != [] {
      PrefixInterval(p, d[0].key);
      PrefixSelect(d[1..], p);
    }
  }

  /** Prefix search returns only entries whose key begins with the prefix, and all of them if
      and only if the tree is exact for the prefix's interval; for the empty prefix, and for
      one whose last unit wraps around, it returns nothing. */
  method PrefixLinks<V>(root: Node<V>, p: Key) returns (out: Dir<V>)
    requires Readable(root)
    ensures p != [] && p[|p| - 1] < 0xFFFF ==>
      (out == BeginningWith(Items(root), p) <==> Exact(root, Some(p), Some(IncrementPrefix(p))))
    ensures p == [] || p[|p| - 1] == 0xFFFF ==> out == []
    ensures root.Internal? && Leq(IncrementPrefix(p), First(root)) ==> out == []
    ensures p != [] && p[|p| - 1] < 0xFFFF ==> forall i :: 0 <= i < |out| ==> out[i] in Items(root) && p <= out[i].key
  {
    var e := IncrementPrefix(p);
    out := RangeLinkTraverse(root, Some(p), Some(e), None, None);
    if p == [] || p[|p| - 1] == 0xFFFF {
      if out != [] {
        PrefixIntervalEmpty(p, out[0].key);
        assert false;
      }
    } else {
      PrefixSelect(Items(root), p);
      forall i | 0 <= i < |out| ensures p <= out[i].key {
        PrefixInterval(p, out[i].key);
      }
    }
  }

  /** A tree that can be read: one with bounded names, or the empty leaf. */
  ghost predicate Readable<V>(t: Node<V>) {
    Weak(t, None, None) || t == Leaf([])
  }

  lemma ReadableItems<V>(t: Node<V>)
    requires Readable(t)
    ensures Sorted(Items(t)) && forall i :: 0 <= i < |Items(t)| ==> Items(t)[i].key != []
  {
    if t != Leaf([]) {
      ItemsOrdered(t, None, None);
      forall i | 0 <= i < |Items(t)| ensures Items(t)[i].key != [] {
        NamesInOrder(Items(t), i);
      }
    }
  }

  lemma ReadableFind<V>(t: Node<V>, k: Key)
    requires Readable(t)
    ensures Get(t, k) == Find(Items(t), k)
  {
    if t != Leaf([]) {
      GetIsFind(t, k, None, None);
    }
  }

  lemma NotYet<T>(d: Dir<T>, i: nat)
    requires Sorted(d) && i < |d|
    ensures Find(d[..i], d[i].key).None?
  {
    Elsewhere(d[..i], d[i].key);
  }

  // ------------------------------------------------- loops that copy entries

  /** Adding sorted entries one by one to an empty directory, as the splits do. */
  method CopyEntries<T>(d: Dir<T>) returns (node: Dir<T>)
    requires Listing(d)
    ensures node == d
  {
    node := [];
    for i := 0 to |d|
      invariant node == d[..i]
    {
      NamesInOrder(d, i);
      PutAfter(d[..i], [], d[i].key, d[i].val);
      assert d[..i] + [] == d[..i];
      node := SetEntry(node, d[i].key, d[i].val);
      assert d[..i + 1] == d[..i] + [d[i]];
    }
  }

  /** The split of an overfull leaf, entry by entry. */
  method SplitLeafWithLinks<V>(sorted: Dir<V>) returns (s: Split<V>)
    requires Listing(sorted) && |sorted| >= 2
    ensures s == SplitLeaf(sorted)
    ensures Items(s.left) + Items(s.right) == sorted && |Items(s.left)| <= |Items(s.right)| <= |Items(s.left)| + 1
    ensures Less(s.leftFirstKey, s.rightFirstKey)
  {
    var mid := |sorted| / 2;
    NamesInOrder(sorted, mid);
    var left := CopyEntries(sorted[..mid]);
    var right := CopyEntries(sorted[mid..]);
    s := Split(sorted[0].key, Leaf(left), sorted[mid].key, Leaf(right));
  }

  // ------------------------------------------------------- names and keys

  /** The directory as stored: every key replaced by its escaped name. */
  function Names<T>(d: Dir<T>): Dir<T> {
    if d == [] then [] else [Entry(EscapeKey(d[0].key), d[0].val)] + Names(d[1..])
  }

  /** Looking up and removing by escaped name does what looking up and removing by key
      does, and unescaping the stored names gives the keys back. */
  lemma {:induction false} NamesFollowKeys<T>(d: Dir<T>, k: Key)
    ensures Find(Names(d), EscapeKey(k)) == Find(d, k)
    ensures Drop(Names(d), EscapeKey(k)) == Names(Drop(d, k))
    ensures |Names(d)| == |d| && forall i :: 0 <= i < |d| ==> UnescapeKey(Names(d)[i].key) == d[i].key
  {
    if d != [] {
      EscapeRoundTrip(k);
      EscapeRoundTrip(d[0].key);
      NamesFollowKeys(d[1..], k);
    }
  }

  lemma {:induction false} NamesAppend<T>(a: Dir<T>, b: Dir<T>)
    ensures Names(a + b) == Names(a) + Names(b)
  {
    if a == [] {
      assert a + b == b;
    } else {
      assert (a + b)[0] == a[0] && (a + b)[1..] == a[1..] + b;
      NamesAppend(a[1..], b);
    }
  }

  /** `Put` is removal followed by insertion at the place `i` where the order wants it. */
  lemma {:induction false} PutAtPlace<T>(d: Dir<T>, k: Key, x: T) returns (i: nat)
    requires Sorted(d)
    ensures i <= |Drop(d, k)| && Put(d, k, x) == Drop(d, k)[..i] + [Entry(k, x)] + Drop(d, k)[i..]
  {
    i := 0;
    if d != [] {
      LessTotal(d[0].key, k);
      if d[0].key == k {
        AboveRest(d, k);
        Elsewhere(d[1..], k);
      } else if Less(k, d[0].key) {
        AboveRest(d, k);
        Elsewhere(d, k);
      } else {
        var j := PutAtPlace(d[1..], k, x);
        i := j + 1;
        var r := Drop(d[1..], k);
        assert Drop(d, k) == [d[0]] + r;
        assert ([d[0]] + r)[..i] == [d[0]] + r[..j] && ([d[0]] + r)[i..] == r[j..];
      }
    }
  }

  lemma AboveRest<T>(d: Dir<T>, k: Key)
    requires Sorted(d) && d != [] && Leq(k, d[0].key)
    ensures AllAbove(k, d[1..]) && (k != d[0].key ==> AllAbove(k, d))
  {
    LessTotal(k, d[0].key);
    forall i | 1 <= i < |d| ensures Less(k, d[i].key) {
      assert Less(d[0].key, d[i].key);
      LeqChains(k, d[0].key, d[i].key);
    }
  }

  /** Setting an entry keeps exactly the stored entries of the source's edit: those
      with another name, and the new one. */
  lemma SetEntryStored<T>(d: Dir<T>, k: Key, x: T)
    requires Sorted(d)
    ensures multiset(Names(Put(d, k, x))) == multiset(Drop(Names(d), EscapeKey(k))) + multiset{Entry(EscapeKey(k), x)}
  {
    NamesFollowKeys(d, k);
    var i := PutAtPlace(d, k, x);
    var rest := Drop(d, k);
    var n := Entry(EscapeKey(k), x);
    assert rest == rest[..i] + rest[i..];
    NamesAppend(rest[..i] + [Entry(k, x)], rest[i..]);
    NamesAppend(rest[..i], [Entry(k, x)]);
    NamesAppend(rest[..i], rest[i..]);
    assert Names([Entry(k, x)]) == [n];
  }
}
