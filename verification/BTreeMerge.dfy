/**
 Merging two B-trees: the entries of one are inserted into the other, one after the other,
 and the result is right exactly when every insertion made on the way is safe.
 */
module BTreeMerge {
  import opened Wrappers
  import opened Keys
  import opened BTree
  import opened BTreeProofs
  import opened BTreeRuns
  import opened BTreeRange
  import opened BTreeReinsert
  import opened BTreeInterleaved

  /** What `mergeLinks` promises for one key. */
  function Preferred<V>(base: Option<V>, other: Option<V>, preferOther: bool): Option<V> {
    if other.Some? && (base.None? || preferOther) then other else base
  }

  /** Whether an entry goes in. */
  predicate Enters<V>(root: Option<Node<V>>, k: Key, preferOther: bool) {
    GetRoot(root, k).None? || preferOther
  }

  /** The tree after the given entries of the other one. */
  function Merged<V(==)>(order: nat, base: Option<Node<V>>, entries: Dir<V>, preferOther: bool): Option<Node<V>>
    requires order >= 2
  {
    if entries == [] then base
    else
      var before, e := Merged(order, base, entries[..|entries| - 1], preferOther), entries[|entries| - 1];
      if Enters(before, e.key, preferOther) then Some(Insert(order, before, e.key, e.val)) else before
  }

  /** Entry `n`, if it goes in, is safe to insert into the tree that it meets. */
  ghost predicate SafeEntry<V>(order: nat, base: Option<Node<V>>, entries: Dir<V>, preferOther: bool, n: nat)
    requires order >= 2 && n < |entries|
  {
    var before := Merged(order, base, entries[..n], preferOther);
    Enters(before, entries[n].key, preferOther) ==> SafeOp(order, before, InsertOp(entries[n].key, entries[n].val))
  }

  ghost predicate SafeMerge<V>(order: nat, base: Option<Node<V>>, entries: Dir<V>, preferOther: bool)
    requires order >= 2
  {
    forall n :: 0 <= n < |entries| ==> SafeEntry(order, base, entries, preferOther, n)
  }

  /** Every lookup is right after the first `n` entries. */
  ghost predicate RightSoFar<V>(order: nat, base: Option<Node<V>>, entries: Dir<V>, preferOther: bool, n: nat)
    requires order >= 2 && n <= |entries|
  {
    forall k :: GetRoot(Merged(order, base, entries[..n], preferOther), k)
             == Preferred(GetRoot(base, k), Find(entries[..n], k), preferOther)
  }

  ghost predicate RightMerge<V>(order: nat, base: Option<Node<V>>, entries: Dir<V>, preferOther: bool)
    requires order >= 2
  {
    forall n :: 0 <= n <= |entries| ==> RightSoFar(order, base, entries, preferOther, n)
  }

  // ------------------------------------------------------- the map meant

  ghost function MapOf<V>(d: Dir<V>): map<Key, V> {
    if d == [] then map[] else MapOf(d[1..])[d[0].key := d[0].val]
  }

  lemma {:induction false} MapOfFinds<V>(d: Dir<V>, k: Key)
    ensures Lookup(MapOf(d), k) == Find(d, k)
  {
    if d != [] {
      MapOfFinds(d[1..], k);
    }
  }

  lemma ReadableIsShrunk<V>(t: Node<V>)
    requires Readable(t)
    ensures Shrunk(Some(t), MapOf(Items(t)))
  {
    forall k ensures Find(Items(t), k) == Lookup(MapOf(Items(t)), k) {
      MapOfFinds(Items(t), k);
    }
    EmptyContents(t, MapOf(Items(t)));
    if t != Leaf([]) {
      ItemsOrdered(t, None, None);
    }
  }

  ghost function MergedMap<V>(m: map<Key, V>, entries: Dir<V>, preferOther: bool): map<Key, V> {
    if entries == [] then m
    else
      var before, e := MergedMap(m, entries[..|entries| - 1], preferOther), entries[|entries| - 1];
      if e.key !in before || preferOther then before[e.key := e.val] else before
  }

  lemma {:induction false} MergedMapFinds<V>(m: map<Key, V>, entries: Dir<V>, preferOther: bool, k: Key)
    requires Sorted(entries)
    ensures Lookup(MergedMap(m, entries, preferOther), k) == Preferred(Lookup(m, k), Find(entries, k), preferOther)
  {
    if entries != [] {
      var n := |entries| - 1;
      var e := entries[n];
      assert entries == entries[..n] + [e];
      MergedMapFinds(m, entries[..n], preferOther, k);
      FindAppend(entries[..n], [e], k);
      if e.key == k {
        NotYet(entries, n);
      }
    }
  }

  // ------------------------------------------------------------- the theorem

  /** The entries of a tree, in order and with names. */
  ghost predicate Entries<T>(d: Dir<T>) {
    Sorted(d) && forall i :: 0 <= i < |d| ==> d[i].key != []
  }

  lemma SafeMergeParts<V>(order: nat, base: Option<Node<V>>, entries: Dir<V>, preferOther: bool)
    requires order >= 2 && entries != []
    ensures var n := |entries| - 1;
      SafeMerge(order, base, entries, preferOther)
      <==> SafeMerge(order, base, entries[..n], preferOther) && SafeEntry(order, base, entries, preferOther, n)
  {
    var n := |entries| - 1;
    forall i | 0 <= i < n
      ensures SafeEntry(order, base, entries[..n], preferOther, i) <==> SafeEntry(order, base, entries, preferOther, i)
    {
      assert entries[..n][..i] == entries[..i];
    }
  }

  lemma RightMergeParts<V>(order: nat, base: Option<Node<V>>, entries: Dir<V>, preferOther: bool)
    requires order >= 2 && entries != []
    ensures var n := |entries| - 1;
      RightMerge(order, base, entries, preferOther)
      <==> RightMerge(order, base, entries[..n], preferOther) && RightSoFar(order, base, entries, preferOther, |entries|)
  {
    var n := |entries| - 1;
    forall i | 0 <= i <= n
      ensures RightSoFar(order, base, entries[..n], preferOther, i) <==> RightSoFar(order, base, entries, preferOther, i)
    {
      assert entries[..n][..i] == entries[..i];
    }
  }

  /** One entry more: from a right tree the next one is right exactly if the entry is safe. */
  lemma MergeStep<V>(order: nat, base: Option<Node<V>>, m: map<Key, V>, entries: Dir<V>, preferOther: bool)
    requires order >= 3 && Entries(entries) && entries != []
    requires var n := |entries| - 1;
      Shrunk(Merged(order, base, entries[..n], preferOther), MergedMap(m, entries[..n], preferOther))
    ensures var n := |entries| - 1;
      if SafeEntry(order, base, entries, preferOther, n)
      then Shrunk(Merged(order, base, entries, preferOther), MergedMap(m, entries, preferOther))
      else !Right(Merged(order, base, entries, preferOther), MergedMap(m, entries, preferOther))
  {
    var n := |entries| - 1;
    var e := entries[n];
    var before, known := Merged(order, base, entries[..n], preferOther), MergedMap(m, entries[..n], preferOther);
    ShrunkLookup(before, known, e.key);
    if Enters(before, e.key, preferOther) {
      StepIsExact(order, before, known, InsertOp(e.key, e.val));
    }
  }

  lemma RightIsRight<V>(order: nat, base: Option<Node<V>>, m: map<Key, V>, entries: Dir<V>, preferOther: bool)
    requires order >= 3 && Sorted(entries) && forall k :: GetRoot(base, k) == Lookup(m, k)
    ensures RightSoFar(order, base, entries, preferOther, |entries|)
       <==> Right(Merged(order, base, entries, preferOther), MergedMap(m, entries, preferOther))
  {
    assert entries[..|entries|] == entries;
    forall k ensures Lookup(MergedMap(m, entries, preferOther), k) == Preferred(GetRoot(base, k), Find(entries, k), preferOther) {
      MergedMapFinds(m, entries, preferOther, k);
    }
  }

  /** A merge is right all along if and only if every insertion that it makes is safe. */
  lemma {:induction false} MergeExact<V>(order: nat, base: Option<Node<V>>, m: map<Key, V>, entries: Dir<V>, preferOther: bool)
    requires order >= 3 && Shrunk(base, m) && Entries(entries)
    ensures RightMerge(order, base, entries, preferOther) <==> SafeMerge(order, base, entries, preferOther)
    ensures SafeMerge(order, base, entries, preferOther) ==>
      Shrunk(Merged(order, base, entries, preferOther), MergedMap(m, entries, preferOther))
  {
    ShrunkIsRight(base, m);
    if entries == [] {
      RightIsRight(order, base, m, entries, preferOther);
    } else {
      var n := |entries| - 1;
      EntriesPrefix(entries, n);
      MergeExact(order, base, m, entries[..n], preferOther);
      SafeMergeParts(order, base, entries, preferOther);
      RightMergeParts(order, base, entries, preferOther);
      RightIsRight(order, base, m, entries, preferOther);
      if SafeMerge(order, base, entries[..n], preferOther) {
        MergeStep(order, base, m, entries, preferOther);
        if SafeMerge(order, base, entries, preferOther) {
          ShrunkIsRight(Merged(order, base, entries, preferOther), MergedMap(m, entries, preferOther));
        }
      }
    }
  }

  lemma EntriesPrefix<T>(d: Dir<T>, n: nat)
    requires Entries(d) && n <= |d|
    ensures Entries(d[..n])
  {
  }

  /** Merging into an insert-built tree is always safe. */
  lemma {:induction false} TightMerge<V>(order: nat, base: Node<V>, entries: Dir<V>, preferOther: bool)
    requires order >= 3 && WellFormed(order, base)
    ensures SafeMerge(order, Some(base), entries, preferOther)
    ensures var t := Merged(order, Some(base), entries, preferOther); t.Some? && WellFormed(order, t.value)
  {
    if entries != [] {
      var n := |entries| - 1;
      TightMerge(order, base, entries[..n], preferOther);
      SafeMergeParts(order, Some(base), entries, preferOther);
      var t := Merged(order, Some(base), entries[..n], preferOther).value;
      InsertStep(order, t, entries[n].key, entries[n].val);
      WellFormedIsSafe(order, t, entries[n].key);
    }
  }

  lemma WellFormedIsSafe<V>(order: nat, t: Node<V>, k: Key)
    requires order >= 3 && WellFormed(order, t)
    ensures Safe(order - 1, t, k)
  {
    if t != Leaf([]) {
      TightIsSafe(order - 1, t, k, None, None, Height(t));
    }
  }

  /** Merging one readable tree into another. A missing side gives the other. Otherwise the
      lookups are right after every entry if and only if every insertion made is safe, and
      then the result is the union of the two maps, the preferred side winning; into an
      insert-built tree all are safe. */
  method MergeLinks<V(==)>(order: nat, base: Option<Node<V>>, other: Option<Node<V>>, preferOther: bool)
    returns (result: Option<Node<V>>)
    requires order >= 3
    requires base.Some? ==> Readable(base.value)
    requires other.Some? ==> Readable(other.value)
    ensures other.None? ==> result == base
    ensures base.None? ==> result == other
    ensures base.Some? && other.Some? ==>
      && result == Merged(order, base, Items(other.value), preferOther)
      && (RightMerge(order, base, Items(other.value), preferOther) <==> SafeMerge(order, base, Items(other.value), preferOther))
      && (SafeMerge(order, base, Items(other.value), preferOther) ==>
            && result.Some? && Readable(result.value)
            && forall k :: GetRoot(result, k) == Preferred(GetRoot(base, k), GetRoot(other, k), preferOther))
      && (WellFormed(order, base.value) ==>
            && SafeMerge(order, base, Items(other.value), preferOther)
            && result.Some? && WellFormed(order, result.value))
  {
    if other.None? {
      return base;
    }
    if base.None? {
      return other;
    }
    result := base;
    var entries := TraverseLinksInOrder(other.value);
    var i := 0;
    assert entries[..0] == [];
    while i < |entries|
      invariant 0 <= i <= |entries|
      invariant result == Merged(order, base, entries[..i], preferOther)
    {
      assert entries[..i + 1][..i] == entries[..i];
      var existing := GetRoot(result, entries[i].key);
      if existing.None? || preferOther {
        result := Some(Insert(order, result, entries[i].key, entries[i].val));
      }
      i := i + 1;
    }
    assert entries[..i] == entries;
    MergeMeans(order, base.value, other.value, preferOther);
    if WellFormed(order, base.value) {
      TightMerge(order, base.value, entries, preferOther);
    }
  }

  lemma MergeMeans<V>(order: nat, base: Node<V>, other: Node<V>, preferOther: bool)
    requires order >= 3 && Readable(base) && Readable(other)
    ensures RightMerge(order, Some(base), Items(other), preferOther) <==> SafeMerge(order, Some(base), Items(other), preferOther)
    ensures SafeMerge(order, Some(base), Items(other), preferOther) ==>
      var t := Merged(order, Some(base), Items(other), preferOther);
      && t.Some? && Readable(t.value)
      && forall k :: GetRoot(t, k) == Preferred(Get(base, k), Get(other, k), preferOther)
  {
    var entries := Items(other);
    ReadableItems(other);
    ReadableIsShrunk(base);
    MergeExact(order, Some(base), MapOf(Items(base)), entries, preferOther);
    MergedStays(order, base, entries, preferOther);
    if SafeMerge(order, Some(base), entries, preferOther) {
      assert RightSoFar(order, Some(base), entries, preferOther, |entries|);
      assert entries[..|entries|] == entries;
      forall k ensures Get(other, k) == Find(entries, k) {
        ReadableFind(other, k);
      }
    }
  }

  lemma {:induction false} MergedStays<V>(order: nat, base: Node<V>, entries: Dir<V>, preferOther: bool)
    requires order >= 2
    ensures Merged(order, Some(base), entries, preferOther).Some?
  {
    if entries != [] {
      MergedStays(order, base, entries[..|entries| - 1], preferOther);
    }
  }
}
