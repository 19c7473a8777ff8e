/**
 The persistent B-tree of CID links: insertion with splits, lookup and deletion.
 A node is an immutable value; an update returns a new root.
 */
module BTree {
  import opened Wrappers
  import opened Keys

  /** A directory listing in key order. Names are stored escaped; working on the
      names and working on the keys come to the same, see `NamesFollowKeys`. */
  datatype Entry<+T> = Entry(key: Key, val: T)

  type Dir<+T> = seq<Entry<T>>

  datatype Node<+V> = Leaf(items: Dir<V>) | Internal(kids: Dir<Node<V>>)

  datatype Split<+V> = Split(leftFirstKey: Key, left: Node<V>, rightFirstKey: Key, right: Node<V>)

  datatype Inserted<+V> = Inserted(node: Node<V>, split: Option<Split<V>>)

  // ------------------------------------------------------- directory edits

  function Find<T>(d: Dir<T>, k: Key): Option<T> {
    if d == [] then None else if d[0].key == k then Some(d[0].val) else Find(d[1..], k)
  }

  /** Replace the entry named `k`, or add it at its place in the order. */
  function Put<T>(d: Dir<T>, k: Key, x: T): Dir<T> {
    if d == [] then [Entry(k, x)]
    else if d[0].key == k then [Entry(k, x)] + d[1..]
    else if Less(k, d[0].key) then [Entry(k, x)] + d
    else [d[0]] + Put(d[1..], k, x)
  }

  function Drop<T>(d: Dir<T>, k: Key): Dir<T> {
    if d == [] then [] else if d[0].key == k then Drop(d[1..], k) else [d[0]] + Drop(d[1..], k)
  }

  /** Set an entry, as the next listing shows it: an entry without a name is never listed. */
  function SetEntry<T>(d: Dir<T>, k: Key, x: T): Dir<T> {
    if k == [] then d else Put(d, k, x)
  }

  // ------------------------------------------------------------ operations

  /** The child to descend into: the last one whose successor's name is still above `k`. */
  function FindChild<T>(d: Dir<T>, k: Key, i: nat := 0): (r: nat)
    requires i < |d|
    ensures i <= r < |d|
    ensures r > i ==> Leq(d[r].key, k)
    ensures r + 1 < |d| ==> Less(k, d[r + 1].key)
    decreases |d| - i
  {
    if i + 1 < |d| && !Less(k, d[i + 1].key) then FindChild(d, k, i + 1) else i
  }

  /** An empty directory counts as a leaf, whatever it was. */
  predicate IsLeaf<V>(n: Node<V>) {
    n.Leaf? || n.kids == []
  }

  function LeafItems<V>(n: Node<V>): Dir<V>
    requires IsLeaf(n)
  {
    if n.Leaf? then n.items else []
  }

  function Get<V>(n: Node<V>, k: Key): Option<V> {
    if IsLeaf(n) then Find(LeafItems(n), k) else Get(n.kids[FindChild(n.kids, k)].val, k)
  }

  function SplitLeaf<V>(d: Dir<V>): Split<V>
    requires |d| >= 2
  {
    var mid := |d| / 2;
    Split(d[0].key, Leaf(d[..mid]), d[mid].key, Leaf(d[mid..]))
  }

  function SplitInternal<V>(d: Dir<Node<V>>): Split<V>
    requires |d| >= 2
  {
    var mid := |d| / 2;
    Split(d[0].key, Internal(d[..mid]), d[mid].key, Internal(d[mid..]))
  }

  function InsertRecursive<V>(maxKeys: nat, n: Node<V>, k: Key, v: V): Inserted<V>
    requires maxKeys >= 1
  {
    if IsLeaf(n) then
      var d := SetEntry(LeafItems(n), k, v);
      Inserted(Leaf(d), if |d| > maxKeys then Some(SplitLeaf(d)) else None)
    else
      var child := n.kids[FindChild(n.kids, k)];
      var result := InsertRecursive(maxKeys, child.val, k, v);
      var d := SetEntry(n.kids, child.key, result.node);
      var d' := if result.split.None? then d
                else SetEntry(SetEntry(Drop(d, child.key), result.split.value.leftFirstKey, result.split.value.left),
                              result.split.value.rightFirstKey, result.split.value.right);
      Inserted(Internal(d'), if |d'| > maxKeys then Some(SplitInternal(d')) else None)
  }

  /** Insert a link; a missing root becomes a one-entry leaf and a split root grows a level. */
  function Insert<V(==)>(order: nat, root: Option<Node<V>>, k: Key, v: V): Node<V>
    requires order >= 2
  {
    if root.None? then Leaf(SetEntry([], k, v))
    else if Get(root.value, k) == Some(v) then root.value
    else
      var result := InsertRecursive(order - 1, root.value, k, v);
      if result.split.None? then result.node
      else
        var s := result.split.value;
        Internal(SetEntry(SetEntry([], s.leftFirstKey, s.left), s.rightFirstKey, s.right))
  }

  /** Remove a key; `None` stands for the null root. */
  function Delete<V>(n: Node<V>, k: Key): Option<Node<V>> {
    if IsLeaf(n) then
      if Find(LeafItems(n), k).None? then Some(n)
      else
        var d := Drop(LeafItems(n), k);
        if d == [] then None else Some(Leaf(d))
    else
      var child := n.kids[FindChild(n.kids, k)];
      var newChild := Delete(child.val, k);
      if newChild.None? then
        var d := Drop(n.kids, child.key);
        if d == [] then None
        else if |d| == 1 then Some(d[0].val)
        else Some(Internal(d))
      else Some(Internal(SetEntry(n.kids, child.key, newChild.value)))
  }

  /** A run of insertions, from a possibly missing root. */
  function InsertAll<V(==)>(order: nat, root: Option<Node<V>>, ops: seq<(Key, V)>): Option<Node<V>>
    requires order >= 2
  {
    if ops == [] then root
    else
      var before := InsertAll(order, root, ops[..|ops| - 1]);
      Some(Insert(order, before, ops[|ops| - 1].0, ops[|ops| - 1].1))
  }

  function DeleteRoot<V>(root: Option<Node<V>>, k: Key): Option<Node<V>> {
    if root.None? then None else Delete(root.value, k)
  }

  function DeleteAll<V>(root: Option<Node<V>>, keys: seq<Key>): Option<Node<V>> {
    if keys == [] then root else DeleteRoot(DeleteAll(root, keys[..|keys| - 1]), keys[|keys| - 1])
  }

  function GetRoot<V>(root: Option<Node<V>>, k: Key): Option<V> {
    if root.None? then None else Get(root.value, k)
  }

  // ---------------------------------------------------------- specification

  function Lookup<V>(m: map<Key, V>, k: Key): Option<V> {
    if k in m then Some(m[k]) else None
  }

  /** The map a run of insertions stands for: the last value of every non-empty key. */
  function Assigned<V>(ops: seq<(Key, V)>): map<Key, V> {
    if ops == [] then map[]
    else
      var m, op := Assigned(ops[..|ops| - 1]), ops[|ops| - 1];
      if op.0 == [] then m else m[op.0 := op.1]
  }

  /** The contents of a tree: its leaf entries from left to right. */
  function Items<V>(n: Node<V>): Dir<V>
    decreases n, 1
  {
    match n
    case Leaf(d) => d
    case Internal(d) => Flat(d)
  }

  function Flat<V>(d: Dir<Node<V>>): Dir<V>
    decreases d, 0
  {
    if d == [] then [] else Items(d[0].val) + Flat(d[1..])
  }

  ghost predicate Sorted<T>(d: Dir<T>) {
    forall i, j {:trigger Less(d[i].key, d[j].key)} :: 0 <= i < j < |d| ==> Less(d[i].key, d[j].key)
  }

  /** A non-empty listing in order; the least name is not empty, so none is. */
  ghost predicate Listing<T>(d: Dir<T>) {
    d != [] && d[0].key != [] && Sorted(d)
  }

  predicate Within(k: Key, lo: Option<Key>, hi: Option<Key>) {
    (lo.Some? ==> Leq(lo.value, k)) && (hi.Some? ==> Less(k, hi.value))
  }

  ghost predicate AllWithin<T>(d: Dir<T>, lo: Option<Key>, hi: Option<Key>) {
    forall i :: 0 <= i < |d| ==> Within(d[i].key, lo, hi)
  }

  /** The bounds that child `i` inherits: the leftmost child is not bounded by its own name. */
  ghost function Lo<T>(d: Dir<T>, i: nat, lo: Option<Key>): Option<Key>
    requires i < |d|
  {
    if i == 0 then lo else Some(d[i].key)
  }

  ghost function Hi<T>(d: Dir<T>, i: nat, hi: Option<Key>): Option<Key>
    requires i < |d|
  {
    if i + 1 < |d| then Some(d[i + 1].key) else hi
  }

  /** What lookup and deletion need: no empty nodes, ordered names, and names that
      bound the subtrees between them. */
  ghost predicate Weak<V>(n: Node<V>, lo: Option<Key>, hi: Option<Key>) {
    match n
    case Leaf(d) => Listing(d) && AllWithin(d, lo, hi)
    case Internal(d) =>
      && Listing(d)
      && forall i :: 0 <= i < |d| ==> Weak(d[i].val, Lo(d, i, lo), Hi(d, i, hi))
  }

  /** The first name stored in a node. */
  function First<V>(n: Node<V>): Key {
    match n
    case Leaf(d) => if d == [] then [] else d[0].key
    case Internal(d) => if d == [] then [] else d[0].key
  }

  /** What insertion keeps as well: at most `max` entries a node, all leaves at height
      zero, and on a left edge the first name is the lower bound itself (or, where
      there is none, never above the name the parent stores). */
  ghost predicate Tight<V>(max: nat, n: Node<V>, lo: Option<Key>, hi: Option<Key>, h: nat)
    decreases n, 1
  {
    match n
    case Leaf(d) =>
      h == 0 && |d| <= max && Listing(d) && AllWithin(d, lo, hi) && (lo.Some? ==> First(n) == lo.value)
    case Internal(d) =>
      h > 0 && |d| <= max && TightKids(max, d, lo, hi, h - 1)
  }

  ghost predicate TightKids<V>(max: nat, d: Dir<Node<V>>, lo: Option<Key>, hi: Option<Key>, h: nat)
    decreases d, 0
  {
    && Listing(d)
    && (lo.Some? ==> d[0].key == lo.value)
    && (hi.Some? ==> Less(d[|d| - 1].key, hi.value))
    && Leq(First(d[0].val), d[0].key)
    && forall i :: 0 <= i < |d| ==> Tight(max, d[i].val, Lo(d, i, lo), Hi(d, i, hi), h)
  }
}
