/**
 A store in which listing an author's events finds nothing: the 33 events of a concrete run
 leave a first name in the author index that lies above all of the author's keys.
 */
module EventExample {
  import opened Wrappers
  import opened Keys
  import opened BTree
  import opened EventKeys
  import opened Events
  import opened EventLists

  // -------------------------------------- a split, then a key below all others

  lemma {:induction false} PutBehind<T>(d: Dir<T>, k: Key, x: T)
    requires forall i :: 0 <= i < |d| ==> Less(d[i].key, k)
    ensures Put(d, k, x) == d + [Entry(k, x)] && Find(d, k).None?
  {
    if d != [] {
      LessTotal(d[0].key, k);
      PutBehind(d[1..], k, x);
      assert [d[0]] + (d[1..] + [Entry(k, x)]) == d + [Entry(k, x)];
    }
  }

  lemma {:induction false} AbsentBelow<T>(d: Dir<T>, k: Key)
    requires forall i :: 0 <= i < |d| ==> Less(k, d[i].key)
    ensures Find(d, k).None?
  {
    if d != [] {
      LessTotal(k, d[0].key);
      AbsentBelow(d[1..], k);
    }
  }

  lemma PutInFront<T>(d: Dir<T>, k: Key, x: T)
    requires d != [] && Less(k, d[0].key)
    ensures Put(d, k, x) == [Entry(k, x)] + d
  {
    LessTotal(k, d[0].key);
  }

  function Pairs<T>(d: Dir<T>): (ops: seq<(Key, T)>)
    ensures |ops| == |d| && forall i :: 0 <= i < |d| ==> ops[i] == (d[i].key, d[i].val)
  {
    seq(|d|, i requires 0 <= i < |d| => (d[i].key, d[i].val))
  }

  lemma PairsAppend<T>(d: Dir<T>, n: nat)
    requires |d| == n + 1
    ensures Pairs(d) == Pairs(d[..n]) + [(d[n].key, d[n].val)]
  {
  }

  ghost predicate Ascending<T>(d: Dir<T>) {
    Sorted(d) && forall i :: 0 <= i < |d| ==> d[i].key != []
  }

  lemma AscendingEnd<T>(d: Dir<T>)
    requires Ascending(d) && d != []
    ensures var n := |d| - 1; Ascending(d[..n]) && Put(d[..n], d[n].key, d[n].val) == d && Find(d[..n], d[n].key).None?
    ensures var n := |d| - 1; Pairs(d)[..n] == Pairs(d[..n])
  {
    var n := |d| - 1;
    forall i | 0 <= i < n ensures Less(d[..n][i].key, d[n].key) {
      assert Less(d[i].key, d[n].key);
    }
    PutBehind(d[..n], d[n].key, d[n].val);
  }

  /** Ascending keys fill one leaf until there are `order` of them. */
  lemma {:induction false} FillLeaf<T>(order: nat, d: Dir<T>)
    requires order >= 3 && 0 < |d| < order && Ascending(d)
    ensures InsertAll(order, None, Pairs(d)) == Some(Leaf(d))
  {
    AscendingEnd(d);
    var n := |d| - 1;
    if n > 0 {
      FillLeaf(order, d[..n]);
    }
  }

  function Halved<T>(d: Dir<T>): Node<T>
    requires |d| >= 2
  {
    var mid := |d| / 2;
    Internal([Entry(d[0].key, Leaf(d[..mid])), Entry(d[mid].key, Leaf(d[mid..]))])
  }

  lemma SplitFullLeaf<T>(order: nat, d: Dir<T>)
    requires order >= 3 && |d| == order && Ascending(d)
    ensures InsertAll(order, None, Pairs(d)) == Some(Halved(d))
  {
    AscendingEnd(d);
    var n, mid := |d| - 1, |d| / 2;
    FillLeaf(order, d[..n]);
    assert Less(d[0].key, d[mid].key);
    LessTotal(d[0].key, d[mid].key);
    assert InsertRecursive(order - 1, Leaf(d[..n]), d[n].key, d[n].val) == Inserted(Leaf(d), Some(SplitLeaf(d)));
    var first: Dir<Node<T>> := SetEntry([], d[0].key, Leaf(d[..mid]));
    assert first == [Entry(d[0].key, Leaf(d[..mid]))] && d[mid].key != [];
    PutBehind(first, d[mid].key, Leaf(d[mid..]));
    assert SetEntry(first, d[mid].key, Leaf(d[mid..])) == Halved(d).kids;
  }

  /** A key below all others goes into the left leaf, which still has room, and the name of
      that leaf stays. */
  lemma NameStays<T>(order: nat, d: Dir<T>, k: Key, v: T)
    requires order >= 4 && |d| == order && Ascending(d) && k != [] && Less(k, d[0].key)
    ensures var root := Insert(order, Some(Halved(d)), k, v); root.Internal? && First(root) == d[0].key
  {
    var mid := order / 2;
    var left, kids := d[..mid], Halved(d).kids;
    forall i | 0 <= i < |d| ensures Less(k, d[i].key) {
      if i > 0 { LessTransitive(k, d[0].key, d[i].key); }
    }
    AbsentBelow(left, k);
    PutInFront(left, k, v);
    assert FindChild(kids, k) == 0;
    assert Get(Halved(d), k) == Find(left, k);
    assert InsertRecursive(order - 1, Leaf(left), k, v) == Inserted(Leaf([Entry(k, v)] + left), None);
    var changed := SetEntry(kids, d[0].key, Leaf([Entry(k, v)] + left));
    assert changed[0].key == d[0].key && |changed| == 2;
    assert InsertRecursive(order - 1, Halved(d), k, v) == Inserted(Internal(changed), None);
  }

  // ------------------------------------------------------------------ events

  function Repeat(u: Unit, n: nat): (r: Key)
    ensures |r| == n && forall i :: 0 <= i < n ==> r[i] == u
  {
    seq(n, _ => u)
  }

  /** Every body has an id of the right shape, as a SHA-256 hash in hexadecimal has. */
  ghost predicate HexIds(idOf: Body -> Key) {
    forall body :: LowerHex(idOf(body), 64)
  }

  function Written(idOf: Body -> Key, author: Unit, createdAt: nat): Event {
    var body := Body(Repeat(author, 64), createdAt, 1, [], []);
    Event(idOf(body), body, Repeat(0x30, 128))
  }

  /** `n` events of the author bb..bb, from newer to older. */
  function Later(idOf: Body -> Key, n: nat): (r: seq<Event>)
    requires n <= 100
    ensures |r| == n && forall i :: 0 <= i < n ==> r[i] == Written(idOf, 0x62, 100 - i)
  {
    seq(n, i requires 0 <= i < n => Written(idOf, 0x62, 100 - i))
  }

  function EntriesOf(q: Query, events: seq<Event>): (d: Dir<Event>)
    ensures |d| == |events| && forall i :: 0 <= i < |d| ==> d[i] == Entry(IndexKey(q, events[i]), events[i])
  {
    seq(|events|, i requires 0 <= i < |events| => Entry(IndexKey(q, events[i]), events[i]))
  }

  lemma {:induction false} OpsArePairs(q: Query, events: seq<Event>)
    ensures Ops(q, events) == Pairs(EntriesOf(q, events))
  {
    if events != [] {
      var n := |events| - 1;
      OpsArePairs(q, events[..n]);
      var d := EntriesOf(q, events);
      assert d[..n] == EntriesOf(q, events[..n]);
      PairsAppend(d, n);
    }
  }

  lemma WrittenIsStorable(idOf: Body -> Key, author: Unit, createdAt: nat)
    requires HexIds(idOf) && 0x61 <= author < 0x67 && createdAt <= MAX_SAFE
    ensures var e := Written(idOf, author, createdAt); WellKeyed(e) && OnTime(e) && Storable(idOf, e)
  {
  }

  lemma LaterAscend(idOf: Body -> Key, q: Query, n: nat)
    requires HexIds(idOf) && n <= 99 && q.ByAuthor?
    ensures Ascending(EntriesOf(q, Later(idOf, n)))
  {
    var d := EntriesOf(q, Later(idOf, n));
    forall i, j {:trigger Less(d[i].key, d[j].key)} | 0 <= i < j < n ensures Less(d[i].key, d[j].key) {
      WrittenIsStorable(idOf, 0x62, 100 - i);
      WrittenIsStorable(idOf, 0x62, 100 - j);
      MatchingOrder(ByAuthor(Repeat(0x62, 64)), Written(idOf, 0x62, 100 - i), Written(idOf, 0x62, 100 - j));
    }
    forall i | 0 <= i < n ensures d[i].key != [] {
      FirstUnits(idOf, q, 0x62, 100 - i);
    }
  }

  lemma FirstUnits(idOf: Body -> Key, q: Query, author: Unit, createdAt: nat)
    requires q.ByAuthor?
    ensures var key := IndexKey(q, Written(idOf, author, createdAt)); key != [] && key[0] == author
  {
  }

  /** The events of a later author, then one of an earlier author. */
  function Run(idOf: Body -> Key): seq<Event> {
    Later(idOf, ORDER) + [Written(idOf, 0x61, 50)]
  }

  lemma LaterSplit(idOf: Body -> Key, q: Query)
    requires HexIds(idOf) && q.ByAuthor?
    ensures IndexOf(AddAll(Later(idOf, ORDER)), q) == Some(Halved(EntriesOf(q, Later(idOf, ORDER))))
  {
    var later := Later(idOf, ORDER);
    LaterAscend(idOf, q, ORDER);
    OpsArePairs(q, later);
    IndexIsRun(q, later);
    SplitFullLeaf(ORDER, EntriesOf(q, later));
  }

  lemma RunEnd(idOf: Body -> Key, q: Query)
    ensures var e := Written(idOf, 0x61, 50);
      IndexOf(AddAll(Run(idOf)), q) == InsertLink(IndexOf(AddAll(Later(idOf, ORDER)), q), IndexKey(q, e), e)
  {
    assert Run(idOf)[..ORDER] == Later(idOf, ORDER);
  }

  lemma FirstNameStays(idOf: Body -> Key, q: Query)
    requires HexIds(idOf) && q.ByAuthor?
    ensures var root := IndexOf(AddAll(Run(idOf)), q);
      root.Some? && root.value.Internal? && First(root.value) == IndexKey(q, Written(idOf, 0x62, 100))
  {
    RunEnd(idOf, q);
    LaterSplit(idOf, q);
    LaterAscend(idOf, q, ORDER);
    FirstUnits(idOf, q, 0x61, 50);
    FirstUnits(idOf, q, 0x62, 100);
    var e := Written(idOf, 0x61, 50);
    NameStays(ORDER, EntriesOf(q, Later(idOf, ORDER)), IndexKey(q, e), e);
  }

  /** Nothing of the run is refused. */
  lemma RunIsAccepted(idOf: Body -> Key)
    requires HexIds(idOf)
    ensures Accepted(idOf, Run(idOf)) == Run(idOf) && Timely(Run(idOf)) && Written(idOf, 0x61, 50) in Run(idOf)
    ensures Attempted(idOf, Run(idOf)) == AddAll(Run(idOf))
  {
    var run := Run(idOf);
    assert run[ORDER] == Written(idOf, 0x61, 50);
    forall e | e in run ensures Storable(idOf, e) && OnTime(e) {
      var i :| 0 <= i < |run| && run[i] == e;
      WrittenIsStorable(idOf, if i < ORDER then 0x62 else 0x61, if i < ORDER then 100 - i else 50);
    }
    AcceptedAppend(idOf, [], run);
    assert [] + run == run;
    AttemptedIsAccepted(idOf, run);
  }

  lemma OutOfReach(idOf: Body -> Key, q: Query)
    requires HexIds(idOf) && q == ByAuthor(Repeat(0x61, 64))
    ensures IndexOf(AddAll(Run(idOf)), q).Some? && !ReachesKeys(IndexOf(AddAll(Run(idOf)), q).value, q)
  {
    FirstNameStays(idOf, q);
    FirstUnits(idOf, q, 0x62, 100);
    var end := IncrementPrefix(QueryPrefix(q));
    assert end[0] == 0x61;
  }

  /** Whatever the hash function, the author aa..aa has an accepted event in the store, and
      the listing of that author is empty. */
  lemma AuthorIsLost(idOf: Body -> Key, q: Query, o: ListOptions)
    requires HexIds(idOf) && q == ByAuthor(Repeat(0x61, 64)) && o == ListOptions(None, None, None)
    ensures var e := Written(idOf, 0x61, 50);
      ValidQuery(q) && e in Accepted(idOf, Run(idOf)) && Timely(Accepted(idOf, Run(idOf))) && Matches(q, e)
    ensures var index := IndexOf(Attempted(idOf, Run(idOf)), q); index.Some? && !ReachesKeys(index.value, q)
    ensures !Answers(q, Accepted(idOf, Run(idOf)), o, [])
  {
    RunIsAccepted(idOf);
    OutOfReach(idOf, q);
    EmptyAnswers(q, Run(idOf), o);
    assert InWindow(o, Written(idOf, 0x61, 50));
  }
}
