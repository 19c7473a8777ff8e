/**
 Listing events off an index: newest first, within a time window, up to a limit.
 */
module EventLists {
  import opened Wrappers
  import opened Keys
  import opened BTree
  import BTreeProofs
  import opened BTreeRuns
  import opened BTreeRange
  import opened EventKeys
  import opened Events

  datatype ListOptions = ListOptions(limit: Option<nat>, since: Option<nat>, until: Option<nat>)

  predicate InWindow(o: ListOptions, e: Event) {
    && (o.since.Some? ==> o.since.value <= e.body.createdAt)
    && (o.until.Some? ==> e.body.createdAt <= o.until.value)
  }

  /** The limit counts as one when it is zero: it is looked at after an event is taken. */
  predicate Room(o: ListOptions, taken: nat) {
    o.limit.None? || taken < o.limit.value || taken == 0
  }

  /** The events of a listing that lie in the window, in its order. */
  function Window(o: ListOptions, d: Dir<Event>): seq<Event> {
    if d == [] then []
    else Window(o, d[..|d| - 1]) + if InWindow(o, d[|d| - 1].val) then [d[|d| - 1].val] else []
  }

  /** Entries whose keys are those of the index, all matching the query, in order. */
  ghost predicate Indexed(q: Query, d: Dir<Event>) {
    && Sorted(d)
    && forall i :: 0 <= i < |d| ==>
         WellKeyed(d[i].val) && Matches(q, d[i].val) && d[i].key == IndexKey(q, d[i].val)
  }

  ghost predicate AllOnTime(d: Dir<Event>) {
    forall i :: 0 <= i < |d| ==> OnTime(d[i].val)
  }

  /** Such entries all of which have a time that can be read back. */
  ghost predicate Legible(q: Query, d: Dir<Event>) {
    Indexed(q, d) && AllOnTime(d)
  }

  /** If one entry is not legible the first one is not. */
  lemma LateComesFirst(q: Query, d: Dir<Event>)
    requires ValidQuery(q) && Indexed(q, d) && !AllOnTime(d)
    ensures d != [] && !OnTime(d[0].val)
  {
    var j :| 0 <= j < |d| && !OnTime(d[j].val);
    if OnTime(d[0].val) {
      LateIsFirst(q, d[j].val, d[0].val);
      assert Less(d[0].key, d[j].key);
      LessTotal(d[0].key, d[j].key);
    }
  }

  /** The window's events, cut off where there is no more room. */
  ghost predicate Taken(o: ListOptions, d: Dir<Event>, r: seq<Event>) {
    r <= Window(o, d) && (|r| < |Window(o, d)| ==> |r| > 0 && !Room(o, |r|)) && (|r| > 0 ==> Room(o, |r| - 1))
  }

  lemma LegibleOrder(q: Query, d: Dir<Event>, i: nat, j: nat)
    requires ValidQuery(q) && Legible(q, d) && i < j < |d|
    ensures Before(d[i].val, d[j].val)
  {
    assert Less(d[i].key, d[j].key);
    MatchingOrder(q, d[i].val, d[j].val);
  }

  lemma {:induction false} WindowPrefix(o: ListOptions, d: Dir<Event>, k: nat)
    requires k <= |d|
    ensures Window(o, d[..k]) <= Window(o, d)
    decreases |d|
  {
    if k < |d| {
      var front := d[..|d| - 1];
      WindowPrefix(o, front, k);
      assert front[..k] == d[..k];
      assert Window(o, front) <= Window(o, d);
    } else {
      assert d[..k] == d;
    }
  }

  ghost predicate OlderFrom(d: Dir<Event>, k: nat, since: nat) {
    forall j :: k <= j < |d| ==> d[j].val.body.createdAt < since
  }

  /** Behind an event that is older than the window all are. */
  lemma OlderRest(q: Query, d: Dir<Event>, k: nat, since: nat)
    requires ValidQuery(q) && Legible(q, d) && k < |d| && d[k].val.body.createdAt < since
    ensures OlderFrom(d, k, since)
  {
    forall j | k < j < |d| ensures d[j].val.body.createdAt < since {
      LegibleOrder(q, d, k, j);
    }
  }

  lemma {:induction false} OlderOutside(o: ListOptions, d: Dir<Event>, k: nat)
    requires k <= |d| && o.since.Some? && OlderFrom(d, k, o.since.value)
    ensures Window(o, d[..k]) == Window(o, d)
    decreases |d|
  {
    if k == |d| {
      assert d[..k] == d;
    } else {
      var front := d[..|d| - 1];
      OlderOutside(o, front, k);
      assert front[..k] == d[..k];
      assert Window(o, d) == Window(o, front) + [];
    }
  }

  /** The first `i` entries have been read and there is room for more. */
  ghost predicate Scanned(o: ListOptions, d: Dir<Event>, i: nat, events: seq<Event>)
    requires i <= |d|
  {
    events == Window(o, d[..i]) && Room(o, |events|)
  }

  lemma WindowStep(o: ListOptions, d: Dir<Event>, i: nat)
    requires i < |d|
    ensures Window(o, d[..i + 1]) == Window(o, d[..i]) + if InWindow(o, d[i].val) then [d[i].val] else []
  {
    assert d[..i + 1][..i] == d[..i];
  }

  lemma RoomBefore(o: ListOptions, n: nat)
    requires Room(o, n) && n > 0
    ensures Room(o, n - 1)
  {
  }

  lemma DoneByLimit(o: ListOptions, d: Dir<Event>, i: nat, events: seq<Event>)
    requires i < |d| && Scanned(o, d, i, events) && InWindow(o, d[i].val) && !Room(o, |events| + 1)
    ensures Taken(o, d, events + [d[i].val])
  {
    WindowStep(o, d, i);
    WindowPrefix(o, d, i + 1);
  }

  lemma DoneByAge(o: ListOptions, d: Dir<Event>, i: nat, events: seq<Event>)
    requires i < |d| && Scanned(o, d, i, events) && o.since.Some? && OlderFrom(d, i, o.since.value)
    ensures Taken(o, d, events)
  {
    OlderOutside(o, d, i);
    if |events| > 0 { RoomBefore(o, |events|); }
  }

  lemma DoneAtEnd(o: ListOptions, d: Dir<Event>, events: seq<Event>)
    requires Scanned(o, d, |d|, events)
    ensures Taken(o, d, events)
  {
    assert d[..|d|] == d;
    if |events| > 0 { RoomBefore(o, |events|); }
  }

  /** The loop over an index's entries fails on a key that it cannot read: at once if there
      is one at all, since such keys come first. */
  method Scan(entries: Dir<Event>, o: ListOptions, ghost q: Query) returns (r: Result<seq<Event>, EventError>)
    ensures ValidQuery(q) && Indexed(q, entries) ==>
      if AllOnTime(entries) then r.Ok? && Taken(o, entries, r.value) else r == Err(InvalidKey)
  {
    var events: seq<Event> := [];
    ghost var known := ValidQuery(q) && Indexed(q, entries);
    ghost var fine := known && AllOnTime(entries);
    if known && !fine {
      LateComesFirst(q, entries);
      IndexKeyTime(q, entries[0].val);
    }
    for i := 0 to |entries|
      invariant fine ==> Scanned(o, entries, i, events)
      invariant known && !fine ==> i == 0
    {
      if fine { IndexKeyTime(q, entries[i].val); }
      WindowStep(o, entries, i);
      var createdAt := CreatedAtFromIndexKey(entries[i].key);
      if createdAt.None? {
        return Err(InvalidKey);
      }
      if o.until.Some? && createdAt.value > o.until.value {
        continue;
      }
      if o.since.Some? && createdAt.value < o.since.value {
        if fine {
          OlderRest(q, entries, i, o.since.value);
          DoneByAge(o, entries, i, events);
        }
        return Ok(events);
      }
      ghost var before := events;
      events := events + [entries[i].val];
      if o.limit.Some? && |events| >= o.limit.value {
        if fine { DoneByLimit(o, entries, i, before); }
        return Ok(events);
      }
    }
    if fine { DoneAtEnd(o, entries, events); }
    r := Ok(events);
  }

  // --------------------------------------------------- what a listing means

  /** The answer to a query over the added events: events in the window that match, of
      every key the one added last, newest first; what is missing lies behind the end of a
      full answer. */
  ghost predicate Answers(q: Query, events: seq<Event>, o: ListOptions, r: seq<Event>) {
    && (forall i, j :: 0 <= i < j < |r| ==> Before(r[i], r[j]))
    && (forall i :: 0 <= i < |r| ==>
          Matches(q, r[i]) && InWindow(o, r[i]) && LastKeyed(q, events, IndexKey(q, r[i])) == Some(r[i]))
    && (|r| > 0 ==> Room(o, |r| - 1))
    && (forall e :: e in events && Matches(q, e) && InWindow(o, e) ==>
          Listed(q, r, e) || (|r| > 0 && !Room(o, |r|) && Before(r[|r| - 1], e)))
  }

  /** An event with the same key is in the list. */
  ghost predicate Listed(q: Query, r: seq<Event>, e: Event) {
    exists i :: 0 <= i < |r| && IndexKey(q, r[i]) == IndexKey(q, e)
  }

  /** The entries of an index that match a query, as added. */
  ghost predicate Holds(q: Query, events: seq<Event>, d: Dir<Event>) {
    && Indexed(q, d)
    && (forall i :: 0 <= i < |d| ==> LastKeyed(q, events, d[i].key) == Some(d[i].val))
    && (forall e :: e in events && Matches(q, e) ==> exists i :: 0 <= i < |d| && d[i].key == IndexKey(q, e))
  }

  /** No event that a query asks for has a time that cannot be read back. */
  ghost predicate Punctual(q: Query, events: seq<Event>) {
    forall e :: e in events && Matches(q, e) ==> OnTime(e)
  }

  lemma HoldsOnTime(q: Query, events: seq<Event>, d: Dir<Event>)
    requires Holds(q, events, d) && AllWellKeyed(events)
    ensures AllOnTime(d) <==> Punctual(q, events)
  {
    forall i | 0 <= i < |d| ensures d[i].val in events && Matches(q, d[i].val) {
      LastKeyedIsIn(q, events, d[i].key);
    }
    forall e | e in events && Matches(q, e) ensures exists i :: 0 <= i < |d| && (OnTime(e) <==> OnTime(d[i].val)) {
      var i :| 0 <= i < |d| && d[i].key == IndexKey(q, e);
      IndexKeyTime(q, d[i].val);
      IndexKeyTime(q, e);
    }
  }

  lemma {:induction false} WindowElement(o: ListOptions, d: Dir<Event>, e: Event)
    ensures e in Window(o, d) <==> InWindow(o, e) && exists i :: 0 <= i < |d| && d[i].val == e
  {
    if d != [] {
      var front, last := d[..|d| - 1], d[|d| - 1];
      WindowElement(o, front, e);
      if i :| 0 <= i < |d| && d[i].val == e && e != last.val {
        assert front[i].val == e;
      }
      if i :| 0 <= i < |front| && front[i].val == e {
        assert d[i].val == e;
      }
    }
  }

  ghost predicate NewestFirst(r: seq<Event>) {
    forall i, j :: 0 <= i < j < |r| ==> Before(r[i], r[j])
  }

  lemma {:induction false} WindowOrder(q: Query, o: ListOptions, d: Dir<Event>)
    requires ValidQuery(q) && Legible(q, d)
    ensures NewestFirst(Window(o, d))
    decreases |d|
  {
    if d != [] {
      var n := |d| - 1;
      var front := d[..n];
      WindowOrder(q, o, front);
      var w := Window(o, front);
      forall i | 0 <= i < |w| ensures Before(w[i], d[n].val) {
        WindowElement(o, front, w[i]);
        var j :| 0 <= j < |front| && front[j].val == w[i];
        LegibleOrder(q, d, j, n);
      }
    }
  }

  lemma TakenIn(q: Query, events: seq<Event>, o: ListOptions, d: Dir<Event>, r: seq<Event>, i: nat)
    requires ValidQuery(q) && Holds(q, events, d) && r <= Window(o, d) && i < |r|
    ensures Matches(q, r[i]) && InWindow(o, r[i]) && LastKeyed(q, events, IndexKey(q, r[i])) == Some(r[i])
  {
    assert r[i] == Window(o, d)[i];
    WindowElement(o, d, r[i]);
    var j :| 0 <= j < |d| && d[j].val == r[i];
  }

  lemma TakenMisses(q: Query, events: seq<Event>, o: ListOptions, d: Dir<Event>, r: seq<Event>, e: Event)
    requires ValidQuery(q) && Holds(q, events, d) && Taken(o, d, r) && AllWellKeyed(events) && Punctual(q, events)
    requires e in events && Matches(q, e) && InWindow(o, e)
    ensures Listed(q, r, e) || (|r| > 0 && !Room(o, |r|) && Before(r[|r| - 1], e))
  {
    var w := Window(o, d);
    HoldsOnTime(q, events, d);
    var i :| 0 <= i < |d| && d[i].key == IndexKey(q, e);
    MatchingOrder(q, d[i].val, e);
    WindowElement(o, d, d[i].val);
    var j :| 0 <= j < |w| && w[j] == d[i].val;
    if j < |r| {
      assert r[j] == w[j] && IndexKey(q, r[j]) == IndexKey(q, e);
    } else {
      WindowOrder(q, o, d);
      assert r[|r| - 1] == w[|r| - 1] && Before(w[|r| - 1], w[j]);
    }
  }

  /** What the loop takes is the answer. */
  lemma TakenAnswers(q: Query, events: seq<Event>, o: ListOptions, d: Dir<Event>, r: seq<Event>)
    requires ValidQuery(q) && Holds(q, events, d) && Taken(o, d, r) && AllWellKeyed(events) && Punctual(q, events)
    ensures Answers(q, events, o, r)
  {
    HoldsOnTime(q, events, d);
    WindowOrder(q, o, d);
    forall i, j | 0 <= i < j < |r| ensures Before(r[i], r[j]) {
      assert r[i] == Window(o, d)[i] && r[j] == Window(o, d)[j];
    }
    forall i | 0 <= i < |r|
      ensures Matches(q, r[i]) && InWindow(o, r[i]) && LastKeyed(q, events, IndexKey(q, r[i])) == Some(r[i])
    {
      TakenIn(q, events, o, d, r, i);
    }
    forall e | e in events && Matches(q, e) && InWindow(o, e)
      ensures Listed(q, r, e) || (|r| > 0 && !Room(o, |r|) && Before(r[|r| - 1], e))
    {
      TakenMisses(q, events, o, d, r, e);
    }
  }

  // ------------------------------------------------------- what indexes hold

  lemma {:induction false} BeginningWithIn<V>(d: Dir<V>, p: Key, e: Entry<V>)
    ensures e in BeginningWith(d, p) <==> e in d && p <= e.key
  {
    if d != [] {
      BeginningWithIn(d[1..], p, e);
      assert e in d <==> e == d[0] || e in d[1..];
    }
  }

  lemma {:induction false} BeginningWithSorted<V>(d: Dir<V>, p: Key)
    requires Sorted(d)
    ensures Sorted(BeginningWith(d, p))
  {
    if d != [] {
      BeginningWithSorted(d[1..], p);
      var tail := BeginningWith(d[1..], p);
      forall i | 0 <= i < |tail| ensures Less(d[0].key, tail[i].key) {
        BeginningWithIn(d[1..], p, tail[i]);
        var j :| 0 <= j < |d[1..]| && d[1..][j] == tail[i];
        assert Less(d[0].key, d[j + 1].key);
      }
    }
  }

  /** All entries of an index: of every key the event that was added last. */
  ghost predicate Full(q: Query, events: seq<Event>, d: Dir<Event>) {
    && Sorted(d)
    && (forall i :: 0 <= i < |d| ==> LastKeyed(q, events, d[i].key) == Some(d[i].val))
    && (forall e :: e in events ==> exists i :: 0 <= i < |d| && d[i].key == IndexKey(q, e))
  }

  lemma IndexIsFull(q: Query, events: seq<Event>)
    requires events != [] && AllWellKeyed(events)
    ensures var root := IndexOf(AddAll(events), q);
      root.Some? && WellFormed(ORDER, root.value) && root.value != Leaf([]) && Full(q, events, Items(root.value))
  {
    var ops := Ops(q, events);
    IndexIsRun(q, events);
    InsertRun(ORDER, ops);
    var root := IndexOf(AddAll(events), q).value;
    var d := Items(root);
    WellFormedFind(ORDER, root, []);
    forall i | 0 <= i < |d| ensures LastKeyed(q, events, d[i].key) == Some(d[i].val) {
      EntriesOfMap(d, d[i]);
      AssignedIsLast(q, events, d[i].key);
    }
    forall e | e in events ensures exists i :: 0 <= i < |d| && d[i].key == IndexKey(q, e) {
      KeyIsIn(q, events, d, e);
    }
    KeyIsIn(q, events, d, events[0]);
  }

  lemma KeyIsIn(q: Query, events: seq<Event>, d: Dir<Event>, e: Event)
    requires Sorted(d) && AllWellKeyed(events) && e in events
    requires Find(d, IndexKey(q, e)) == Lookup(Assigned(Ops(q, events)), IndexKey(q, e))
    ensures exists i :: 0 <= i < |d| && d[i].key == IndexKey(q, e)
  {
    LastKeyedFound(q, events, e);
    AssignedIsLast(q, events, IndexKey(q, e));
    var entry := Entry(IndexKey(q, e), LastKeyed(q, events, IndexKey(q, e)).value);
    EntriesOfMap(d, entry);
    assert entry in d;
  }

  lemma FullIndexed(q: Query, events: seq<Event>, e: Entry<Event>)
    requires AllWellKeyed(events) && LastKeyed(q, events, e.key) == Some(e.val)
    ensures WellKeyed(e.val) && e.key == IndexKey(q, e.val) && e.val in events
  {
    LastKeyedIsIn(q, events, e.key);
  }

  /** The entries that begin with a query's prefix are those that it asks for. */
  lemma PrefixHolds(q: Query, events: seq<Event>, d: Dir<Event>)
    requires ValidQuery(q) && AllWellKeyed(events) && Full(q, events, d)
    ensures Holds(q, events, BeginningWith(d, QueryPrefix(q)))
  {
    var p := QueryPrefix(q);
    var s := BeginningWith(d, p);
    BeginningWithSorted(d, p);
    forall i | 0 <= i < |s|
      ensures WellKeyed(s[i].val) && Matches(q, s[i].val) && s[i].key == IndexKey(q, s[i].val)
      ensures LastKeyed(q, events, s[i].key) == Some(s[i].val)
    {
      BeginningWithIn(d, p, s[i]);
      var j :| 0 <= j < |d| && d[j] == s[i];
      FullIndexed(q, events, d[j]);
      PrefixMatches(q, d[j].val);
    }
    forall e | e in events && Matches(q, e) ensures exists i :: 0 <= i < |s| && s[i].key == IndexKey(q, e) {
      PrefixMatches(q, e);
      var j :| 0 <= j < |d| && d[j].key == IndexKey(q, e);
      BeginningWithIn(d, p, d[j]);
      assert d[j] in s;
    }
  }

  lemma {:induction false} EmptyPrefix<V>(d: Dir<V>)
    ensures BeginningWith(d, []) == d
  {
    if d != [] {
      EmptyPrefix(d[1..]);
    }
  }

  /** The walk of the index reaches the query's keys: all of them are read, or the range
      ends above the first name of the root. */
  predicate ReachesKeys(root: Node<Event>, q: Query) {
    q.Recent? || Reaches(root, Some(IncrementPrefix(QueryPrefix(q))))
  }

  lemma PrefixIsColon(q: Query)
    requires !q.Recent?
    ensures QueryPrefix(q) != [] && QueryPrefix(q)[|QueryPrefix(q)| - 1] == COLON
  {
  }

  /** The entries that a listing reads. */
  method ReadIndex(root: Node<Event>, q: Query) returns (entries: Dir<Event>)
    requires Weak(root, None, None)
    ensures q.Recent? ==> entries == Items(root)
    ensures !q.Recent? ==>
      (entries == BeginningWith(Items(root), QueryPrefix(q))
       <==> Exact(root, Some(QueryPrefix(q)), Some(IncrementPrefix(QueryPrefix(q)))))
    ensures !q.Recent? && root.Internal? && !ReachesKeys(root, q) ==> entries == []
  {
    if q.Recent? {
      entries := TraverseLinksInOrder(root);
    } else {
      PrefixIsColon(q);
      entries := PrefixLinks(root, QueryPrefix(q));
    }
  }

  ghost predicate NothingAsked(q: Query, events: seq<Event>, o: ListOptions) {
    forall e :: e in events && Matches(q, e) ==> !InWindow(o, e)
  }

  lemma EmptyAnswers(q: Query, events: seq<Event>, o: ListOptions)
    ensures Answers(q, events, o, []) <==> NothingAsked(q, events, o)
  {
    if Answers(q, events, o, []) {
      forall e | e in events && Matches(q, e) ensures !InWindow(o, e) {
        assert !Listed(q, [], e);
      }
    }
  }

  /** What is read is all that a query asks for if the index reaches its keys. */
  lemma ReadHolds(q: Query, events: seq<Event>, entries: Dir<Event>)
    requires ValidQuery(q) && AllWellKeyed(events) && events != []
    requires IndexOf(AddAll(events), q).Some? && ReachesKeys(IndexOf(AddAll(events), q).value, q)
    requires var root := IndexOf(AddAll(events), q).value;
      && (q.Recent? ==> entries == Items(root))
      && (!q.Recent? && Exact(root, Some(QueryPrefix(q)), Some(IncrementPrefix(QueryPrefix(q)))) ==>
            entries == BeginningWith(Items(root), QueryPrefix(q)))
    ensures Holds(q, events, entries)
  {
    var root := IndexOf(AddAll(events), q).value;
    IndexIsFull(q, events);
    PrefixHolds(q, events, Items(root));
    if q.Recent? {
      EmptyPrefix(Items(root));
    } else {
      IndexIsRun(q, events);
      RunIsCoveredAbove(ORDER, Ops(q, events), []);
      var p := QueryPrefix(q);
      if root.Internal? { CoveredIsExact(root, Some(p), Some(IncrementPrefix(p))); }
    }
  }

  /** Reading and scanning an index that holds something. */
  method ListIndex(root: Node<Event>, q: Query, o: ListOptions, ghost events: seq<Event>) returns (r: Result<seq<Event>, EventError>)
    requires events != [] && AllWellKeyed(events) && ValidQuery(q) && IndexOf(AddAll(events), q) == Some(root)
    ensures ReachesKeys(root, q) ==> if Punctual(q, events) then r.Ok? && Answers(q, events, o, r.value) else r == Err(InvalidKey)
    ensures !ReachesKeys(root, q) ==> r == Ok([])
  {
    IndexIsFull(q, events);
    IndexIsWeak(root);
    var entries := ReadIndex(root, q);
    if ReachesKeys(root, q) {
      ReadHolds(q, events, entries);
      HoldsOnTime(q, events, entries);
    }
    r := Scan(entries, o, q);
    if ReachesKeys(root, q) && Punctual(q, events) {
      TakenAnswers(q, events, o, entries, r.value);
    }
  }

  /** What a listing of any store that additions leave returns over the accepted events. It is
      refused for a name that is no author; it is empty unless the index reaches the query's
      keys; it fails if the index does and an event asked for has a time that cannot be read
      back; and otherwise it is the answer. */
  method List(m: Manifest, q: Query, o: ListOptions, ghost idOf: Body -> Key, ghost attempts: seq<Event>)
    returns (r: Result<seq<Event>, EventError>)
    requires m == Attempted(idOf, attempts)
    ensures var events := Accepted(idOf, attempts);
      && (events == [] ==> r == Ok([]))
      && (events != [] && !ValidQuery(q) ==> r == Err(InvalidQuery))
      && (events != [] && ValidQuery(q) ==>
            && IndexOf(m, q).Some?
            && (r.Err? <==> ReachesKeys(IndexOf(m, q).value, q) && !Punctual(q, events))
            && (r.Err? ==> r == Err(InvalidKey))
            && (r.Ok? ==> (Answers(q, events, o, r.value) <==> ReachesKeys(IndexOf(m, q).value, q) || NothingAsked(q, events, o)))
            && (!ReachesKeys(IndexOf(m, q).value, q) ==> r == Ok([])))
  {
    ghost var events := Accepted(idOf, attempts);
    AttemptedIsAccepted(idOf, attempts);
    AcceptedAreWellKeyed(idOf, attempts);
    var index := IndexOf(m, q);
    IndexIsRun(q, events);
    if index.None? {
      return Ok([]);
    }
    if !ValidQuery(q) {
      return Err(InvalidQuery);
    }
    EmptyAnswers(q, events, o);
    r := ListIndex(index.value, q, o, events);
  }

  lemma IndexIsWeak(root: Node<Event>)
    requires WellFormed(ORDER, root) && root != Leaf([])
    ensures Weak(root, None, None)
  {
    BTreeProofs.TightIsWeak(ORDER - 1, root, None, None, Height(root));
  }

  /** The list of recent events is the answer if every accepted event is on time, and fails if
      one is not: a single late event makes it unusable. */
  method ListRecent(m: Manifest, o: ListOptions, ghost idOf: Body -> Key, ghost attempts: seq<Event>)
    returns (r: Result<seq<Event>, EventError>)
    requires m == Attempted(idOf, attempts)
    ensures r.Ok? <==> Timely(Accepted(idOf, attempts))
    ensures r.Ok? ==> Answers(Recent, Accepted(idOf, attempts), o, r.value)
    ensures r.Err? ==> r == Err(InvalidKey)
  {
    r := List(m, Recent, o, idOf, attempts);
    EmptyAnswers(Recent, Accepted(idOf, attempts), o);
  }
}
