/**
 The event store: events are added to B-tree indexes, the latest of the events that replace
 each other is kept, and lists are read off an index newest first.
 */
module Events {
  import opened Wrappers
  import opened Keys
  import opened BTree
  import opened BTreeRuns
  import opened EventKeys

  const ORDER: nat := 32

  datatype Event = Event(id: Key, body: Body, sig: Key)

  /** What the canonical id is computed from. */
  datatype Body = Body(pubkey: Key, createdAt: nat, kind: nat, tags: seq<seq<Key>>, content: Key)

  datatype EventError = InvalidEvent | InvalidQuery | InvalidKey

  // -------------------------------------------------------------- validation

  predicate LowerHex(s: Key, length: nat) {
    |s| == length && forall i :: 0 <= i < |s| ==> 0x30 <= s[i] < 0x3A || 0x61 <= s[i] < 0x67
  }

  predicate Storable(idOf: Body -> Key, e: Event) {
    LowerHex(e.id, 64) && LowerHex(e.body.pubkey, 64) && LowerHex(e.sig, 128) && idOf(e.body) == e.id
  }

  /** Events whose names make well-formed keys. */
  ghost predicate WellKeyed(e: Event) {
    LowerHex(e.id, 64) && LowerHex(e.body.pubkey, 64)
  }

  /** Events whose time is read back from their keys. */
  predicate OnTime(e: Event) {
    e.body.createdAt <= MAX_SAFE
  }

  ghost predicate AllWellKeyed(events: seq<Event>) {
    forall i :: 0 <= i < |events| ==> WellKeyed(events[i])
  }

  lemma HexHasNoColonIn(s: Key, length: nat)
    requires LowerHex(s, length)
    ensures COLON !in s
  {
    forall i | 0 <= i < |s| ensures s[i] != COLON {
    }
  }

  // ------------------------------------------------------------------- order

  /** The later event, or of two with one time the one with the larger id. */
  predicate Beats(a: Event, b: Event) {
    a.body.createdAt > b.body.createdAt || (a.body.createdAt == b.body.createdAt && Less(b.id, a.id))
  }

  /** The order of lists: newest first, ids ascending where the times agree. */
  predicate Before(a: Event, b: Event) {
    a.body.createdAt > b.body.createdAt || (a.body.createdAt == b.body.createdAt && Less(a.id, b.id))
  }

  // ------------------------------------------------------------------- kinds

  predicate IsReplaceable(kind: nat) {
    kind == 0 || kind == 3 || 10_000 <= kind < 20_000
  }

  predicate IsParameterizedReplaceable(kind: nat) {
    30_000 <= kind < 40_000
  }

  /** The value of the first tag named d that has a non-empty value. */
  function DTag(tags: seq<seq<Key>>): (r: Option<Key>)
    ensures r.Some? ==> r.value != []
  {
    if tags == [] then None
    else if |tags[0]| >= 2 && tags[0][0] == [0x64] && tags[0][1] != [] then Some(tags[0][1])
    else DTag(tags[1..])
  }

  function ReplaceableKey(pubkey: Key, kind: nat): Key {
    pubkey + [COLON] + PadKind(kind)
  }

  function ParameterizedKey(pubkey: Key, kind: nat, dTag: Key): Key {
    pubkey + [COLON] + PadKind(kind) + [COLON] + dTag
  }

  /** The key under which an event replaces others, if it does. */
  function ReplaceKey(e: Event, parameterized: bool): (r: Option<Key>)
    ensures r.Some? ==> r.value != []
  {
    if parameterized then
      if IsParameterizedReplaceable(e.body.kind) && DTag(e.body.tags).Some?
      then Some(ParameterizedKey(e.body.pubkey, e.body.kind, DTag(e.body.tags).value)) else None
    else if IsReplaceable(e.body.kind) then Some(ReplaceableKey(e.body.pubkey, e.body.kind)) else None
  }

  // ----------------------------------------------------------------- queries

  /** A listing and the index that it reads. */
  datatype Query = Recent | OfKind(kind: nat) | ByAuthor(pubkey: Key) | ByAuthorAndKind(pubkey: Key, kind: nat)

  function QueryPrefix(q: Query): Key {
    match q
    case Recent => []
    case OfKind(kind) => PadKind(kind) + [COLON]
    case ByAuthor(pubkey) => pubkey + [COLON]
    case ByAuthorAndKind(pubkey, kind) => pubkey + [COLON] + PadKind(kind) + [COLON]
  }

  predicate ValidQuery(q: Query) {
    (q.ByAuthor? || q.ByAuthorAndKind?) ==> LowerHex(q.pubkey, 64)
  }

  predicate Matches(q: Query, e: Event) {
    match q
    case Recent => true
    case OfKind(kind) => e.body.kind == kind
    case ByAuthor(pubkey) => e.body.pubkey == pubkey
    case ByAuthorAndKind(pubkey, kind) => e.body.pubkey == pubkey && e.body.kind == kind
  }

  /** The query that the event itself answers in the same index. */
  function OwnQuery(q: Query, e: Event): Query {
    match q
    case Recent => Recent
    case OfKind(_) => OfKind(e.body.kind)
    case ByAuthor(_) => ByAuthor(e.body.pubkey)
    case ByAuthorAndKind(_, _) => ByAuthorAndKind(e.body.pubkey, e.body.kind)
  }

  function EventTimeKey(e: Event): Key {
    TimeKey(e.body.createdAt, e.id)
  }

  /** The key of an event in the index that a query reads. */
  function IndexKey(q: Query, e: Event): Key {
    QueryPrefix(OwnQuery(q, e)) + EventTimeKey(e)
  }

  /** The keys that begin with a query's prefix are those of the events that it asks for. */
  lemma PrefixMatches(q: Query, e: Event)
    requires WellKeyed(e) && ValidQuery(q)
    ensures QueryPrefix(q) <= IndexKey(q, e) <==> Matches(q, e)
    ensures Matches(q, e) ==> QueryPrefix(OwnQuery(q, e)) == QueryPrefix(q)
  {
    var rest := EventTimeKey(e);
    match q
    case Recent =>
    case OfKind(kind) =>
      KindMatches(kind, e.body.kind, rest);
    case ByAuthor(pubkey) =>
      HexHasNoColonIn(pubkey, 64);
      HexHasNoColonIn(e.body.pubkey, 64);
      FirstPiece(pubkey, e.body.pubkey, rest);
    case ByAuthorAndKind(pubkey, kind) =>
      HexHasNoColonIn(pubkey, 64);
      HexHasNoColonIn(e.body.pubkey, 64);
      AuthorKindMatches(pubkey, kind, e.body.pubkey, e.body.kind, rest);
  }

  lemma KindMatches(j: nat, k: nat, rest: Key)
    ensures PadKind(j) + [COLON] <= PadKind(k) + [COLON] + rest <==> j == k
  {
    PaddedHasNoColon(j, 8);
    PaddedHasNoColon(k, 8);
    PadKindInjective(j, k);
    FirstPiece(PadKind(j), PadKind(k), rest);
  }

  lemma AuthorKindMatches(p: Key, j: nat, r: Key, k: nat, rest: Key)
    requires COLON !in p && COLON !in r && |p| == |r|
    ensures p + [COLON] + PadKind(j) + [COLON] <= r + [COLON] + PadKind(k) + [COLON] + rest <==> p == r && j == k
  {
    var x, y := PadKind(j) + [COLON], PadKind(k) + [COLON] + rest;
    KindMatches(j, k, rest);
    assert p + [COLON] + PadKind(j) + [COLON] == (p + [COLON]) + x;
    assert r + [COLON] + PadKind(k) + [COLON] + rest == (r + [COLON]) + y;
    FixedAppend(p, r, COLON, COLON);
    PrefixSplit(p + [COLON], x, r + [COLON], y);
  }

  lemma PrefixSplit(a: Key, x: Key, b: Key, y: Key)
    requires |a| == |b|
    ensures a + x <= b + y <==> a == b && x <= y
  {
    if a + x <= b + y {
      assert a == (a + x)[..|a|] == (b + y)[..|a|] == b;
      assert x == (a + x)[|a|..] && y == (b + y)[|a|..];
      assert x == (b + y)[..|a + x|][|a|..];
    }
    if a == b && x <= y {
      assert a + x == (b + y)[..|a + x|];
    }
  }

  /** Keys of matching events are ordered as lists are. */
  lemma MatchingOrder(q: Query, a: Event, b: Event)
    requires WellKeyed(a) && WellKeyed(b) && ValidQuery(q) && Matches(q, a) && Matches(q, b)
    requires OnTime(a) && OnTime(b)
    ensures Less(IndexKey(q, a), IndexKey(q, b)) <==> Before(a, b)
    ensures IndexKey(q, a) == IndexKey(q, b) <==> a.id == b.id && a.body.createdAt == b.body.createdAt
  {
    PrefixMatches(q, a);
    PrefixMatches(q, b);
    var p := QueryPrefix(q);
    LessTotal(p, p);
    LessAppend(p, p, EventTimeKey(a), EventTimeKey(b));
    TimeKeyOrder(a.body.createdAt, a.id, b.body.createdAt, b.id);
    if p + EventTimeKey(a) == p + EventTimeKey(b) {
      assert (p + EventTimeKey(a))[|p|..] == EventTimeKey(a) && (p + EventTimeKey(b))[|p|..] == EventTimeKey(b);
    }
  }

  /** An event that is not on time sorts before those that are. */
  lemma LateIsFirst(q: Query, a: Event, b: Event)
    requires WellKeyed(a) && WellKeyed(b) && ValidQuery(q) && Matches(q, a) && Matches(q, b)
    requires !OnTime(a) && OnTime(b)
    ensures Less(IndexKey(q, a), IndexKey(q, b))
  {
    PrefixMatches(q, a);
    PrefixMatches(q, b);
    var p := QueryPrefix(q);
    LessTotal(p, p);
    LessAppend(p, p, EventTimeKey(a), EventTimeKey(b));
    LateSortsFirst(a.body.createdAt, a.id, b.body.createdAt, b.id);
  }

  lemma IndexKeyTime(q: Query, e: Event)
    requires WellKeyed(e)
    ensures CreatedAtFromIndexKey(IndexKey(q, e)) == if OnTime(e) then Some(e.body.createdAt) else None
    ensures IndexKey(q, e) != []
  {
    HexHasNoColonIn(e.id, 64);
    CreatedAtRoundTrip(QueryPrefix(OwnQuery(q, e)), e.body.createdAt, e.id);
  }

  // ---------------------------------------------------------------- manifest

  type Index = Option<Node<Event>>

  datatype Manifest = Manifest(byId: Index, byTime: Index, byKindTime: Index, byAuthorTime: Index, byAuthorKindTime: Index,
                               replacing: Index, parameterized: Index)

  function Empty(): Manifest {
    Manifest(None, None, None, None, None, None, None)
  }

  function IndexOf(m: Manifest, q: Query): Index {
    match q
    case Recent => m.byTime
    case OfKind(_) => m.byKindTime
    case ByAuthor(_) => m.byAuthorTime
    case ByAuthorAndKind(_, _) => m.byAuthorKindTime
  }

  function InsertLink(root: Index, key: Key, e: Event): Index {
    Some(Insert(ORDER, root, key, e))
  }

  /** Keep the event that beats the other. */
  function UpsertWinner(root: Index, key: Key, e: Event): Index {
    var existing := GetRoot(root, key);
    if existing.None? || Beats(e, existing.value) then InsertLink(root, key, e) else root
  }

  function Upserted(root: Index, e: Event, parameterized: bool): Index {
    var key := ReplaceKey(e, parameterized);
    if key.None? then root else UpsertWinner(root, key.value, e)
  }

  function Add(m: Manifest, e: Event): Manifest {
    Manifest(InsertLink(m.byId, e.id, e),
             InsertLink(m.byTime, IndexKey(Recent, e), e),
             InsertLink(m.byKindTime, IndexKey(OfKind(0), e), e),
             InsertLink(m.byAuthorTime, IndexKey(ByAuthor([]), e), e),
             InsertLink(m.byAuthorKindTime, IndexKey(ByAuthorAndKind([], 0), e), e),
             Upserted(m.replacing, e, false),
             Upserted(m.parameterized, e, true))
  }

  /** The store after a run of additions. */
  function AddAll(events: seq<Event>): Manifest {
    if events == [] then Empty() else Add(AddAll(events[..|events| - 1]), events[|events| - 1])
  }

  /** An addition is refused if the event is not well formed or its id is not its hash. */
  function AddChecked(idOf: Body -> Key, m: Manifest, e: Event): Result<Manifest, EventError> {
    if Storable(idOf, e) then Ok(Add(m, e)) else Err(InvalidEvent)
  }

  /** The store after a run of attempts to add: a refused event leaves it as it was. */
  function Attempted(idOf: Body -> Key, attempts: seq<Event>): Manifest {
    if attempts == [] then Empty()
    else
      var before := Attempted(idOf, attempts[..|attempts| - 1]);
      match AddChecked(idOf, before, attempts[|attempts| - 1])
      case Ok(m) => m
      case Err(_) => before
  }

  function Accepted(idOf: Body -> Key, attempts: seq<Event>): seq<Event> {
    if attempts == [] then []
    else
      var last := attempts[|attempts| - 1];
      Accepted(idOf, attempts[..|attempts| - 1]) + if Storable(idOf, last) then [last] else []
  }

  /** The attempts that pass the checks are accepted. */
  lemma {:induction false} AcceptedAreStorable(idOf: Body -> Key, attempts: seq<Event>)
    ensures forall e :: e in Accepted(idOf, attempts) <==> e in attempts && Storable(idOf, e)
  {
    if attempts != [] {
      var n := |attempts| - 1;
      AcceptedAreStorable(idOf, attempts[..n]);
      assert attempts == attempts[..n] + [attempts[n]];
    }
  }

  /** Exactly the events whose id is their hash are accepted, if id, author and signature
      are of 64, 64 and 128 lower-case hexadecimal digits. */
  lemma AcceptedExactly(idOf: Body -> Key, attempts: seq<Event>, e: Event)
    ensures e in Accepted(idOf, attempts) <==>
      && e in attempts && e.id == idOf(e.body)
      && |e.id| == 64 && |e.body.pubkey| == 64 && |e.sig| == 128
      && forall u :: u in e.id || u in e.body.pubkey || u in e.sig ==> 0x30 <= u <= 0x39 || 0x61 <= u <= 0x66
  {
    AcceptedAreStorable(idOf, attempts);
    HexDigits(e.id, 64);
    HexDigits(e.body.pubkey, 64);
    HexDigits(e.sig, 128);
  }

  lemma HexDigits(s: Key, length: nat)
    ensures LowerHex(s, length) <==> |s| == length && forall u :: u in s ==> 0x30 <= u <= 0x39 || 0x61 <= u <= 0x66
  {
    if |s| == length && forall u :: u in s ==> 0x30 <= u <= 0x39 || 0x61 <= u <= 0x66 {
      forall i | 0 <= i < |s| ensures 0x30 <= s[i] < 0x3A || 0x61 <= s[i] < 0x67 {
        assert s[i] in s;
      }
    }
  }

  /** The store holds what was accepted, as if nothing else had been tried. */
  lemma {:induction false} AttemptedIsAccepted(idOf: Body -> Key, attempts: seq<Event>)
    ensures Attempted(idOf, attempts) == AddAll(Accepted(idOf, attempts))
  {
    if attempts != [] {
      var n := |attempts| - 1;
      AttemptedIsAccepted(idOf, attempts[..n]);
      if Storable(idOf, attempts[n]) {
        AddAllSnoc(Accepted(idOf, attempts[..n]), attempts[n]);
      } else {
        assert Accepted(idOf, attempts) == Accepted(idOf, attempts[..n]);
      }
    }
  }

  lemma AddAllSnoc(events: seq<Event>, e: Event)
    ensures AddAll(events + [e]) == Add(AddAll(events), e)
  {
    assert (events + [e])[..|events|] == events;
  }

  lemma {:induction false} AcceptedAppend(idOf: Body -> Key, a: seq<Event>, b: seq<Event>)
    requires forall e :: e in b ==> Storable(idOf, e)
    ensures Accepted(idOf, a + b) == Accepted(idOf, a) + b
  {
    if b == [] {
      assert a + b == a;
    } else {
      var n := |b| - 1;
      assert (a + b)[..|a + b| - 1] == a + b[..n];
      AcceptedAppend(idOf, a, b[..n]);
      assert b == b[..n] + [b[n]];
    }
  }

  ghost predicate Timely(events: seq<Event>) {
    forall e :: e in events ==> OnTime(e)
  }

  /** Acceptance gives the shape of ids and authors that keys rely on. */
  lemma AcceptedAreWellKeyed(idOf: Body -> Key, attempts: seq<Event>)
    ensures AllWellKeyed(Accepted(idOf, attempts))
  {
    AcceptedAreStorable(idOf, attempts);
    var events := Accepted(idOf, attempts);
    forall i | 0 <= i < |events| ensures WellKeyed(events[i]) {
      assert events[i] in events;
    }
  }

  /** What an addition does to a store: an accepted event is found by its id and no other
      lookup by id changes; a refused one changes nothing. */
  lemma AddedIsFound(idOf: Body -> Key, attempts: seq<Event>, e: Event)
    ensures Attempted(idOf, attempts + [e]).byId
         == if Storable(idOf, e) then InsertLink(Attempted(idOf, attempts).byId, e.id, e) else Attempted(idOf, attempts).byId
    ensures !Storable(idOf, e) ==> Attempted(idOf, attempts + [e]) == Attempted(idOf, attempts)
    ensures forall id :: id != [] ==>
      GetRoot(Attempted(idOf, attempts + [e]).byId, id)
      == if Storable(idOf, e) && id == e.id then Some(e) else GetRoot(Attempted(idOf, attempts).byId, id)
  {
    assert (attempts + [e])[..|attempts|] == attempts;
    AttemptedIsAccepted(idOf, attempts);
    AttemptedIsAccepted(idOf, attempts + [e]);
    var before, after := Accepted(idOf, attempts), Accepted(idOf, attempts + [e]);
    assert after == before + if Storable(idOf, e) then [e] else [];
    forall id | id != []
      ensures GetRoot(AddAll(after).byId, id) == if Storable(idOf, e) && id == e.id then Some(e) else GetRoot(AddAll(before).byId, id)
    {
      GetByIdFindsLast(before, id);
      GetByIdFindsLast(after, id);
      if Storable(idOf, e) {
        assert after[..|after| - 1] == before;
      } else {
        assert after == before;
      }
    }
  }

  // ------------------------------------------------------- indexes as maps

  function Ops(q: Query, events: seq<Event>): seq<(Key, Event)> {
    if events == [] then [] else Ops(q, events[..|events| - 1]) + [(IndexKey(q, events[|events| - 1]), events[|events| - 1])]
  }

  function IdOps(events: seq<Event>): seq<(Key, Event)> {
    if events == [] then [] else IdOps(events[..|events| - 1]) + [(events[|events| - 1].id, events[|events| - 1])]
  }

  /** Every time index is the result of an insertion run. */
  lemma {:induction false} IndexIsRun(q: Query, events: seq<Event>)
    ensures IndexOf(AddAll(events), q) == InsertAll(ORDER, None, Ops(q, events))
    ensures Ops(q, events) == [] <==> events == []
  {
    if events != [] {
      var before, last := events[..|events| - 1], events[|events| - 1];
      IndexIsRun(q, before);
      var ops := Ops(q, events);
      assert ops[..|ops| - 1] == Ops(q, before);
    }
  }

  lemma {:induction false} IdIndexIsRun(events: seq<Event>)
    ensures AddAll(events).byId == InsertAll(ORDER, None, IdOps(events))
  {
    if events != [] {
      IdIndexIsRun(events[..|events| - 1]);
      var ops := IdOps(events);
      assert ops[..|ops| - 1] == IdOps(events[..|events| - 1]);
    }
  }

  /** The last event added with a given key. */
  function LastKeyed(q: Query, events: seq<Event>, key: Key): Option<Event> {
    if events == [] then None
    else if IndexKey(q, events[|events| - 1]) == key then Some(events[|events| - 1])
    else LastKeyed(q, events[..|events| - 1], key)
  }

  function LastWithId(events: seq<Event>, id: Key): Option<Event> {
    if events == [] then None
    else if events[|events| - 1].id == id then Some(events[|events| - 1])
    else LastWithId(events[..|events| - 1], id)
  }

  lemma {:induction false} AssignedIsLast(q: Query, events: seq<Event>, key: Key)
    requires AllWellKeyed(events)
    ensures Lookup(Assigned(Ops(q, events)), key) == LastKeyed(q, events, key)
  {
    if events != [] {
      var before, last := events[..|events| - 1], events[|events| - 1];
      AssignedIsLast(q, before, key);
      IndexKeyTime(q, last);
      var ops := Ops(q, events);
      assert ops[..|ops| - 1] == Ops(q, before);
    }
  }

  lemma {:induction false} LastKeyedFound(q: Query, events: seq<Event>, e: Event)
    requires e in events
    ensures LastKeyed(q, events, IndexKey(q, e)).Some?
  {
    if events[|events| - 1] != e {
      assert e in events[..|events| - 1];
      LastKeyedFound(q, events[..|events| - 1], e);
    }
  }

  lemma {:induction false} LastKeyedIsIn(q: Query, events: seq<Event>, key: Key)
    ensures var e := LastKeyed(q, events, key); e.Some? ==> e.value in events && IndexKey(q, e.value) == key
  {
    if events != [] {
      LastKeyedIsIn(q, events[..|events| - 1], key);
    }
  }

  /** A lookup by id finds the last event that was added with the id. */
  lemma GetByIdFindsLast(events: seq<Event>, id: Key)
    requires id != []
    ensures GetRoot(AddAll(events).byId, id) == LastWithId(events, id)
  {
    IdIndexIsRun(events);
    InsertRun(ORDER, IdOps(events));
    IdsAssigned(events, id);
  }

  /** Lookup by id: anything but 64 lower-case hexadecimal digits is refused. */
  function GetById(m: Manifest, id: Key): Result<Option<Event>, EventError> {
    if !LowerHex(id, 64) then Err(InvalidQuery)
    else if m.byId.None? then Ok(None)
    else Ok(GetRoot(m.byId, id))
  }

  lemma {:induction false} LastWithIdIsIn(events: seq<Event>, id: Key)
    ensures var e := LastWithId(events, id);
      (e.Some? ==> e.value in events && e.value.id == id) && (e.None? ==> forall x :: x in events ==> x.id != id)
  {
    if events != [] {
      var n := |events| - 1;
      LastWithIdIsIn(events[..n], id);
      assert events == events[..n] + [events[n]];
    }
  }

  /** What is found is an event that was tried and whose hash is the id asked for; nothing
      is found only if no accepted event has the id. */
  lemma FoundIsHashed(idOf: Body -> Key, attempts: seq<Event>, id: Key)
    ensures var r := GetById(Attempted(idOf, attempts), id);
      && (r.Err? <==> !LowerHex(id, 64))
      && (r.Ok? && r.value.Some? ==> r.value.value in attempts && r.value.value.id == id && idOf(r.value.value.body) == id)
      && (r.Ok? && r.value.None? ==> forall e :: e in Accepted(idOf, attempts) ==> e.id != id)
  {
    if LowerHex(id, 64) {
      var events := Accepted(idOf, attempts);
      AttemptedIsAccepted(idOf, attempts);
      AcceptedAreStorable(idOf, attempts);
      GetByIdFindsLast(events, id);
      LastWithIdIsIn(events, id);
    }
  }

  lemma {:induction false} IdsAssigned(events: seq<Event>, id: Key)
    requires id != []
    ensures Lookup(Assigned(IdOps(events)), id) == LastWithId(events, id)
  {
    if events != [] {
      IdsAssigned(events[..|events| - 1], id);
      var ops := IdOps(events);
      assert ops[..|ops| - 1] == IdOps(events[..|events| - 1]);
    }
  }
}
