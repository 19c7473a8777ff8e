/**
 Of the events that replace each other the store keeps the greatest, in whatever order they
 arrive.
 */
module EventWinners {
  import opened Wrappers
  import opened Keys
  import opened BTree
  import opened BTreeRuns
  import opened EventKeys
  import opened Events

  /** The winner among the events with a key: the first of the greatest. */
  function Best(parameterized: bool, events: seq<Event>, key: Key): Option<Event> {
    if events == [] then None
    else
      var before, e := Best(parameterized, events[..|events| - 1], key), events[|events| - 1];
      if ReplaceKey(e, parameterized) != Some(key) then before
      else if before.None? || Beats(e, before.value) then Some(e) else before
  }

  predicate Wins(parameterized: bool, before: seq<Event>, e: Event) {
    var key := ReplaceKey(e, parameterized);
    key.Some? && (var best := Best(parameterized, before, key.value); best.None? || Beats(e, best.value))
  }

  /** The insertions that the index sees: those of events that won on arrival. */
  function WinOps(parameterized: bool, events: seq<Event>): seq<(Key, Event)> {
    if events == [] then []
    else
      var before, e := events[..|events| - 1], events[|events| - 1];
      WinOps(parameterized, before) +
        if Wins(parameterized, before, e) then [(ReplaceKey(e, parameterized).value, e)] else []
  }

  lemma {:induction false} AssignedIsBest(parameterized: bool, events: seq<Event>, key: Key)
    requires key != []
    ensures Lookup(Assigned(WinOps(parameterized, events)), key) == Best(parameterized, events, key)
  {
    if events != [] {
      var before, e := events[..|events| - 1], events[|events| - 1];
      AssignedIsBest(parameterized, before, key);
      var ops := WinOps(parameterized, events);
      if Wins(parameterized, before, e) {
        assert ops[..|ops| - 1] == WinOps(parameterized, before);
      } else {
        assert ops == WinOps(parameterized, before);
      }
    }
  }

  function WinnerIndex(m: Manifest, parameterized: bool): Index {
    if parameterized then m.parameterized else m.replacing
  }

  predicate Compete(parameterized: bool, e: Event, key: Key) {
    ReplaceKey(e, parameterized) == Some(key)
  }

  lemma BeatsIsStrict(a: Event, b: Event)
    ensures !(Beats(a, b) && Beats(b, a)) && !Beats(a, a)
    ensures !Beats(a, b) && !Beats(b, a) ==> a.id == b.id && a.body.createdAt == b.body.createdAt
  {
    LessTotal(a.id, b.id);
    LessTotal(a.id, a.id);
  }

  lemma BeatsChains(a: Event, b: Event, c: Event)
    ensures !Beats(a, b) && Beats(c, b) ==> !Beats(a, c)
  {
    LeqChains(a.id, b.id, c.id);
    LessTotal(a.id, c.id);
    LessTotal(b.id, c.id);
  }

  /** Older, or of the same time with an id that is no larger. */
  ghost predicate NoLater(e: Event, v: Event) {
    e.body.createdAt < v.body.createdAt || (e.body.createdAt == v.body.createdAt && Leq(e.id, v.id))
  }

  /** The winner competes for the key and nothing that does is later. */
  lemma {:induction false} BestIsGreatest(parameterized: bool, events: seq<Event>, key: Key)
    ensures Best(parameterized, events, key).None? <==> forall e :: e in events ==> !Compete(parameterized, e, key)
    ensures var w := Best(parameterized, events, key);
      w.Some? ==> w.value in events && Compete(parameterized, w.value, key)
                  && forall e :: e in events && Compete(parameterized, e, key) ==> NoLater(e, w.value)
  {
    if events != [] {
      var before, last := events[..|events| - 1], events[|events| - 1];
      BestIsGreatest(parameterized, before, key);
      assert forall e :: e in events <==> e in before || e == last;
      BeatsIsStrict(last, last);
      var held := Best(parameterized, before, key);
      if Compete(parameterized, last, key) && held.Some? && Beats(last, held.value) {
        forall e | e in before && Compete(parameterized, e, key) ensures NoLater(e, last) {
          BeatsChains(e, held.value, last);
        }
      }
    }
  }

  lemma WinnerIndexStep(parameterized: bool, events: seq<Event>)
    requires events != []
    ensures var before, e := events[..|events| - 1], events[|events| - 1];
      WinnerIndex(AddAll(events), parameterized) == Upserted(WinnerIndex(AddAll(before), parameterized), e, parameterized)
  {
  }

  lemma WinOpsStep(parameterized: bool, events: seq<Event>)
    requires events != []
    ensures var before, e := events[..|events| - 1], events[|events| - 1];
      InsertAll(ORDER, None, WinOps(parameterized, events))
      == if Wins(parameterized, before, e)
         then InsertLink(InsertAll(ORDER, None, WinOps(parameterized, before)), ReplaceKey(e, parameterized).value, e)
         else InsertAll(ORDER, None, WinOps(parameterized, before))
  {
    var before, e := events[..|events| - 1], events[|events| - 1];
    var ops := WinOps(parameterized, events);
    if Wins(parameterized, before, e) {
      assert ops[..|ops| - 1] == WinOps(parameterized, before);
    } else {
      assert ops == WinOps(parameterized, before);
    }
  }

  lemma UpsertedIs(parameterized: bool, before: seq<Event>, root: Index, e: Event)
    requires forall key :: key != [] ==> GetRoot(root, key) == Best(parameterized, before, key)
    ensures Upserted(root, e, parameterized)
         == if Wins(parameterized, before, e) then InsertLink(root, ReplaceKey(e, parameterized).value, e) else root
  {
  }

  /** The index of winners is the result of an insertion run. */
  lemma {:induction false} WinnersAreRun(parameterized: bool, events: seq<Event>)
    ensures WinnerIndex(AddAll(events), parameterized) == InsertAll(ORDER, None, WinOps(parameterized, events))
  {
    if events != [] {
      var before, e := events[..|events| - 1], events[|events| - 1];
      WinnersAreRun(parameterized, before);
      var root := WinnerIndex(AddAll(before), parameterized);
      forall key | key != [] ensures GetRoot(root, key) == Best(parameterized, before, key) {
        LookupFindsBest(parameterized, before, key);
      }
      UpsertedIs(parameterized, before, root, e);
      WinnerIndexStep(parameterized, events);
      WinOpsStep(parameterized, events);
    }
  }

  /** A lookup in the index of winners finds the winner. */
  lemma LookupFindsBest(parameterized: bool, events: seq<Event>, key: Key)
    requires key != [] && WinnerIndex(AddAll(events), parameterized) == InsertAll(ORDER, None, WinOps(parameterized, events))
    ensures GetRoot(WinnerIndex(AddAll(events), parameterized), key) == Best(parameterized, events, key)
  {
    InsertRun(ORDER, WinOps(parameterized, events));
    AssignedIsBest(parameterized, events, key);
  }

  lemma WinnerIsFound(parameterized: bool, events: seq<Event>, key: Key)
    requires key != []
    ensures GetRoot(WinnerIndex(AddAll(events), parameterized), key) == Best(parameterized, events, key)
  {
    WinnersAreRun(parameterized, events);
    LookupFindsBest(parameterized, events, key);
  }

  /** `w` is the latest of the events asked for, of those with one time the one with the
      largest id, and missing if there are none. */
  ghost predicate GreatestOf(w: Option<Event>, events: seq<Event>, asked: Event -> bool) {
    match w
    case None => forall e :: e in events ==> !asked(e)
    case Some(v) =>
      && v in events && asked(v)
      && forall e :: e in events && asked(e) ==>
        e.body.createdAt < v.body.createdAt || (e.body.createdAt == v.body.createdAt && Leq(e.id, v.id))
  }

  lemma BestOfAsked(parameterized: bool, events: seq<Event>, key: Key, asked: Event -> bool)
    requires forall e :: e in events ==> (Compete(parameterized, e, key) <==> asked(e))
    ensures GreatestOf(Best(parameterized, events, key), events, asked)
  {
    BestIsGreatest(parameterized, events, key);
  }

  ghost function IsReplacement(pubkey: Key, kind: nat): Event -> bool {
    (e: Event) => e.body.pubkey == pubkey && e.body.kind == kind && (kind == 0 || kind == 3 || 10_000 <= kind <= 19_999)
  }

  /** The first tag whose name is d and whose value is not empty has this value. */
  ghost predicate FirstDTag(tags: seq<seq<Key>>, value: Key) {
    exists i :: 0 <= i < |tags| && NamesD(tags[i]) && tags[i][1] == value && forall j :: 0 <= j < i ==> !NamesD(tags[j])
  }

  ghost predicate NamesD(tag: seq<Key>) {
    |tag| > 1 && tag[0] == [0x64] && |tag[1]| > 0
  }

  lemma {:induction false} DTagIsFirst(tags: seq<seq<Key>>, value: Key)
    ensures DTag(tags) == Some(value) <==> FirstDTag(tags, value)
  {
    if tags != [] && !NamesD(tags[0]) {
      var rest := tags[1..];
      DTagIsFirst(rest, value);
      if FirstDTag(rest, value) {
        var i :| 0 <= i < |rest| && NamesD(rest[i]) && rest[i][1] == value && forall j :: 0 <= j < i ==> !NamesD(rest[j]);
        assert NamesD(tags[i + 1]) && forall j :: 0 < j < i + 1 ==> tags[j] == rest[j - 1];
      }
      if FirstDTag(tags, value) {
        var i :| 0 <= i < |tags| && NamesD(tags[i]) && tags[i][1] == value && forall j :: 0 <= j < i ==> !NamesD(tags[j]);
        assert NamesD(rest[i - 1]) && forall j :: 0 <= j < i - 1 ==> rest[j] == tags[j + 1];
      }
    }
  }

  ghost function IsParameterized(pubkey: Key, kind: nat, dTag: Key): Event -> bool {
    (e: Event) => e.body.pubkey == pubkey && e.body.kind == kind && 30_000 <= kind <= 39_999 && FirstDTag(e.body.tags, dTag)
  }

  function GetReplaceable(m: Manifest, pubkey: Key, kind: nat): Result<Option<Event>, EventError> {
    if m.replacing.None? then Ok(None)
    else if !LowerHex(pubkey, 64) then Err(InvalidQuery)
    else Ok(GetRoot(m.replacing, ReplaceableKey(pubkey, kind)))
  }

  function GetParameterized(m: Manifest, pubkey: Key, kind: nat, dTag: Key): Result<Option<Event>, EventError> {
    if m.parameterized.None? then Ok(None)
    else if dTag == [] || !LowerHex(pubkey, 64) then Err(InvalidQuery)
    else Ok(GetRoot(m.parameterized, ParameterizedKey(pubkey, kind, dTag)))
  }

  /** The lookup by author and kind returns the greatest accepted event with both. It is
      refused only for a name that is no author, and then no event is asked for. */
  lemma GetReplaceableIsGreatest(idOf: Body -> Key, attempts: seq<Event>, pubkey: Key, kind: nat)
    ensures var m := Attempted(idOf, attempts); var r := GetReplaceable(m, pubkey, kind);
      && (r.Err? <==> m.replacing.Some? && !LowerHex(pubkey, 64))
      && GreatestOf(if r.Ok? then r.value else None, Accepted(idOf, attempts), IsReplacement(pubkey, kind))
  {
    AcceptedAreStorable(idOf, attempts);
    if LowerHex(pubkey, 64) {
      ReplaceableFound(idOf, attempts, pubkey, kind);
    }
  }

  lemma ReplaceableFound(idOf: Body -> Key, attempts: seq<Event>, pubkey: Key, kind: nat)
    requires LowerHex(pubkey, 64)
    ensures GreatestOf(GetRoot(Attempted(idOf, attempts).replacing, ReplaceableKey(pubkey, kind)),
                       Accepted(idOf, attempts), IsReplacement(pubkey, kind))
  {
    var events, key := Accepted(idOf, attempts), ReplaceableKey(pubkey, kind);
    AcceptedAreStorable(idOf, attempts);
    AttemptedIsAccepted(idOf, attempts);
    WinnerIsFound(false, events, key);
    forall e | e in events ensures Compete(false, e, key) <==> IsReplacement(pubkey, kind)(e) {
      SameReplaceableKey(e.body.pubkey, e.body.kind, pubkey, kind);
    }
    BestOfAsked(false, events, key, IsReplacement(pubkey, kind));
  }

  lemma SameReplaceableKey(p: Key, j: nat, r: Key, k: nat)
    requires |p| == |r|
    ensures ReplaceableKey(p, j) == ReplaceableKey(r, k) <==> p == r && j == k
  {
    PadKindInjective(j, k);
    if ReplaceableKey(p, j) == ReplaceableKey(r, k) {
      assert p == ReplaceableKey(p, j)[..|p|] && r == ReplaceableKey(r, k)[..|p|];
      assert PadKind(j) == ReplaceableKey(p, j)[|p| + 1..] && PadKind(k) == ReplaceableKey(r, k)[|p| + 1..];
    }
  }

  /** The lookup by author, kind and tag value returns the greatest accepted event with
      all three. It is refused only for an empty value or a name that is no author, and
      then no event is asked for. */
  lemma GetParameterizedIsGreatest(idOf: Body -> Key, attempts: seq<Event>, pubkey: Key, kind: nat, dTag: Key)
    ensures var m := Attempted(idOf, attempts); var r := GetParameterized(m, pubkey, kind, dTag);
      && (r.Err? <==> m.parameterized.Some? && (dTag == [] || !LowerHex(pubkey, 64)))
      && GreatestOf(if r.Ok? then r.value else None, Accepted(idOf, attempts), IsParameterized(pubkey, kind, dTag))
  {
    AcceptedAreStorable(idOf, attempts);
    if dTag != [] && LowerHex(pubkey, 64) {
      ParameterizedFound(idOf, attempts, pubkey, kind, dTag);
    }
  }

  lemma ParameterizedFound(idOf: Body -> Key, attempts: seq<Event>, pubkey: Key, kind: nat, dTag: Key)
    requires LowerHex(pubkey, 64)
    ensures GreatestOf(GetRoot(Attempted(idOf, attempts).parameterized, ParameterizedKey(pubkey, kind, dTag)),
                       Accepted(idOf, attempts), IsParameterized(pubkey, kind, dTag))
  {
    var events, key := Accepted(idOf, attempts), ParameterizedKey(pubkey, kind, dTag);
    AcceptedAreStorable(idOf, attempts);
    AttemptedIsAccepted(idOf, attempts);
    WinnerIsFound(true, events, key);
    forall e | e in events ensures Compete(true, e, key) <==> IsParameterized(pubkey, kind, dTag)(e) {
      var d := DTag(e.body.tags);
      DTagIsFirst(e.body.tags, dTag);
      if d.Some? {
        SameParameterizedKey(e.body.pubkey, e.body.kind, d.value, pubkey, kind, dTag);
      }
    }
    BestOfAsked(true, events, key, IsParameterized(pubkey, kind, dTag));
  }

  lemma SameParameterizedKey(p: Key, j: nat, d: Key, r: Key, k: nat, t: Key)
    requires |p| == |r|
    ensures ParameterizedKey(p, j, d) == ParameterizedKey(r, k, t) <==> p == r && j == k && d == t
  {
    if ParameterizedKey(p, j, d) == ParameterizedKey(r, k, t) {
      var a, b := PadKind(j) + [COLON] + d, PadKind(k) + [COLON] + t;
      assert ParameterizedKey(p, j, d) == (p + [COLON]) + a && ParameterizedKey(r, k, t) == (r + [COLON]) + b;
      assert p == ParameterizedKey(p, j, d)[..|p|] && r == ParameterizedKey(r, k, t)[..|p|];
      assert a == ParameterizedKey(p, j, d)[|p| + 1..] && b == ParameterizedKey(r, k, t)[|p| + 1..];
      SamePieces(PadKind(j), d, PadKind(k), t, j, k);
    }
  }

  lemma SamePieces(a: Key, d: Key, b: Key, t: Key, j: nat, k: nat)
    requires a == PadKind(j) && b == PadKind(k) && a + [COLON] + d == b + [COLON] + t
    ensures j == k && d == t
  {
    assert a + [COLON] <= a + [COLON] + d;
    KindMatches(j, k, t);
    assert d == (a + [COLON] + d)[|a| + 1..] && t == (b + [COLON] + t)[|b| + 1..];
  }

  // ------------------------------------------------------------- any order

  ghost predicate SameEvents(a: seq<Event>, b: seq<Event>) {
    forall e :: e in a <==> e in b
  }

  lemma SameMultiset(a: seq<Event>, b: seq<Event>)
    requires multiset(a) == multiset(b)
    ensures SameEvents(a, b)
  {
    forall e ensures e in a <==> e in b {
      assert e in a <==> e in multiset(a);
      assert e in b <==> e in multiset(b);
    }
  }

  /** The winner does not depend on the order of arrival, nor on repetitions. */
  lemma WinnerIsOrderFree(parameterized: bool, a: seq<Event>, b: seq<Event>, key: Key)
    requires SameEvents(a, b)
    ensures var v, w := Best(parameterized, a, key), Best(parameterized, b, key);
      (v.None? <==> w.None?) && (v.Some? ==> v.value.id == w.value.id && v.value.body.createdAt == w.value.body.createdAt)
  {
    BestIsGreatest(parameterized, a, key);
    BestIsGreatest(parameterized, b, key);
    var v, w := Best(parameterized, a, key), Best(parameterized, b, key);
    if v.Some? && w.Some? {
      BeatsIsStrict(v.value, w.value);
    }
  }

  /** Insert an event behind those that it beats or ties with. */
  function InsertSorted(sorted: seq<Event>, e: Event): seq<Event> {
    if sorted == [] then [e]
    else if Beats(sorted[|sorted| - 1], e) then InsertSorted(sorted[..|sorted| - 1], e) + [sorted[|sorted| - 1]]
    else sorted + [e]
  }

  function SortEvents(events: seq<Event>): seq<Event> {
    if events == [] then [] else InsertSorted(SortEvents(events[..|events| - 1]), events[|events| - 1])
  }

  /** Oldest first, ids ascending where the times agree. */
  ghost predicate Ascending(events: seq<Event>) {
    forall i, j :: 0 <= i < j < |events| ==>
      || events[i].body.createdAt < events[j].body.createdAt
      || (events[i].body.createdAt == events[j].body.createdAt && Leq(events[i].id, events[j].id))
  }

  lemma {:induction false} InsertSortedSame(sorted: seq<Event>, e: Event)
    ensures multiset(InsertSorted(sorted, e)) == multiset(sorted) + multiset{e}
  {
    if sorted != [] && Beats(sorted[|sorted| - 1], e) {
      InsertSortedSame(sorted[..|sorted| - 1], e);
      assert sorted == sorted[..|sorted| - 1] + [sorted[|sorted| - 1]];
    }
  }

  lemma InsertSortedElement(sorted: seq<Event>, e: Event, x: Event)
    requires x in InsertSorted(sorted, e)
    ensures x == e || x in sorted
  {
    InsertSortedSame(sorted, e);
    assert x in multiset(InsertSorted(sorted, e));
  }

  lemma {:induction false} InsertSortedAscends(sorted: seq<Event>, e: Event)
    requires Ascending(sorted)
    ensures Ascending(InsertSorted(sorted, e))
  {
    if sorted == [] {
    } else {
      var front, last := sorted[..|sorted| - 1], sorted[|sorted| - 1];
      if Beats(last, e) {
        InsertSortedAscends(front, e);
        BeatsIsStrict(last, e);
        forall x | x in InsertSorted(front, e) ensures !Beats(x, last) {
          InsertSortedElement(front, e, x);
        }
        AscendingAppend(InsertSorted(front, e), last);
      } else {
        BeatsIsStrict(last, last);
        forall x | x in sorted ensures !Beats(x, e) {
          AtMost(x, last, e);
        }
        AscendingAppend(sorted, e);
      }
    }
  }

  lemma AscendingAppend(sorted: seq<Event>, e: Event)
    requires Ascending(sorted) && forall x :: x in sorted ==> !Beats(x, e)
    ensures Ascending(sorted + [e])
  {
    forall i | 0 <= i < |sorted| ensures NoLater(sorted[i], e) {
      assert sorted[i] in sorted && !Beats(sorted[i], e);
    }
  }

  lemma AtMost(a: Event, b: Event, c: Event)
    requires !Beats(b, c) && !Beats(a, b)
    ensures !Beats(a, c)
  {
    LeqChains(a.id, b.id, c.id);
  }

  lemma {:induction false} SortEventsSorts(events: seq<Event>)
    ensures Ascending(SortEvents(events)) && multiset(SortEvents(events)) == multiset(events)
  {
    if events != [] {
      var n := |events| - 1;
      SortEventsSorts(events[..n]);
      InsertSortedSame(SortEvents(events[..n]), events[n]);
      InsertSortedAscends(SortEvents(events[..n]), events[n]);
      assert events == events[..n] + [events[n]];
    }
  }

  /** Two stores hold winners with the same ids and times. */
  ghost predicate SameWinners(a: Manifest, b: Manifest) {
    forall parameterized, key :: key != [] ==>
      var v, w := GetRoot(WinnerIndex(a, parameterized), key), GetRoot(WinnerIndex(b, parameterized), key);
      (v.None? <==> w.None?) && (v.Some? ==> v.value.id == w.value.id && v.value.body.createdAt == w.value.body.createdAt)
  }

  lemma SameAccepted(idOf: Body -> Key, a: seq<Event>, b: seq<Event>)
    requires SameEvents(Accepted(idOf, a), Accepted(idOf, b))
    ensures SameWinners(Attempted(idOf, a), Attempted(idOf, b))
  {
    var x, y := Accepted(idOf, a), Accepted(idOf, b);
    AttemptedIsAccepted(idOf, a);
    AttemptedIsAccepted(idOf, b);
    forall parameterized, key | key != []
      ensures var v, w := GetRoot(WinnerIndex(AddAll(x), parameterized), key), GetRoot(WinnerIndex(AddAll(y), parameterized), key);
        (v.None? <==> w.None?) && (v.Some? ==> v.value.id == w.value.id && v.value.body.createdAt == w.value.body.createdAt)
    {
      WinnerIsFound(parameterized, x, key);
      WinnerIsFound(parameterized, y, key);
      WinnerIsOrderFree(parameterized, x, y, key);
    }
  }

  lemma SortedAccepted(idOf: Body -> Key, prior: seq<Event>, events: seq<Event>)
    requires forall e :: e in events ==> Storable(idOf, e)
    ensures SameEvents(Accepted(idOf, prior + SortEvents(events)), Accepted(idOf, prior + events))
    ensures forall e :: e in SortEvents(events) ==> Storable(idOf, e)
  {
    var sorted := SortEvents(events);
    SortEventsSorts(events);
    SameMultiset(sorted, events);
    AcceptedAppend(idOf, prior, events);
    AcceptedAppend(idOf, prior, sorted);
  }

  /** Whether none of the events would be refused. */
  method Validate(idOf: Body -> Key, events: seq<Event>) returns (fine: bool)
    ensures fine <==> forall e :: e in events ==> Storable(idOf, e)
  {
    for i := 0 to |events|
      invariant forall j :: 0 <= j < i ==> Storable(idOf, events[j])
    {
      if !Storable(idOf, events[i]) {
        return false;
      }
    }
    fine := true;
  }

  ghost predicate AllStorable(idOf: Body -> Key, events: seq<Event>) {
    forall i :: 0 <= i < |events| ==> Storable(idOf, events[i])
  }

  method AddNext(idOf: Body -> Key, before: Manifest, e: Event, ghost attempts: seq<Event>) returns (m: Manifest)
    requires before == Attempted(idOf, attempts) && Storable(idOf, e)
    ensures m == Attempted(idOf, attempts + [e])
  {
    assert (attempts + [e])[..|attempts|] == attempts;
    m := AddChecked(idOf, before, e).value;
  }

  /** Adding events one after the other. */
  method AddEach(idOf: Body -> Key, root: Manifest, events: seq<Event>, ghost prior: seq<Event>) returns (m: Manifest)
    requires root == Attempted(idOf, prior) && AllStorable(idOf, events)
    ensures m == Attempted(idOf, prior + events)
  {
    m := root;
    ghost var tried := prior;
    assert prior == prior + events[..0];
    for i := 0 to |events|
      invariant tried == prior + events[..i]
      invariant m == Attempted(idOf, tried)
    {
      m := AddNext(idOf, m, events[i], tried);
      tried := tried + [events[i]];
      NextAttempt(prior, events, i);
    }
    assert tried == prior + events;
  }

  lemma NextAttempt(prior: seq<Event>, events: seq<Event>, i: nat)
    requires i < |events|
    ensures prior + events[..i] + [events[i]] == prior + events[..i + 1]
  {
  }

  /** Building onto a store refuses the whole batch if one event would be refused. Else it
      adds the batch in ascending order, and the winners are the same as when the events
      are added one by one as they come. */
  method Build(idOf: Body -> Key, root: Manifest, events: seq<Event>, ghost prior: seq<Event>)
    returns (r: Result<Manifest, EventError>)
    requires root == Attempted(idOf, prior)
    ensures r.Ok? <==> forall e :: e in events ==> Storable(idOf, e)
    ensures r.Ok? ==> r.value == Attempted(idOf, prior + SortEvents(events))
    ensures Ascending(SortEvents(events)) && multiset(SortEvents(events)) == multiset(events)
    ensures r.Ok? ==> SameWinners(r.value, Attempted(idOf, prior + events))
  {
    SortEventsSorts(events);
    var fine := Validate(idOf, events);
    if !fine {
      return Err(InvalidEvent);
    }
    SortedAccepted(idOf, prior, events);
    SameAccepted(idOf, prior + SortEvents(events), prior + events);
    assert AllStorable(idOf, SortEvents(events)) by {
      forall i | 0 <= i < |SortEvents(events)| ensures Storable(idOf, SortEvents(events)[i]) {
        assert SortEvents(events)[i] in SortEvents(events);
      }
    }
    var m := AddEach(idOf, root, SortEvents(events), prior);
    r := Ok(m);
  }
}
