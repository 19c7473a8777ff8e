/**
 The tree-root registry as a state machine: local writes, remote updates, publish timers
 and publishes in flight.
 */
module RegistrySpec {
  import opened Bytes
  import opened Wrappers

  datatype Visibility = Public | LinkVisible | Private

  datatype Source = LocalWrite | Nostr | Prefetch | Worker

  datatype Extras = Extras(encryptedKey: Option<string>, keyId: Option<string>,
                           selfEncryptedKey: Option<string>, selfEncryptedLinkKey: Option<string>)

  datatype Entry = Entry(hash: Bytes, key: Option<Bytes>, visibility: Visibility, labels: Option<seq<string>>,
                         updatedAt: int, source: Source, dirty: bool, extras: Extras)

  datatype Options = Options(key: Option<Bytes>, visibility: Option<Visibility>, labels: Option<seq<string>>, extras: Extras)

  // ------------------------------------------------------------------ keys

  function MakeKey(npub: string, treeName: string): string {
    npub + "/" + treeName
  }

  /** Split a key at its first slash; without one all of it is the first part. */
  function SplitKey(key: string): (string, string) {
    if key == "" then ("", "")
    else if key[0] == '/' then ("", key[1..])
    else var (npub, treeName) := SplitKey(key[1..]); ([key[0]] + npub, treeName)
  }

  /** A key gives back the names it was made of if and only if the first has no slash. */
  lemma {:induction false} SplitExactly(npub: string, treeName: string)
    ensures SplitKey(MakeKey(npub, treeName)) == (npub, treeName) <==> '/' !in npub
    ensures '/' in npub ==> |SplitKey(MakeKey(npub, treeName)).0| < |npub|
    ensures MakeKey(SplitKey(MakeKey(npub, treeName)).0, SplitKey(MakeKey(npub, treeName)).1) == MakeKey(npub, treeName)
  {
    var key := MakeKey(npub, treeName);
    if npub == "" {
      assert key[1..] == treeName;
    } else if npub[0] == '/' {
      assert key[0] == '/' && SplitKey(key).0 == "";
      assert "" + "/" + key[1..] == key;
    } else {
      assert key[1..] == MakeKey(npub[1..], treeName);
      SplitExactly(npub[1..], treeName);
      var (n, t) := SplitKey(key[1..]);
      assert MakeKey([key[0]] + n, t) == [key[0]] + MakeKey(n, t);
      assert npub == [npub[0]] + npub[1..];
    }
  }

  lemma {:induction false} SplitJoins(key: string)
    requires SplitKey(key).1 != ""
    ensures MakeKey(SplitKey(key).0, SplitKey(key).1) == key
  {
    if key[0] == '/' {
      assert "" + "/" + key[1..] == key;
    } else {
      SplitJoins(key[1..]);
      var (n, t) := SplitKey(key[1..]);
      assert MakeKey([key[0]] + n, t) == [key[0]] + MakeKey(n, t);
    }
  }

  /** Keys with an empty part are never published by a flush. */
  predicate Publishable(key: string) {
    SplitKey(key).0 != "" && SplitKey(key).1 != ""
  }

  // ---------------------------------------------------------------- labels

  function Labels(labels: seq<string>, seen: set<string>): seq<string> {
    if labels == [] then []
    else if labels[0] == "" || labels[0] in seen then Labels(labels[1..], seen)
    else [labels[0]] + Labels(labels[1..], seen + {labels[0]})
  }

  /** The labels without empty ones and repetitions, or nothing when none is left. */
  function UniqueLabels(labels: Option<seq<string>>): Option<seq<string>> {
    if labels.None? then None
    else
      var deduped := Labels(labels.value, {});
      if deduped == [] then None else Some(deduped)
  }

  function MergeLabels(primary: Option<seq<string>>, fallback: Option<seq<string>>): Option<seq<string>> {
    if primary.None? || primary.value == [] then UniqueLabels(fallback)
    else if fallback.None? || fallback.value == [] then UniqueLabels(primary)
    else UniqueLabels(Some(primary.value + fallback.value))
  }

  /** Deduplication keeps exactly the labels that are not empty, each of them once. */
  lemma {:induction false} LabelsOnce(labels: seq<string>, seen: set<string>)
    ensures forall x :: x in Labels(labels, seen) <==> x in labels && x != "" && x !in seen
    ensures forall i, j :: 0 <= i < j < |Labels(labels, seen)| ==> Labels(labels, seen)[i] != Labels(labels, seen)[j]
  {
    if labels == [] {
    } else if labels[0] == "" || labels[0] in seen {
      LabelsOnce(labels[1..], seen);
    } else {
      LabelsOnce(labels[1..], seen + {labels[0]});
    }
  }

  /** Where a label occurs first. */
  function FirstAt(labels: seq<string>, x: string): nat {
    if labels == [] || labels[0] == x then 0 else 1 + FirstAt(labels[1..], x)
  }

  /** Labels stay in the order in which they occur first. */
  lemma {:induction false} LabelsInOrder(labels: seq<string>, seen: set<string>)
    ensures forall i, j :: 0 <= i < j < |Labels(labels, seen)| ==>
      FirstAt(labels, Labels(labels, seen)[i]) < FirstAt(labels, Labels(labels, seen)[j])
  {
    if labels == [] {
    } else {
      var skips := labels[0] == "" || labels[0] in seen;
      var rest := Labels(labels[1..], if skips then seen else seen + {labels[0]});
      LabelsInOrder(labels[1..], if skips then seen else seen + {labels[0]});
      LabelsOnce(labels[1..], if skips then seen else seen + {labels[0]});
      assert Labels(labels, seen) == (if skips then [] else [labels[0]]) + rest;
      forall x | x in rest ensures FirstAt(labels, x) == 1 + FirstAt(labels[1..], x) {
        assert x != labels[0];
      }
    }
  }

  // --------------------------------------------------------------- updates

  function OrElse<T>(first: Option<T>, second: Option<T>): Option<T> {
    if first.Some? then first else second
  }

  /** Fill in a field that is missing or empty. */
  function FillIn(existing: Option<string>, offered: Option<string>): Option<string> {
    if (existing.None? || existing.value == "") && offered.Some? && offered.value != "" then offered else existing
  }

  function NoExtras(): Extras {
    Extras(None, None, None, None)
  }

  function ExtrasOrElse(first: Extras, second: Extras): Extras {
    Extras(OrElse(first.encryptedKey, second.encryptedKey), OrElse(first.keyId, second.keyId),
           OrElse(first.selfEncryptedKey, second.selfEncryptedKey),
           OrElse(first.selfEncryptedLinkKey, second.selfEncryptedLinkKey))
  }

  function FillExtras(existing: Extras, offered: Extras): Extras {
    Extras(FillIn(existing.encryptedKey, offered.encryptedKey), FillIn(existing.keyId, offered.keyId),
           FillIn(existing.selfEncryptedKey, offered.selfEncryptedKey),
           FillIn(existing.selfEncryptedLinkKey, offered.selfEncryptedLinkKey))
  }

  predicate ShouldAccept(existing: Option<Entry>, hash: Bytes, key: Option<Bytes>, updatedAt: int) {
    existing.None? ||
    (var e := existing.value;
     && !e.dirty
     && e.updatedAt <= updatedAt
     && (e.updatedAt == updatedAt && e.hash == hash ==> key.Some? && e.key != key))
  }

  /** What an update that is not accepted may still add to a clean record of the same hash. */
  function Enrich(e: Entry, hash: Bytes, options: Options): Entry {
    if e.dirty || e.hash != hash then e
    else
      var labels := MergeLabels(options.labels, e.labels);
      e.(key := OrElse(e.key, options.key),
         visibility := if e.visibility == Public && options.visibility.Some? then options.visibility.value else e.visibility,
         labels := if labels.Some? then labels else e.labels,
         extras := FillExtras(e.extras, options.extras))
  }

  /** The record that a remote update puts in place of an older one. */
  function Replacement(existing: Option<Entry>, hash: Bytes, updatedAt: int, source: Source, visibility: Visibility, options: Options): Entry {
    var sameHash := existing.Some? && existing.value.hash == hash;
    Entry(hash,
          OrElse(options.key, if sameHash then existing.value.key else None),
          visibility,
          OrElse(UniqueLabels(options.labels), if existing.Some? then existing.value.labels else None),
          updatedAt, source, false,
          ExtrasOrElse(options.extras, if sameHash then existing.value.extras else NoExtras()))
  }

  /** The record that a local write leaves: always dirty. */
  function LocalRecord(existing: Option<Entry>, hash: Bytes, now: int, options: Options): Entry {
    Entry(hash, options.key,
          if options.visibility.Some? then options.visibility.value
          else if existing.Some? then existing.value.visibility else Public,
          OrElse(UniqueLabels(options.labels), if existing.Some? then existing.value.labels else None),
          now, LocalWrite, true,
          ExtrasOrElse(options.extras, if existing.Some? then existing.value.extras else NoExtras()))
  }

  /** A field that is known and not empty. */
  predicate Known(field: Option<string>) {
    field.Some? && field.value != ""
  }

  predicate KeepsExtras(before: Extras, after: Extras) {
    && (Known(before.encryptedKey) ==> after.encryptedKey == before.encryptedKey)
    && (Known(before.keyId) ==> after.keyId == before.keyId)
    && (Known(before.selfEncryptedKey) ==> after.selfEncryptedKey == before.selfEncryptedKey)
    && (Known(before.selfEncryptedLinkKey) ==> after.selfEncryptedLinkKey == before.selfEncryptedLinkKey)
  }

  /** Some label is not empty. */
  ghost predicate Offers(labels: Option<seq<string>>) {
    labels.Some? && exists x :: x in labels.value && x != ""
  }

  /** The same labels without the empty ones, each once and in the order of their first use. */
  ghost predicate Cleaned(after: Option<seq<string>>, labels: seq<string>) {
    && after.Some?
    && (forall x :: x in after.value <==> x in labels && x != "")
    && (forall i, j :: 0 <= i < j < |after.value| ==> FirstAt(labels, after.value[i]) < FirstAt(labels, after.value[j]))
  }

  ghost predicate GivenOrKept(after: Option<string>, given: Option<string>, kept: Option<string>) {
    (given.Some? ==> after == given) && (given.None? ==> after == kept)
  }

  /** A record has the fields that are given with a write, and else those that it keeps. */
  ghost predicate TakesFields(r: Entry, o: Options, visibility: Visibility, labels: Option<seq<string>>, extras: Extras) {
    && (o.visibility.Some? ==> r.visibility == o.visibility.value)
    && (o.visibility.None? ==> r.visibility == visibility)
    && (Offers(o.labels) ==> Cleaned(r.labels, o.labels.value))
    && (!Offers(o.labels) ==> r.labels == labels)
    && GivenOrKept(r.extras.encryptedKey, o.extras.encryptedKey, extras.encryptedKey)
    && GivenOrKept(r.extras.keyId, o.extras.keyId, extras.keyId)
    && GivenOrKept(r.extras.selfEncryptedKey, o.extras.selfEncryptedKey, extras.selfEncryptedKey)
    && GivenOrKept(r.extras.selfEncryptedLinkKey, o.extras.selfEncryptedLinkKey, extras.selfEncryptedLinkKey)
  }

  lemma UniqueIsCleaned(labels: Option<seq<string>>)
    ensures Offers(labels) ==> Cleaned(UniqueLabels(labels), labels.value)
    ensures !Offers(labels) ==> UniqueLabels(labels).None?
  {
    if labels.Some? {
      var deduped := Labels(labels.value, {});
      LabelsOnce(labels.value, {});
      LabelsInOrder(labels.value, {});
      assert deduped != [] ==> deduped[0] in deduped;
    }
  }

  /** What is added to a record takes nothing away: the hash, the time and the source stay, and
      so does every known field; a hidden record stays hidden as it was; no label is lost. */
  lemma EnrichOnlyAdds(e: Entry, hash: Bytes, options: Options)
    ensures var r := Enrich(e, hash, options);
      && r.hash == e.hash && r.updatedAt == e.updatedAt && r.source == e.source && r.dirty == e.dirty
      && (e.key.Some? ==> r.key == e.key) && (e.visibility != Public ==> r.visibility == e.visibility)
      && KeepsExtras(e.extras, r.extras)
      && (e.labels.Some? ==> r.labels.Some? && forall x :: x in e.labels.value && x != "" ==> x in r.labels.value)
  {
    if e.labels.Some? {
      LabelsOnce(e.labels.value, {});
      if options.labels.Some? {
        LabelsOnce(options.labels.value + e.labels.value, {});
      }
    }
  }

  /** What is offered arrives where it is missing: a key, a visibility for a public record,
      every label, and each further field that is not known. */
  lemma EnrichTakes(e: Entry, options: Options)
    requires !e.dirty
    ensures var r, o := Enrich(e, e.hash, options), options.extras;
      && (e.key.None? ==> r.key == options.key)
      && (e.visibility == Public && options.visibility.Some? ==> r.visibility == options.visibility.value)
      && (var labels := Listed(options.labels) + Listed(e.labels);
          if Offers(Some(labels)) then Cleaned(r.labels, labels) else r.labels == e.labels)
      && (!Known(e.extras.encryptedKey) && Known(o.encryptedKey) ==> r.extras.encryptedKey == o.encryptedKey)
      && (!Known(e.extras.keyId) && Known(o.keyId) ==> r.extras.keyId == o.keyId)
      && (!Known(e.extras.selfEncryptedKey) && Known(o.selfEncryptedKey) ==> r.extras.selfEncryptedKey == o.selfEncryptedKey)
      && (!Known(e.extras.selfEncryptedLinkKey) && Known(o.selfEncryptedLinkKey) ==>
            r.extras.selfEncryptedLinkKey == o.selfEncryptedLinkKey)
  {
    MergeIsCleaned(options.labels, e.labels);
  }

  function Listed(labels: Option<seq<string>>): seq<string> {
    if labels.Some? then labels.value else []
  }

  lemma MergeIsCleaned(primary: Option<seq<string>>, fallback: Option<seq<string>>)
    ensures var labels := Listed(primary) + Listed(fallback);
      if Offers(Some(labels)) then Cleaned(MergeLabels(primary, fallback), labels) else MergeLabels(primary, fallback).None?
  {
    var labels := Listed(primary) + Listed(fallback);
    if Listed(primary) == [] {
      assert labels == Listed(fallback);
      UniqueIsCleaned(fallback);
    } else if Listed(fallback) == [] {
      assert labels == Listed(primary);
      UniqueIsCleaned(primary);
    } else {
      UniqueIsCleaned(Some(labels));
    }
  }

  // ---------------------------------------------------------- state machine

  /** A publish in flight: the key and the hash that was captured when it started. */
  datatype Publish = Publish(key: string, hash: Bytes)

  datatype State = State(records: map<string, Entry>, timers: set<string>, installed: bool, inFlight: multiset<Publish>)

  datatype Step =
    | Local(key: string, hash: Bytes, now: int, options: Options)
    | Remote(key: string, hash: Bytes, updatedAt: int, source: Source, keepVisibility: bool, options: Options)
    | AddKey(key: string, hash: Bytes, decrypted: Bytes)
    | Delete(key: string)
    | Install
    | TimerFires(key: string)
    | Published(publish: Publish, success: bool)
    | Flush
    | Cancel(key: string)

  function Lookup(records: map<string, Entry>, key: string): Option<Entry> {
    if key in records then Some(records[key]) else None
  }

  predicate Enabled(s: State, step: Step) {
    match step
    case TimerFires(key) => key in s.timers
    case Published(p, _) => p in s.inFlight
    case _ => true
  }

  /** The publish that starts for a key, if its record is dirty. */
  function Begun(records: map<string, Entry>, installed: bool, key: string): multiset<Publish> {
    if installed && key in records && records[key].dirty then multiset{Publish(key, records[key].hash)} else multiset{}
  }

  /** The publishes that a flush of some keys starts. */
  function Started(records: map<string, Entry>, keys: set<string>): set<Publish> {
    set key | key in keys && Publishable(key) && key in records && records[key].dirty :: Publish(key, records[key].hash)
  }

  function RemoteVisibility(existing: Option<Entry>, step: Step): Visibility
    requires step.Remote?
  {
    if step.options.visibility.Some? then step.options.visibility.value
    else if step.keepVisibility && existing.Some? then existing.value.visibility else Public
  }

  function RemoteRecord(existing: Option<Entry>, step: Step): Entry
    requires step.Remote?
  {
    if ShouldAccept(existing, step.hash, step.options.key, step.updatedAt)
    then Replacement(existing, step.hash, step.updatedAt, step.source, RemoteVisibility(existing, step), step.options)
    else Enrich(existing.value, step.hash, step.options)
  }

  /** What an accepted update keeps of the record it replaces: the known key and the other
      known fields only under the same hash, the labels always unless it brings some, the
      visibility only if it comes from outside and brings none. */
  lemma KeyFollowsHash(e: Entry, step: Step)
    requires step.Remote? && ShouldAccept(Some(e), step.hash, step.options.key, step.updatedAt)
    ensures var r, o := RemoteRecord(Some(e), step), step.options;
      && r.hash == step.hash && r.updatedAt == step.updatedAt && r.source == step.source && !r.dirty
      && r.key == (if o.key.Some? || e.hash != step.hash then o.key else e.key)
      && (e.hash == step.hash && o.extras == NoExtras() ==> r.extras == e.extras)
      && (o.labels.None? ==> r.labels == e.labels)
      && (o.visibility.None? ==> r.visibility == if step.keepVisibility then e.visibility else Public)
  {
  }

  /** Under another hash nothing else gets through: two replaced records leave the same
      record behind exactly when they agree on the labels and visibility that are kept. */
  lemma OtherHashForgets(a: Entry, b: Entry, step: Step)
    requires step.Remote? && a.hash != step.hash && b.hash != step.hash
    requires ShouldAccept(Some(a), step.hash, step.options.key, step.updatedAt)
    requires ShouldAccept(Some(b), step.hash, step.options.key, step.updatedAt)
    ensures RemoteRecord(Some(a), step) == RemoteRecord(Some(b), step) <==>
      && (UniqueLabels(step.options.labels).Some? || a.labels == b.labels)
      && (step.options.visibility.Some? || !step.keepVisibility || a.visibility == b.visibility)
  {
    var r, q := RemoteRecord(Some(a), step), RemoteRecord(Some(b), step);
    assert r == q <==> r.labels == q.labels && r.visibility == q.visibility;
  }

  function Apply(s: State, step: Step): State
    requires Enabled(s, step)
  {
    match step
    case Local(key, hash, now, options) =>
      s.(records := s.records[key := LocalRecord(Lookup(s.records, key), hash, now, options)], timers := s.timers + {key})
    case Remote(key, _, _, _, _, _) =>
      s.(records := s.records[key := RemoteRecord(Lookup(s.records, key), step)])
    case AddKey(key, hash, decrypted) =>
      if key in s.records && s.records[key].hash == hash && s.records[key].key.None?
      then s.(records := s.records[key := s.records[key].(key := Some(decrypted))])
      else s
    case Delete(key) => s.(records := s.records - {key}, timers := s.timers - {key})
    case Install => s.(installed := true)
    case TimerFires(key) =>
      s.(timers := s.timers - {key}, inFlight := s.inFlight + Begun(s.records, s.installed, key))
    case Published(p, success) =>
      var rest := s.(inFlight := s.inFlight - multiset{p});
      if !success then rest.(timers := s.timers + {p.key})
      else if p.key in s.records && s.records[p.key].hash == p.hash
      then rest.(records := s.records[p.key := s.records[p.key].(dirty := false)])
      else rest
    case Flush =>
      if s.installed then s.(timers := {}, inFlight := s.inFlight + multiset(Started(s.records, s.timers))) else s
    case Cancel(key) => s.(timers := s.timers - {key})
  }

  /** Nothing but one record, and perhaps its timer, has changed. */
  ghost predicate OnlyAt(s: State, t: State, key: string) {
    && t.installed == s.installed && t.inFlight == s.inFlight
    && (forall k :: k != key ==> Lookup(t.records, k) == Lookup(s.records, k) && (k in t.timers <==> k in s.timers))
  }

  /** What a local write leaves: the given hash and key and the present time whatever was
      there before, with the fields that are given or were known. */
  lemma LocalWrites(s: State, step: Step)
    requires step.Local?
    ensures var t := Apply(s, step); OnlyAt(s, t, step.key) && step.key in t.timers && step.key in t.records
    ensures var r, e := Apply(s, step).records[step.key], Lookup(s.records, step.key);
      && r.hash == step.hash && r.key == step.options.key && r.updatedAt == step.now && r.source == LocalWrite && r.dirty
      && TakesFields(r, step.options, if e.Some? then e.value.visibility else Public,
                     if e.Some? then e.value.labels else None, if e.Some? then e.value.extras else NoExtras())
  {
    UniqueIsCleaned(step.options.labels);
  }

  /** A local write is published: when its timer fires, and by a flush if its key has two
      parts, a publish of the hash just written starts. */
  lemma LocalIsPublished(s: State, step: Step)
    requires step.Local? && s.installed
    ensures var t := Apply(s, step);
      && Enabled(t, TimerFires(step.key))
      && Publish(step.key, step.hash) in Apply(t, TimerFires(step.key)).inFlight
      && (Publishable(step.key) ==> Publish(step.key, step.hash) in Apply(t, Flush).inFlight)
  {
    var t := Apply(s, step);
    assert t.records[step.key].hash == step.hash && t.records[step.key].dirty;
    if Publishable(step.key) {
      assert Publish(step.key, step.hash) in Started(t.records, t.timers);
    }
  }

  /** A remote update decides by time: a clean record takes the hash and time of an update
      that is not older and keeps its own against one that is; at the same time and under the
      same hash a given key counts. */
  lemma RemoteDecides(s: State, step: Step)
    requires step.Remote?
    ensures var t := Apply(s, step); OnlyAt(s, t, step.key) && t.timers == s.timers && step.key in t.records
    ensures var r, e := Apply(s, step).records[step.key], Lookup(s.records, step.key);
      && (e.None? || (!e.value.dirty && e.value.updatedAt < step.updatedAt) ==>
            r.hash == step.hash && r.updatedAt == step.updatedAt && r.source == step.source && !r.dirty)
      && (e.Some? && !e.value.dirty && e.value.updatedAt == step.updatedAt ==>
            r.hash == step.hash && r.updatedAt == step.updatedAt && !r.dirty
            && (e.value.hash == step.hash ==>
                  r.key == (if step.options.key.Some? then step.options.key else e.value.key)
                  && r.source == if step.options.key.Some? && step.options.key != e.value.key then step.source else e.value.source))
      && (e.Some? && !e.value.dirty && e.value.updatedAt > step.updatedAt ==>
            r.hash == e.value.hash && r.updatedAt == e.value.updatedAt && r.source == e.value.source && !r.dirty)
  {
  }

  /** The fields of an accepted update: those that it gives, and else the known labels, and
      under the same hash what else is known. */
  lemma AcceptedFields(existing: Option<Entry>, step: Step)
    requires step.Remote? && ShouldAccept(existing, step.hash, step.options.key, step.updatedAt)
    ensures TakesFields(RemoteRecord(existing, step), step.options,
                        if existing.Some? && step.keepVisibility then existing.value.visibility else Public,
                        if existing.Some? then existing.value.labels else None,
                        if existing.Some? && existing.value.hash == step.hash then existing.value.extras else NoExtras())
  {
    UniqueIsCleaned(step.options.labels);
  }

  /** The publish starts with this step: its timer fires or is flushed while its record is
      dirty and has that hash. */
  ghost predicate Starts(s: State, step: Step, p: Publish) {
    && s.installed && p.key in s.records && s.records[p.key].dirty && s.records[p.key].hash == p.hash
    && (step == TimerFires(p.key) || (step == Flush && p.key in s.timers && Publishable(p.key)))
  }

  /** Which publishes are in flight: each start adds one and each end takes one away. */
  lemma FlightsExactly(s: State, step: Step, p: Publish)
    requires Enabled(s, step)
    ensures Apply(s, step).inFlight[p]
         == s.inFlight[p] + (if Starts(s, step, p) then 1 else 0) - (if step.Published? && step.publish == p then 1 else 0)
  {
    match step
    case Flush => if s.installed { FlushFlights(s, p); }
    case Local(_, _, _, _) => NoFlights(s, step);
    case Remote(_, _, _, _, _, _) => NoFlights(s, step);
    case AddKey(_, _, _) => NoFlights(s, step);
    case Delete(_) => NoFlights(s, step);
    case Install => NoFlights(s, step);
    case Cancel(_) => NoFlights(s, step);
    case TimerFires(_) =>
    case Published(_, _) =>
  }

  lemma NoFlights(s: State, step: Step)
    requires step.Local? || step.Remote? || step.AddKey? || step.Delete? || step.Install? || step.Cancel?
    ensures Apply(s, step).inFlight == s.inFlight
  {
  }

  lemma FlushFlights(s: State, p: Publish)
    requires s.installed
    ensures Apply(s, Flush).inFlight[p] == s.inFlight[p] + if Starts(s, Flush, p) then 1 else 0
  {
    var started := Started(s.records, s.timers);
    assert p in started <==> Starts(s, Flush, p);
    assert multiset(started)[p] == if p in started then 1 else 0;
  }

  function ApplyAll(s: State, steps: seq<Step>): State
    requires AllEnabled(s, steps)
    decreases |steps|
  {
    if steps == [] then s else ApplyAll(Apply(s, steps[0]), steps[1..])
  }

  predicate AllEnabled(s: State, steps: seq<Step>)
    decreases |steps|
  {
    steps == [] || (Enabled(s, steps[0]) && AllEnabled(Apply(s, steps[0]), steps[1..]))
  }

  function Empty(): State {
    State(map[], {}, false, multiset{})
  }

  // --------------------------------------------------- no publish is forgotten

  predicate Dirty(s: State, key: string) {
    key in s.records && s.records[key].dirty
  }

  /** A timer is running for the key or a publish of its current hash is in flight. */
  predicate Pending(s: State, key: string) {
    key in s.timers || (key in s.records && Publish(key, s.records[key].hash) in s.inFlight)
  }

  ghost predicate Justified(s: State) {
    forall key :: key in s.records && s.records[key].dirty ==> Pending(s, key)
  }

  predicate InFlight(s: State, key: string) {
    key in s.records && Publish(key, s.records[key].hash) in s.inFlight
  }

  /** The ways to forget a dirty record while no publish of its hash is in flight: to cancel
      its timer, to let the timer fire before there is a publish function, or to flush a key
      that has an empty part. */
  predicate Forgets(s: State, step: Step) {
    match step
    case Cancel(key) => Dirty(s, key) && !InFlight(s, key)
    case TimerFires(key) => !s.installed && Dirty(s, key) && !InFlight(s, key)
    case Flush => s.installed && exists key :: key in s.timers && Dirty(s, key) && !Publishable(key) && !InFlight(s, key)
    case _ => false
  }

  lemma LocalPending(s: State, step: Step, key: string)
    requires (step.Local? || step.Remote? || step.AddKey? || step.Install? || step.Delete?)
    requires Justified(s) && Dirty(Apply(s, step), key)
    ensures Pending(Apply(s, step), key)
  {
    if Dirty(s, key) { assert Pending(s, key); }
  }

  lemma FirePending(s: State, fired: string, key: string)
    requires Justified(s) && fired in s.timers && !Forgets(s, TimerFires(fired))
    requires Dirty(s, key)
    ensures Pending(Apply(s, TimerFires(fired)), key)
  {
    assert Pending(s, key);
  }

  lemma PublishedPending(s: State, p: Publish, success: bool, key: string)
    requires Justified(s) && p in s.inFlight
    requires Dirty(Apply(s, Published(p, success)), key)
    ensures Pending(Apply(s, Published(p, success)), key)
  {
    assert Pending(s, key);
  }

  lemma FlushPending(s: State, key: string)
    requires Justified(s) && s.installed && !Forgets(s, Flush) && Dirty(s, key)
    ensures Pending(Apply(s, Flush), key)
  {
    assert Pending(s, key);
    if key in s.timers && Publishable(key) {
      assert Publish(key, s.records[key].hash) in Started(s.records, s.timers);
    }
  }

  lemma StillPending(s: State, step: Step, key: string)
    requires Enabled(s, step) && Justified(s) && !Forgets(s, step)
    requires Dirty(Apply(s, step), key)
    ensures Pending(Apply(s, step), key)
  {
    match step
    case TimerFires(fired) => FirePending(s, fired, key);
    case Published(p, success) => PublishedPending(s, p, success, key);
    case Flush => if s.installed { FlushPending(s, key); }
    case Cancel(_) => assert Pending(s, key);
    case _ => LocalPending(s, step, key);
  }

  lemma FlushForgets(s: State, key: string)
    requires s.installed && key in s.timers && Dirty(s, key) && !Publishable(key) && !InFlight(s, key)
    ensures !Pending(Apply(s, Flush), key)
  {
    assert Publish(key, s.records[key].hash) !in Started(s.records, s.timers);
  }

  lemma Forgotten(s: State, step: Step) returns (key: string)
    requires Enabled(s, step) && Forgets(s, step)
    ensures Dirty(Apply(s, step), key) && !Pending(Apply(s, step), key)
  {
    if step.Flush? {
      key :| key in s.timers && Dirty(s, key) && !Publishable(key) && !InFlight(s, key);
      FlushForgets(s, key);
    } else {
      key := step.key;
    }
  }

  /** A step keeps every dirty record pending if and only if it is not one that forgets. */
  lemma StepKeepsPending(s: State, step: Step)
    requires Enabled(s, step) && Justified(s)
    ensures Justified(Apply(s, step)) <==> !Forgets(s, step)
  {
    if Forgets(s, step) {
      var key := Forgotten(s, step);
      NotJustified(Apply(s, step), key);
    } else {
      var after := Apply(s, step);
      forall key | key in after.records && after.records[key].dirty ensures Pending(after, key) {
        StillPending(s, step, key);
      }
    }
  }

  lemma NotJustified(s: State, key: string)
    requires Dirty(s, key) && !Pending(s, key)
    ensures !Justified(s)
  {
  }

  predicate NeverForgets(s: State, steps: seq<Step>)
    requires AllEnabled(s, steps)
    decreases |steps|
  {
    steps == [] || (!Forgets(s, steps[0]) && NeverForgets(Apply(s, steps[0]), steps[1..]))
  }

  /** The state before step `i` of a run. */
  function StateAt(s: State, steps: seq<Step>, i: nat): State
    requires AllEnabled(s, steps) && i <= |steps|
    decreases i
  {
    if i == 0 then s else StateAt(Apply(s, steps[0]), steps[1..], i - 1)
  }

  /** Before, between and after the steps every dirty record is pending. */
  ghost predicate AlwaysJustified(s: State, steps: seq<Step>)
    requires AllEnabled(s, steps)
  {
    forall i :: 0 <= i <= |steps| ==> Justified(StateAt(s, steps, i))
  }

  lemma AlwaysJustifiedStep(s: State, steps: seq<Step>)
    requires steps != [] && AllEnabled(s, steps) && Justified(s)
    ensures AlwaysJustified(s, steps) <==> AlwaysJustified(Apply(s, steps[0]), steps[1..])
    ensures AlwaysJustified(s, steps) ==> Justified(Apply(s, steps[0]))
  {
    var next, rest := Apply(s, steps[0]), steps[1..];
    if AlwaysJustified(s, steps) {
      forall i | 0 <= i <= |rest| ensures Justified(StateAt(next, rest, i)) {
        assert StateAt(s, steps, i + 1) == StateAt(next, rest, i);
      }
    }
    if AlwaysJustified(next, rest) {
      assert Justified(StateAt(next, rest, 0));
      forall i | 0 <= i <= |steps| ensures Justified(StateAt(s, steps, i)) {
        if i > 0 { assert StateAt(s, steps, i) == StateAt(next, rest, i - 1); }
      }
    }
  }

  /** Over whole runs, from the start or any justified state: every dirty record is pending
      all along if and only if no step forgets one. */
  lemma {:induction false} RunKeepsPending(s: State, steps: seq<Step>)
    requires Justified(s) && AllEnabled(s, steps)
    ensures AlwaysJustified(s, steps) <==> NeverForgets(s, steps)
    decreases |steps|
  {
    if steps == [] {
    } else {
      var next := Apply(s, steps[0]);
      StepKeepsPending(s, steps[0]);
      AlwaysJustifiedStep(s, steps);
      if Justified(next) {
        RunKeepsPending(next, steps[1..]);
      }
    }
  }

  /** What is loaded at the start: dirty records get a timer unless a part of the key is empty. */
  function Hydrate(persisted: map<string, Entry>): State {
    State(persisted, set key | key in persisted && persisted[key].dirty && Publishable(key), false, multiset{})
  }

  lemma HydrateForgets(persisted: map<string, Entry>)
    ensures Justified(Hydrate(persisted)) <==> forall key :: key in persisted && persisted[key].dirty ==> Publishable(key)
  {
    var s := Hydrate(persisted);
    if key :| key in persisted && persisted[key].dirty && !Publishable(key) {
      assert Dirty(s, key) && !Pending(s, key);
    }
  }

  // --------------------------------------------- what makes a record clean

  /** A dirty record stops being dirty exactly when it is deleted or when a publish of the
      hash it has now succeeds. */
  lemma CleanedExactly(s: State, step: Step, key: string)
    requires Enabled(s, step) && Dirty(s, key)
    ensures !Dirty(Apply(s, step), key) <==>
      step == Delete(key) || step == Published(Publish(key, s.records[key].hash), true)
  {
  }

  /** Remote updates leave a dirty record as it is, and a decrypted key changes only the key. */
  lemma DirtyIsKept(s: State, step: Step, key: string)
    requires Dirty(s, key) && (step.Remote? || step.AddKey?)
    ensures key in Apply(s, step).records
    ensures step.Remote? ==> Apply(s, step).records[key] == s.records[key]
    ensures Apply(s, step).records[key].(key := None) == s.records[key].(key := None)
    ensures s.records[key].key.Some? ==> Apply(s, step).records[key] == s.records[key]
  {
  }

  /** In a run that does not delete it, a dirty record that ends up clean was published
      successfully under the hash it had at that moment. */
  lemma {:induction false} CleanedByPublish(s: State, steps: seq<Step>, key: string) returns (i: nat)
    requires AllEnabled(s, steps) && Dirty(s, key) && !Dirty(ApplyAll(s, steps), key)
    requires forall j :: 0 <= j < |steps| ==> steps[j] != Delete(key)
    ensures i < |steps| && Dirty(StateAt(s, steps, i), key)
    ensures steps[i] == Published(Publish(key, StateAt(s, steps, i).records[key].hash), true)
    decreases |steps|
  {
    CleanedExactly(s, steps[0], key);
    if Dirty(Apply(s, steps[0]), key) {
      i := CleanedByPublish(Apply(s, steps[0]), steps[1..], key);
      i := i + 1;
    } else {
      i := 0;
    }
  }

  // ------------------------------------------------------- remote convergence

  lemma RemoteTime(e: Entry, step: Step)
    requires step.Remote?
    ensures e.updatedAt <= RemoteRecord(Some(e), step).updatedAt
  {
  }

  /** Only a local write or a deletion takes a record back in time. */
  lemma TimeAdvances(s: State, step: Step, key: string)
    requires Enabled(s, step) && key in s.records
    requires step != Delete(key) && !(step.Local? && step.key == key)
    ensures key in Apply(s, step).records && s.records[key].updatedAt <= Apply(s, step).records[key].updatedAt
  {
    match step
    case Remote(k, _, _, _, _, _) =>
      RemoteTime(s.records[key], step);
      assert k == key ==> Apply(s, step).records[key] == RemoteRecord(Some(s.records[key]), step);
    case _ =>
  }

  lemma {:induction false} TimeAdvancesOverRuns(s: State, steps: seq<Step>, key: string)
    requires AllEnabled(s, steps) && key in s.records
    requires forall j :: 0 <= j < |steps| ==> steps[j] != Delete(key) && !(steps[j].Local? && steps[j].key == key)
    ensures key in ApplyAll(s, steps).records
    ensures s.records[key].updatedAt <= ApplyAll(s, steps).records[key].updatedAt
    decreases |steps|
  {
    if steps != [] {
      TimeAdvances(s, steps[0], key);
      TimeAdvancesOverRuns(Apply(s, steps[0]), steps[1..], key);
    }
  }

  ghost predicate CleanAt(s: State, key: string, hash: Bytes, updatedAt: int) {
    key in s.records && !s.records[key].dirty && s.records[key].hash == hash && s.records[key].updatedAt == updatedAt
  }

  ghost predicate OlderThan(s: State, key: string, updatedAt: int) {
    key in s.records ==> !s.records[key].dirty && s.records[key].updatedAt < updatedAt
  }

  /** Updates for the key are all older than `updatedAt`. */
  ghost predicate AllOlder(steps: seq<Step>, key: string, updatedAt: int) {
    forall i :: 0 <= i < |steps| ==> steps[i].Remote? && (steps[i].key == key ==> steps[i].updatedAt < updatedAt)
  }

  lemma {:induction false} OldUpdatesAreIgnored(s: State, steps: seq<Step>, key: string, hash: Bytes, updatedAt: int)
    requires AllEnabled(s, steps) && CleanAt(s, key, hash, updatedAt) && AllOlder(steps, key, updatedAt)
    ensures CleanAt(ApplyAll(s, steps), key, hash, updatedAt)
    decreases |steps|
  {
    if steps != [] {
      OldUpdatesAreIgnored(Apply(s, steps[0]), steps[1..], key, hash, updatedAt);
    }
  }

  /** Of remote updates in any order, through any of the three ways in, the latest one for a
      key decides its hash and time. */
  lemma {:induction false} LatestWins(s: State, steps: seq<Step>, m: nat, key: string)
    requires AllEnabled(s, steps) && m < |steps| && steps[m].Remote? && steps[m].key == key
    requires OlderThan(s, key, steps[m].updatedAt)
    requires AllOlder(steps[..m], key, steps[m].updatedAt) && AllOlder(steps[m + 1..], key, steps[m].updatedAt)
    ensures CleanAt(ApplyAll(s, steps), key, steps[m].hash, steps[m].updatedAt)
    decreases m
  {
    var after := Apply(s, steps[0]);
    if m == 0 {
      OldUpdatesAreIgnored(after, steps[1..], key, steps[0].hash, steps[0].updatedAt);
    } else {
      var rest := steps[1..];
      assert steps[..m][0] == steps[0];
      assert rest[..m - 1] == steps[..m][1..] && rest[m - 1 + 1..] == steps[m + 1..];
      LatestWins(after, rest, m - 1, key);
    }
  }
}
