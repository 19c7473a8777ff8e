/**
 The registry as it runs: a map to record objects that are changed in place, timers, and
 publishes in flight. Every method takes the step of the state machine that it stands for.
 */
module Registry {
  import opened Bytes
  import opened RegistrySpec
  import opened Wrappers

  class Record {
    const hash: Bytes
    const updatedAt: int
    const source: Source
    var key: Option<Bytes>
    var visibility: Visibility
    var labels: Option<seq<string>>
    var dirty: bool
    var extras: Extras

    ghost function Value(): Entry
      reads this
    {
      Entry(hash, key, visibility, labels, updatedAt, source, dirty, extras)
    }

    constructor (e: Entry)
      ensures Value() == e
    {
      hash, updatedAt, source := e.hash, e.updatedAt, e.source;
      key, visibility, labels := e.key, e.visibility, e.labels;
      dirty, extras := e.dirty, e.extras;
    }
  }

  /** Drop empty labels and repetitions. */
  method Deduplicate(labels: Option<seq<string>>) returns (r: Option<seq<string>>)
    ensures r == UniqueLabels(labels)
  {
    if labels.None? {
      return None;
    }
    var deduped: seq<string> := [];
    var seen: set<string> := {};
    for i := 0 to |labels.value|
      invariant deduped + Labels(labels.value[i..], seen) == Labels(labels.value, {})
    {
      var name := labels.value[i];
      assert labels.value[i..][0] == name && labels.value[i..][1..] == labels.value[i + 1..];
      if name != "" && name !in seen {
        ghost var before := deduped;
        seen := seen + {name};
        deduped := deduped + [name];
        assert before + ([name] + Labels(labels.value[i + 1..], seen)) == deduped + Labels(labels.value[i + 1..], seen);
      }
    }
    assert labels.value[|labels.value|..] == [] && deduped + [] == deduped;
    r := if |deduped| > 0 then Some(deduped) else None;
  }

  /** Put the labels of two sources together. */
  method MergeAll(primary: Option<seq<string>>, fallback: Option<seq<string>>) returns (r: Option<seq<string>>)
    ensures r == MergeLabels(primary, fallback)
  {
    if primary.None? || primary.value == [] {
      r := Deduplicate(fallback);
    } else if fallback.None? || fallback.value == [] {
      r := Deduplicate(primary);
    } else {
      r := Deduplicate(Some(primary.value + fallback.value));
    }
  }

  /** Add to a clean record of the same hash what it does not have yet. */
  method EnrichSameHash(existing: Record, hash: Bytes, options: Options) returns (changed: bool)
    modifies existing
    ensures existing.Value() == Enrich(old(existing.Value()), hash, options)
    ensures changed <==> existing.Value() != old(existing.Value())
  {
    if existing.dirty || existing.hash != hash {
      return false;
    }
    changed := false;
    if existing.key.None? && options.key.Some? {
      existing.key := options.key;
      changed := true;
    }
    if existing.visibility == Public && options.visibility.Some? && options.visibility.value != Public {
      existing.visibility := options.visibility.value;
      changed := true;
    }
    var merged := MergeAll(options.labels, existing.labels);
    if merged.Some? && merged != existing.labels {
      existing.labels := merged;
      changed := true;
    }
    var filled := FillExtras(existing.extras, options.extras);
    if filled != existing.extras {
      existing.extras := filled;
      changed := true;
    }
  }

  class Registry {
    var records: map<string, Record>
    var publishTimers: set<string>
    var publishFn: bool
    var inFlight: multiset<Publish>

    /** Different keys have different record objects. */
    ghost predicate Valid()
      reads `records
    {
      forall a, b :: a in records && b in records && records[a] == records[b] ==> a == b
    }

    ghost function View(): map<string, Entry>
      reads `records, records.Values
    {
      map key | key in records :: records[key].Value()
    }

    ghost function Now(): State
      reads this, records.Values
    {
      State(View(), publishTimers, publishFn, inFlight)
    }

    constructor ()
      ensures Valid() && Now() == Empty()
    {
      records := map[];
      publishTimers := {};
      publishFn := false;
      inFlight := multiset{};
    }

    /** Put a new record object in place. */
    method Store(key: string, e: Entry)
      requires Valid()
      modifies `records
      ensures Valid() && View() == old(View())[key := e]
    {
      var record := new Record(e);
      records := records[key := record];
    }

    method LocalEntry(key: string, hash: Bytes, now: int, options: Options) returns (e: Entry)
      ensures e == LocalRecord(Lookup(View(), key), hash, now, options)
    {
      var visibility, labels, extras := Public, None, NoExtras();
      if key in records {
        visibility, labels, extras := records[key].visibility, records[key].labels, records[key].extras;
      }
      if options.visibility.Some? {
        visibility := options.visibility.value;
      }
      var given := Deduplicate(options.labels);
      e := Entry(hash, options.key, visibility, OrElse(given, labels), now, LocalWrite, true,
                 ExtrasOrElse(options.extras, extras));
    }

    /** A local write: dirty, and with a timer to publish it. */
    method SetLocal(npub: string, treeName: string, hash: Bytes, now: int, options: Options)
      requires Valid()
      modifies `records, `publishTimers
      ensures Valid() && Now() == Apply(old(Now()), Local(MakeKey(npub, treeName), hash, now, options))
      ensures var key := npub + "/" + treeName;
        && key in publishTimers && key in View()
        && View()[key].hash == hash && View()[key].key == options.key && View()[key].updatedAt == now && View()[key].dirty
    {
      var key := MakeKey(npub, treeName);
      var e := LocalEntry(key, hash, now, options);
      Store(key, e);
      publishTimers := publishTimers + {key};
    }

    /** Whether a remote update may replace what is there. */
    method ShouldAcceptUpdate(key: string, hash: Bytes, newKey: Option<Bytes>, updatedAt: int) returns (accept: bool)
      ensures accept <==> ShouldAccept(Lookup(View(), key), hash, newKey, updatedAt)
    {
      if key !in records {
        return true;
      }
      var existing := records[key];
      if existing.dirty || existing.updatedAt > updatedAt {
        return false;
      }
      if existing.updatedAt == updatedAt && existing.hash == hash {
        if newKey.None? || (existing.key.Some? && existing.key == newKey) {
          return false;
        }
      }
      accept := true;
    }

    /** Changing one record object changes the view at its key and nowhere else. */
    twostate lemma ViewAfter(key: string)
      requires old(Valid()) && key in old(records) && old(records) == records
      requires forall k :: k in records && k != key ==> records[k].Value() == old(records[k].Value())
      ensures View() == old(View())[key := records[key].Value()]
    {
    }

    /** What a remote update that is accepted puts in place. */
    method RemoteEntry(key: string, hash: Bytes, updatedAt: int, source: Source, keepVisibility: bool, options: Options)
      returns (e: Entry)
      requires ShouldAccept(Lookup(View(), key), hash, options.key, updatedAt)
      ensures e == RemoteRecord(Lookup(View(), key), Remote(key, hash, updatedAt, source, keepVisibility, options))
    {
      var visibility, labels, oldKey, extras := Public, None, None, NoExtras();
      if key in records {
        labels := records[key].labels;
        if keepVisibility {
          visibility := records[key].visibility;
        }
        if records[key].hash == hash {
          oldKey, extras := records[key].key, records[key].extras;
        }
      }
      if options.visibility.Some? {
        visibility := options.visibility.value;
      }
      var given := Deduplicate(options.labels);
      e := Entry(hash, OrElse(options.key, oldKey), visibility, OrElse(given, labels), updatedAt, source, false,
                 ExtrasOrElse(options.extras, extras));
    }

    /** A remote update; it reports whether anything changed. */
    method Update(key: string, hash: Bytes, updatedAt: int, source: Source, keepVisibility: bool, options: Options)
      returns (updated: bool)
      requires Valid()
      modifies `records, records.Values
      ensures Valid() && Now() == Apply(old(Now()), Remote(key, hash, updatedAt, source, keepVisibility, options))
      ensures updated <==> Now() != old(Now())
    {
      ghost var before := Lookup(View(), key);
      var accept := ShouldAcceptUpdate(key, hash, options.key, updatedAt);
      if !accept {
        updated := EnrichSameHash(records[key], hash, options);
        ViewAfter(key);
        assert updated <==> View()[key] != old(View())[key];
      } else {
        var e := RemoteEntry(key, hash, updatedAt, source, keepVisibility, options);
        AcceptedDiffers(before, Remote(key, hash, updatedAt, source, keepVisibility, options));
        Store(key, e);
        updated := true;
        assert Lookup(View(), key) == Some(e) && Lookup(View(), key) != before;
      }
    }

    method SetFromResolver(npub: string, treeName: string, hash: Bytes, updatedAt: int, options: Options) returns (updated: bool)
      requires Valid()
      modifies `records, records.Values
      ensures Valid() && Now() == Apply(old(Now()), Remote(MakeKey(npub, treeName), hash, updatedAt, Nostr, false, options))
      ensures updated <==> Now() != old(Now())
    {
      updated := Update(MakeKey(npub, treeName), hash, updatedAt, Nostr, false, options);
    }

    method SetFromWorker(npub: string, treeName: string, hash: Bytes, updatedAt: int, options: Options) returns (updated: bool)
      requires Valid()
      modifies `records, records.Values
      ensures Valid() && Now() == Apply(old(Now()), Remote(MakeKey(npub, treeName), hash, updatedAt, Worker, false, options))
      ensures updated <==> Now() != old(Now())
    {
      updated := Update(MakeKey(npub, treeName), hash, updatedAt, Worker, false, options);
    }

    method SetFromExternal(npub: string, treeName: string, hash: Bytes, source: Source, updatedAt: int, options: Options)
      requires Valid()
      modifies `records, records.Values
      ensures Valid() && Now() == Apply(old(Now()), Remote(MakeKey(npub, treeName), hash, updatedAt, source, true, options))
    {
      var key := MakeKey(npub, treeName);
      if key in records && records[key].dirty {
        assert View()[key := records[key].Value()] == View();
        return;
      }
      var _ := Update(key, hash, updatedAt, source, true, options);
    }

    method MergeKey(npub: string, treeName: string, hash: Bytes, decrypted: Bytes) returns (updated: bool)
      requires Valid()
      modifies records.Values
      ensures Valid() && Now() == Apply(old(Now()), AddKey(MakeKey(npub, treeName), hash, decrypted))
      ensures var key := npub + "/" + treeName; var e := Lookup(old(View()), key);
        updated <==> e.Some? && e.value.hash == hash && e.value.key.None?
      ensures updated <==> Now() != old(Now())
    {
      var key := MakeKey(npub, treeName);
      if key !in records || records[key].hash != hash || records[key].key.Some? {
        return false;
      }
      records[key].key := Some(decrypted);
      ViewAfter(key);
      assert View()[key] != old(View())[key];
      updated := true;
    }

    method DeleteRecord(npub: string, treeName: string)
      requires Valid()
      modifies `records, `publishTimers
      ensures Valid() && Now() == Apply(old(Now()), Delete(MakeKey(npub, treeName)))
      ensures var key := npub + "/" + treeName;
        View() == old(View()) - {key} && publishTimers == old(publishTimers) - {key} && inFlight == old(inFlight)
    {
      var key := MakeKey(npub, treeName);
      publishTimers := publishTimers - {key};
      records := records - {key};
      assert View() == old(View()) - {key};
    }

    method SetPublishFn()
      requires Valid()
      modifies `publishFn
      ensures Valid() && Now() == Apply(old(Now()), Install)
    {
      publishFn := true;
    }

    /** The part of a publish before it waits: the hash is captured. */
    method BeginPublish(key: string)
      requires Valid()
      modifies `inFlight
      ensures Valid()
      ensures inFlight == old(inFlight) + Begun(View(), publishFn, key)
    {
      if key !in records || !records[key].dirty || !publishFn {
        return;
      }
      inFlight := inFlight + multiset{Publish(key, records[key].hash)};
    }

    method OnTimer(npub: string, treeName: string)
      requires Valid() && MakeKey(npub, treeName) in publishTimers
      modifies `publishTimers, `inFlight
      ensures Valid() && Now() == Apply(old(Now()), TimerFires(MakeKey(npub, treeName)))
    {
      var key := MakeKey(npub, treeName);
      publishTimers := publishTimers - {key};
      BeginPublish(key);
    }

    /** A published record is clean if it still has the hash that was published. */
    method MarkClean(publish: Publish)
      requires Valid()
      modifies records.Values
      ensures View() == if publish.key in old(View()) && old(View())[publish.key].hash == publish.hash
                        then old(View())[publish.key := old(View())[publish.key].(dirty := false)] else old(View())
    {
      if publish.key in records && records[publish.key].hash == publish.hash {
        records[publish.key].dirty := false;
        ViewAfter(publish.key);
      }
    }

    method Succeed(publish: Publish)
      requires Valid() && publish in inFlight
      modifies `inFlight, records.Values
      ensures Valid() && Now() == Apply(old(Now()), Published(publish, true))
    {
      inFlight := inFlight - multiset{publish};
      MarkClean(publish);
    }

    method Fail(publish: Publish)
      requires Valid() && publish in inFlight
      modifies `inFlight, `publishTimers
      ensures Valid() && Now() == Apply(old(Now()), Published(publish, false))
    {
      ghost var view, timers := View(), publishTimers + {publish.key};
      inFlight := inFlight - multiset{publish};
      if publish.key !in publishTimers {
        publishTimers := publishTimers + {publish.key};
      }
      assert publishTimers == timers;
      assert View() == view;
    }

    /** The part of a publish after it has waited; a failure is tried again later. */
    method FinishPublish(publish: Publish, success: bool)
      requires Valid() && publish in inFlight
      modifies `inFlight, `publishTimers, records.Values
      ensures Valid() && Now() == Apply(old(Now()), Published(publish, success))
    {
      if success {
        Succeed(publish);
      } else {
        Fail(publish);
      }
    }

    /** Stop one timer and publish at once, unless a part of the key is empty. */
    method FlushOne(key: string)
      requires Valid() && publishFn
      modifies `publishTimers, `inFlight
      ensures publishTimers == old(publishTimers) - {key}
      ensures inFlight == old(inFlight) + BegunIf(View(), key)
    {
      publishTimers := publishTimers - {key};
      var (npub, treeName) := SplitKey(key);
      if npub != "" && treeName != "" {
        SplitJoins(key);
        BeginPublish(MakeKey(npub, treeName));
      }
    }

    /** Flush any one of the keys that are left. */
    method FlushSome(ghost view: map<string, Entry>, ghost all: set<string>, ghost visited: set<string>, ghost before: multiset<Publish>)
      returns (key: string)
      requires Valid() && publishFn && View() == view && publishTimers != {}
      requires Flushing(view, all, visited, publishTimers, before, inFlight)
      modifies `publishTimers, `inFlight
      ensures key in old(publishTimers) && publishTimers == old(publishTimers) - {key}
      ensures Flushing(view, all, visited + {key}, publishTimers, before, inFlight)
    {
      key :| key in publishTimers;
      FlushNext(view, all, visited, publishTimers, before, inFlight, key);
      FlushOne(key);
    }

    method FlushAll(ghost view: map<string, Entry>)
      requires Valid() && publishFn && View() == view
      modifies `publishTimers, `inFlight
      ensures publishTimers == {}
      ensures inFlight == old(inFlight) + multiset(Started(view, old(publishTimers)))
    {
      ghost var visited: set<string> := {};
      ghost var all, before := publishTimers, inFlight;
      while publishTimers != {}
        invariant Flushing(view, all, visited, publishTimers, before, inFlight)
        decreases publishTimers
      {
        var key := FlushSome(view, all, visited, before);
        visited := visited + {key};
      }
      assert visited == all;
    }

    /** Publish everything that has a timer at once. */
    method FlushPendingPublishes()
      requires Valid()
      modifies `publishTimers, `inFlight
      ensures Valid() && Now() == Apply(old(Now()), Flush)
    {
      if !publishFn {
        return;
      }
      FlushAll(View());
    }

    method CancelPendingPublish(npub: string, treeName: string)
      requires Valid()
      modifies `publishTimers
      ensures Valid() && Now() == Apply(old(Now()), Cancel(MakeKey(npub, treeName)))
      ensures publishTimers == old(publishTimers) - {npub + "/" + treeName}
    {
      publishTimers := publishTimers - {MakeKey(npub, treeName)};
    }
  }

  /** An accepted update is never the record that was there. */
  lemma AcceptedDiffers(existing: Option<Entry>, step: Step)
    requires step.Remote? && ShouldAccept(existing, step.hash, step.options.key, step.updatedAt)
    ensures existing != Some(RemoteRecord(existing, step))
  {
  }

  function BegunIf(records: map<string, Entry>, key: string): multiset<Publish> {
    if Publishable(key) then Begun(records, true, key) else multiset{}
  }

  lemma SumMore(a: multiset<Publish>, b: multiset<Publish>, c: multiset<Publish>)
    ensures (a + b) + c == a + (b + c)
  {
  }

  /** In the middle of a flush: the publishes of the keys visited have started. */
  ghost predicate Flushing(view: map<string, Entry>, all: set<string>, visited: set<string>, left: set<string>,
                           before: multiset<Publish>, now: multiset<Publish>) {
    visited + left == all && visited !! left && now == before + multiset(Started(view, visited))
  }

  lemma FlushNext(view: map<string, Entry>, all: set<string>, visited: set<string>, left: set<string>,
                  before: multiset<Publish>, now: multiset<Publish>, key: string)
    requires Flushing(view, all, visited, left, before, now) && key in left
    ensures Flushing(view, all, visited + {key}, left - {key}, before, now + BegunIf(view, key))
  {
    StartedMore(view, visited, key);
    SumMore(before, multiset(Started(view, visited)), BegunIf(view, key));
  }

  lemma StartedMore(records: map<string, Entry>, keys: set<string>, key: string)
    requires key !in keys
    ensures multiset(Started(records, keys + {key})) == multiset(Started(records, keys)) + BegunIf(records, key)
  {
    if Publishable(key) && key in records && records[key].dirty {
      assert Publish(key, records[key].hash) !in Started(records, keys);
      assert Started(records, keys + {key}) == Started(records, keys) + {Publish(key, records[key].hash)};
    } else {
      assert Started(records, keys + {key}) == Started(records, keys);
    }
  }
}
