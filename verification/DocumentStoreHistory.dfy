/** Every history of the document cache: its accounts and its generations. */
module DocumentStoreHistory {
  import opened Sequences
  import opened TextPosition
  import opened DocumentStore

  // ----- What every operation keeps -----

  /** Cached generations do not go down, and where one stays the same so does the content. */
  predicate GenerationsKept(before: Store, after: Store) {
    forall path :: path in before.documents && path in after.documents ==>
      GenerationKept(before.documents[path], after.documents[path])
  }

  predicate GenerationKept(before: DocumentRecord, after: DocumentRecord) {
    && before.contentGeneration <= after.contentGeneration
    && (before.contentGeneration == after.contentGeneration ==> before.content == after.content)
  }

  ghost predicate Keeps(before: Store, after: Store) {
    after.Consistent() && GenerationsKept(before, after) && before.documents.Keys <= after.documents.Keys
  }

  lemma {:induction false} StampedNext(documents: map<Path, DocumentRecord>, clock: nat, record: DocumentRecord)
    requires Stamped(documents, clock)
    ensures Stamped(documents[record.path := record.(lastAccess := clock + 1)], clock + 1)
  {
  }

  lemma {:induction false} StoredKeeps(store: Store, record: DocumentRecord)
    requires store.Consistent()
    requires record.path in store.documents ==> GenerationKept(store.documents[record.path], record)
    ensures Keeps(store, store.Stored(record))
  {
    hide ByteLength, Stamped, Bytes;
    StampedNext(store.documents, store.accessClock, record);
    if record.path in store.documents {
      BytesWithout(store.documents, record.path);
    } else {
      assert store.documents - {record.path} == store.documents;
    }
    BytesWith(store.documents, record.path, record.(lastAccess := store.accessClock + 1));
  }

  lemma {:induction false} TouchedKeeps(store: Store, path: Path)
    requires store.Consistent() && path in store.documents
    ensures Keeps(store, store.Touched(path))
  {
    hide ByteLength, Bytes;
    var record := store.documents[path];
    assert store.Touched(path) == store.Stored(record) && record.path == path;
    StoredKeeps(store, record);
  }

  lemma {:induction false} KeepsNext(a: Store, b: Store, c: Store)
    requires a.Consistent() ==> Keeps(a, b)
    requires Keeps(b, c)
    ensures a.Consistent() ==> Keeps(a, c)
  {
    hide Store.Consistent;
  }

  lemma {:induction false} SameKeeps(store: Store)
    requires store.Consistent()
    ensures Keeps(store, store)
  {
  }

  lemma {:induction false} RestoreKeeps(store: Store, documents: seq<ReplayDocument>)
    requires store.Consistent()
    ensures Keeps(store, RestoredAll(store, documents).0)
    decreases |documents|
  {
    hide Store.Stored, Store.Consistent, Keeps;
    if documents == [] || RestoreError(store, documents[0]).Some? {
      SameKeeps(store);
    } else {
      var document := documents[0];
      StoredKeeps(store, DocumentRecord(
        document.path, document.content, document.contentGeneration, document.documentVersion, None, 0, true, true));
      KeepsConsistent(store, Restored(store, document));
      RestoreKeeps(Restored(store, document), documents[1..]);
      KeepsNext(store, Restored(store, document), RestoredAll(store, documents).0);
    }
  }

  lemma {:induction false} KeepsConsistent(before: Store, after: Store)
    requires Keeps(before, after)
    ensures after.Consistent() && GenerationsKept(before, after)
  {
  }

  lemma {:induction false} SyncKeeps(store: Store, document: DocumentSync)
    requires store.Consistent()
    ensures Keeps(store, AfterSync(store, document).0)
  {
    hide Store.Stored, Store.Touched, Store.Consistent, Keeps;
    var path := document.path;
    SameKeeps(store);
    if path in store.documents {
      TouchedKeeps(store, path);
    }
    var generation :=
      if path in store.documents && store.documents[path].content == document.content
      then store.Generation(path) else store.Generation(path) + 1;
    StoredKeeps(store, DocumentRecord(
      path, document.content, generation, Some(document.documentVersion), None, 0, true, true));
  }

  lemma {:induction false} LoadFromDiskKeeps(store: Store, path: Path, disk: DiskFile)
    requires store.Consistent()
    ensures Keeps(store, AfterLoadFromDisk(store, path, disk).0)
  {
    hide Store.Stored, Store.Touched, Store.Consistent, Keeps;
    SameKeeps(store);
    if path in store.documents {
      TouchedKeeps(store, path);
    }
    var content := if disk.content.Some? then disk.content.value else [];
    StoredKeeps(store, DocumentRecord(
      path, content, store.Generation(path) + 1, None, disk.fingerprint, 0, disk.content.Some?, false));
  }

  lemma {:induction false} LoadCurrentKeeps(store: Store, position: DocumentPosition, disk: DiskFile)
    requires store.Consistent()
    ensures Keeps(store, AfterLoadCurrent(store, position, disk).0)
  {
    hide Store.Stored, Store.Touched, Store.Consistent, Keeps, AfterLoadFromDisk;
    var path := position.path;
    SameKeeps(store);
    LoadFromDiskKeeps(store, path, disk);
    if path in store.documents {
      TouchedKeeps(store, path);
    }
    if PositionError(store, position).None? && position.content.Some?
       && !(path in store.documents && position.content.value == store.documents[path].content) {
      var generation :=
        if position.contentGeneration.Some? then position.contentGeneration.value else store.Generation(path) + 1;
      StoredKeeps(store, DocumentRecord(path, position.content.value, generation, None, None, 0, true, false));
    }
  }

  lemma {:induction false} WithoutKeeps(store: Store, gone: set<Path>)
    requires store.Consistent()
    ensures Without(store, gone).Consistent() && GenerationsKept(store, Without(store, gone))
  {
    hide ByteLength;
  }

  lemma {:induction false} CloseKeeps(store: Store, path: Path)
    requires store.Consistent()
    ensures AfterClose(store, path).Consistent() && GenerationsKept(store, AfterClose(store, path))
  {
    if path in store.documents {
      BytesWithout(store.documents, path);
      WithoutKeeps(store, {path});
    }
  }

  // ----- Every history -----

  /** Reading the current document, then others from disk, then evicting. */
  datatype Operation =
    | Restore(replay: seq<ReplayDocument>)
    | Sync(document: DocumentSync)
    | Close(path: Path)
    | Prepare(position: DocumentPosition, disk: DiskFile, loads: seq<(Path, DiskFile)>, kept: set<Path>)

  function AfterLoads(store: Store, loads: seq<(Path, DiskFile)>): Store {
    if loads == [] then store
    else AfterLoadFromDisk(AfterLoads(store, loads[..|loads| - 1]), loads[|loads| - 1].0, loads[|loads| - 1].1).0
  }

  ghost predicate StepsTo(before: Store, operation: Operation, after: Store) {
    match operation
    case Restore(replay) => after == AfterRestore(before, replay).0
    case Sync(document) => after == AfterSync(before, document).0
    case Close(path) => after == AfterClose(before, path)
    case Prepare(position, disk, loads, kept) =>
      var (current, r) := AfterLoadCurrent(before, position, disk);
      if r.Err? then after == current
      else EvictedFrom(AfterLoads(current, loads), after, position.path, kept)
  }

  lemma {:induction false} LoadsKeep(store: Store, loads: seq<(Path, DiskFile)>)
    requires store.Consistent()
    ensures Keeps(store, AfterLoads(store, loads))
    decreases |loads|
  {
    hide Store.Consistent, Keeps, AfterLoadFromDisk;
    if loads == [] {
      SameKeeps(store);
    } else {
      var last := loads[|loads| - 1];
      var before := AfterLoads(store, loads[..|loads| - 1]);
      LoadsKeep(store, loads[..|loads| - 1]);
      KeepsConsistent(store, before);
      LoadFromDiskKeeps(before, last.0, last.1);
      KeepsNext(store, before, AfterLoads(store, loads));
    }
  }

  /** Every operation, also a refused one, keeps the accounts and the generations of what stays cached. */
  lemma {:induction false} StepKeeps(before: Store, operation: Operation, after: Store)
    requires before.Consistent() && StepsTo(before, operation, after)
    ensures after.Consistent() && GenerationsKept(before, after)
  {
    hide Store.Consistent, Keeps, AfterLoadFromDisk, AfterLoadCurrent, AfterSync, AfterClose, RestoredAll, Eviction;
    match operation
    case Restore(replay) =>
      SameKeeps(before);
      RestoreKeeps(before, replay);
      KeepsConsistent(before, after);
    case Sync(document) =>
      SyncKeeps(before, document);
      KeepsConsistent(before, after);
    case Close(path) =>
      CloseKeeps(before, path);
    case Prepare(position, disk, loads, kept) =>
      var (current, r) := AfterLoadCurrent(before, position, disk);
      LoadCurrentKeeps(before, position, disk);
      KeepsConsistent(before, current);
      if r.Ok? {
        var loaded := AfterLoads(current, loads);
        LoadsKeep(current, loads);
        KeepsNext(before, current, loaded);
        KeepsConsistent(before, loaded);
        var gone :| Eviction(loaded, gone, position.path, kept) && after == Without(loaded, gone);
        WithoutKeeps(loaded, gone);
      }
  }

  /** One load after the other, each from what the ones before it left. */
  ghost predicate LoadsEach(
      stores: seq<Store>, loads: seq<(Path, DiskFile)>, records: seq<DocumentRecord>)
  {
    && |stores| == |loads| + 1 && |records| == |loads|
    && forall k | 0 <= k < |loads| ::
         && OnlyChanges(stores[k].documents, stores[k + 1].documents, loads[k].0, records[k])
         && Loads(Cached(stores[k].documents, loads[k].0), loads[k].1, records[k], stores[k].accessClock)
  }

  lemma {:induction false} LoadsOneMore(
      stores: seq<Store>, loads: seq<(Path, DiskFile)>, records: seq<DocumentRecord>, load: (Path, DiskFile),
      next: Store, record: DocumentRecord)
    requires LoadsEach(stores, loads, records)
    requires var last := stores[|stores| - 1];
      && OnlyChanges(last.documents, next.documents, load.0, record)
      && Loads(Cached(last.documents, load.0), load.1, record, last.accessClock)
    ensures LoadsEach(stores + [next], loads + [load], records + [record])
  {
    hide OnlyChanges, Loads;
    forall k | 0 <= k < |loads| + 1
      ensures var (a, b) := ((stores + [next])[k], (stores + [next])[k + 1]);
        && OnlyChanges(a.documents, b.documents, (loads + [load])[k].0, (records + [record])[k])
        && Loads(Cached(a.documents, (loads + [load])[k].0), (loads + [load])[k].1, (records + [record])[k], a.accessClock)
    {
      if k < |loads| {
        assert (stores + [next])[k + 1] == stores[k + 1] && (stores + [next])[k] == stores[k];
      } else {
        assert (stores + [next])[k] == stores[|stores| - 1] && (stores + [next])[k + 1] == next;
      }
    }
  }

  lemma {:induction false} NothingLoaded(store: Store)
    ensures LoadsEach([store], [], [])
  {
  }

  /** A request: `loads` are the other files its dependencies and workspace make it read, in order. */
  method PrepareDocuments(
      store: SemanticDocumentStore, position: DocumentPosition, disk: DiskFile, loads: seq<(Path, DiskFile)>,
      kept: set<Path>)
    returns (r: Result<DocumentRecord, StoreError>, ghost stores: seq<Store>, ghost records: seq<DocumentRecord>)
    requires store.View().Consistent()
    modifies store
    ensures r == AfterLoadCurrent(old(store.View()), position, disk).1
    ensures match r
      case Err(error) =>
        store.documents == old(store.documents) && Refusal(Cached(old(store.documents), position.path), position, error)
      case Ok(record) =>
        && LoadsEach(stores, loads, records)
        && OnlyChanges(old(store.documents), stores[0].documents, position.path, record)
        && (var cached := Cached(old(store.documents), position.path);
            if position.content.Some? then
              Takes(cached, position.content.value, position.contentGeneration, record, old(store.accessClock))
            else Loads(cached, disk, record, old(store.accessClock)))
        && EvictedFrom(stores[|loads|], store.View(), position.path, kept)
    ensures StepsTo(old(store.View()), Prepare(position, disk, loads, kept), store.View())
  {
    hide Store.Consistent, Keeps, AfterLoadFromDisk, AfterLoadCurrent, EvictedFrom, OnlyChanges, Loads, Takes, Refusal,
      LoadsEach;
    ghost var before := store.View();
    LoadCurrentKeeps(before, position, disk);
    stores, records := [], [];
    r := store.LoadCurrent(position, disk);
    KeepsConsistent(before, store.View());
    if r.Err? {
      return;
    }
    ghost var current := store.View();
    NothingLoaded(current);
    stores := [current];
    assert loads[..0] == [];
    for i := 0 to |loads|
      invariant store.View() == AfterLoads(current, loads[..i])
      invariant |stores| == i + 1 && stores[0] == current && stores[i] == store.View()
      invariant LoadsEach(stores, loads[..i], records)
    {
      assert loads[..i + 1][..i] == loads[..i] && loads[..i + 1] == loads[..i] + [loads[i]];
      var record := store.LoadFromDisk(loads[i].0, loads[i].1);
      LoadsOneMore(stores, loads[..i], records, loads[i], store.View(), record);
      stores, records := stores + [store.View()], records + [record];
    }
    assert loads[..|loads|] == loads;
    LoadsKeep(current, loads);
    KeepsConsistent(current, store.View());
    store.Evict(position.path, kept);
  }

  /** The stores of a history, from the empty one on. */
  ghost predicate IsHistory(stores: seq<Store>, operations: seq<Operation>) {
    && |stores| == |operations| + 1
    && stores[0] == Store(map[], 0, 0)
    && forall i :: 0 <= i < |operations| ==> StepsTo(stores[i], operations[i], stores[i + 1])
  }

  lemma {:induction false} HistoryIsConsistent(stores: seq<Store>, operations: seq<Operation>, i: nat)
    requires IsHistory(stores, operations) && i < |stores|
    ensures stores[i].Consistent()
  {
    if i > 0 {
      hide StepsTo;
      HistoryIsConsistent(stores, operations, i - 1);
      assert StepsTo(stores[i - 1], operations[i - 1], stores[i]);
      StepKeeps(stores[i - 1], operations[i - 1], stores[i]);
    }
  }

  /**
    While a path stays cached its generation never decreases, and equal generations are equal contents,
    over any history of replays, synchronisations, closings and requests, refused ones included.
    */
  lemma {:induction false} GenerationsInHistory(
      stores: seq<Store>, operations: seq<Operation>, path: Path, i: nat, j: nat)
    requires IsHistory(stores, operations) && i <= j < |stores|
    requires forall k :: i <= k <= j ==> path in stores[k].documents
    ensures GenerationKept(stores[i].documents[path], stores[j].documents[path])
    decreases j - i
  {
    if i < j {
      hide *;
      GenerationsInHistory(stores, operations, path, i, j - 1);
      StepOfHistory(stores, operations, path, j - 1);
      KeptChains(stores[i].documents[path], stores[j - 1].documents[path], stores[j].documents[path]);
    }
  }

  lemma {:induction false} StepOfHistory(stores: seq<Store>, operations: seq<Operation>, path: Path, i: nat)
    requires IsHistory(stores, operations) && i + 1 < |stores|
    requires path in stores[i].documents && path in stores[i + 1].documents
    ensures GenerationKept(stores[i].documents[path], stores[i + 1].documents[path])
  {
    hide StepsTo, Store.Consistent, GenerationKept;
    HistoryIsConsistent(stores, operations, i);
    assert StepsTo(stores[i], operations[i], stores[i + 1]);
    StepKeeps(stores[i], operations[i], stores[i + 1]);
  }

  lemma {:induction false} KeptChains(a: DocumentRecord, b: DocumentRecord, c: DocumentRecord)
    requires GenerationKept(a, b) && GenerationKept(b, c)
    ensures GenerationKept(a, c)
  {
  }

  /** After a request the cache is within its limits, unless nothing but what the request uses is left. */
  lemma {:induction false} RequestsRespectLimits(
      before: Store, after: Store, position: DocumentPosition, disk: DiskFile, loads: seq<(Path, DiskFile)>,
      kept: set<Path>)
    requires StepsTo(before, Prepare(position, disk, loads, kept), after)
    requires PositionError(before, position).None?
    ensures after.WithinLimits() || after.documents.Keys <= kept + {position.path}
  {
    AcceptedIsLoaded(before, position, disk);
    hide AfterLoads, AfterLoadCurrent, PositionError, EvictedFrom, Store.WithinLimits;
    EvictedRespectsLimits(
      AfterLoads(AfterLoadCurrent(before, position, disk).0, loads), after, position.path, kept);
  }

  lemma {:induction false} AcceptedIsLoaded(before: Store, position: DocumentPosition, disk: DiskFile)
    requires PositionError(before, position).None?
    ensures AfterLoadCurrent(before, position, disk).1.Ok?
  {
  }

  lemma {:induction false} EvictedRespectsLimits(before: Store, after: Store, current: Path, kept: set<Path>)
    requires EvictedFrom(before, after, current, kept)
    ensures after.WithinLimits() || after.documents.Keys <= kept + {current}
  {
    hide Store.WithinLimits;
    var gone :| Eviction(before, gone, current, kept) && after == Without(before, gone);
  }

  /**
    What a request uses stays; nothing goes from a cache within its limits; one over them gets within
    them if it can, loses what was used least recently, and no more than it has to: with the last of
    the documents that went it would still be over them.
    */
  lemma {:induction false} EvictionIsNeeded(before: Store, after: Store, current: Path, kept: set<Path>)
    requires EvictedFrom(before, after, current, kept) && before.Consistent()
    ensures forall path <- before.documents | path == current || path in kept :: Cached(after.documents, path) == Cached(before.documents, path)
    ensures |before.documents| <= 512 && before.cachedBytes <= 16_777_216 ==> after == before
    ensures (|after.documents| <= 512 && after.cachedBytes <= 16_777_216) || after.documents.Keys <= kept + {current}
    ensures forall path <- before.documents, other <- after.documents |
      path !in after.documents && other != current && other !in kept ::
      before.documents[path].lastAccess < before.documents[other].lastAccess
    ensures after.documents != before.documents ==> exists last <- before.documents :: WasLast(before, after, last)
  {
    hide Eviction, Without, Store.WithinLimits, Store.Consistent, Cached;
    var gone :| Eviction(before, gone, current, kept) && after == Without(before, gone);
    UsedStay(before, gone, current, kept);
    LimitsAre(before);
    LimitsAre(after);
    EvictedRespectsLimits(before, after, current, kept);
    if before.WithinLimits() {
      NothingNeeded(before, gone, current, kept);
    }
    OldestAreGone(before, gone, current, kept);
    if after.documents != before.documents {
      LastWasNeeded(before, gone, current, kept);
    }
  }

  /** The most recently used of the documents that went, with which the limits would not hold. */
  ghost predicate WasLast(before: Store, after: Store, last: Path)
    requires last in before.documents
  {
    && last !in after.documents
    && (forall path <- before.documents | path !in after.documents ::
          before.documents[path].lastAccess <= before.documents[last].lastAccess)
    && (|after.documents| >= 512 || after.cachedBytes + ByteLength(before.documents[last].content) > 16_777_216)
  }

  lemma {:induction false} OldestAreGone(before: Store, gone: set<Path>, current: Path, kept: set<Path>)
    requires Eviction(before, gone, current, kept)
    ensures forall path <- before.documents, other <- Without(before, gone).documents |
      path !in Without(before, gone).documents && other != current && other !in kept ::
      before.documents[path].lastAccess < before.documents[other].lastAccess
  {
    hide Bytes, Store.WithinLimits;
  }

  lemma {:induction false} LastWasNeeded(before: Store, gone: set<Path>, current: Path, kept: set<Path>)
    requires Eviction(before, gone, current, kept) && Without(before, gone).documents != before.documents
    ensures exists last <- before.documents :: WasLast(before, Without(before, gone), last)
  {
    hide Bytes, ByteLength, Store.WithinLimits, Without, WasLast;
    WithoutIs(before, gone);
    assert before.documents - {} == before.documents;
    assert gone != {};
    var last :| last in gone
      && (forall path <- gone :: before.documents[path].lastAccess <= before.documents[last].lastAccess)
      && !Without(before, gone - {last}).WithinLimits();
    LimitsWith(before, gone, last);
    LastIs(before, gone, last);
  }

  lemma {:induction false} WithoutIs(before: Store, gone: set<Path>)
    ensures Without(before, gone).documents == before.documents - gone
    ensures Without(before, gone).cachedBytes == Bytes(before.documents - gone)
  {
  }

  lemma {:induction false} LimitsWith(before: Store, gone: set<Path>, last: Path)
    requires last in gone && last in before.documents && !Without(before, gone - {last}).WithinLimits()
    ensures var after := Without(before, gone);
      |after.documents| >= 512 || after.cachedBytes + ByteLength(before.documents[last].content) > 16_777_216
  {
    hide Bytes, ByteLength, Store.WithinLimits, Without;
    var fewer, more := before.documents - gone, before.documents - (gone - {last});
    WithoutIs(before, gone);
    WithoutIs(before, gone - {last});
    LimitsAre(Without(before, gone - {last}));
    OneMore(more, last);
    BytesWithout(more, last);
    assert more - {last} == fewer;
  }

  lemma {:induction false} OneMore(documents: map<Path, DocumentRecord>, path: Path)
    requires path in documents
    ensures |documents| == |documents - {path}| + 1
  {
    assert documents.Keys == (documents - {path}).Keys + {path};
    assert |documents| == |documents.Keys| && |documents - {path}| == |(documents - {path}).Keys|;
  }

  lemma {:induction false} LastIs(before: Store, gone: set<Path>, last: Path)
    requires gone <= before.documents.Keys && last in gone
    requires forall path <- gone :: before.documents[path].lastAccess <= before.documents[last].lastAccess
    requires var after := Without(before, gone);
      |after.documents| >= 512 || after.cachedBytes + ByteLength(before.documents[last].content) > 16_777_216
    ensures WasLast(before, Without(before, gone), last)
  {
    hide Bytes, ByteLength, Without;
    WithoutIs(before, gone);
  }

  lemma {:induction false} LimitsAre(store: Store)
    ensures store.WithinLimits() <==> |store.documents| <= 512 && store.cachedBytes <= 16_777_216
  {
  }

  lemma {:induction false} UsedStay(before: Store, gone: set<Path>, current: Path, kept: set<Path>)
    requires Eviction(before, gone, current, kept)
    ensures forall path <- before.documents | path == current || path in kept ::
      Cached(Without(before, gone).documents, path) == Cached(before.documents, path)
  {
    hide Bytes, Store.WithinLimits;
  }

  lemma {:induction false} NothingNeeded(before: Store, gone: set<Path>, current: Path, kept: set<Path>)
    requires Eviction(before, gone, current, kept) && before.Consistent() && before.WithinLimits()
    ensures Without(before, gone) == before
  {
    hide Without, Store.WithinLimits, Store.Consistent;
    NothingGone(before, []);
    if gone != {} {
      var last :| last in gone && !Without(before, gone - {last}).WithinLimits();
      FewerFit(before, {}, gone - {last});
    }
  }

  /** A refused request or synchronisation changes nothing. */
  lemma {:induction false} RefusalsChangeNothing(
      store: Store, document: DocumentSync, position: DocumentPosition, disk: DiskFile)
    ensures AfterSync(store, document).1.Err? ==> AfterSync(store, document).0 == store
    ensures AfterLoadCurrent(store, position, disk).1.Err? ==> AfterLoadCurrent(store, position, disk).0 == store
  {
  }

  /** Of a replay's documents those are refused that would go back, or change content under one generation. */
  lemma {:induction false} RefusesExactly(store: Store, document: ReplayDocument)
    ensures var cached, generation, error :=
        Cached(store.documents, document.path), document.contentGeneration, RestoreError(store, document);
      && (error == Some(GenerationNotPositive) <==> generation <= 0)
      && (error == Some(StaleGeneration) <==> 0 < generation && cached.Some? && generation < cached.value.contentGeneration)
      && (error == Some(GenerationChangedContent) <==>
            0 < generation && cached.Some? && generation == cached.value.contentGeneration
            && document.content != cached.value.content)
      && (error.Some? ==> error.value.GenerationNotPositive? || error.value.StaleGeneration?
                          || error.value.GenerationChangedContent?)
  {
  }

  /** A replay refused at some document has stored exactly those before it. */
  lemma {:induction false} RefusedReplayStopsThere(store: Store, documents: seq<ReplayDocument>)
    returns (stored: nat)
    requires RestoredAll(store, documents).1.Some?
    ensures stored < |documents|
    ensures RestoredAll(store, documents[..stored]) == (RestoredAll(store, documents).0, None)
    ensures RestoreError(RestoredAll(store, documents).0, documents[stored]) == RestoredAll(store, documents).1
    decreases |documents|
  {
    if RestoreError(store, documents[0]).Some? {
      stored := 0;
    } else {
      var rest := RefusedReplayStopsThere(Restored(store, documents[0]), documents[1..]);
      stored := rest + 1;
      assert documents[..stored][1..] == documents[1..][..rest];
    }
  }

  // ----- Eviction leaves no choice -----

  lemma {:induction false} FewerFit(store: Store, gone: set<Path>, more: set<Path>)
    requires gone <= more <= store.documents.Keys && Without(store, gone).WithinLimits()
    ensures Without(store, more).WithinLimits()
    decreases more - gone
  {
    if gone != more {
      var path :| path in more && path !in gone;
      hide ByteLength;
      BytesWithout(store.documents - gone, path);
      assert store.documents - gone - {path} == store.documents - (gone + {path});
      FewerFit(store, gone + {path}, more);
    } else {
      assert gone == more;
    }
  }

  /** Whatever is evicted before something else that could be is part of every eviction that reaches it. */
  lemma {:induction false} EvictionsAreNested(
      before: Store, a: set<Path>, b: set<Path>, current: Path, kept: set<Path>)
    requires Eviction(before, a, current, kept) && Eviction(before, b, current, kept)
    ensures a <= b || b <= a
  {
  }

  lemma {:induction false} NoMoreThanNeeded(
      before: Store, a: set<Path>, b: set<Path>, current: Path, kept: set<Path>)
    requires Eviction(before, a, current, kept) && Eviction(before, b, current, kept) && a <= b
    ensures a == b
  {
    if a != b {
      hide Without, Store.WithinLimits;
      var more :| more in b && more !in a;
      var last :| last in b
        && (forall p <- b :: before.documents[p].lastAccess <= before.documents[last].lastAccess)
        && !Without(before, b - {last}).WithinLimits();
      FewerFit(before, a, b - {last});
    }
  }

  /** Which documents an eviction removes is determined by the store. */
  lemma {:induction false} EvictionIsDetermined(before: Store, one: Store, other: Store, current: Path, kept: set<Path>)
    requires EvictedFrom(before, one, current, kept) && EvictedFrom(before, other, current, kept)
    ensures one == other
  {
    hide Eviction;
    var a :| Eviction(before, a, current, kept) && one == Without(before, a);
    var b :| Eviction(before, b, current, kept) && other == Without(before, b);
    EvictionsAreNested(before, a, b, current, kept);
    if a <= b {
      NoMoreThanNeeded(before, a, b, current, kept);
    } else {
      NoMoreThanNeeded(before, b, a, current, kept);
    }
  }

  // ----- Whose text comes back -----

  /** What a file held under a time stamp and size, if it could be read then. */
  type DiskHistory = (Path, string) -> Option<Text>

  /** Looking at the file found what it held under its time stamp and size. */
  predicate Agrees(held: DiskHistory, path: Path, disk: DiskFile) {
    disk.fingerprint.Some? ==> disk.content == held(path, disk.fingerprint.value)
  }

  predicate OperationAgrees(held: DiskHistory, operation: Operation) {
    operation.Prepare? ==>
      && Agrees(held, operation.position.path, operation.disk)
      && forall k | 0 <= k < |operation.loads| :: Agrees(held, operation.loads[k].0, operation.loads[k].1)
  }

  /** A record under a time stamp and size holds what the file held under them. */
  predicate RecordTells(held: DiskHistory, path: Path, record: DocumentRecord) {
    record.diskFingerprint.Some? ==>
      var content := held(path, record.diskFingerprint.value);
      && (record.available <==> content.Some?) && (content.Some? ==> record.content == content.value)
  }

  ghost predicate Tells(held: DiskHistory, documents: map<Path, DocumentRecord>) {
    forall path <- documents :: RecordTells(held, path, documents[path])
  }

  lemma {:induction false} ChangeTells(
      held: DiskHistory, before: map<Path, DocumentRecord>, after: map<Path, DocumentRecord>, path: Path,
      record: DocumentRecord)
    requires Tells(held, before) && OnlyChanges(before, after, path, record) && RecordTells(held, path, record)
    ensures Tells(held, after)
  {
    hide RecordTells;
    forall other <- after ensures RecordTells(held, other, after[other]) {
      if other != path {
        assert other in after - {path} && other in before - {path};
        assert (after - {path})[other] == (before - {path})[other];
      }
    }
  }

  lemma {:induction false} LoadTells(
      held: DiskHistory, documents: map<Path, DocumentRecord>, path: Path, disk: DiskFile, record: DocumentRecord,
      clock: nat)
    requires Tells(held, documents) && Agrees(held, path, disk)
    requires Loads(Cached(documents, path), disk, record, clock)
    ensures RecordTells(held, path, record)
  {
  }

  lemma {:induction false} LoadsTell(held: DiskHistory, store: Store, loads: seq<(Path, DiskFile)>)
    requires Tells(held, store.documents)
    requires forall k | 0 <= k < |loads| :: Agrees(held, loads[k].0, loads[k].1)
    ensures Tells(held, AfterLoads(store, loads).documents)
    decreases |loads|
  {
    hide Tells, Agrees, RecordTells, AfterLoadFromDisk, OnlyChanges, Loads;
    if loads != [] {
      var init, last := loads[..|loads| - 1], loads[|loads| - 1];
      var before := AfterLoads(store, init);
      LoadsTell(held, store, init);
      LoadGives(before, last.0, last.1);
      var (after, record) := AfterLoadFromDisk(before, last.0, last.1);
      LoadTells(held, before.documents, last.0, last.1, record, before.accessClock);
      ChangeTells(held, before.documents, after.documents, last.0, record);
    }
  }

  lemma {:induction false} RestoreTells(held: DiskHistory, store: Store, replay: seq<ReplayDocument>)
    requires Tells(held, store.documents)
    ensures Tells(held, RestoredAll(store, replay).0.documents)
    decreases |replay|
  {
    hide ByteLength, RestoreError;
    if replay != [] && RestoreError(store, replay[0]).None? {
      RestoreTells(held, Restored(store, replay[0]), replay[1..]);
    }
  }

  lemma {:induction false} RequestTells(held: DiskHistory, store: Store, position: DocumentPosition, disk: DiskFile)
    requires Tells(held, store.documents) && Agrees(held, position.path, disk)
    ensures Tells(held, AfterLoadCurrent(store, position, disk).0.documents)
  {
    RequestGives(store, position, disk);
    var (after, r) := AfterLoadCurrent(store, position, disk);
    hide AfterLoadCurrent, Agrees, OnlyChanges;
    if r.Ok? {
      if position.content.None? {
        hide Loads;
        LoadTells(held, store.documents, position.path, disk, r.value, store.accessClock);
      } else {
        assert RecordTells(held, position.path, r.value);
      }
      ChangeTells(held, store.documents, after.documents, position.path, r.value);
    }
  }

  lemma {:induction false} SyncTells(held: DiskHistory, store: Store, document: DocumentSync)
    requires Tells(held, store.documents)
    ensures Tells(held, AfterSync(store, document).0.documents)
  {
    SyncGives(store, document);
    var (after, r) := AfterSync(store, document);
    hide AfterSync, OnlyChanges;
    if r.Ok? {
      assert RecordTells(held, document.path, r.value);
      ChangeTells(held, store.documents, after.documents, document.path, r.value);
    }
  }

  lemma {:induction false} StepTells(held: DiskHistory, before: Store, operation: Operation, after: Store)
    requires Tells(held, before.documents) && StepsTo(before, operation, after) && OperationAgrees(held, operation)
    ensures Tells(held, after.documents)
  {
    hide Store.Consistent, AfterLoadFromDisk, AfterLoadCurrent, AfterSync, RestoredAll, Eviction, Agrees, RecordTells;
    match operation
    case Restore(replay) => RestoreTells(held, before, replay);
    case Sync(document) => SyncTells(held, before, document);
    case Close(path) =>
    case Prepare(position, disk, loads, kept) =>
      RequestTells(held, before, position, disk);
      var (current, r) := AfterLoadCurrent(before, position, disk);
      if r.Ok? {
        LoadsTell(held, current, loads);
        var gone :| Eviction(AfterLoads(current, loads), gone, position.path, kept)
          && after == Without(AfterLoads(current, loads), gone);
      }
  }

  lemma {:induction false} HistoryTells(
      held: DiskHistory, stores: seq<Store>, operations: seq<Operation>, i: nat)
    requires IsHistory(stores, operations) && i < |stores|
    requires forall operation <- operations :: OperationAgrees(held, operation)
    ensures Tells(held, stores[i].documents)
  {
    if i > 0 {
      hide StepsTo, OperationAgrees, Tells;
      HistoryTells(held, stores, operations, i - 1);
      assert StepsTo(stores[i - 1], operations[i - 1], stores[i]) && operations[i - 1] in operations;
      StepTells(held, stores[i - 1], operations[i - 1], stores[i]);
    } else {
      assert stores[0].documents == map[];
    }
  }

  /**
    Over any history in which a time stamp and size determine what a file holds and whether it can be
    read: loading a readable file that is not open in an editor gives what the disk holds.
    */
  lemma {:induction false} LoadsAreFresh(
      held: DiskHistory, stores: seq<Store>, operations: seq<Operation>, i: nat, path: Path, disk: DiskFile,
      record: DocumentRecord)
    requires IsHistory(stores, operations) && i < |stores|
    requires (forall operation <- operations :: OperationAgrees(held, operation)) && Agrees(held, path, disk)
    requires Loads(Cached(stores[i].documents, path), disk, record, stores[i].accessClock) && disk.content.Some?
    requires path in stores[i].documents ==> !stores[i].documents[path].overlay
    ensures record.content == disk.content.value && record.available && !record.overlay
  {
    hide IsHistory, OperationAgrees;
    HistoryTells(held, stores, operations, i);
  }

  /** Without that assumption, exactly if no record with the stamp of the file holds something else. */
  lemma {:induction false} LoadIsFreshExactly(
      cached: Option<DocumentRecord>, disk: DiskFile, record: DocumentRecord, clock: nat)
    requires Loads(cached, disk, record, clock) && disk.content.Some? && (cached.Some? ==> !cached.value.overlay)
    ensures record.content == disk.content.value
       <==> !(cached.Some? && disk.fingerprint.Some? && cached.value.diskFingerprint == disk.fingerprint
              && cached.value.content != disk.content.value)
  {
  }

  /** A file that could not be read, and can be now without a new time stamp, still counts as not available. */
  lemma {:induction false} UnreadableStays(path: Path, fingerprint: string, content: Text)
    ensures var empty := Store(map[], 0, 0);
      var (seen, first) := AfterLoadFromDisk(empty, path, DiskFile(Some(fingerprint), None));
      var (again, second) := AfterLoadFromDisk(seen, path, DiskFile(Some(fingerprint), Some(content)));
      !first.available && !second.available && second.content == []
  {
  }
}
