/** The semantic worker's document cache: generations, byte accounting and eviction. */
module DocumentStore {
  import opened Sequences
  import opened TextPosition
  import opened Utf8

  const MAX_CACHED_DOCUMENTS: nat := 512
  const MAX_CACHED_BYTES: nat := 16 * 1024 * 1024
  const MAX_REPLAY_DOCUMENTS: nat := 32
  const MAX_REPLAY_BYTES: nat := 4 * 1024 * 1024

  type Path = string

  datatype DocumentRecord = DocumentRecord(
    path: Path, content: Text, contentGeneration: int, documentVersion: Option<int>,
    diskFingerprint: Option<string>, lastAccess: nat, available: bool, overlay: bool)

  datatype ReplayDocument = ReplayDocument(
    path: Path, content: Text, contentGeneration: int, documentVersion: Option<int>)

  datatype DocumentSync = DocumentSync(path: Path, content: Text, documentVersion: int)

  datatype DocumentPosition = DocumentPosition(
    path: Path, content: Option<Text>, contentGeneration: Option<int>, documentVersion: Option<int>)

  /** What looking at a file on disk finds: its time stamp and size, and its text. */
  datatype DiskFile = DiskFile(fingerprint: Option<string>, content: Option<Text>)

  datatype StoreError =
    | TooManyDocuments | TooManyBytes | GenerationNotPositive | StaleGeneration | GenerationChangedContent
    | StaleVersion | VersionChangedContent | VersionNotSynchronized

  // ----- Bytes -----

  predicate HighSurrogate(unit: CodeUnit) {
    0xD800 <= unit < 0xDC00
  }

  predicate LowSurrogate(unit: CodeUnit) {
    0xDC00 <= unit < 0xE000
  }

  /** The UTF-8 length of a text; a surrogate on its own counts as the replacement character. */
  function ByteLength(text: Text): nat {
    if text == [] then 0
    else if text[0] < 0x80 then 1 + ByteLength(text[1..])
    else if text[0] < 0x800 then 2 + ByteLength(text[1..])
    else if HighSurrogate(text[0]) && |text| > 1 && LowSurrogate(text[1]) then 4 + ByteLength(text[2..])
    else 3 + ByteLength(text[1..])
  }

  /** The code units of a text. */
  function Units(text: string): Text {
    if text == "" then []
    else
      var n := text[0] as int;
      (if n < 0x10000 then [n] else [0xD800 + (n - 0x10000) / 0x400, 0xDC00 + (n - 0x10000) % 0x400])
      + Units(text[1..])
  }

  /** Of a text without lone surrogates it is the length of its encoding. */
  lemma {:induction false} ByteLengthIsEncoded(text: string)
    ensures ByteLength(Units(text)) == |Encode(text)|
  {
    if text != "" {
      var n, rest := text[0] as int, Units(text[1..]);
      ByteLengthIsEncoded(text[1..]);
      if n < 0x10000 {
        assert Units(text)[1..] == rest;
      } else {
        assert Units(text)[2..] == rest;
      }
    }
  }

  /** Only a high surrogate and then a low one count together. */
  lemma {:induction false} PairsCountTogether(a: CodeUnit, b: CodeUnit)
    requires a >= 0x800 && b >= 0x800
    ensures ByteLength([a, b]) == if 0xD800 <= a <= 0xDBFF && 0xDC00 <= b <= 0xDFFF then 4 else 6
  {
    assert [a, b][1..] == [b] && [a, b][2..] == [] && [b][1..] == [];
    assert ByteLength([b]) == 3;
  }

  ghost function Bytes(documents: map<Path, DocumentRecord>): nat
    decreases |documents|
  {
    if documents == map[] then 0
    else
      var path :| path in documents;
      ByteLength(documents[path].content) + Bytes(documents - {path})
  }

  lemma {:induction false} BytesWithout(documents: map<Path, DocumentRecord>, path: Path)
    requires path in documents
    ensures Bytes(documents) == ByteLength(documents[path].content) + Bytes(documents - {path})
    decreases |documents|
  {
    hide ByteLength;
    var other :| other in documents
      && Bytes(documents) == ByteLength(documents[other].content) + Bytes(documents - {other});
    if other != path {
      BytesWithout(documents - {other}, path);
      BytesWithout(documents - {path}, other);
      assert documents - {other} - {path} == documents - {path} - {other};
    }
  }

  lemma {:induction false} BytesWith(documents: map<Path, DocumentRecord>, path: Path, record: DocumentRecord)
    ensures Bytes(documents[path := record])
         == Bytes(documents - {path}) + ByteLength(record.content)
  {
    hide ByteLength;
    BytesWithout(documents[path := record], path);
    assert documents[path := record] - {path} == documents - {path};
  }

  /** No two records were used at the same time, and none after `clock`. */
  ghost predicate Stamped(documents: map<Path, DocumentRecord>, clock: nat) {
    && (forall path <- documents :: documents[path].path == path && documents[path].lastAccess <= clock)
    && (forall p <- documents, q <- documents :: p != q ==> documents[p].lastAccess != documents[q].lastAccess)
  }

  // ----- What the operations are to do -----

  datatype Store = Store(documents: map<Path, DocumentRecord>, accessClock: nat, cachedBytes: int) {
    function Generation(path: Path): int {
      if path in documents then documents[path].contentGeneration else 0
    }

    /** A cached record is used again. */
    function Touched(path: Path): Store
      requires path in documents
    {
      Store(documents[path := documents[path].(lastAccess := accessClock + 1)], accessClock + 1, cachedBytes)
    }

    function Stored(record: DocumentRecord): Store {
      var before := if record.path in documents then ByteLength(documents[record.path].content) else 0;
      Store(
        documents[record.path := record.(lastAccess := accessClock + 1)],
        accessClock + 1,
        cachedBytes - before + ByteLength(record.content))
    }

    predicate WithinLimits() {
      |documents| <= MAX_CACHED_DOCUMENTS && cachedBytes <= MAX_CACHED_BYTES
    }

    /** The byte count is right, and no two records were used at the same time. */
    ghost predicate Consistent() {
      cachedBytes == Bytes(documents) && Stamped(documents, accessClock)
    }
  }

  function RestoreError(store: Store, document: ReplayDocument): Option<StoreError> {
    if document.contentGeneration < 1 then Some(GenerationNotPositive)
    else if document.path !in store.documents then None
    else
      var cached := store.documents[document.path];
      if document.contentGeneration < cached.contentGeneration then Some(StaleGeneration)
      else if document.contentGeneration == cached.contentGeneration && cached.content != document.content
      then Some(GenerationChangedContent)
      else None
  }

  function Restored(store: Store, document: ReplayDocument): Store {
    store.Stored(DocumentRecord(
      document.path, document.content, document.contentGeneration, document.documentVersion, None, 0, true, true))
  }

  /** Documents before the first refused one stay. */
  function RestoredAll(store: Store, documents: seq<ReplayDocument>): (Store, Option<StoreError>)
    decreases |documents|
  {
    if documents == [] then (store, None)
    else if RestoreError(store, documents[0]).Some? then (store, RestoreError(store, documents[0]))
    else RestoredAll(Restored(store, documents[0]), documents[1..])
  }

  function ReplayBytes(documents: seq<ReplayDocument>): nat {
    if documents == [] then 0 else ReplayBytes(documents[..|documents| - 1]) + ByteLength(documents[|documents| - 1].content)
  }

  function AfterRestore(store: Store, documents: seq<ReplayDocument>): (Store, Result<nat, StoreError>) {
    if |documents| > MAX_REPLAY_DOCUMENTS then (store, Err(TooManyDocuments))
    else if ReplayBytes(documents) > MAX_REPLAY_BYTES then (store, Err(TooManyBytes))
    else
      match RestoredAll(store, documents)
      case (after, None) => (after, Ok(|documents|))
      case (after, Some(error)) => (after, Err(error))
  }

  function AfterSync(store: Store, document: DocumentSync): (Store, Result<DocumentRecord, StoreError>) {
    var path := document.path;
    var version := if path in store.documents then store.documents[path].documentVersion else None;
    if version.Some? && document.documentVersion < version.value then (store, Err(StaleVersion))
    else if version == Some(document.documentVersion) && store.documents[path].content != document.content
    then (store, Err(VersionChangedContent))
    else if version == Some(document.documentVersion) then
      (store.Touched(path), Ok(store.Touched(path).documents[path]))
    else
      var generation :=
        if path in store.documents && store.documents[path].content == document.content
        then store.Generation(path) else store.Generation(path) + 1;
      var after := store.Stored(DocumentRecord(
        path, document.content, generation, Some(document.documentVersion), None, 0, true, true));
      (after, Ok(after.documents[path]))
  }

  function AfterClose(store: Store, path: Path): Store {
    if path !in store.documents then store
    else
      Store(store.documents - {path}, store.accessClock,
            store.cachedBytes - ByteLength(store.documents[path].content))
  }

  function AfterLoadFromDisk(store: Store, path: Path, disk: DiskFile): (Store, DocumentRecord) {
    var cached := if path in store.documents then Some(store.documents[path]) else None;
    if cached.Some? && (cached.value.overlay
                        || (disk.fingerprint.Some? && cached.value.diskFingerprint == disk.fingerprint))
    then (store.Touched(path), store.Touched(path).documents[path])
    else if disk.content.None? && cached.Some? && !cached.value.available
            && cached.value.diskFingerprint == disk.fingerprint
    then (store, cached.value)
    else
      var content := if disk.content.Some? then disk.content.value else [];
      var after := store.Stored(DocumentRecord(
        path, content, store.Generation(path) + 1, None, disk.fingerprint, 0, disk.content.Some?, false));
      (after, after.documents[path])
  }

  function PositionError(store: Store, position: DocumentPosition): Option<StoreError> {
    if position.path !in store.documents then None
    else
      var cached := store.documents[position.path];
      var generation, version := position.contentGeneration, position.documentVersion;
      if generation.Some? && generation.value < cached.contentGeneration then Some(StaleGeneration)
      else if cached.documentVersion.Some? && version.Some? && version.value < cached.documentVersion.value
      then Some(StaleVersion)
      else if cached.documentVersion.Some? && version.Some? && version.value > cached.documentVersion.value
      then Some(VersionNotSynchronized)
      else if position.content.Some? && generation == Some(cached.contentGeneration)
              && position.content.value != cached.content
      then Some(GenerationChangedContent)
      else None
  }

  function AfterLoadCurrent(store: Store, position: DocumentPosition, disk: DiskFile)
    : (Store, Result<DocumentRecord, StoreError>)
  {
    var path := position.path;
    if PositionError(store, position).Some? then (store, Err(PositionError(store, position).value))
    else if position.content.Some? then
      if path in store.documents && position.content.value == store.documents[path].content then
        (store.Touched(path), Ok(store.Touched(path).documents[path]))
      else
        var generation :=
          if position.contentGeneration.Some? then position.contentGeneration.value else store.Generation(path) + 1;
        var after := store.Stored(DocumentRecord(
          path, position.content.value, generation, None, None, 0, true, false));
        (after, Ok(after.documents[path]))
    else
      var (after, record) := AfterLoadFromDisk(store, path, disk);
      (after, Ok(record))
  }

  // ----- What a caller gets -----

  function Cached(documents: map<Path, DocumentRecord>, path: Path): Option<DocumentRecord> {
    if path in documents then Some(documents[path]) else None
  }

  /** Only the record of the path may have changed, and it is this one. */
  ghost predicate OnlyChanges(
      before: map<Path, DocumentRecord>, after: map<Path, DocumentRecord>, path: Path, record: DocumentRecord)
  {
    path in after && after[path] == record && after - {path} == before - {path}
  }

  /** The cached record again, now the most recently used. */
  ghost predicate Reuses(cached: Option<DocumentRecord>, record: DocumentRecord, clock: nat) {
    cached.Some? && record == cached.value.(lastAccess := record.lastAccess) && record.lastAccess > clock
  }

  /** The file is not to be read: it is open in an editor, or its time stamp and size are those known. */
  predicate IsCurrent(cached: Option<DocumentRecord>, disk: DiskFile) {
    && cached.Some?
    && (cached.value.overlay || (disk.fingerprint.Some? && disk.fingerprint == cached.value.diskFingerprint))
  }

  /**
    What loading gives: a current record again; otherwise, of a readable file, what the disk holds
    now, under a larger generation; and of one that cannot be read, nothing, marked as not available.
    */
  ghost predicate Loads(cached: Option<DocumentRecord>, disk: DiskFile, record: DocumentRecord, clock: nat) {
    if IsCurrent(cached, disk) then Reuses(cached, record, clock)
    else if disk.content.Some? then
      && record.content == disk.content.value && record.diskFingerprint == disk.fingerprint
      && record.available && !record.overlay && record.documentVersion == None && record.lastAccess > clock
      && record.contentGeneration == if cached.Some? then cached.value.contentGeneration + 1 else 1
    else
      && !record.available && record.diskFingerprint == disk.fingerprint
      && (|| cached == Some(record)
          || (record.content == [] && !record.overlay && record.documentVersion == None && record.lastAccess > clock
              && record.contentGeneration == if cached.Some? then cached.value.contentGeneration + 1 else 1))
  }

  /** What a synchronisation that is not refused gives. */
  ghost predicate Syncs(cached: Option<DocumentRecord>, document: DocumentSync, record: DocumentRecord, clock: nat) {
    && record.content == document.content && record.documentVersion == Some(document.documentVersion)
    && record.lastAccess > clock
    && if cached.Some? && cached.value.documentVersion == Some(document.documentVersion) then
         Reuses(cached, record, clock)
       else
         && record.overlay && record.available && record.diskFingerprint == None
         && record.contentGeneration
            == if cached.None? then 1
               else if cached.value.content == document.content then cached.value.contentGeneration
               else cached.value.contentGeneration + 1
  }

  /** What a request with the text of its document gives. */
  ghost predicate Takes(
      cached: Option<DocumentRecord>, content: Text, generation: Option<int>, record: DocumentRecord, clock: nat)
  {
    && record.content == content && record.lastAccess > clock
    && if cached.Some? && cached.value.content == content then Reuses(cached, record, clock)
       else
         && !record.overlay && record.available && record.diskFingerprint == None && record.documentVersion == None
         && record.contentGeneration
            == if generation.Some? then generation.value
               else if cached.Some? then cached.value.contentGeneration + 1 else 1
  }

  /** The document of a replay that counts for its path: none after it has the same. */
  predicate IsLast(replay: seq<ReplayDocument>, k: nat)
    requires k < |replay|
  {
    forall j | k < j < |replay| :: replay[j].path != replay[k].path
  }

  predicate IsReplayed(record: DocumentRecord, document: ReplayDocument) {
    && record.content == document.content && record.contentGeneration == document.contentGeneration
    && record.documentVersion == document.documentVersion && record.overlay && record.available
  }

  ghost predicate Replays(before: map<Path, DocumentRecord>, after: map<Path, DocumentRecord>, replay: seq<ReplayDocument>) {
    && (forall k | 0 <= k < |replay| && IsLast(replay, k) ::
          replay[k].path in after && IsReplayed(after[replay[k].path], replay[k]))
    && forall path | (forall document <- replay :: document.path != path) ::
         Cached(after, path) == Cached(before, path)
  }

  lemma {:induction false} LoadGives(store: Store, path: Path, disk: DiskFile)
    ensures var (after, record) := AfterLoadFromDisk(store, path, disk);
      && OnlyChanges(store.documents, after.documents, path, record)
      && Loads(Cached(store.documents, path), disk, record, store.accessClock)
  {
    hide ByteLength;
  }

  lemma {:induction false} SyncGives(store: Store, document: DocumentSync)
    ensures var (after, r) := AfterSync(store, document);
      match r
      case Ok(record) =>
        && OnlyChanges(store.documents, after.documents, document.path, record)
        && Syncs(Cached(store.documents, document.path), document, record, store.accessClock)
      case Err(_) => after == store
  {
    hide ByteLength;
  }

  lemma {:induction false} RequestGives(store: Store, position: DocumentPosition, disk: DiskFile)
    ensures var (after, r) := AfterLoadCurrent(store, position, disk);
      match r
      case Ok(record) =>
        && OnlyChanges(store.documents, after.documents, position.path, record)
        && var cached := Cached(store.documents, position.path);
           if position.content.Some? then
             Takes(cached, position.content.value, position.contentGeneration, record, store.accessClock)
           else Loads(cached, disk, record, store.accessClock)
      case Err(_) => after == store
  {
    LoadGives(store, position.path, disk);
    hide ByteLength, AfterLoadFromDisk, Loads;
  }

  /** The versions and generations for which a request is refused. */
  ghost predicate Refusal(cached: Option<DocumentRecord>, position: DocumentPosition, error: StoreError) {
    && cached.Some?
    && var generation, version := position.contentGeneration, position.documentVersion;
       var behind := generation.Some? && generation.value < cached.value.contentGeneration;
       var versions := version.Some? && cached.value.documentVersion.Some?;
       match error
       case StaleGeneration => behind
       case StaleVersion => !behind && versions && version.value < cached.value.documentVersion.value
       case VersionNotSynchronized => !behind && versions && version.value > cached.value.documentVersion.value
       case GenerationChangedContent =>
         && !behind && (versions ==> version == cached.value.documentVersion)
         && position.content.Some? && position.content.value != cached.value.content
         && generation == Some(cached.value.contentGeneration)
       case _ => false
  }

  lemma {:induction false} RefusedExactly(store: Store, position: DocumentPosition, disk: DiskFile)
    ensures var cached, r := Cached(store.documents, position.path), AfterLoadCurrent(store, position, disk).1;
      if r.Err? then Refusal(cached, position, r.error) else forall error :: !Refusal(cached, position, error)
  {
    hide ByteLength, AfterLoadFromDisk;
  }

  lemma {:induction false} RestoredOne(store: Store, document: ReplayDocument)
    ensures var after := Restored(store, document).documents;
      && document.path in after && IsReplayed(after[document.path], document)
      && after - {document.path} == store.documents - {document.path}
    ensures RestoreError(store, document).None? ==> document.contentGeneration >= 1
  {
    hide ByteLength;
  }

  lemma {:induction false} NothingReplayed(store: Store)
    ensures RestoredAll(store, []) == (store, None) && Replays(store.documents, store.documents, [])
  {
  }

  lemma {:induction false} RestoreGives(store: Store, replay: seq<ReplayDocument>)
    requires RestoredAll(store, replay).1.None?
    ensures Replays(store.documents, RestoredAll(store, replay).0.documents, replay)
    ensures forall document <- replay :: document.contentGeneration >= 1
    decreases |replay|
  {
    hide *;
    if replay == [] {
      NothingReplayed(store);
    } else {
      var first, rest := replay[0], replay[1..];
      RestoredNext(store, replay);
      RestoredOne(store, first);
      RestoreGives(Restored(store, first), rest);
      assert replay == [first] + rest;
      FirstReplayed(
        store.documents, Restored(store, first).documents, first, rest, RestoredAll(store, replay).0.documents);
    }
  }

  lemma {:induction false} RestoredNext(store: Store, replay: seq<ReplayDocument>)
    requires replay != [] && RestoredAll(store, replay).1.None?
    ensures RestoreError(store, replay[0]).None?
    ensures RestoredAll(store, replay) == RestoredAll(Restored(store, replay[0]), replay[1..])
  {
    hide Restored, RestoreError;
  }

  lemma {:induction false} FirstReplayed(
      before: map<Path, DocumentRecord>, next: map<Path, DocumentRecord>, first: ReplayDocument,
      rest: seq<ReplayDocument>, after: map<Path, DocumentRecord>)
    requires next - {first.path} == before - {first.path} && first.path in next
    requires IsReplayed(next[first.path], first) && Replays(next, after, rest)
    ensures Replays(before, after, [first] + rest)
  {
    hide IsReplayed;
    var replay := [first] + rest;
    forall k | 0 <= k < |replay| && IsLast(replay, k)
      ensures replay[k].path in after && IsReplayed(after[replay[k].path], replay[k])
    {
      LastAmongRest(first, rest, k);
      if k == 0 {
        assert Cached(after, first.path) == Cached(next, first.path);
      }
    }
    forall path | forall document <- replay :: document.path != path
      ensures Cached(after, path) == Cached(before, path)
    {
      assert first in replay && forall document <- rest :: document in replay;
      assert Cached(after, path) == Cached(next, path);
      assert path in next - {first.path} <==> path in before - {first.path};
    }
  }

  lemma {:induction false} LastAmongRest(first: ReplayDocument, rest: seq<ReplayDocument>, k: nat)
    requires k < 1 + |rest| && IsLast([first] + rest, k)
    ensures if k == 0 then forall document <- rest :: document.path != first.path
            else ([first] + rest)[k] == rest[k - 1] && IsLast(rest, k - 1)
  {
    var replay := [first] + rest;
    assert forall j | 0 <= j < |rest| :: rest[j] == replay[j + 1];
  }

  // ----- The store -----

  class SemanticDocumentStore {
    var documents: map<Path, DocumentRecord>
    var accessClock: nat
    var cachedBytes: int

    ghost function View(): Store
      reads this
    {
      Store(documents, accessClock, cachedBytes)
    }

    constructor ()
      ensures View() == Store(map[], 0, 0)
    {
      documents, accessClock, cachedBytes := map[], 0, 0;
    }

    method Touch(path: Path) returns (record: DocumentRecord)
      requires path in documents
      modifies this
      ensures View() == old(View()).Touched(path) && record == documents[path]
    {
      accessClock := accessClock + 1;
      record := documents[path].(lastAccess := accessClock);
      documents := documents[path := record];
    }

    method StoreRecord(
        path: Path, content: Text, contentGeneration: int, diskFingerprint: Option<string>, available: bool,
        documentVersion: Option<int>, overlay: bool)
      returns (record: DocumentRecord)
      modifies this
      ensures View() == old(View()).Stored(DocumentRecord(
        path, content, contentGeneration, documentVersion, diskFingerprint, 0, available, overlay))
      ensures path in documents && record == documents[path]
    {
      if path in documents {
        cachedBytes := cachedBytes - ByteLength(documents[path].content);
      }
      accessClock := accessClock + 1;
      record := DocumentRecord(
        path, content, contentGeneration, documentVersion, diskFingerprint, accessClock, available, overlay);
      documents := documents[path := record];
      cachedBytes := cachedBytes + ByteLength(content);
    }

    method Restore(replay: seq<ReplayDocument>) returns (r: Result<nat, StoreError>)
      modifies this
      ensures (View(), r) == AfterRestore(old(View()), replay)
      ensures r.Ok? ==>
        && r.value == |replay| <= 32 && Replays(old(documents), documents, replay)
        && forall document <- replay :: document.contentGeneration >= 1
      ensures r == Err(TooManyDocuments) <==> |replay| > 32
      ensures r == Err(TooManyBytes) <==> |replay| <= 32 && ReplayBytes(replay) > 4_194_304
      ensures r.Err? && (r.error.TooManyDocuments? || r.error.TooManyBytes?) ==> documents == old(documents)
    {
      ghost var before := View();
      hide Replays;
      if |replay| > MAX_REPLAY_DOCUMENTS {
        return Err(TooManyDocuments);
      }
      var totalBytes := 0;
      for i := 0 to |replay|
        invariant totalBytes == ReplayBytes(replay[..i])
      {
        assert replay[..i + 1][..i] == replay[..i];
        totalBytes := totalBytes + ByteLength(replay[i].content);
      }
      assert replay[..|replay|] == replay;
      if totalBytes > MAX_REPLAY_BYTES {
        return Err(TooManyBytes);
      }
      hide ByteLength, ReplayBytes;
      assert replay[0..] == replay;
      for i := 0 to |replay|
        invariant RestoredAll(View(), replay[i..]) == RestoredAll(old(View()), replay)
      {
        var document := replay[i];
        assert replay[i..][0] == document && replay[i..][1..] == replay[i + 1..];
        if document.contentGeneration < 1 {
          return Err(GenerationNotPositive);
        }
        if document.path in documents && document.contentGeneration < documents[document.path].contentGeneration {
          return Err(StaleGeneration);
        }
        if document.path in documents && document.contentGeneration == documents[document.path].contentGeneration
           && documents[document.path].content != document.content {
          return Err(GenerationChangedContent);
        }
        var record := StoreRecord(
          document.path, document.content, document.contentGeneration, None, true, document.documentVersion, true);
      }
      RestoreGives(before, replay);
      return Ok(|replay|);
    }

    method Sync(document: DocumentSync) returns (r: Result<DocumentRecord, StoreError>)
      modifies this
      ensures (View(), r) == AfterSync(old(View()), document)
      ensures var cached := Cached(old(documents), document.path);
        match r
        case Ok(record) =>
          && OnlyChanges(old(documents), documents, document.path, record)
          && Syncs(cached, document, record, old(accessClock))
        case Err(_) => documents == old(documents)
      // a version may not go back, nor change its content; any other synchronisation is accepted
      ensures var cached := Cached(old(documents), document.path);
        && (r == Err(StaleVersion) <==>
              cached.Some? && cached.value.documentVersion.Some?
              && document.documentVersion < cached.value.documentVersion.value)
        && (r == Err(VersionChangedContent) <==>
              cached.Some? && cached.value.documentVersion == Some(document.documentVersion)
              && cached.value.content != document.content)
        && (r.Err? ==> r.error.StaleVersion? || r.error.VersionChangedContent?)
    {
      SyncGives(View(), document);
      hide ByteLength, OnlyChanges, Syncs;
      var path := document.path;
      var cached := if path in documents then Some(documents[path]) else None;
      if cached.Some? && cached.value.documentVersion.Some?
         && document.documentVersion < cached.value.documentVersion.value {
        return Err(StaleVersion);
      }
      if cached.Some? && cached.value.documentVersion == Some(document.documentVersion) {
        if cached.value.content != document.content {
          return Err(VersionChangedContent);
        }
        var touched := Touch(path);
        return Ok(touched);
      }
      var generation :=
        if cached.Some? && cached.value.content == document.content then cached.value.contentGeneration
        else (if cached.Some? then cached.value.contentGeneration else 0) + 1;
      var record := StoreRecord(
        path, document.content, generation, None, true, Some(document.documentVersion), true);
      return Ok(record);
    }

    method Close(path: Path)
      modifies this
      ensures View() == AfterClose(old(View()), path)
      ensures documents == old(documents) - {path}
    {
      if path !in documents {
        return;
      }
      var content := documents[path].content;
      documents := documents - {path};
      cachedBytes := cachedBytes - ByteLength(content);
    }

    method LoadFromDisk(path: Path, disk: DiskFile) returns (record: DocumentRecord)
      modifies this
      ensures (View(), record) == AfterLoadFromDisk(old(View()), path, disk)
      ensures OnlyChanges(old(documents), documents, path, record)
      ensures Loads(Cached(old(documents), path), disk, record, old(accessClock))
    {
      LoadGives(View(), path, disk);
      hide ByteLength, OnlyChanges, Loads;
      var cached := if path in documents then Some(documents[path]) else None;
      if cached.Some? && cached.value.overlay {
        record := Touch(path);
        return;
      }
      if cached.Some? && disk.fingerprint.Some? && cached.value.diskFingerprint == disk.fingerprint {
        record := Touch(path);
        return;
      }
      var generation := (if cached.Some? then cached.value.contentGeneration else 0) + 1;
      if disk.content.None? {
        if cached.Some? && !cached.value.available && cached.value.diskFingerprint == disk.fingerprint {
          return cached.value;
        }
        record := StoreRecord(path, [], generation, disk.fingerprint, false, None, false);
        return;
      }
      record := StoreRecord(path, disk.content.value, generation, disk.fingerprint, true, None, false);
    }

    method LoadCurrent(position: DocumentPosition, disk: DiskFile) returns (r: Result<DocumentRecord, StoreError>)
      modifies this
      ensures (View(), r) == AfterLoadCurrent(old(View()), position, disk)
      ensures var cached := Cached(old(documents), position.path);
        match r
        case Ok(record) =>
          && OnlyChanges(old(documents), documents, position.path, record)
          && (forall error :: !Refusal(cached, position, error))
          && if position.content.Some? then
               Takes(cached, position.content.value, position.contentGeneration, record, old(accessClock))
             else Loads(cached, disk, record, old(accessClock))
        case Err(error) => Refusal(cached, position, error) && documents == old(documents)
    {
      RequestGives(View(), position, disk);
      RefusedExactly(View(), position, disk);
      hide ByteLength, OnlyChanges, Loads, Takes, Refusal;
      var path := position.path;
      var cached := if path in documents then Some(documents[path]) else None;
      var generation, version := position.contentGeneration, position.documentVersion;
      if cached.Some? && generation.Some? && generation.value < cached.value.contentGeneration {
        return Err(StaleGeneration);
      }
      if cached.Some? && cached.value.documentVersion.Some? && version.Some?
         && version.value < cached.value.documentVersion.value {
        return Err(StaleVersion);
      }
      if cached.Some? && cached.value.documentVersion.Some? && version.Some?
         && version.value > cached.value.documentVersion.value {
        return Err(VersionNotSynchronized);
      }
      if position.content.Some? {
        var content := position.content.value;
        if cached.Some? && generation == Some(cached.value.contentGeneration) && content != cached.value.content {
          return Err(GenerationChangedContent);
        }
        if cached.Some? && content == cached.value.content {
          var touched := Touch(path);
          return Ok(touched);
        }
        var next :=
          if generation.Some? then generation.value
          else (if cached.Some? then cached.value.contentGeneration else 0) + 1;
        var record := StoreRecord(path, content, next, None, true, None, false);
        return Ok(record);
      }
      if cached.Some? && cached.value.overlay {
        var touched := Touch(path);
        return Ok(touched);
      }
      var loaded := LoadFromDisk(path, disk);
      return Ok(loaded);
    }

    /** The candidates, least recently used first. */
    method OldestFirst(candidates: set<Path>) returns (order: seq<Path>)
      requires candidates <= documents.Keys && View().Consistent()
      ensures Sorted(documents, order) && (forall path :: path in order <==> path in candidates)
    {
      order := [];
      var left := candidates;
      while left != {}
        invariant left <= candidates
        invariant Sorted(documents, order)
        invariant forall path :: path in order <==> path in candidates - left
        decreases |left|
      {
        var path :| path in left;
        left := left - {path};
        InsertSorts(documents, order, path);
        InsertMembers(documents, order, path);
        order := InsertByAccess(documents, order, path);
      }
    }

    method Evict(current: Path, kept: set<Path>)
      requires View().Consistent()
      modifies this
      ensures EvictedFrom(old(View()), View(), current, kept)
    {
      ghost var before := View();
      hide Store.Consistent, Sorted, ByteLength, EvictedFrom, Without, Members, Eviction;
      if |documents| <= MAX_CACHED_DOCUMENTS && cachedBytes <= MAX_CACHED_BYTES {
        NothingEvicted(before, current, kept);
        return;
      }
      var candidates := OldestFirst(set path <- documents | path != current && path !in kept);
      ghost var gone := 0;
      NothingGone(before, candidates);
      for i := 0 to |candidates|
        invariant gone == i && View() == Without(before, Members(candidates[..i]))
        invariant i > 0 ==> !Without(before, Members(candidates[..i - 1])).WithinLimits()
      {
        if |documents| <= MAX_CACHED_DOCUMENTS && cachedBytes <= MAX_CACHED_BYTES {
          break;
        }
        var path := candidates[i];
        NextGone(before, candidates, i);
        var content := documents[path].content;
        documents := documents - {path};
        cachedBytes := cachedBytes - ByteLength(content);
        gone := gone + 1;
      }
      PrefixIsEviction(before, candidates, gone, current, kept);
    }
  }

  // ----- Eviction -----

  predicate Sorted(documents: map<Path, DocumentRecord>, order: seq<Path>) {
    && (forall path <- order :: path in documents)
    && forall i, j :: 0 <= i < j < |order| ==> documents[order[i]].lastAccess < documents[order[j]].lastAccess
  }

  function InsertByAccess(documents: map<Path, DocumentRecord>, order: seq<Path>, path: Path): seq<Path>
    requires path in documents && forall p <- order :: p in documents
  {
    if order == [] || documents[path].lastAccess < documents[order[0]].lastAccess then [path] + order
    else [order[0]] + InsertByAccess(documents, order[1..], path)
  }

  lemma {:induction false} InsertMembers(documents: map<Path, DocumentRecord>, order: seq<Path>, path: Path)
    requires path in documents && forall p <- order :: p in documents
    ensures forall p :: p in InsertByAccess(documents, order, path) <==> p == path || p in order
  {
    if order != [] && documents[path].lastAccess >= documents[order[0]].lastAccess {
      InsertMembers(documents, order[1..], path);
      assert order == [order[0]] + order[1..];
    }
  }

  lemma {:induction false} SortedTail(documents: map<Path, DocumentRecord>, order: seq<Path>)
    requires Sorted(documents, order) && order != []
    ensures Sorted(documents, order[1..]) && order[0] in documents
    ensures forall p <- order[1..] :: p in order && documents[order[0]].lastAccess < documents[p].lastAccess
  {
    var rest := order[1..];
    forall p <- rest ensures p in order && documents[order[0]].lastAccess < documents[p].lastAccess {
      var k :| 0 <= k < |rest| && rest[k] == p;
      assert order[k + 1] == p;
    }
  }

  lemma {:induction false} InsertSorts(documents: map<Path, DocumentRecord>, order: seq<Path>, path: Path)
    requires Sorted(documents, order) && path in documents && path !in order
    requires forall p <- order :: documents[p].lastAccess != documents[path].lastAccess
    ensures Sorted(documents, InsertByAccess(documents, order, path))
  {
    if order == [] {
      SortedCons(documents, path, order);
    } else {
      var head, rest := order[0], order[1..];
      SortedTail(documents, order);
      InsertMembers(documents, rest, path);
      var longer := InsertByAccess(documents, rest, path);
      var inserted := InsertByAccess(documents, order, path);
      assert order == [head] + rest && head in order;
      assert inserted == if documents[path].lastAccess < documents[head].lastAccess then [path] + order else [head] + longer;
      hide Sorted, InsertByAccess;
      if documents[path].lastAccess < documents[head].lastAccess {
        SortedCons(documents, path, order);
      } else {
        InsertSorts(documents, rest, path);
        SortedCons(documents, head, longer);
      }
    }
  }

  lemma {:induction false} SortedCons(documents: map<Path, DocumentRecord>, head: Path, rest: seq<Path>)
    requires Sorted(documents, rest) && head in documents
    requires forall p <- rest :: documents[head].lastAccess < documents[p].lastAccess
    ensures Sorted(documents, [head] + rest)
  {
  }

  function Members(paths: seq<Path>): set<Path> {
    set path <- paths
  }

  /** The store without some of its documents. */
  ghost function Without(store: Store, gone: set<Path>): Store {
    Store(store.documents - gone, store.accessClock, Bytes(store.documents - gone))
  }

  predicate Evictable(path: Path, current: Path, kept: set<Path>) {
    path != current && path !in kept
  }

  /** The evicted documents: the oldest evictable ones, no more than the limits ask for, and no fewer. */
  ghost predicate Eviction(before: Store, gone: set<Path>, current: Path, kept: set<Path>) {
    && gone <= before.documents.Keys
    && (forall p <- gone :: Evictable(p, current, kept))
    && (forall p <- gone, q <- before.documents :: q !in gone && Evictable(q, current, kept) ==>
          before.documents[p].lastAccess < before.documents[q].lastAccess)
    && (Without(before, gone).WithinLimits()
        || forall q <- before.documents :: q !in gone ==> !Evictable(q, current, kept))
    && (gone != {} ==>
          exists last <- gone ::
            && (forall p <- gone :: before.documents[p].lastAccess <= before.documents[last].lastAccess)
            && !Without(before, gone - {last}).WithinLimits())
  }

  ghost predicate EvictedFrom(before: Store, after: Store, current: Path, kept: set<Path>) {
    exists gone :: Eviction(before, gone, current, kept) && after == Without(before, gone)
  }

  lemma {:induction false} NothingGone(before: Store, candidates: seq<Path>)
    requires before.Consistent()
    ensures Without(before, Members(candidates[..0])) == before
    ensures Without(before, {}) == before
  {
    assert before.documents - {} == before.documents && Members(candidates[..0]) == {};
  }

  lemma {:induction false} NothingEvicted(before: Store, current: Path, kept: set<Path>)
    requires before.Consistent() && before.WithinLimits()
    ensures EvictedFrom(before, before, current, kept)
  {
    NothingGone(before, []);
    assert Eviction(before, {}, current, kept);
  }

  lemma {:induction false} NextGone(before: Store, candidates: seq<Path>, i: nat)
    requires i < |candidates| && Sorted(before.documents, candidates)
    ensures var done, path := Without(before, Members(candidates[..i])), candidates[i];
      && path in done.documents
      && Without(before, Members(candidates[..i + 1]))
         == Store(done.documents - {path}, done.accessClock,
                  done.cachedBytes - ByteLength(done.documents[path].content))
  {
    var gone, path := Members(candidates[..i]), candidates[i];
    assert candidates[..i + 1] == candidates[..i] + [path];
    assert Members(candidates[..i + 1]) == gone + {path};
    assert path !in gone;
    assert before.documents - (gone + {path}) == before.documents - gone - {path};
    BytesWithout(before.documents - gone, path);
  }

  lemma {:induction false} InPrefix(candidates: seq<Path>, n: nat, j: nat)
    requires n <= |candidates| && j < |candidates|
    ensures j < n ==> candidates[j] in Members(candidates[..n])
  {
    assert j < n ==> candidates[j] in candidates[..n];
  }

  lemma {:induction false} PrefixIsEviction(
      before: Store, candidates: seq<Path>, n: nat, current: Path, kept: set<Path>)
    requires n <= |candidates| && Sorted(before.documents, candidates)
    requires forall path :: path in candidates <==> path in before.documents && Evictable(path, current, kept)
    requires n == |candidates| || Without(before, Members(candidates[..n])).WithinLimits()
    requires n > 0 ==> !Without(before, Members(candidates[..n - 1])).WithinLimits()
    ensures EvictedFrom(before, Without(before, Members(candidates[..n])), current, kept)
  {
    hide Store.WithinLimits, Without;
    var gone := Members(candidates[..n]);
    forall p <- gone, q <- before.documents | q !in gone && Evictable(q, current, kept)
      ensures before.documents[p].lastAccess < before.documents[q].lastAccess
    {
      var i :| 0 <= i < n && candidates[i] == p;
      var j :| 0 <= j < |candidates| && candidates[j] == q;
      InPrefix(candidates, n, j);
    }
    if n > 0 {
      var last := candidates[n - 1];
      assert candidates[..n] == candidates[..n - 1] + [last];
      assert last !in candidates[..n - 1];
      assert gone - {last} == Members(candidates[..n - 1]);
      assert last in gone;
    }
    if n == |candidates| {
      assert candidates[..n] == candidates;
    }
    assert Eviction(before, gone, current, kept);
  }
}
