/** Trimming the log root to a byte target: oldest segment files first, and their rows with them. */
module DeviceLogRetention {
  import opened Sequences
  import opened Utf8
  import opened DeviceLogSegment
  import opened DeviceLogMetadata
  import opened DeviceLogQuery
  import opened DeviceLogPruning
  import opened DeviceLogStoreView

  datatype SegmentFile = SegmentFile(fileName: string, bytes: nat, modifiedMs: nat)

  datatype Plan = Plan(currentBytes: nat, targetBytes: nat, removeBytes: nat, candidates: seq<SegmentFile>)

  /** `Path::extension` is "logseg": something must stand before the dot. */
  predicate IsLogSegment(name: string) {
    |name| > 7 && name[|name| - 7..] == ".logseg"
  }

  predicate NameBefore(a: string, b: string) {
    b != "" && (a == "" || a[0] < b[0] || (a[0] == b[0] && NameBefore(a[1..], b[1..])))
  }

  /** The sort key is the modification time, then the name. */
  predicate Before(a: SegmentFile, b: SegmentFile) {
    a.modifiedMs < b.modifiedMs || (a.modifiedMs == b.modifiedMs && NameBefore(a.fileName, b.fileName))
  }

  function InsertSegment(sorted: seq<SegmentFile>, file: SegmentFile): seq<SegmentFile> {
    if sorted == [] || !Before(sorted[0], file) then [file] + sorted
    else [sorted[0]] + InsertSegment(sorted[1..], file)
  }

  function OldestFirst(files: seq<SegmentFile>): seq<SegmentFile> {
    if files == [] then [] else InsertSegment(OldestFirst(files[1..]), files[0])
  }

  ghost predicate InOrder(files: seq<SegmentFile>) {
    forall i | 0 < i < |files| :: !Before(files[i], files[i - 1])
  }

  function TotalBytes(files: seq<SegmentFile>): nat {
    if files == [] then 0 else files[0].bytes + TotalBytes(files[1..])
  }

  lemma {:induction false} NameOrder(a: string, b: string)
    ensures !(NameBefore(a, b) && NameBefore(b, a))
  {
    if a != "" && b != "" {
      NameOrder(a[1..], b[1..]);
    }
  }

  lemma {:induction false} InsertKeepsOldestFirst(sorted: seq<SegmentFile>, file: SegmentFile)
    requires InOrder(sorted)
    ensures var r := InsertSegment(sorted, file);
      && InOrder(r) && multiset(r) == multiset(sorted) + multiset{file} && r != []
      && (r[0] == file || (sorted != [] && r[0] == sorted[0]))
  {
    if sorted != [] {
      BeforeIsOneWay(sorted[0], file);
      hide Before;
      if Before(sorted[0], file) {
        InsertKeepsOldestFirst(sorted[1..], file);
        assert sorted == [sorted[0]] + sorted[1..];
      }
    }
  }

  lemma {:induction false} BeforeIsOneWay(a: SegmentFile, b: SegmentFile)
    ensures !(Before(a, b) && Before(b, a))
  {
    NameOrder(a.fileName, b.fileName);
  }

  lemma {:induction false} SortsOldestFirst(files: seq<SegmentFile>)
    ensures InOrder(OldestFirst(files)) && multiset(OldestFirst(files)) == multiset(files)
  {
    if files != [] {
      SortsOldestFirst(files[1..]);
      InsertKeepsOldestFirst(OldestFirst(files[1..]), files[0]);
      assert files == [files[0]] + files[1..];
    }
  }

  ghost predicate DistinctNames(files: seq<SegmentFile>) {
    files == []
    || ((forall file <- files[1..] :: file.fileName != files[0].fileName) && DistinctNames(files[1..]))
  }

  lemma {:induction false} InsertDistinct(sorted: seq<SegmentFile>, file: SegmentFile)
    requires DistinctNames(sorted) && forall other <- sorted :: other.fileName != file.fileName
    ensures DistinctNames(InsertSegment(sorted, file))
    ensures forall other <- InsertSegment(sorted, file) :: other == file || other in sorted
  {
    hide Before;
    if sorted != [] && Before(sorted[0], file) {
      InsertDistinct(sorted[1..], file);
      assert sorted == [sorted[0]] + sorted[1..];
    }
  }

  lemma {:induction false} SortedDistinct(files: seq<SegmentFile>)
    requires DistinctNames(files)
    ensures DistinctNames(OldestFirst(files)) && forall file <- OldestFirst(files) :: file in files
  {
    if files != [] {
      SortedDistinct(files[1..]);
      InsertDistinct(OldestFirst(files[1..]), files[0]);
    }
  }

  lemma {:induction false} DistinctAt(files: seq<SegmentFile>, i: nat, j: nat)
    requires DistinctNames(files) && i < j < |files|
    ensures files[i].fileName != files[j].fileName
  {
    if i > 0 {
      DistinctAt(files[1..], i - 1, j - 1);
    }
  }

  lemma {:induction false} TotalSplit(files: seq<SegmentFile>, i: nat)
    requires i <= |files|
    ensures TotalBytes(files) == TotalBytes(files[..i]) + TotalBytes(files[i..])
  {
    if i > 0 {
      TotalSplit(files[1..], i - 1);
      assert files[1..][..i - 1] == files[..i][1..];
      assert files[1..][i - 1..] == files[i..];
    }
  }

  /** Removing the prefix reaches the target, and removing any shorter one does not. */
  ghost predicate ShortestPrefix(sorted: seq<SegmentFile>, targetBytes: nat, prefix: seq<SegmentFile>) {
    && prefix <= sorted
    && TotalBytes(sorted[|prefix|..]) <= targetBytes
    && forall j | 0 <= j < |prefix| :: TotalBytes(sorted[j..]) > targetBytes
  }

  // ----- What "oldest" means -----

  /** Code-point order: at the first index where they differ `a` is smaller, or has ended. */
  predicate InCodeOrder(a: string, b: string) {
    exists k | 0 <= k <= |a| && k <= |b| ::
      a[..k] == b[..k] && (k == |a| || (k < |b| && a[k] < b[k]))
  }

  /** `a` was not modified after `b`; of two of one time the smaller name comes first. */
  predicate NotAfter(a: SegmentFile, b: SegmentFile) {
    a.modifiedMs < b.modifiedMs || (a.modifiedMs == b.modifiedMs && InCodeOrder(a.fileName, b.fileName))
  }

  lemma {:induction false} NameOrderIsCodeOrder(a: string, b: string)
    ensures !NameBefore(b, a) ==> InCodeOrder(a, b)
  {
    if a == "" {
      assert a[..0] == b[..0];
    } else if b != "" && a[0] == b[0] {
      NameOrderIsCodeOrder(a[1..], b[1..]);
      if InCodeOrder(a[1..], b[1..]) {
        var k :| 0 <= k <= |a[1..]| && k <= |b[1..]| && a[1..][..k] == b[1..][..k]
          && (k == |a[1..]| || (k < |b[1..]| && a[1..][k] < b[1..][k]));
        assert a[..k + 1] == [a[0]] + a[1..][..k] && b[..k + 1] == [b[0]] + b[1..][..k];
      }
    } else if b != "" && a[0] < b[0] {
      assert a[..0] == b[..0];
    }
  }

  lemma {:induction false} CodeOrderChains(a: string, b: string, c: string)
    requires InCodeOrder(a, b) && InCodeOrder(b, c)
    ensures InCodeOrder(a, c)
  {
    var i :| 0 <= i <= |a| && i <= |b| && a[..i] == b[..i] && (i == |a| || (i < |b| && a[i] < b[i]));
    var j :| 0 <= j <= |b| && j <= |c| && b[..j] == c[..j] && (j == |b| || (j < |c| && b[j] < c[j]));
    var k := if i < j then i else j;
    assert a[..k] == a[..i][..k] && b[..i][..k] == b[..k] && b[..j][..k] == b[..k] && c[..k] == c[..j][..k];
    if i < j && i < |a| {
      assert b[..j][i] == c[..j][i];
    }
    if j < i && j < |b| {
      assert a[..i][j] == b[..i][j];
    }
  }

  lemma {:induction false} NotBeforeIsNotAfter(a: SegmentFile, b: SegmentFile)
    requires !Before(b, a)
    ensures NotAfter(a, b)
  {
    NameOrderIsCodeOrder(a.fileName, b.fileName);
  }

  lemma {:induction false} NotAfterChains(a: SegmentFile, b: SegmentFile, c: SegmentFile)
    requires NotAfter(a, b) && NotAfter(b, c)
    ensures NotAfter(a, c)
  {
    if a.modifiedMs == b.modifiedMs == c.modifiedMs {
      CodeOrderChains(a.fileName, b.fileName, c.fileName);
    }
  }

  lemma {:induction false} OldestComeFirst(files: seq<SegmentFile>, i: nat, j: nat)
    requires InOrder(files) && i < j < |files|
    ensures NotAfter(files[i], files[j])
    decreases j
  {
    hide NotAfter, Before;
    NotBeforeIsNotAfter(files[j - 1], files[j]);
    if i < j - 1 {
      OldestComeFirst(files, i, j - 1);
      NotAfterChains(files[i], files[j - 1], files[j]);
    }
  }

  /**
    `removed` goes and `kept` stays: together they are the segments, what goes comes in order and is
    not after anything that stays, and no more goes than the target asks for.
    */
  ghost predicate RemovesOldest(
      segments: seq<SegmentFile>, targetBytes: nat, removed: seq<SegmentFile>, kept: seq<SegmentFile>)
  {
    && multiset(removed) + multiset(kept) == multiset(segments)
    && (forall i, j | 0 <= i < j < |removed| :: NotAfter(removed[i], removed[j]))
    && (forall gone <- removed, stays <- kept :: NotAfter(gone, stays))
    && TotalBytes(kept) <= targetBytes
    && (removed != [] ==> removed[|removed| - 1].bytes + TotalBytes(kept) > targetBytes)
  }

  lemma {:induction false} PrefixRemovesOldest(
      segments: seq<SegmentFile>, targetBytes: nat, prefix: seq<SegmentFile>)
    requires ShortestPrefix(OldestFirst(segments), targetBytes, prefix)
    ensures RemovesOldest(segments, targetBytes, prefix, OldestFirst(segments)[|prefix|..])
  {
    hide OldestFirst, InOrder, NotAfter, TotalBytes;
    var sorted, n := OldestFirst(segments), |prefix|;
    SortsOldestFirst(segments);
    SplitInOrder(sorted, n);
    assert sorted[..n] == prefix && sorted == prefix + sorted[n..];
    if n > 0 {
      FirstOfRest(sorted, n - 1);
      assert prefix[n - 1] == sorted[n - 1];
    }
  }

  lemma {:induction false} FirstOfRest(files: seq<SegmentFile>, i: nat)
    requires i < |files|
    ensures TotalBytes(files[i..]) == files[i].bytes + TotalBytes(files[i + 1..])
  {
    assert files[i..][1..] == files[i + 1..];
  }

  lemma {:induction false} SplitInOrder(sorted: seq<SegmentFile>, n: nat)
    requires InOrder(sorted) && n <= |sorted|
    ensures forall i, j | 0 <= i < j < n :: NotAfter(sorted[..n][i], sorted[..n][j])
    ensures forall gone <- sorted[..n], stays <- sorted[n..] :: NotAfter(gone, stays)
  {
    hide InOrder, NotAfter;
    forall i, j | 0 <= i < j < |sorted| ensures NotAfter(sorted[i], sorted[j]) {
      OldestComeFirst(sorted, i, j);
    }
    forall gone <- sorted[..n], stays <- sorted[n..] ensures NotAfter(gone, stays) {
      var i :| 0 <= i < n && sorted[i] == gone;
      var j :| n <= j < |sorted| && sorted[j] == stays;
    }
  }

  /**
    The plan removes the shortest oldest-first prefix that brings the total to the target or below.
    */
  method PlanRetention(segments: seq<SegmentFile>, targetBytes: nat) returns (plan: Plan, ghost kept: seq<SegmentFile>)
    ensures RemovesOldest(segments, targetBytes, plan.candidates, kept)
    ensures ShortestPrefix(OldestFirst(segments), targetBytes, plan.candidates)
    ensures plan.currentBytes == TotalBytes(OldestFirst(segments)) && plan.targetBytes == targetBytes
    ensures plan.removeBytes == TotalBytes(plan.candidates)
  {
    hide RemovesOldest, OldestFirst, NotAfter, InOrder;
    var sorted := OldestFirst(segments);
    var currentBytes := 0;
    for i := 0 to |sorted|
      invariant currentBytes + TotalBytes(sorted[i..]) == TotalBytes(sorted)
    {
      assert sorted[i..][1..] == sorted[i + 1..];
      currentBytes := currentBytes + sorted[i].bytes;
    }
    var remainingBytes, candidates, k := currentBytes, [], 0;
    while k < |sorted|
      invariant k <= |sorted| && candidates == sorted[..k]
      invariant remainingBytes == TotalBytes(sorted[k..])
      invariant forall j | 0 <= j < k :: TotalBytes(sorted[j..]) > targetBytes
    {
      if remainingBytes <= targetBytes {
        break;
      }
      assert sorted[k..][1..] == sorted[k + 1..];
      remainingBytes := if sorted[k].bytes > remainingBytes then 0 else remainingBytes - sorted[k].bytes;
      candidates := candidates + [sorted[k]];
      k := k + 1;
    }
    TotalSplit(sorted, k);
    plan := Plan(currentBytes, targetBytes, currentBytes - remainingBytes, candidates);
    assert ShortestPrefix(sorted, targetBytes, candidates) by {
      assert sorted[|candidates|..] == sorted[k..];
    }
    PrefixRemovesOldest(segments, targetBytes, candidates);
    kept := sorted[|candidates|..];
  }

  // ----- Applying a plan -----

  datatype StoredFile = StoredFile(content: seq<Byte>, modifiedMs: nat)

  /** The segments among the listed files. */
  function SegmentsOf(files: map<string, StoredFile>, listing: seq<string>): seq<SegmentFile>
    requires forall name <- listing :: name in files
  {
    if listing == [] then []
    else
      var rest := SegmentsOf(files, listing[1..]);
      if !IsLogSegment(listing[0]) then rest
      else [SegmentFile(listing[0], |files[listing[0]].content|, files[listing[0]].modifiedMs)] + rest
  }

  function Names(candidates: seq<SegmentFile>): seq<string> {
    if candidates == [] then [] else [candidates[0].fileName] + Names(candidates[1..])
  }

  function Contents(files: map<string, StoredFile>): Files {
    map name | name in files :: files[name].content
  }

  ghost predicate DistinctListing(listing: seq<string>) {
    listing == [] || (listing[0] !in listing[1..] && DistinctListing(listing[1..]))
  }

  lemma {:induction false} SegmentNames(files: map<string, StoredFile>, listing: seq<string>)
    requires (forall name <- listing :: name in files) && DistinctListing(listing)
    ensures DistinctNames(SegmentsOf(files, listing))
    ensures forall file <- SegmentsOf(files, listing) :: file.fileName in listing
    ensures forall file <- SegmentsOf(files, listing) ::
      && file.fileName in files && IsLogSegment(file.fileName)
      && file.bytes == |files[file.fileName].content| && file.modifiedMs == files[file.fileName].modifiedMs
    ensures forall name <- listing | IsLogSegment(name) ::
      SegmentFile(name, |files[name].content|, files[name].modifiedMs) in SegmentsOf(files, listing)
  {
    hide IsLogSegment;
    if listing != [] {
      assert listing == [listing[0]] + listing[1..];
      SegmentNames(files, listing[1..]);
    }
  }

  /** A segment is named by something and the extension. */
  lemma {:induction false} LogSegmentNames(name: string)
    ensures IsLogSegment(name) <==> exists stem: string :: stem != "" && name == stem + ".logseg"
  {
    if IsLogSegment(name) {
      assert name == name[..|name| - 7] + ".logseg";
    }
    if stem: string :| stem != "" && name == stem + ".logseg" {
      assert name[|name| - 7..] == ".logseg";
    }
  }

  lemma {:induction false} NamesOf(candidates: seq<SegmentFile>)
    ensures |Names(candidates)| == |candidates|
    ensures forall i | 0 <= i < |candidates| :: Names(candidates)[i] == candidates[i].fileName
  {
    if candidates != [] {
      NamesOf(candidates[1..]);
    }
  }

  lemma {:induction false} NamesPrefix(candidates: seq<SegmentFile>, i: nat)
    requires i <= |candidates|
    ensures |Names(candidates)| == |candidates| && Names(candidates)[..i] == Names(candidates[..i])
  {
    NamesOf(candidates);
    NamesOf(candidates[..i]);
  }

  /** Only listed segments went, and none that was modified after a segment still there, or has a later name at one time. */
  ghost predicate OldestWent(before: map<string, StoredFile>, after: map<string, StoredFile>, listing: seq<string>) {
    && (forall gone <- before | gone !in after :: gone in listing && IsLogSegment(gone))
    && forall gone <- before, stays <- after |
         stays in before && gone !in after && stays in listing && IsLogSegment(stays) ::
         || before[gone].modifiedMs < before[stays].modifiedMs
         || (before[gone].modifiedMs == before[stays].modifiedMs && InCodeOrder(gone, stays))
  }

  class DeviceLogRoot {
    var files: map<string, StoredFile>
    const metadata: DeviceLogMetadataStore

    constructor (metadata: DeviceLogMetadataStore)
      ensures files == map[] && this.metadata == metadata
    {
      files := map[];
      this.metadata := metadata;
    }

    /**
      `listing` is the order in which the file system lists the root, `removable` which files it lets
      go. A file that does not go ends the work: those before it are gone, and all rows still there.
      */
    method ApplyRetention(listing: seq<string>, targetBytes: nat, removable: string -> bool)
      returns (ok: bool, removedFileCount: nat, removedBytes: nat, ghost candidates: seq<SegmentFile>,
               ghost kept: seq<SegmentFile>)
      requires metadata.Valid()
      requires (forall name <- listing :: name in files) && DistinctListing(listing)
      modifies this`files, metadata
      ensures metadata.Valid()
      ensures ShortestPrefix(OldestFirst(SegmentsOf(old(files), listing)), targetBytes, candidates)
      ensures RemovesOldest(SegmentsOf(old(files), listing), targetBytes, candidates, kept)
      ensures OldestWent(old(files), files, listing)
      ensures removedFileCount <= |candidates| && removedBytes == TotalBytes(candidates[..removedFileCount])
      ensures forall i | 0 <= i < removedFileCount :: removable(candidates[i].fileName)
      ensures ok <==> removedFileCount == |candidates|
      ensures !ok ==> !removable(candidates[removedFileCount].fileName)
      ensures var removed := FileSet(Names(candidates[..removedFileCount]));
        && files == old(files) - removed && Contents(files) == Contents(old(files)) - removed
        && metadata.batches == (if ok then Without(old(metadata.batches), removed) else old(metadata.batches))
    {
      hide Without, Ordered, OldestFirst, SegmentsOf, DistinctNames, ShortestPrefix, FileSet, Contents, RemovesOldest, OldestWent;
      var segments := SegmentsOf(files, listing);
      var plan;
      plan, kept := PlanRetention(segments, targetBytes);
      var planned := plan.candidates;
      candidates := planned;
      ghost var names := Names(candidates);
      Removable(files, listing, targetBytes, candidates);
      NamesOf(candidates);
      WithoutNothing(metadata.batches);
      NoNames(files);
      var removed: seq<string> := [];
      ok, removedFileCount, removedBytes := true, 0, 0;
      assert names[..0] == [] && candidates[..0] == [];
      for i := 0 to |planned|
        invariant metadata.Valid() && metadata.batches == old(metadata.batches)
        invariant files == old(files) - FileSet(names[..i])
        invariant removed == names[..i]
        invariant removedFileCount == i && removedBytes == TotalBytes(candidates[..i])
        invariant forall j | 0 <= j < i :: removable(candidates[j].fileName)
      {
        var name := planned[i].fileName;
        OneMoreName(files, old(files), names, i);
        OneMoreFile(candidates, i);
        if IsLogSegment(name) && name in files {
          if !removable(name) {
            ContentsWithout(old(files), FileSet(names[..i]));
            NamesPrefix(candidates, i);
            GoneAreOldest(old(files), listing, targetBytes, candidates, kept, i);
            return false, removedFileCount, removedBytes, candidates, kept;
          }
          removedBytes := removedBytes + |files[name].content|;
          files := files - {name};
          removedFileCount := removedFileCount + 1;
          removed := removed + [name];
        }
      }
      if removed != [] {
        var _ := metadata.DeleteBatchesForSegmentFiles(removed);
      }
      ContentsWithout(old(files), FileSet(names[..|planned|]));
      NamesPrefix(candidates, |planned|);
      GoneAreOldest(old(files), listing, targetBytes, candidates, kept, |planned|);
    }
  }

  lemma {:induction false} ContentsWithout(files: map<string, StoredFile>, removed: set<string>)
    ensures Contents(files - removed) == Contents(files) - removed
  {
  }

  lemma {:induction false} GoneAreOldest(
      files: map<string, StoredFile>, listing: seq<string>, targetBytes: nat, candidates: seq<SegmentFile>,
      kept: seq<SegmentFile>, n: nat)
    requires (forall name <- listing :: name in files) && DistinctListing(listing) && n <= |candidates|
    requires RemovesOldest(SegmentsOf(files, listing), targetBytes, candidates, kept)
    ensures OldestWent(files, files - FileSet(Names(candidates[..n])), listing)
  {
    hide SegmentsOf, IsLogSegment, InCodeOrder, RemovesOldest, DistinctNames;
    var names := Names(candidates[..n]);
    NamesOf(candidates[..n]);
    var left := files - FileSet(names);
    forall gone <- files | gone !in left ensures gone in listing && IsLogSegment(gone) {
      var i :| 0 <= i < n && names[i] == gone;
      assert candidates[..n][i] == candidates[i];
      CandidateIsListed(files, listing, targetBytes, candidates, kept, i);
    }
    forall gone <- files, stays <- left | gone !in left && stays in listing && IsLogSegment(stays)
      ensures || files[gone].modifiedMs < files[stays].modifiedMs
              || (files[gone].modifiedMs == files[stays].modifiedMs && InCodeOrder(gone, stays))
    {
      var i :| 0 <= i < n && names[i] == gone;
      assert candidates[..n][i] == candidates[i];
      CandidateIsListed(files, listing, targetBytes, candidates, kept, i);
      StayingIsNotBefore(files, listing, targetBytes, candidates, kept, n, i, stays);
    }
  }

  lemma {:induction false} CandidateIsListed(
      files: map<string, StoredFile>, listing: seq<string>, targetBytes: nat, candidates: seq<SegmentFile>,
      kept: seq<SegmentFile>, i: nat)
    requires (forall name <- listing :: name in files) && DistinctListing(listing) && i < |candidates|
    requires RemovesOldest(SegmentsOf(files, listing), targetBytes, candidates, kept)
    ensures var name := candidates[i].fileName;
      name in listing && IsLogSegment(name) && candidates[i].modifiedMs == files[name].modifiedMs
  {
    hide SegmentsOf, IsLogSegment, NotAfter;
    SegmentNames(files, listing);
    InEither(SegmentsOf(files, listing), candidates, kept, candidates[i]);
  }

  lemma {:induction false} StayingIsNotBefore(
      files: map<string, StoredFile>, listing: seq<string>, targetBytes: nat, candidates: seq<SegmentFile>,
      kept: seq<SegmentFile>, n: nat, i: nat, stays: string)
    requires (forall name <- listing :: name in files) && DistinctListing(listing) && i < n <= |candidates|
    requires RemovesOldest(SegmentsOf(files, listing), targetBytes, candidates, kept)
    requires stays in listing && IsLogSegment(stays) && stays !in FileSet(Names(candidates[..n]))
    ensures NotAfter(candidates[i], SegmentFile(stays, |files[stays].content|, files[stays].modifiedMs))
  {
    hide SegmentsOf, IsLogSegment, NotAfter, FileSet;
    var there := SegmentFile(stays, |files[stays].content|, files[stays].modifiedMs);
    SegmentNames(files, listing);
    InEither(SegmentsOf(files, listing), candidates, kept, there);
    if there in candidates {
      var j :| 0 <= j < |candidates| && candidates[j] == there;
      PrefixName(candidates, n, j);
    }
  }

  lemma {:induction false} PrefixName(candidates: seq<SegmentFile>, n: nat, j: nat)
    requires n <= |candidates| && j < |candidates|
    ensures j < n ==> candidates[j].fileName in FileSet(Names(candidates[..n]))
  {
    NamesOf(candidates[..n]);
    assert j < n ==> candidates[..n][j] == candidates[j] && Names(candidates[..n])[j] == candidates[j].fileName;
  }

  lemma {:induction false} InEither(
      segments: seq<SegmentFile>, candidates: seq<SegmentFile>, kept: seq<SegmentFile>, file: SegmentFile)
    requires multiset(candidates) + multiset(kept) == multiset(segments)
    ensures file in segments <==> file in candidates || file in kept
  {
    assert file in segments <==> file in multiset(segments);
  }

  lemma {:induction false} NoNames(files: map<string, StoredFile>)
    ensures FileSet([]) == {} && files - FileSet([]) == files
  {
  }

  lemma {:induction false} OneMoreName(
      files: map<string, StoredFile>, original: map<string, StoredFile>, names: seq<string>, i: nat)
    requires i < |names| && files == original - FileSet(names[..i])
    requires names[i] in original && forall j | 0 <= j < i :: names[j] != names[i]
    ensures names[..i + 1] == names[..i] + [names[i]]
    ensures names[i] in files && files[names[i]] == original[names[i]]
    ensures files - {names[i]} == original - FileSet(names[..i + 1])
  {
    assert names[..i + 1] == names[..i] + [names[i]];
    assert FileSet(names[..i + 1]) == FileSet(names[..i]) + {names[i]};
  }

  lemma {:induction false} OneMoreFile(files: seq<SegmentFile>, i: nat)
    requires i < |files|
    ensures TotalBytes(files[..i + 1]) == TotalBytes(files[..i]) + files[i].bytes
  {
    TotalSplit(files[..i + 1], i);
    assert files[..i + 1][..i] == files[..i] && files[..i + 1][i..] == [files[i]];
    assert TotalBytes([files[i]]) == files[i].bytes;
  }

  /** What a plan removes is there, is a segment, and is named once. */
  lemma {:induction false} Removable(
      files: map<string, StoredFile>, listing: seq<string>, targetBytes: nat, candidates: seq<SegmentFile>)
    requires (forall name <- listing :: name in files) && DistinctListing(listing)
    requires ShortestPrefix(OldestFirst(SegmentsOf(files, listing)), targetBytes, candidates)
    ensures forall i | 0 <= i < |candidates| ::
      && IsLogSegment(candidates[i].fileName) && candidates[i].fileName in files
      && candidates[i].bytes == |files[candidates[i].fileName].content|
    ensures forall i, j | 0 <= i < j < |candidates| :: candidates[i].fileName != candidates[j].fileName
  {
    hide OldestFirst, SegmentsOf;
    var segments := SegmentsOf(files, listing);
    var sorted := OldestFirst(segments);
    SegmentNames(files, listing);
    SortedDistinct(segments);
    forall i | 0 <= i < |candidates| ensures candidates[i] in segments {
      assert candidates[i] == sorted[i];
    }
    forall i, j | 0 <= i < j < |candidates| ensures candidates[i].fileName != candidates[j].fileName {
      DistinctAt(sorted, i, j);
    }
  }

  // ----- What survives -----

  lemma {:induction false} SurvivingBatchReads(files: Files, removed: set<string>, batch: MetadataRow)
    requires batch.segmentFile !in removed
    ensures BatchLines(files - removed, batch) == BatchLines(files, batch)
  {
    hide ReadBytes;
  }

  lemma {:induction false} SurvivingRows(files: Files, removed: set<string>, batches: seq<MetadataRow>)
    requires forall batch <- batches :: batch.segmentFile !in removed
    ensures AllRows(files - removed, batches) == AllRows(files, batches)
    ensures SeqDescending(files - removed, batches) <==> SeqDescending(files, batches)
  {
    hide BatchLines, ParseRows;
    if batches != [] {
      SurvivingRows(files, removed, batches[1..]);
      forall batch <- batches ensures BatchRows(files - removed, batch) == BatchRows(files, batch) {
        SurvivingBatchReads(files, removed, batch);
      }
      assert batches[0] in batches;
    }
  }

  /**
    After retention no row names a removed file, and the stream is a sound store holding exactly the
    rows of the surviving batches, so its pages are complete over them.
    */
  lemma {:induction false} RetentionKeepsSurvivors(
      files: Files, batches: seq<MetadataRow>, removed: set<string>, streamId: string)
    requires Sound(files, Filter(batches, OfStream(streamId)))
    ensures forall batch <- Without(batches, removed) :: batch.segmentFile !in removed
    ensures var own, left := Filter(batches, OfStream(streamId)), Filter(Without(batches, removed), OfStream(streamId));
      && left == Without(own, removed)
      && Sound(files - removed, left) && AllRows(files - removed, left) == AllRows(files, left)
  {
    hide BatchLines, BatchRows, SeqDescending, AllRows, LevelsCovered, NoTruncatedFile, IsStale;
    var own := Filter(batches, OfStream(streamId));
    var left := Without(own, removed);
    WithoutOfStream(batches, removed, streamId);
    FilterMember(batches, OutsideFiles(removed));
    FilterMember(own, OutsideFiles(removed));
    DescendingFilter(files, own, OutsideFiles(removed));
    SurvivingRows(files, removed, left);
    assert forall batch <- left :: batch in own && batch.segmentFile !in removed;
    SurvivorsAreSound(files, removed, own, left);
  }

  /**
    When it ended at a file that did not go, the rows of the removed files are still there but stale:
    the store is sound all the same, and holds the rows it would hold without them.
    */
  lemma {:induction false} EndedEarlyKeepsSurvivors(
      files: Files, batches: seq<MetadataRow>, removed: set<string>, streamId: string)
    requires Sound(files, Filter(batches, OfStream(streamId)))
    ensures var own := Filter(batches, OfStream(streamId));
      && Sound(files - removed, own)
      && (forall batch <- own | batch.segmentFile in removed :: IsStale(files - removed, batch))
      && AllRows(files - removed, own) == AllRows(files, Without(own, removed))
  {
    hide BatchLines, BatchRows, SeqDescending, AllRows, LevelsCovered, IsStale;
    var own := Filter(batches, OfStream(streamId));
    var left := Without(own, removed);
    forall batch <- own
      ensures batch.segmentFile in removed ==>
        IsStale(files - removed, batch) && BatchRows(files - removed, batch) == []
        && LevelsCovered(files - removed, batch)
      ensures batch.segmentFile !in removed ==>
        && IsStale(files - removed, batch) == IsStale(files, batch)
        && LevelsCovered(files - removed, batch) == LevelsCovered(files, batch)
      ensures |BatchRows(files - removed, batch)| <= |BatchRows(files, batch)|
    {
      if batch.segmentFile in removed {
        RemovedIsStale(files, removed, batch);
      } else {
        SurvivingBatch(files, removed, batch);
        SurvivingRows(files, removed, [batch]);
        OneBatch(files, batch);
        OneBatch(files - removed, batch);
      }
    }
    StillDescending(files, files - removed, own);
    FilterMember(own, OutsideFiles(removed));
    DroppingEmptyBatches(files - removed, own, OutsideFiles(removed));
    SurvivingRows(files, removed, left);
  }

  lemma {:induction false} OneBatch(files: Files, batch: MetadataRow)
    ensures AllRows(files, [batch]) == BatchRows(files, batch)
  {
    hide BatchRows;
    assert [batch][1..] == [] && AllRows(files, []) == [];
  }

  lemma {:induction false} RemovedIsStale(files: Files, removed: set<string>, batch: MetadataRow)
    requires batch.segmentFile in removed
    ensures IsStale(files - removed, batch) && BatchRows(files - removed, batch) == []
    ensures LevelsCovered(files - removed, batch)
  {
  }

  lemma {:induction false} StillDescending(files: Files, later: Files, batches: seq<MetadataRow>)
    requires SeqDescending(files, batches)
    requires forall batch <- batches :: |BatchRows(later, batch)| <= |BatchRows(files, batch)|
    ensures SeqDescending(later, batches)
  {
    hide BatchRows;
    if batches != [] {
      assert forall batch <- batches[1..] :: batch in batches;
      StillDescending(files, later, batches[1..]);
    }
  }

  lemma {:induction false} SurvivingBatch(files: Files, removed: set<string>, batch: MetadataRow)
    requires batch.segmentFile !in removed
    ensures IsStale(files - removed, batch) == IsStale(files, batch)
    ensures LevelsCovered(files - removed, batch) == LevelsCovered(files, batch)
  {
    hide BatchLines;
    SurvivingBatchReads(files, removed, batch);
  }

  lemma {:induction false} SurvivorsAreSound(
      files: Files, removed: set<string>, queried: seq<MetadataRow>, left: seq<MetadataRow>)
    requires NoTruncatedFile(files, queried) && AllCovered(files, queried)
    requires forall batch <- left :: batch in queried && batch.segmentFile !in removed
    ensures NoTruncatedFile(files - removed, left)
    ensures AllCovered(files - removed, left)
  {
    hide LevelsCovered, IsStale;
    forall batch <- left
      ensures IsStale(files - removed, batch) == IsStale(files, batch) && LevelsCovered(files - removed, batch)
    {
      SurvivingBatch(files, removed, batch);
    }
  }
}
