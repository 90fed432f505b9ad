/** The table of batches: one row per appended batch, newest first. */
module DeviceLogMetadata {
  import opened Sequences

  datatype MetadataRow = MetadataRow(
    streamId: string, deviceId: string, firstSeq: nat, receivedAtMs: nat, lineCount: nat,
    segmentFile: string, segmentOffset: nat, segmentBytes: nat, levels: seq<string>)

  /** `order by received_at_ms desc, first_seq desc`: may `a` stand before `b`? */
  predicate NotOlder(a: MetadataRow, b: MetadataRow) {
    a.receivedAtMs > b.receivedAtMs || (a.receivedAtMs == b.receivedAtMs && a.firstSeq >= b.firstSeq)
  }

  ghost predicate Ordered(rows: seq<MetadataRow>) {
    rows == [] || ((forall row <- rows[1..] :: NotOlder(rows[0], row)) && Ordered(rows[1..]))
  }

  function InsertOrdered(rows: seq<MetadataRow>, row: MetadataRow): seq<MetadataRow> {
    if rows == [] || NotOlder(row, rows[0]) then [row] + rows
    else [rows[0]] + InsertOrdered(rows[1..], row)
  }

  function Selects(streamId: string, startMs: nat, endMs: nat): MetadataRow -> bool {
    (row: MetadataRow) => row.streamId == streamId && startMs <= row.receivedAtMs <= endMs
  }

  function InRange(rows: seq<MetadataRow>, streamId: string, startMs: nat, endMs: nat): seq<MetadataRow> {
    Filter(rows, Selects(streamId, startMs, endMs))
  }

  function OfStream(streamId: string): MetadataRow -> bool {
    (row: MetadataRow) => row.streamId == streamId
  }

  function OutsideFiles(files: set<string>): MetadataRow -> bool {
    (row: MetadataRow) => row.segmentFile !in files
  }

  function Without(rows: seq<MetadataRow>, files: set<string>): seq<MetadataRow> {
    Filter(rows, OutsideFiles(files))
  }

  lemma {:induction false} InsertKeepsOrder(rows: seq<MetadataRow>, row: MetadataRow)
    requires Ordered(rows)
    ensures Ordered(InsertOrdered(rows, row))
    ensures forall x :: x in InsertOrdered(rows, row) <==> x == row || x in rows
  {
    if rows != [] && !NotOlder(row, rows[0]) {
      InsertKeepsOrder(rows[1..], row);
      assert rows == [rows[0]] + rows[1..];
    } else {
      assert rows != [] ==> rows == [rows[0]] + rows[1..];
    }
  }

  /** Newest first, and of one time the larger first sequence number first. */
  lemma {:induction false} NewestStandFirst(rows: seq<MetadataRow>, i: nat, j: nat)
    requires Ordered(rows) && i < j < |rows|
    ensures rows[i].receivedAtMs >= rows[j].receivedAtMs
    ensures rows[i].receivedAtMs == rows[j].receivedAtMs ==> rows[i].firstSeq >= rows[j].firstSeq
  {
    if i == 0 {
      assert rows[1..][j - 1] in rows[1..];
    } else {
      NewestStandFirst(rows[1..], i - 1, j - 1);
    }
  }

  lemma {:induction false} FilterKeepsOrder(rows: seq<MetadataRow>, keep: MetadataRow -> bool)
    requires Ordered(rows)
    ensures Ordered(Filter(rows, keep))
  {
    if rows != [] {
      FilterKeepsOrder(rows[1..], keep);
      FilterMember(rows[1..], keep);
      if keep(rows[0]) {
        assert Filter(rows, keep)[1..] == Filter(rows[1..], keep);
      }
    }
  }

  /** Selecting commutes with inserting. */
  lemma {:induction false} FilterInsert(rows: seq<MetadataRow>, row: MetadataRow, keep: MetadataRow -> bool)
    requires Ordered(rows)
    ensures Filter(InsertOrdered(rows, row), keep)
         == if keep(row) then InsertOrdered(Filter(rows, keep), row) else Filter(rows, keep)
  {
    if rows == [] {
    } else if NotOlder(row, rows[0]) {
      assert ([row] + rows)[1..] == rows;
      FilterMember(rows, keep);
      var kept := Filter(rows, keep);
      if kept != [] {
        assert kept[0] in kept && rows == [rows[0]] + rows[1..];
        assert NotOlder(row, kept[0]);
      }
    } else {
      FilterInsert(rows[1..], row, keep);
      var rest := InsertOrdered(rows[1..], row);
      assert ([rows[0]] + rest)[1..] == rest;
      if keep(rows[0]) {
        assert Filter(rows, keep)[1..] == Filter(rows[1..], keep);
      }
    }
  }

  function FileSet(names: seq<string>): set<string> {
    set name | name in names
  }

  lemma {:induction false} WithoutNothing(rows: seq<MetadataRow>)
    ensures Without(rows, {}) == rows
  {
    FilterAll(rows, OutsideFiles({}));
  }

  lemma {:induction false} WithoutUnion(rows: seq<MetadataRow>, a: set<string>, b: set<string>)
    ensures Without(Without(rows, a), b) == Without(rows, a + b)
  {
    FilterTwice(rows, OutsideFiles(a), OutsideFiles(b), OutsideFiles(a + b));
  }

  class DeviceLogMetadataStore {
    var batches: seq<MetadataRow>

    ghost predicate Valid()
      reads this
    {
      Ordered(batches)
    }

    constructor ()
      ensures Valid() && batches == []
    {
      batches := [];
    }

    method InsertBatch(batch: MetadataRow, ioOk: bool) returns (ok: bool)
      requires Valid()
      modifies this
      ensures Valid()
      ensures ok == ioOk
      ensures batches == if ok then InsertOrdered(old(batches), batch) else old(batches)
    {
      InsertKeepsOrder(batches, batch);
      if ioOk {
        batches := InsertOrdered(batches, batch);
      }
      return ioOk;
    }

    /** `limit ?4 offset ?5` over the ordered selection. */
    method QueryRangePage(streamId: string, startMs: nat, endMs: nat, limit: nat, offset: nat)
      returns (page: seq<MetadataRow>)
      ensures var all := InRange(batches, streamId, startMs, endMs);
        page == if offset >= |all| then []
                else if offset + limit > |all| then all[offset..]
                else all[offset..offset + limit]
    {
      var all := InRange(batches, streamId, startMs, endMs);
      var from := if offset < |all| then offset else |all|;
      var to := if offset + limit < |all| then offset + limit else |all|;
      page := all[from..to];
    }

    /** Returns how many rows went; what stays are the rows naming none of the files, in their order. */
    method DeleteBatchesForSegmentFiles(segmentFiles: seq<string>) returns (removed: nat)
      requires Valid()
      modifies this
      ensures Valid()
      ensures batches == Without(old(batches), FileSet(segmentFiles))
      ensures removed == |old(batches)| - |batches|
    {
      removed := 0;
      WithoutNothing(batches);
      assert FileSet([]) == {};
      for i := 0 to |segmentFiles|
        invariant Valid()
        invariant batches == Without(old(batches), FileSet(segmentFiles[..i]))
        invariant removed == |old(batches)| - |batches|
      {
        var kept := Filter(batches, OutsideFiles({segmentFiles[i]}));
        FilterKeepsOrder(batches, OutsideFiles({segmentFiles[i]}));
        WithoutUnion(old(batches), FileSet(segmentFiles[..i]), {segmentFiles[i]});
        FilterShortens(batches, OutsideFiles({segmentFiles[i]}));
        assert segmentFiles[..i + 1] == segmentFiles[..i] + [segmentFiles[i]];
        assert FileSet(segmentFiles[..i + 1]) == FileSet(segmentFiles[..i]) + {segmentFiles[i]};
        removed := removed + (|batches| - |kept|);
        batches := kept;
      }
      assert segmentFiles[..|segmentFiles|] == segmentFiles;
    }
  }
}
