/** The append-only segment file of one stream, and reading a batch back from it. */
module DeviceLogSegment {
  import opened Sequences
  import opened Utf8
  import opened DeviceLogLine

  const MAX_SEGMENT_READ_BYTES: nat := 16 * 1024 * 1024

  /** The segment files present under the log root, by name. */
  type Files = map<string, seq<Byte>>

  datatype ReadError = StaleSegment | Fatal

  datatype SegmentWriteReceipt =
    SegmentWriteReceipt(offset: nat, bytes: nat, lineCount: nat, segmentFile: string)

  // ----- The text of a batch -----

  function Written(lines: seq<string>): string {
    if lines == [] then "" else lines[0] + "\n" + Written(lines[1..])
  }

  function LineLength(text: string): (n: nat)
    ensures n <= |text|
    ensures '\n' !in text[..n]
    ensures n < |text| ==> text[n] == '\n'
  {
    if text == "" || text[0] == '\n' then 0
    else
      var n := 1 + LineLength(text[1..]);
      assert text[..n] == [text[0]] + text[1..][..n - 1];
      n
  }

  /** `str::lines`: a carriage return goes only where a line feed followed it. */
  function Lines(text: string): seq<string> {
    if text == "" then []
    else
      var n := LineLength(text);
      if n == |text| then [text] else [StripCarriageReturn(text[..n])] + Lines(text[n + 1..])
  }

  function StoredLines(lines: seq<string>): (stored: seq<string>)
    ensures |stored| == |lines|
    ensures forall i | 0 <= i < |lines| :: stored[i] == StripCarriageReturn(lines[i])
  {
    if lines == [] then [] else [StripCarriageReturn(lines[0])] + StoredLines(lines[1..])
  }

  predicate NoLineFeeds(lines: seq<string>) {
    forall line <- lines :: '\n' !in line
  }

  function BatchBytes(lines: seq<string>): seq<Byte> {
    Encode(Written(lines))
  }

  lemma {:induction false} WrittenConcat(a: seq<string>, b: seq<string>)
    ensures Written(a + b) == Written(a) + Written(b)
  {
    if a == [] {
      assert a + b == b;
    } else {
      assert (a + b)[1..] == a[1..] + b;
      WrittenConcat(a[1..], b);
    }
  }

  lemma {:induction false} NoBatchBytes(lines: seq<string>)
    ensures BatchBytes(lines[..0]) == []
  {
  }

  lemma {:induction false} BatchBytesNext(lines: seq<string>, i: nat)
    requires i < |lines|
    ensures BatchBytes(lines[..i + 1]) == BatchBytes(lines[..i]) + Encode(lines[i]) + Encode("\n")
    ensures |Encode("\n")| == 1
  {
    assert lines[..i + 1] == lines[..i] + [lines[i]];
    WrittenConcat(lines[..i], [lines[i]]);
    assert Written([lines[i]]) == lines[i] + "\n";
    EncodeConcat(Written(lines[..i]), lines[i] + "\n");
    EncodeConcat(lines[i], "\n");
    assert |Encode("\n")| == 1;
    hide Encode, Written;
    assert Encode(Written(lines[..i])) + (Encode(lines[i]) + Encode("\n"))
      == Encode(Written(lines[..i])) + Encode(lines[i]) + Encode("\n");
  }

  lemma {:induction false} LineLengthOfWritten(line: string, rest: string)
    requires '\n' !in line
    ensures LineLength(line + "\n" + rest) == |line|
  {
    if line != "" {
      assert (line + "\n" + rest)[1..] == line[1..] + "\n" + rest;
      LineLengthOfWritten(line[1..], rest);
    }
  }

  lemma {:induction false} LinesOfWritten(lines: seq<string>)
    requires NoLineFeeds(lines)
    ensures Lines(Written(lines)) == StoredLines(lines)
  {
    if lines != [] {
      var text := Written(lines);
      LineLengthOfWritten(lines[0], Written(lines[1..]));
      assert text[..|lines[0]|] == lines[0];
      assert text[|lines[0]| + 1..] == Written(lines[1..]);
      LinesOfWritten(lines[1..]);
    }
  }

  lemma {:induction false} LinesHaveNoLineFeed(text: string)
    ensures NoLineFeeds(Lines(text))
    decreases |text|
  {
    if text != "" {
      var n := LineLength(text);
      if n == |text| {
        assert text[..n] == text;
      } else {
        LinesHaveNoLineFeed(text[n + 1..]);
      }
    }
  }

  // ----- Reading -----

  function ReadBytes(file: seq<Byte>, offset: nat, bytes: nat): Result<seq<string>, ReadError> {
    if bytes == 0 then Ok([])
    else if offset + bytes > |file| then Err(StaleSegment)
    else
      match Decode(file[offset..offset + bytes])
      case None => Err(Fatal)
      case Some(text) => Ok(Lines(text))
  }

  function ReadSegmentFileLines(files: Files, name: string, offset: nat, bytes: nat)
    : Result<seq<string>, ReadError>
  {
    if bytes > MAX_SEGMENT_READ_BYTES then Err(Fatal)
    else if name !in files then Err(StaleSegment)
    else ReadBytes(files[name], offset, bytes)
  }

  /** A batch reads back as it was stored, whatever was appended before and after it. */
  lemma {:induction false} ReadBack(before: seq<Byte>, lines: seq<string>, after: seq<Byte>)
    requires NoLineFeeds(lines)
    ensures ReadBytes(before + BatchBytes(lines) + after, |before|, |BatchBytes(lines)|) == Ok(StoredLines(lines))
  {
    var file, batch := before + BatchBytes(lines) + after, BatchBytes(lines);
    DecodeEncode(Written(lines));
    LinesOfWritten(lines);
    assert file[|before|..|before| + |batch|] == batch;
    if batch == [] {
      assert Written(lines) == "";
      assert lines == [];
    }
  }

  /**
    Read-back is the identity on exactly the batches whose lines hold no line feed and end in no
    carriage return.
    */
  lemma {:induction false} ReadBackIsExact(before: seq<Byte>, lines: seq<string>, after: seq<Byte>)
    ensures ReadBytes(before + BatchBytes(lines) + after, |before|, |BatchBytes(lines)|) == Ok(lines)
       <==> NoLineFeeds(lines) && forall line <- lines :: StripCarriageReturn(line) == line
  {
    var file, batch := before + BatchBytes(lines) + after, BatchBytes(lines);
    if NoLineFeeds(lines) {
      ReadBack(before, lines, after);
      assert StoredLines(lines) == lines <==> forall line <- lines :: StripCarriageReturn(line) == line;
    } else {
      assert file[|before|..|before| + |batch|] == batch;
      DecodeEncode(Written(lines));
      LinesHaveNoLineFeed(Written(lines));
    }
  }

  // ----- Writing -----

  /** The open segment: the bytes of the file, and the offset the writer believes it has reached. */
  class DeviceLogSegmentWriter {
    const segmentFile: string
    var file: seq<Byte>
    var offset: nat

    ghost predicate Valid()
      reads this
    {
      offset == |file|
    }

    constructor Open(streamId: string, existing: seq<Byte>)
      ensures Valid() && file == existing && segmentFile == streamId + ".logseg"
    {
      segmentFile := streamId + ".logseg";
      file := existing;
      offset := |existing|;
    }

    /** Each append is all or nothing; `ioOk` says whether the file accepted it. */
    method AppendLines(lines: seq<string>, ioOk: bool) returns (r: Result<SegmentWriteReceipt, string>)
      requires Valid()
      modifies this
      ensures Valid()
      ensures r.Ok? <==> ioOk
      ensures r.Err? ==> file == old(file)
      ensures r.Ok? ==> file == old(file) + BatchBytes(lines)
      ensures r.Ok? ==> r.value == SegmentWriteReceipt(|old(file)|, |BatchBytes(lines)|, |lines|, segmentFile)
    {
      if !ioOk {
        return Err("write failed");
      }
      hide BatchBytes, Encode;
      var start := offset;
      var bytes := 0;
      NoBatchBytes(lines);
      for i := 0 to |lines|
        invariant offset == start
        invariant file == old(file) + BatchBytes(lines[..i])
        invariant bytes == |BatchBytes(lines[..i])|
      {
        BatchBytesNext(lines, i);
        file := file + Encode(lines[i]);
        file := file + Encode("\n");
        bytes := bytes + |Encode(lines[i])| + 1;
      }
      assert lines[..|lines|] == lines;
      offset := offset + bytes;
      return Ok(SegmentWriteReceipt(start, bytes, |lines|, segmentFile));
    }
  }
}
