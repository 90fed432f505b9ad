/** Offsets and one-based line/column positions in a text of UTF-16 code units. */
module TextPosition {
  import opened Sequences

  type CodeUnit = n: int | 0 <= n < 0x10000
  type Text = seq<CodeUnit>

  const NEWLINE: CodeUnit := 10

  datatype Position = Position(line: int, column: int)

  datatype TextRange = TextRange(startLine: int, startColumn: int, endLine: int, endColumn: int)

  function Bounded(value: int, maximum: nat): (bounded: nat)
    ensures bounded <= maximum && (0 <= value <= maximum ==> bounded == value)
  {
    if value < 0 then 0 else if value > maximum then maximum else value
  }

  // ----- Lines -----

  function Newlines(text: Text): nat {
    if text == [] then 0 else Newlines(text[..|text| - 1]) + if text[|text| - 1] == NEWLINE then 1 else 0
  }

  /** Where the last line of the text starts. */
  function LastLineStart(text: Text): (start: nat)
    ensures start <= |text|
    ensures NEWLINE !in text[start..]
    ensures start > 0 ==> text[start - 1] == NEWLINE
  {
    if text == [] || text[|text| - 1] == NEWLINE then |text|
    else
      var init := text[..|text| - 1];
      var start := LastLineStart(init);
      assert text[start..] == init[start..] + [text[|text| - 1]];
      start
  }

  lemma {:induction false} NewlinesConcat(a: Text, b: Text)
    ensures Newlines(a + b) == Newlines(a) + Newlines(b)
    decreases |b|
  {
    if b == [] {
      assert a + b == a;
    } else {
      assert (a + b)[..|a + b| - 1] == a + b[..|b| - 1];
      NewlinesConcat(a, b[..|b| - 1]);
    }
  }

  lemma {:induction false} NewlinesSplit(text: Text, i: nat, j: nat)
    requires i <= j <= |text|
    ensures Newlines(text[..j]) == Newlines(text[..i]) + Newlines(text[i..j])
  {
    assert text[..j] == text[..i] + text[i..j];
    NewlinesConcat(text[..i], text[i..j]);
  }

  lemma {:induction false} NoNewlines(text: Text)
    ensures Newlines(text) == 0 <==> NEWLINE !in text
  {
    if text != [] {
      NoNewlines(text[..|text| - 1]);
      assert text == text[..|text| - 1] + [text[|text| - 1]];
    }
  }

  // ----- Offset to position -----

  function PositionOf(content: Text, offset: int): Position {
    var before := content[..Bounded(offset, |content|)];
    Position(Newlines(before) + 1, |before| - LastLineStart(before) + 1)
  }

  method OffsetToLineColumn(content: Text, offset: int) returns (position: Position)
    ensures position == PositionOf(content, offset)
  {
    var bounded := Bounded(offset, |content|);
    var line, lineStart := 1, 0;
    for index := 0 to bounded
      invariant line == Newlines(content[..index]) + 1
      invariant lineStart == LastLineStart(content[..index])
    {
      assert content[..index + 1][..index] == content[..index];
      if content[index] == NEWLINE {
        line := line + 1;
        lineStart := index + 1;
      }
    }
    position := Position(line, bounded - lineStart + 1);
  }

  // ----- Position to offset -----

  /** `indexOf("\n", from)`. */
  function IndexOfNewline(content: Text, from: nat): (index: Option<nat>)
    requires from <= |content|
    ensures index.Some? ==> from <= index.value < |content| && content[index.value] == NEWLINE
    ensures index.Some? ==> NEWLINE !in content[from..index.value]
    ensures index.None? ==> NEWLINE !in content[from..]
    decreases |content| - from
  {
    if from == |content| then None
    else if content[from] == NEWLINE then Some(from)
    else
      var index := IndexOfNewline(content, from + 1);
      assert content[from..] == [content[from]] + content[from + 1..];
      assert index.Some? ==> content[from..index.value] == [content[from]] + content[from + 1..index.value];
      index
  }

  /** The start of the line `count` lines further on, or the end of the text. */
  function SkipLines(content: Text, from: nat, count: nat): (offset: nat)
    requires from <= |content|
    ensures from <= offset <= |content|
    decreases count
  {
    if count == 0 || from == |content| then from
    else
      match IndexOfNewline(content, from)
      case None => |content|
      case Some(newline) => SkipLines(content, newline + 1, count - 1)
  }

  function OffsetOf(content: Text, line: int, column: int): nat {
    var start := SkipLines(content, 0, if line > 1 then line - 1 else 0);
    Bounded(start + if column > 1 then column - 1 else 0, |content|)
  }

  method LineColumnToOffset(content: Text, line: int, column: int) returns (offset: nat)
    ensures offset == OffsetOf(content, line, column)
  {
    var targetLine := if line > 1 then line else 1;
    offset := 0;
    var currentLine := 1;
    while currentLine < targetLine && offset < |content|
      invariant 1 <= currentLine <= targetLine && offset <= |content|
      invariant SkipLines(content, offset, targetLine - currentLine) == SkipLines(content, 0, targetLine - 1)
      decreases targetLine - currentLine
    {
      var newline := IndexOfNewline(content, offset);
      if newline.None? {
        return |content|;
      }
      offset := newline.value + 1;
      currentLine := currentLine + 1;
    }
    offset := Bounded(offset + if column > 1 then column - 1 else 0, |content|);
  }

  // ----- The two conversions are mutually inverse -----

  /** The offset starts a line: it is the beginning, or a newline stands before it. */
  predicate StartsLine(content: Text, offset: nat) {
    offset <= |content| && (offset > 0 ==> content[offset - 1] == NEWLINE)
  }

  lemma {:induction false} LaterLine(content: Text, a: nat, b: nat)
    requires a < b && StartsLine(content, b)
    ensures Newlines(content[..a]) < Newlines(content[..b])
  {
    NewlinesSplit(content, a, b);
    NoNewlines(content[a..b]);
    assert content[a..b][b - 1 - a] == content[b - 1];
  }

  lemma {:induction false} SkippedLines(content: Text, from: nat, count: nat)
    requires StartsLine(content, from)
    ensures var offset, left := SkipLines(content, from, count), Newlines(content) - Newlines(content[..from]);
      if count <= left then StartsLine(content, offset) && Newlines(content[..offset]) == Newlines(content[..from]) + count
      else offset == |content|
    decreases count
  {
    hide Newlines;
    RestOfText(content, from);
    if count > 0 && from < |content| && IndexOfNewline(content, from).Some? {
      var next := IndexOfNewline(content, from).value + 1;
      OneLine(content, from, next);
      SkippedLines(content, next, count - 1);
    }
  }

  lemma {:induction false} RestOfText(content: Text, from: nat)
    requires from <= |content|
    ensures Newlines(content) == Newlines(content[..from]) + Newlines(content[from..])
    ensures Newlines(content[from..]) == 0 <==> NEWLINE !in content[from..]
  {
    assert content == content[..from] + content[from..];
    NewlinesConcat(content[..from], content[from..]);
    NoNewlines(content[from..]);
  }

  lemma {:induction false} OneLine(content: Text, from: nat, next: nat)
    requires from < next <= |content|
    requires content[next - 1] == NEWLINE && NEWLINE !in content[from..next - 1]
    ensures Newlines(content[..next]) == Newlines(content[..from]) + 1
  {
    NewlinesSplit(content, from, next);
    var line := content[from..next];
    assert line[..|line| - 1] == content[from..next - 1];
    NoNewlines(content[from..next - 1]);
  }

  /** The start of the line an offset lies on. */
  lemma {:induction false} StartOfLineAt(content: Text, offset: nat)
    requires offset <= |content|
    ensures SkipLines(content, 0, Newlines(content[..offset])) == LastLineStart(content[..offset])
  {
    var before := content[..offset];
    var start := LastLineStart(before);
    NewlinesSplit(content, start, offset);
    assert before[start..] == content[start..offset];
    NoNewlines(content[start..offset]);
    NewlinesSplit(content, offset, |content|);
    assert content[..|content|] == content && content[..0] == [];
    SkippedLines(content, 0, Newlines(before));
    var skipped := SkipLines(content, 0, Newlines(before));
    if skipped < start {
      LaterLine(content, skipped, start);
    } else if start < skipped {
      LaterLine(content, start, skipped);
    }
  }

  /** Every offset survives the trip through its position. */
  lemma {:induction false} OffsetRoundTrip(content: Text, offset: nat)
    requires offset <= |content|
    ensures var position := PositionOf(content, offset);
      OffsetOf(content, position.line, position.column) == offset
  {
    StartOfLineAt(content, offset);
  }

  /** The position exists: the line does, and the column lies on it or just past its end. */
  predicate InText(content: Text, line: int, column: int) {
    && 1 <= line <= Newlines(content) + 1
    && 1 <= column
    && var start := SkipLines(content, 0, line - 1);
       start + column - 1 <= |content| && NEWLINE !in content[start..start + column - 1]
  }

  /** A position survives the trip through its offset exactly when it exists in the text. */
  lemma {:induction false} PositionRoundTrip(content: Text, line: int, column: int)
    ensures PositionOf(content, OffsetOf(content, line, column)) == Position(line, column)
       <==> InText(content, line, column)
  {
    var offset := OffsetOf(content, line, column);
    var before := content[..offset];
    if InText(content, line, column) {
      OffsetOfExisting(content, line, column);
    } else {
      RestOfText(content, offset);
      StartOfLineAt(content, offset);
      assert before[LastLineStart(before)..] == content[LastLineStart(before)..offset];
    }
  }

  lemma {:induction false} OffsetOfExisting(content: Text, line: int, column: int)
    requires InText(content, line, column)
    ensures PositionOf(content, OffsetOf(content, line, column)) == Position(line, column)
  {
    hide Newlines, LastLineStart;
    var start := SkipLines(content, 0, line - 1);
    var offset := start + column - 1;
    assert content[..0] == [] && Newlines([]) == 0 by { NoNewlines([]); }
    SkippedLines(content, 0, line - 1);
    NewlinesSplit(content, start, offset);
    NoNewlines(content[start..offset]);
    LastLineStartAt(content, start, offset);
  }

  lemma {:induction false} LastLineStartAt(content: Text, start: nat, offset: nat)
    requires start <= offset <= |content| && StartsLine(content, start) && NEWLINE !in content[start..offset]
    ensures LastLineStart(content[..offset]) == start
    decreases offset
  {
    if start < offset {
      assert content[offset - 1] == content[start..offset][offset - 1 - start];
      assert content[..offset][..offset - 1] == content[..offset - 1];
      assert content[start..offset - 1] == content[start..offset][..offset - 1 - start];
      LastLineStartAt(content, start, offset - 1);
    }
  }

  // ----- Spans -----

  function SpanToRange(content: Text, start: int, length: int): TextRange {
    var from, to := PositionOf(content, start), PositionOf(content, start + length);
    TextRange(from.line, from.column, to.line, to.column)
  }

  predicate NotAfter(a: Position, b: Position) {
    a.line < b.line || (a.line == b.line && a.column <= b.column)
  }

  /** Later offsets have later positions, and all positions exist. */
  lemma {:induction false} PositionsAreOrdered(content: Text, a: nat, b: nat)
    requires a <= b <= |content|
    ensures NotAfter(PositionOf(content, a), PositionOf(content, b))
    ensures InText(content, PositionOf(content, a).line, PositionOf(content, a).column)
  {
    NewlinesSplit(content, a, b);
    StartOfLineAt(content, a);
    StartOfLineAt(content, b);
    OffsetRoundTrip(content, a);
    var position := PositionOf(content, a);
    PositionRoundTrip(content, position.line, position.column);
  }
}
