/** Edits that arrive as ranges of lines and columns, as changes of offsets in the document. */
module CompletionEdits {
  import opened Sequences
  import opened TextPosition
  import opened CompletionRebase

  /** The number of lines of a document. */
  function Lines(document: Text): nat {
    Newlines(document) + 1
  }

  function LineFrom(document: Text, line: int): nat {
    SkipLines(document, 0, if line > 1 then line - 1 else 0)
  }

  function LineTo(document: Text, line: int): (to: nat)
    ensures LineFrom(document, line) <= to <= |document|
  {
    match IndexOfNewline(document, LineFrom(document, line))
    case None => |document|
    case Some(newline) => newline
  }

  function TextRangeToChange(document: Text, range: TextRange, insert: Text): Option<Change> {
    if range.startLine < 1 || range.endLine < range.startLine || range.endLine > Lines(document) then None
    else
      var from := LineFrom(document, range.startLine) + range.startColumn - 1;
      var to := LineFrom(document, range.endLine) + range.endColumn - 1;
      if range.startColumn < 1 || range.endColumn < 1
         || from > LineTo(document, range.startLine) || to > LineTo(document, range.endLine) || to < from
      then None
      else Some(Change(from, to, insert))
  }

  lemma {:induction false} NoNewlineUpTo(document: Text, from: nat, offset: nat, end: nat)
    requires from <= offset <= end <= |document| && NEWLINE !in document[from..end]
    ensures NEWLINE !in document[from..offset]
  {
    forall i | from <= i < offset ensures document[i] != NEWLINE {
      assert document[from..end][i - from] == document[i];
    }
  }

  lemma {:induction false} InTextByLineEnd(document: Text, line: int, column: int)
    requires 1 <= line <= Lines(document) && 1 <= column
    ensures InText(document, line, column)
       <==> LineFrom(document, line) + column - 1 <= LineTo(document, line)
    ensures InText(document, line, column) ==>
      OffsetOf(document, line, column) == LineFrom(document, line) + column - 1
  {
    hide SkipLines, IndexOfNewline, Newlines;
    var from, to := LineFrom(document, line), LineTo(document, line);
    var offset := from + column - 1;
    if offset <= to {
      var newline := IndexOfNewline(document, from);
      NoNewlineUpTo(document, from, offset, if newline.Some? then newline.value else |document|);
    } else if offset <= |document| {
      assert document[to] == NEWLINE && from <= to < offset;
      var line := document[from..offset];
      assert line[to - from] == document[to] && line[to - from] in line;
    }
  }

  lemma {:induction false} OffsetsKeepOrder(document: Text, a: Position, b: Position)
    requires InText(document, a.line, a.column) && InText(document, b.line, b.column)
    ensures NotAfter(a, b) <==> OffsetOf(document, a.line, a.column) <= OffsetOf(document, b.line, b.column)
  {
    hide InText, OffsetOf;
    var x, y := OffsetOf(document, a.line, a.column), OffsetOf(document, b.line, b.column);
    PositionRoundTrip(document, a.line, a.column);
    PositionRoundTrip(document, b.line, b.column);
    assert 0 <= x <= |document| && 0 <= y <= |document| by { OffsetsInRange(document, a, b); }
    if x <= y {
      PositionsAreOrdered(document, x, y);
    } else {
      PositionsAreOrdered(document, y, x);
      assert a != b;
    }
  }

  lemma {:induction false} OffsetsInRange(document: Text, a: Position, b: Position)
    ensures OffsetOf(document, a.line, a.column) <= |document| && OffsetOf(document, b.line, b.column) <= |document|
  {
  }

  /** A range becomes a change exactly when both its ends exist in the document, in order, and then of their offsets. */
  lemma {:induction false} RangeIsChange(document: Text, range: TextRange, insert: Text)
    ensures var start, end := Position(range.startLine, range.startColumn), Position(range.endLine, range.endColumn);
      TextRangeToChange(document, range, insert)
      == if InText(document, start.line, start.column) && InText(document, end.line, end.column) && NotAfter(start, end)
         then Some(Change(OffsetOf(document, start.line, start.column), OffsetOf(document, end.line, end.column), insert))
         else None
  {
    hide OffsetOf, LineFrom, LineTo;
    var start, end := Position(range.startLine, range.startColumn), Position(range.endLine, range.endColumn);
    if 1 <= start.line <= Lines(document) && 1 <= start.column && 1 <= end.line <= Lines(document) && 1 <= end.column {
      InTextByLineEnd(document, start.line, start.column);
      InTextByLineEnd(document, end.line, end.column);
      if InText(document, start.line, start.column) && InText(document, end.line, end.column) {
        OffsetsKeepOrder(document, start, end);
      }
    }
  }

  /** The range the worker gives a span becomes the change of exactly that span. */
  lemma {:induction false} SpanIsChange(document: Text, start: nat, length: nat, insert: Text)
    requires start + length <= |document|
    ensures TextRangeToChange(document, SpanToRange(document, start, length), insert)
         == Some(Change(start, start + length, insert))
  {
    hide InText, OffsetOf, PositionOf, TextRangeToChange;
    var from, to := PositionOf(document, start), PositionOf(document, start + length);
    RangeIsChange(document, SpanToRange(document, start, length), insert);
    PositionsAreOrdered(document, start, start + length);
    PositionsAreOrdered(document, start + length, start + length);
    OffsetRoundTrip(document, start);
    OffsetRoundTrip(document, start + length);
  }

  // ----- Where the replaced text starts -----

  /** The range replaces text of the cursor's line up to the cursor. */
  predicate EndsAtCursor(range: TextRange, line: int, column: int) {
    range.startLine == line && range.endLine == line && range.startColumn >= 1 && range.endColumn == column
  }

  /** The ranges that count, of items of which some have none. */
  function Asked(line: int, column: int, ranges: seq<Option<TextRange>>): (asked: seq<TextRange>)
    ensures forall range :: range in asked <==> Some(range) in ranges && EndsAtCursor(range, line, column)
  {
    if ranges == [] then []
    else
      var rest := Asked(line, column, ranges[1..]);
      assert ranges == [ranges[0]] + ranges[1..];
      if ranges[0].Some? && EndsAtCursor(ranges[0].value, line, column) then [ranges[0].value] + rest else rest
  }

  function LeastColumn(asked: seq<TextRange>): (least: int)
    requires asked != []
    ensures forall range <- asked :: least <= range.startColumn
    ensures exists range <- asked :: least == range.startColumn
  {
    if |asked| == 1 then asked[0].startColumn
    else
      var rest := LeastColumn(asked[1..]);
      assert asked == [asked[0]] + asked[1..];
      if asked[0].startColumn < rest then asked[0].startColumn else rest
  }

  function ResolveReplacementFrom(
      document: Text, line: int, column: int, wordFrom: int, ranges: seq<Option<TextRange>>): int
  {
    var asked := Asked(line, column, ranges);
    if asked == [] then wordFrom else LineFrom(document, line) + LeastColumn(asked) - 1
  }

  /**
    The replaced text starts no later than any item asks for, and at or before the cursor exactly if
    no item asks for anything or some item's range is not reversed.
    */
  lemma {:induction false} ReplacementStartsBeforeCursor(
      document: Text, line: int, column: int, wordFrom: int, ranges: seq<Option<TextRange>>)
    requires wordFrom <= LineFrom(document, line) + column - 1
    ensures var from, asked := ResolveReplacementFrom(document, line, column, wordFrom, ranges), Asked(line, column, ranges);
      && (if asked == [] then from == wordFrom
          else exists range <- asked :: from == LineFrom(document, line) + range.startColumn - 1)
      && (forall range <- asked :: from <= LineFrom(document, line) + range.startColumn - 1)
      && (from <= LineFrom(document, line) + column - 1
          <==> asked == [] || exists range <- asked :: range.startColumn <= column)
  {
    hide LineFrom, Asked, EndsAtCursor;
  }

  /** An item asks for a start exactly with a range on the cursor's line, from some column of it to the cursor. */
  lemma {:induction false} AsksExactly(line: int, column: int, ranges: seq<Option<TextRange>>)
    ensures forall range :: range in Asked(line, column, ranges) <==>
      (Some(range) in ranges && range.startLine == range.endLine == line && 1 <= range.startColumn
       && range.endColumn == column)
  {
    hide Asked;
    assert forall range :: range in Asked(line, column, ranges) <==>
      (Some(range) in ranges && EndsAtCursor(range, line, column));
  }
}
