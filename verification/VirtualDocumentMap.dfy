/** The two offset maps of a virtual document form a Galois insertion, and agree with its texts. */
module VirtualDocumentMap {
  import opened TextPosition
  import opened VirtualDocument

  // ----- The maps as arithmetic on segments -----

  /** Up to the token both sides advance alike from the end of the token before. */
  predicate Linked(segments: seq<RewriteSegment>, i: nat)
    requires i < |segments|
  {
    var s := segments[i];
    && SourceEndBefore(segments, i) <= s.sourceStart <= s.sourceEnd
    && GeneratedEndBefore(segments, i) <= s.generatedStart <= s.generatedEnd
    && s.sourceStart - SourceEndBefore(segments, i) == s.generatedStart - GeneratedEndBefore(segments, i)
  }

  /** Between tokens both sides advance alike, and so do the tails. */
  ghost predicate Chain(segments: seq<RewriteSegment>, sourceLength: nat, generatedLength: nat) {
    && (forall i | 0 <= i < |segments| :: Linked(segments, i))
    && SourceEndBefore(segments, |segments|) <= sourceLength
    && sourceLength - SourceEndBefore(segments, |segments|) == generatedLength - GeneratedEndBefore(segments, |segments|)
  }

  ghost predicate NoLonger(segments: seq<RewriteSegment>) {
    forall i | 0 <= i < |segments| ::
      segments[i].generatedEnd - segments[i].generatedStart <= segments[i].sourceEnd - segments[i].sourceStart
  }

  lemma {:induction false} SegmentsAscend(segments: seq<RewriteSegment>, sourceLength: nat, generatedLength: nat, i: nat, j: nat)
    requires Chain(segments, sourceLength, generatedLength) && i < j <= |segments|
    ensures segments[i].sourceEnd <= SourceEndBefore(segments, j)
    ensures segments[i].generatedEnd <= GeneratedEndBefore(segments, j)
    decreases j
  {
    assert Linked(segments, j - 1);
    if i + 1 < j {
      SegmentsAscend(segments, sourceLength, generatedLength, i, j - 1);
    }
  }

  lemma {:induction false} ChainStartsSorted(segments: seq<RewriteSegment>, sourceLength: nat, generatedLength: nat)
    requires Chain(segments, sourceLength, generatedLength)
    ensures StartsSorted(segments, FromSource) && StartsSorted(segments, FromGenerated)
  {
    forall i, j | 0 <= i < j < |segments|
      ensures segments[i].sourceStart <= segments[j].sourceStart
      ensures segments[i].generatedStart <= segments[j].generatedStart
    {
      assert Linked(segments, i) && Linked(segments, j);
      SegmentsAscend(segments, sourceLength, generatedLength, i, j);
    }
  }

  /** The segment count is pinned down by its two neighbours. */
  lemma {:induction false} StartedExactly(segments: seq<RewriteSegment>, offset: nat, direction: Direction, n: nat)
    requires StartsSorted(segments, direction) && n <= |segments|
    requires n > 0 ==> StartOf(segments[n - 1], direction) <= offset
    requires n < |segments| ==> offset < StartOf(segments[n], direction)
    ensures StartedBefore(segments, offset, direction) == n
  {
  }

  /** An offset that a segment starts at or before maps to where the segment starts, or after. */
  lemma {:induction false} MapsAbove(
      segments: seq<RewriteSegment>, sourceLength: nat, generatedLength: nat, offset: nat, direction: Direction, k: nat)
    requires Chain(segments, sourceLength, generatedLength)
    requires k < StartedBefore(segments, offset, direction)
    ensures StartOf(segments[k], Opposite(direction)) <= MappedOffset(segments, offset, direction)
  {
    var n := StartedBefore(segments, offset, direction);
    assert Linked(segments, k) && Linked(segments, n - 1);
    if k < n - 1 {
      SegmentsAscend(segments, sourceLength, generatedLength, k, n - 1);
    }
  }

  /** A source offset before a token maps to the token's start at the latest. */
  lemma {:induction false} SourceMapsBelow(
      segments: seq<RewriteSegment>, sourceLength: nat, generatedLength: nat, x: nat, k: nat)
    requires Chain(segments, sourceLength, generatedLength)
    requires StartedBefore(segments, x, FromSource) <= k < |segments|
    ensures MappedOffset(segments, x, FromSource) <= segments[k].generatedStart
  {
    var n := StartedBefore(segments, x, FromSource);
    assert Linked(segments, n) && Linked(segments, k);
    assert x < segments[n].sourceStart;
    if n > 0 {
      assert Linked(segments, n - 1);
    }
    if n < k {
      SegmentsAscend(segments, sourceLength, generatedLength, n, k);
    }
  }

  /** A generated offset before a token maps strictly before the token in the source. */
  lemma {:induction false} GeneratedMapsBelow(
      segments: seq<RewriteSegment>, sourceLength: nat, generatedLength: nat, g: nat, k: nat)
    requires Chain(segments, sourceLength, generatedLength) && NoLonger(segments)
    requires StartedBefore(segments, g, FromGenerated) <= k < |segments|
    ensures MappedOffset(segments, g, FromGenerated) < segments[k].sourceStart
  {
    var n := StartedBefore(segments, g, FromGenerated);
    assert Linked(segments, n) && Linked(segments, k);
    assert g < segments[n].generatedStart;
    if n > 0 {
      assert Linked(segments, n - 1);
    }
    if n < k {
      SegmentsAscend(segments, sourceLength, generatedLength, n, k);
    }
  }

  lemma {:induction false} GaloisWithin(s: RewriteSegment, x: nat, g: nat)
    requires s.sourceStart <= s.sourceEnd && s.generatedStart <= s.generatedEnd
    requires s.generatedEnd - s.generatedStart <= s.sourceEnd - s.sourceStart
    requires s.sourceStart <= x && s.generatedStart <= g
    ensures MapThrough(s, x, FromSource) <= g <==> x <= MapThrough(s, g, FromGenerated)
  {
  }

  /** The adjunction, for all offsets. */
  lemma {:induction false} Galois(
      segments: seq<RewriteSegment>, sourceLength: nat, generatedLength: nat, x: nat, g: nat)
    requires Chain(segments, sourceLength, generatedLength) && NoLonger(segments)
    ensures MappedOffset(segments, x, FromSource) <= g <==> x <= MappedOffset(segments, g, FromGenerated)
  {
    hide MapThrough;
    var i, j := StartedBefore(segments, x, FromSource), StartedBefore(segments, g, FromGenerated);
    if i < j {
      SourceMapsBelow(segments, sourceLength, generatedLength, x, j - 1);
      MapsAbove(segments, sourceLength, generatedLength, g, FromGenerated, j - 1);
    } else if j < i {
      MapsAbove(segments, sourceLength, generatedLength, x, FromSource, i - 1);
      GeneratedMapsBelow(segments, sourceLength, generatedLength, g, i - 1);
    } else if i > 0 {
      assert Linked(segments, i - 1);
      GaloisWithin(segments[i - 1], x, g);
    }
  }

  /** Within one token and the text after it, the generated side determines the source side. */
  lemma {:induction false} ThroughAndBack(s: RewriteSegment, g: nat)
    requires s.sourceStart <= s.sourceEnd && s.generatedStart <= s.generatedEnd
    requires s.generatedEnd - s.generatedStart <= s.sourceEnd - s.sourceStart && s.generatedStart <= g
    ensures MapThrough(s, g, FromGenerated) >= s.sourceStart
    ensures MapThrough(s, MapThrough(s, g, FromGenerated), FromSource) == g
  {
  }

  /** A generated offset survives the trip through the source. */
  lemma {:induction false} GeneratedRoundTrip(
      segments: seq<RewriteSegment>, sourceLength: nat, generatedLength: nat, g: nat)
    requires Chain(segments, sourceLength, generatedLength) && NoLonger(segments)
    ensures MappedOffset(segments, g, FromGenerated) >= 0
    ensures MappedOffset(segments, MappedOffset(segments, g, FromGenerated), FromSource) == g
  {
    var n := StartedBefore(segments, g, FromGenerated);
    var x := MappedOffset(segments, g, FromGenerated);
    ChainStartsSorted(segments, sourceLength, generatedLength);
    if n < |segments| {
      GeneratedMapsBelow(segments, sourceLength, generatedLength, g, n);
    }
    if n > 0 {
      assert Linked(segments, n - 1);
      ThroughAndBack(segments[n - 1], g);
    }
    hide MapThrough;
    StartedExactly(segments, x, FromSource, n);
  }

  /** The part of a token beyond the length of its replacement. */
  predicate InShrunkenTail(segment: RewriteSegment, x: nat) {
    segment.sourceStart + (segment.generatedEnd - segment.generatedStart) <= x < segment.sourceEnd
  }

  lemma {:induction false} BackAndThrough(s: RewriteSegment, x: nat)
    requires s.sourceStart <= s.sourceEnd && s.generatedStart <= s.generatedEnd
    requires s.generatedEnd - s.generatedStart <= s.sourceEnd - s.sourceStart && s.sourceStart <= x
    requires !InShrunkenTail(s, x)
    ensures MapThrough(s, x, FromSource) >= s.generatedStart
    ensures MapThrough(s, MapThrough(s, x, FromSource), FromGenerated) == x
    ensures MapThrough(s, x, FromSource) < s.generatedEnd || MapThrough(s, x, FromSource) == x + s.generatedEnd - s.sourceEnd
  {
  }

  /** Only the last segment to start before an offset can hold it in its tail. */
  lemma {:induction false} OnlyLastTail(
      segments: seq<RewriteSegment>, sourceLength: nat, generatedLength: nat, x: nat, i: nat)
    requires Chain(segments, sourceLength, generatedLength)
    requires i < |segments| && i + 1 != StartedBefore(segments, x, FromSource)
    ensures !InShrunkenTail(segments[i], x)
  {
    var n := StartedBefore(segments, x, FromSource);
    assert Linked(segments, i);
    if i + 1 < n {
      assert Linked(segments, n - 1);
      SegmentsAscend(segments, sourceLength, generatedLength, i, n - 1);
    }
  }

  lemma {:induction false} TailDoesNotReturn(
      segments: seq<RewriteSegment>, sourceLength: nat, generatedLength: nat, x: nat)
    requires Chain(segments, sourceLength, generatedLength) && NoLonger(segments)
    requires var n := StartedBefore(segments, x, FromSource); n > 0 && InShrunkenTail(segments[n - 1], x)
    ensures MappedOffset(segments, x, FromSource) >= 0
    ensures MappedOffset(segments, MappedOffset(segments, x, FromSource), FromGenerated) > x
  {
    var n := StartedBefore(segments, x, FromSource);
    assert Linked(segments, n - 1);
    assert MappedOffset(segments, x, FromSource) == segments[n - 1].generatedEnd;
    hide MappedOffset;
    TokenEnd(segments, sourceLength, generatedLength, n - 1);
    Galois(segments, sourceLength, generatedLength, segments[n - 1].sourceEnd, segments[n - 1].generatedEnd);
  }

  lemma {:induction false} OutsideTailReturns(
      segments: seq<RewriteSegment>, sourceLength: nat, generatedLength: nat, x: nat)
    requires Chain(segments, sourceLength, generatedLength) && NoLonger(segments)
    requires var n := StartedBefore(segments, x, FromSource); n > 0 ==> !InShrunkenTail(segments[n - 1], x)
    ensures MappedOffset(segments, x, FromSource) >= 0
    ensures MappedOffset(segments, MappedOffset(segments, x, FromSource), FromGenerated) == x
  {
    var n := StartedBefore(segments, x, FromSource);
    var g := MappedOffset(segments, x, FromSource);
    ChainStartsSorted(segments, sourceLength, generatedLength);
    if n > 0 {
      assert Linked(segments, n - 1);
      BackAndThrough(segments[n - 1], x);
    }
    if n < |segments| {
      assert Linked(segments, n);
    }
    hide MapThrough;
    StartedExactly(segments, g, FromGenerated, n);
  }

  /** A source offset fails the round trip exactly inside the shrunken tail of a token. */
  lemma {:induction false} SourceRoundTrip(
      segments: seq<RewriteSegment>, sourceLength: nat, generatedLength: nat, x: nat)
    requires Chain(segments, sourceLength, generatedLength) && NoLonger(segments)
    ensures MappedOffset(segments, x, FromSource) >= 0
    ensures MappedOffset(segments, MappedOffset(segments, x, FromSource), FromGenerated) == x
       <==> forall i | 0 <= i < |segments| :: !InShrunkenTail(segments[i], x)
  {
    hide MappedOffset, Chain, InShrunkenTail;
    var n := StartedBefore(segments, x, FromSource);
    forall i: nat | i < |segments| && i + 1 != n ensures !InShrunkenTail(segments[i], x) {
      OnlyLastTail(segments, sourceLength, generatedLength, x, i);
    }
    if n > 0 && InShrunkenTail(segments[n - 1], x) {
      TailDoesNotReturn(segments, sourceLength, generatedLength, x);
    } else {
      OutsideTailReturns(segments, sourceLength, generatedLength, x);
    }
  }

  /** The end of a token maps to the end of its replacement. */
  lemma {:induction false} TokenEnd(segments: seq<RewriteSegment>, sourceLength: nat, generatedLength: nat, k: nat)
    requires Chain(segments, sourceLength, generatedLength) && NoLonger(segments) && k < |segments|
    ensures MappedOffset(segments, segments[k].sourceEnd, FromSource) == segments[k].generatedEnd
  {
    var x := segments[k].sourceEnd;
    var n := StartedBefore(segments, x, FromSource);
    assert Linked(segments, k) && k < n && Linked(segments, n - 1);
    if k + 1 < n {
      EmptyBetween(segments, sourceLength, generatedLength, k, n - 1);
    }
  }

  /** Tokens that start where an earlier one ends follow it without a gap, each of them empty. */
  lemma {:induction false} EmptyBetween(
      segments: seq<RewriteSegment>, sourceLength: nat, generatedLength: nat, k: nat, j: nat)
    requires Chain(segments, sourceLength, generatedLength) && NoLonger(segments)
    requires k < j < |segments| && segments[j].sourceStart <= segments[k].sourceEnd
    ensures segments[j].sourceStart == segments[k].sourceEnd && segments[j].generatedStart == segments[k].generatedEnd
    decreases j
  {
    assert Linked(segments, j) && Linked(segments, j - 1);
    SegmentsAscend(segments, sourceLength, generatedLength, k, j);
    if k + 1 < j {
      SegmentsAscend(segments, sourceLength, generatedLength, k, j - 1);
      EmptyBetween(segments, sourceLength, generatedLength, k, j - 1);
    }
  }

  lemma {:induction false} EndsMeet(segments: seq<RewriteSegment>, sourceLength: nat, generatedLength: nat)
    requires Chain(segments, sourceLength, generatedLength)
    ensures MappedOffset(segments, generatedLength, FromGenerated) == sourceLength
  {
    var n := |segments|;
    if n > 0 {
      assert Linked(segments, n - 1);
    }
    ChainStartsSorted(segments, sourceLength, generatedLength);
    StartedExactly(segments, generatedLength, FromGenerated, n);
  }

  // ----- The document -----

  datatype ArktsVirtualDocument =
    ArktsVirtualDocument(sourceContent: Text, generatedContent: Text, segments: seq<RewriteSegment>)

  function ToGeneratedOffset(doc: ArktsVirtualDocument, sourceOffset: int): int {
    MappedOffset(doc.segments, Bounded(sourceOffset, |doc.sourceContent|), FromSource)
  }

  function ToSourceOffset(doc: ArktsVirtualDocument, generatedOffset: int): int {
    MappedOffset(doc.segments, Bounded(generatedOffset, |doc.generatedContent|), FromGenerated)
  }

  function GeneratedSpanToSourceRange(doc: ArktsVirtualDocument, start: int, length: int): TextRange {
    var from := PositionOf(doc.sourceContent, ToSourceOffset(doc, start));
    var to := PositionOf(doc.sourceContent, ToSourceOffset(doc, start + length));
    TextRange(from.line, from.column, to.line, to.column)
  }

  /** The document carries out the rewrites, whatever they are, as long as they do not lengthen the text. */
  ghost predicate Rewritten(doc: ArktsVirtualDocument, rewrites: seq<TextRewrite>) {
    && InOrder(doc.sourceContent, rewrites) && Shrinking(rewrites)
    && Mapped(doc.sourceContent, rewrites, doc.generatedContent, doc.segments)
    && SameTail(doc.sourceContent, doc.generatedContent, doc.segments)
  }

  method CreateArktsVirtualDocument(filePath: Text, sourceContent: Text) returns (doc: ArktsVirtualDocument)
    ensures doc.sourceContent == sourceContent
    ensures var rewrites := if IsEtsPath(filePath) then CollectFrom(sourceContent, 0) else [];
      Rewritten(doc, rewrites) && WithinLines(sourceContent, rewrites)
  {
    CollectedRewrites(sourceContent);
    var rewrites := if IsEtsPath(filePath) then CollectFrom(sourceContent, 0) else [];
    var generatedContent, segments := ApplyRewrites(sourceContent, rewrites);
    doc := ArktsVirtualDocument(sourceContent, generatedContent, segments);
  }

  lemma {:induction false} TokenFits(doc: ArktsVirtualDocument, rewrites: seq<TextRewrite>, i: nat)
    requires Rewritten(doc, rewrites) && i < |rewrites|
    ensures |doc.segments| == |rewrites|
    ensures Fits(
      doc.sourceContent, rewrites[i], doc.generatedContent, SourceEndBefore(doc.segments, i),
      GeneratedEndBefore(doc.segments, i), doc.segments[i])
    ensures Linked(doc.segments, i)
    ensures |rewrites[i].generatedText| == doc.segments[i].generatedEnd - doc.segments[i].generatedStart
  {
    var s := doc.segments[i];
    assert FitsAt(doc.sourceContent, rewrites, doc.generatedContent, doc.segments, i);
    assert |doc.sourceContent[SourceEndBefore(doc.segments, i)..s.sourceStart]|
        == |doc.generatedContent[GeneratedEndBefore(doc.segments, i)..s.generatedStart]|;
    assert |doc.generatedContent[s.generatedStart..s.generatedEnd]| == |rewrites[i].generatedText|;
  }

  lemma {:induction false} RewrittenChain(doc: ArktsVirtualDocument, rewrites: seq<TextRewrite>)
    requires Rewritten(doc, rewrites)
    ensures Chain(doc.segments, |doc.sourceContent|, |doc.generatedContent|) && NoLonger(doc.segments)
  {
    var n := |doc.segments|;
    forall i | 0 <= i < n
      ensures Linked(doc.segments, i)
      ensures doc.segments[i].generatedEnd - doc.segments[i].generatedStart
           <= doc.segments[i].sourceEnd - doc.segments[i].sourceStart
    {
      TokenFits(doc, rewrites, i);
    }
    assert |doc.sourceContent[SourceEndBefore(doc.segments, n)..]|
        == |doc.generatedContent[GeneratedEndBefore(doc.segments, n)..]|;
  }

  /**
    For every document and all offsets in range: the maps are adjoint, every generated offset
    survives the round trip, a source offset fails it exactly in a shrunken tail, and both stay in
    range.
    */
  lemma {:induction false} OffsetsFormAGaloisInsertion(
      doc: ArktsVirtualDocument, rewrites: seq<TextRewrite>, x: nat, g: nat)
    requires Rewritten(doc, rewrites) && x <= |doc.sourceContent| && g <= |doc.generatedContent|
    ensures 0 <= ToGeneratedOffset(doc, x) <= |doc.generatedContent|
    ensures 0 <= ToSourceOffset(doc, g) <= |doc.sourceContent|
    ensures ToGeneratedOffset(doc, x) <= g <==> x <= ToSourceOffset(doc, g)
    ensures ToGeneratedOffset(doc, ToSourceOffset(doc, g)) == g
    ensures ToSourceOffset(doc, ToGeneratedOffset(doc, x)) == x
       <==> forall i | 0 <= i < |doc.segments| :: !InShrunkenTail(doc.segments[i], x)
  {
    hide MappedOffset, Chain, NoLonger, InShrunkenTail;
    var segments, m, n := doc.segments, |doc.sourceContent|, |doc.generatedContent|;
    RewrittenChain(doc, rewrites);
    EndsMeet(segments, m, n);
    Galois(segments, m, n, x, n);
    Galois(segments, m, n, x, g);
    GeneratedRoundTrip(segments, m, n, g);
    SourceRoundTrip(segments, m, n, x);
    GeneratedRoundTrip(segments, m, n, n);
    Galois(segments, m, n, MappedOffset(segments, g, FromGenerated), n);
  }

  lemma {:induction false} SourceOffsetsAscend(
      doc: ArktsVirtualDocument, rewrites: seq<TextRewrite>, g: nat, g': nat)
    requires Rewritten(doc, rewrites) && g <= g' <= |doc.generatedContent|
    ensures ToSourceOffset(doc, g) <= ToSourceOffset(doc, g')
  {
    hide Rewritten, ToSourceOffset, ToGeneratedOffset, InShrunkenTail;
    OffsetsFormAGaloisInsertion(doc, rewrites, 0, g);
    OffsetsFormAGaloisInsertion(doc, rewrites, ToSourceOffset(doc, g), g');
  }

  /** A mapped span is an ordered pair of positions that exist in the source. */
  lemma {:induction false} SpansAreOrderedAndInRange(
      doc: ArktsVirtualDocument, rewrites: seq<TextRewrite>, start: int, length: nat)
    requires Rewritten(doc, rewrites)
    ensures var r := GeneratedSpanToSourceRange(doc, start, length);
      && NotAfter(Position(r.startLine, r.startColumn), Position(r.endLine, r.endColumn))
      && InText(doc.sourceContent, r.startLine, r.startColumn)
      && InText(doc.sourceContent, r.endLine, r.endColumn)
  {
    hide Rewritten, MappedOffset, PositionOf, InText, NotAfter, InShrunkenTail;
    var n := |doc.generatedContent|;
    var g, g' := Bounded(start, n), Bounded(start + length, n);
    assert ToSourceOffset(doc, start) == ToSourceOffset(doc, g);
    assert ToSourceOffset(doc, start + length) == ToSourceOffset(doc, g');
    OffsetsFormAGaloisInsertion(doc, rewrites, 0, g);
    OffsetsFormAGaloisInsertion(doc, rewrites, 0, g');
    SourceOffsetsAscend(doc, rewrites, g, g');
    PositionsAreOrdered(doc.sourceContent, ToSourceOffset(doc, g), ToSourceOffset(doc, g'));
    PositionsAreOrdered(doc.sourceContent, ToSourceOffset(doc, g'), ToSourceOffset(doc, g'));
  }

  // ----- The texts agree under the maps -----

  function SourceGapEnd(doc: ArktsVirtualDocument, i: nat): nat {
    if i < |doc.segments| then doc.segments[i].sourceStart else |doc.sourceContent|
  }

  function GeneratedGapEnd(doc: ArktsVirtualDocument, i: nat): nat {
    if i < |doc.segments| then doc.segments[i].generatedStart else |doc.generatedContent|
  }

  /** The text after the i-th token and before the next one is the same in both texts. */
  lemma {:induction false} WholeGap(doc: ArktsVirtualDocument, rewrites: seq<TextRewrite>, i: nat)
    requires Rewritten(doc, rewrites) && i <= |doc.segments|
    ensures SourceEndBefore(doc.segments, i) <= SourceGapEnd(doc, i) <= |doc.sourceContent|
    ensures GeneratedEndBefore(doc.segments, i) <= GeneratedGapEnd(doc, i) <= |doc.generatedContent|
    ensures doc.sourceContent[SourceEndBefore(doc.segments, i)..SourceGapEnd(doc, i)]
         == doc.generatedContent[GeneratedEndBefore(doc.segments, i)..GeneratedGapEnd(doc, i)]
  {
    if i < |doc.segments| {
      TokenFits(doc, rewrites, i);
    } else {
      var from, to := SourceEndBefore(doc.segments, i), GeneratedEndBefore(doc.segments, i);
      assert doc.sourceContent[from..] == doc.sourceContent[from..|doc.sourceContent|];
      assert doc.generatedContent[to..] == doc.generatedContent[to..|doc.generatedContent|];
    }
  }

  lemma {:induction false} PrefixesAgree(a: Text, i: nat, j: nat, b: Text, k: nat, l: nat, length: nat)
    requires i <= j <= |a| && k <= l <= |b| && a[i..j] == b[k..l] && i + length <= j
    ensures k + length <= l && a[i..i + length] == b[k..k + length]
  {
    assert |a[i..j]| == |b[k..l]|;
    assert a[i..i + length] == a[i..j][..length];
    assert b[k..k + length] == b[k..l][..length];
  }

  /** Any number of characters into the gap, both texts still agree. */
  lemma {:induction false} GapsAgree(doc: ArktsVirtualDocument, rewrites: seq<TextRewrite>, i: nat, length: nat)
    requires Rewritten(doc, rewrites) && i <= |doc.segments|
    requires SourceEndBefore(doc.segments, i) + length <= SourceGapEnd(doc, i)
    ensures var from, to := SourceEndBefore(doc.segments, i), GeneratedEndBefore(doc.segments, i);
      && from + length <= |doc.sourceContent| && to + length <= |doc.generatedContent|
      && doc.sourceContent[from..from + length] == doc.generatedContent[to..to + length]
  {
    hide Rewritten;
    WholeGap(doc, rewrites, i);
    PrefixesAgree(
      doc.sourceContent, SourceEndBefore(doc.segments, i), SourceGapEnd(doc, i),
      doc.generatedContent, GeneratedEndBefore(doc.segments, i), GeneratedGapEnd(doc, i), length);
  }

  predicate InToken(segment: RewriteSegment, x: nat) {
    segment.sourceStart <= x < segment.sourceEnd
  }

  /** Outside rewritten tokens the generated text shows the source text, character by character. */
  lemma {:induction false} TextsAgreeOutsideTokens(
      doc: ArktsVirtualDocument, rewrites: seq<TextRewrite>, x: nat)
    requires Rewritten(doc, rewrites) && x < |doc.sourceContent|
    requires forall i | 0 <= i < |doc.segments| :: !InToken(doc.segments[i], x)
    ensures 0 <= ToGeneratedOffset(doc, x) < |doc.generatedContent|
    ensures doc.generatedContent[ToGeneratedOffset(doc, x)] == doc.sourceContent[x]
  {
    hide Rewritten;
    RewrittenChain(doc, rewrites);
    var n := StartedBefore(doc.segments, x, FromSource);
    if n > 0 {
      assert Linked(doc.segments, n - 1);
      assert !InToken(doc.segments[n - 1], x);
    }
    hide Chain, NoLonger;
    var from, to := SourceEndBefore(doc.segments, n), GeneratedEndBefore(doc.segments, n);
    GapsAgree(doc, rewrites, n, x - from + 1);
    var d := x - from;
    assert doc.sourceContent[from..from + d + 1][d] == doc.generatedContent[to..to + d + 1][d];
  }

  lemma {:induction false} RewrittenLength(doc: ArktsVirtualDocument, rewrites: seq<TextRewrite>)
    requires Rewritten(doc, rewrites)
    ensures |doc.segments| == |rewrites|
  {
  }

  // ----- Offsets and their images lie on the same line -----

  /** The same number of line breaks stands before a gap in both texts, and before each point of it. */
  lemma {:induction false} LinesBeforeGap(doc: ArktsVirtualDocument, rewrites: seq<TextRewrite>, i: nat, length: nat)
    requires Rewritten(doc, rewrites) && WithinLines(doc.sourceContent, rewrites) && i <= |rewrites|
    requires |doc.segments| == |rewrites|
    requires SourceEndBefore(doc.segments, i) + length <= SourceGapEnd(doc, i)
    ensures var from, to := SourceEndBefore(doc.segments, i), GeneratedEndBefore(doc.segments, i);
      && from + length <= |doc.sourceContent| && to + length <= |doc.generatedContent|
      && Newlines(doc.sourceContent[..from + length]) == Newlines(doc.generatedContent[..to + length])
    decreases i, 0
  {
    hide Newlines, Mapped, SameTail;
    var from, to := SourceEndBefore(doc.segments, i), GeneratedEndBefore(doc.segments, i);
    GapsAgree(doc, rewrites, i, length);
    NewlinesSplit(doc.sourceContent, from, from + length);
    NewlinesSplit(doc.generatedContent, to, to + length);
    if i == 0 {
      assert doc.sourceContent[..0] == doc.generatedContent[..0];
    } else {
      TokenFits(doc, rewrites, i - 1);
      LinesInToken(doc, rewrites, i - 1, from, to);
    }
  }

  /** No line break separates the points of a token and of its replacement. */
  lemma {:induction false} LinesInToken(
      doc: ArktsVirtualDocument, rewrites: seq<TextRewrite>, i: nat, x: nat, g: nat)
    requires Rewritten(doc, rewrites) && WithinLines(doc.sourceContent, rewrites) && i < |rewrites|
    requires |doc.segments| == |rewrites|
    requires doc.segments[i].sourceStart <= x <= doc.segments[i].sourceEnd
    requires doc.segments[i].generatedStart <= g <= doc.segments[i].generatedEnd
    ensures x <= |doc.sourceContent| && g <= |doc.generatedContent|
    ensures Newlines(doc.sourceContent[..x]) == Newlines(doc.generatedContent[..g])
    decreases i, 1
  {
    hide Newlines, Mapped, SameTail;
    var s := doc.segments[i];
    TokenFits(doc, rewrites, i);
    LinesBeforeGap(doc, rewrites, i, s.sourceStart - SourceEndBefore(doc.segments, i));
    NewlinesSplit(doc.sourceContent, s.sourceStart, x);
    NewlinesSplit(doc.generatedContent, s.generatedStart, g);
    NoNewlines(doc.sourceContent[s.sourceStart..x]);
    NoNewlines(doc.generatedContent[s.generatedStart..g]);
    assert doc.sourceContent[s.sourceStart..x] == doc.sourceContent[s.sourceStart..s.sourceEnd][..x - s.sourceStart];
    assert doc.generatedContent[s.generatedStart..g] == rewrites[i].generatedText[..g - s.generatedStart];
  }

  /** A generated offset and its source offset lie on the same line. */
  lemma {:induction false} SameLine(doc: ArktsVirtualDocument, rewrites: seq<TextRewrite>, g: nat)
    requires Rewritten(doc, rewrites) && WithinLines(doc.sourceContent, rewrites) && g <= |doc.generatedContent|
    ensures PositionOf(doc.generatedContent, g).line == PositionOf(doc.sourceContent, ToSourceOffset(doc, g)).line
  {
    hide Rewritten, WithinLines, Newlines, LastLineStart, MappedOffset, Chain, InShrunkenTail;
    RewrittenLength(doc, rewrites);
    RewrittenChain(doc, rewrites);
    OffsetsFormAGaloisInsertion(doc, rewrites, 0, g);
    var x := ToSourceOffset(doc, g);
    var n := StartedBefore(doc.segments, g, FromGenerated);
    SourceSide(doc.segments, |doc.sourceContent|, |doc.generatedContent|, g);
    if n > 0 && g <= doc.segments[n - 1].generatedEnd {
      LinesInToken(doc, rewrites, n - 1, x, g);
    } else {
      LinesBeforeGap(doc, rewrites, n, x - SourceEndBefore(doc.segments, n));
    }
  }

  /** A generated offset maps into the token it lies in, or to the same point of the gap. */
  lemma {:induction false} SourceSide(segments: seq<RewriteSegment>, sourceLength: nat, generatedLength: nat, g: nat)
    requires Chain(segments, sourceLength, generatedLength) && g <= generatedLength
    ensures var n, x := StartedBefore(segments, g, FromGenerated), MappedOffset(segments, g, FromGenerated);
      if n > 0 && g <= segments[n - 1].generatedEnd then
        segments[n - 1].sourceStart <= x <= segments[n - 1].sourceEnd && segments[n - 1].generatedStart <= g
      else
        && x - SourceEndBefore(segments, n) == g - GeneratedEndBefore(segments, n) >= 0
        && x <= (if n < |segments| then segments[n].sourceStart else sourceLength)
  {
    var n := StartedBefore(segments, g, FromGenerated);
    if n > 0 {
      assert Linked(segments, n - 1);
    }
    if n < |segments| {
      assert Linked(segments, n);
    }
  }
}
