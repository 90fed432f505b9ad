/** The ArkTS virtual document: source text rewritten for TypeScript, with offsets mapped both ways. */
module VirtualDocument {
  import opened Sequences
  import opened TextPosition

  datatype TextRewrite = TextRewrite(sourceStart: nat, sourceEnd: nat, generatedText: Text)

  datatype RewriteSegment =
    RewriteSegment(sourceStart: nat, sourceEnd: nat, generatedStart: nat, generatedEnd: nat)

  datatype Direction = FromSource | FromGenerated

  // ----- Finding the rewrites -----

  const STRUCT: Text := [115, 116, 114, 117, 99, 116]
  const CLASS: Text := [99, 108, 97, 115, 115]

  predicate IsWord(c: CodeUnit) {
    48 <= c <= 57 || 65 <= c <= 90 || c == 95 || 97 <= c <= 122
  }

  predicate IsNameStart(c: CodeUnit) {
    65 <= c <= 90 || c == 95 || c == 36 || 97 <= c <= 122
  }

  /** `\s` of ECMAScript: white space and line terminators. */
  predicate IsSpace(c: CodeUnit) {
    || 9 <= c <= 13 || c == 32 || c == 0xA0 || c == 0x1680 || 0x2000 <= c <= 0x200A
    || c == 0x2028 || c == 0x2029 || c == 0x202F || c == 0x205F || c == 0x3000 || c == 0xFEFF
  }

  function SkipSpaces(text: Text): Text {
    if text != [] && IsSpace(text[0]) then SkipSpaces(text[1..]) else text
  }

  /** `\bstruct(?=\s+[A-Za-z_$])` matches here. */
  predicate StructAt(content: Text, i: nat) {
    && i + 6 < |content| && content[i..i + 6] == STRUCT
    && (i == 0 || !IsWord(content[i - 1]))
    && IsSpace(content[i + 6])
    && var rest := SkipSpaces(content[i + 6..]); rest != [] && IsNameStart(rest[0])
  }

  function CollectFrom(content: Text, i: nat): seq<TextRewrite>
    decreases |content| - i
  {
    if i >= |content| then []
    else if StructAt(content, i) then [TextRewrite(i, i + 6, CLASS)] + CollectFrom(content, i + 6)
    else CollectFrom(content, i + 1)
  }

  function AsciiLower(c: CodeUnit): CodeUnit {
    if 65 <= c <= 90 then c + 32 else c
  }

  /** `filePath.toLowerCase().endsWith(".ets")` */
  predicate IsEtsPath(path: Text) {
    |path| >= 4 && var n := |path| - 4;
    path[n] == 46 && AsciiLower(path[n + 1]) == 101 && AsciiLower(path[n + 2]) == 116 && AsciiLower(path[n + 3]) == 115
  }

  /** The rewrites lie in the source, in order, without overlap. */
  ghost predicate InOrder(source: Text, rewrites: seq<TextRewrite>) {
    && (forall i | 0 <= i < |rewrites| :: rewrites[i].sourceStart <= rewrites[i].sourceEnd <= |source|)
    && forall i, j | 0 <= i < j < |rewrites| :: rewrites[i].sourceEnd <= rewrites[j].sourceStart
  }

  /** No rewrite lengthens the text. */
  ghost predicate Shrinking(rewrites: seq<TextRewrite>) {
    forall i | 0 <= i < |rewrites| ::
      |rewrites[i].generatedText| + rewrites[i].sourceStart <= rewrites[i].sourceEnd
  }

  /** No rewrite touches a line break. */
  ghost predicate WithinLines(source: Text, rewrites: seq<TextRewrite>) {
    forall i | 0 <= i < |rewrites| ::
      && rewrites[i].sourceStart <= rewrites[i].sourceEnd <= |source|
      && NEWLINE !in rewrites[i].generatedText
      && NEWLINE !in source[rewrites[i].sourceStart..rewrites[i].sourceEnd]
  }

  /** One match after another, each a rewrite of `struct` into `class`. */
  ghost predicate MatchesFrom(content: Text, from: nat, rewrites: seq<TextRewrite>)
    decreases |rewrites|
  {
    rewrites == []
    || var at := rewrites[0].sourceStart;
       && from <= at && StructAt(content, at) && rewrites[0] == TextRewrite(at, at + 6, CLASS)
       && MatchesFrom(content, at + 6, rewrites[1..])
  }

  lemma {:induction false} CollectedMatches(content: Text, from: nat, floor: nat)
    requires floor <= from
    ensures MatchesFrom(content, floor, CollectFrom(content, from))
    decreases |content| - from
  {
    hide StructAt;
    if from < |content| {
      if StructAt(content, from) {
        CollectedMatches(content, from + 6, from + 6);
        assert CollectFrom(content, from)[1..] == CollectFrom(content, from + 6);
      } else {
        CollectedMatches(content, from + 1, floor);
      }
    }
  }

  lemma {:induction false} MatchAt(content: Text, from: nat, rewrites: seq<TextRewrite>, i: nat)
    requires MatchesFrom(content, from, rewrites) && i < |rewrites|
    ensures var at := rewrites[i].sourceStart;
      && from <= at && StructAt(content, at) && rewrites[i] == TextRewrite(at, at + 6, CLASS)
    decreases i
  {
    hide StructAt;
    if i > 0 {
      MatchAt(content, rewrites[0].sourceStart + 6, rewrites[1..], i - 1);
    }
  }

  lemma {:induction false} MatchesInOrder(content: Text, from: nat, rewrites: seq<TextRewrite>, i: nat, j: nat)
    requires MatchesFrom(content, from, rewrites) && i < j < |rewrites|
    ensures rewrites[i].sourceEnd <= rewrites[j].sourceStart
    decreases i
  {
    hide StructAt;
    if i > 0 {
      MatchesInOrder(content, rewrites[0].sourceStart + 6, rewrites[1..], i - 1, j - 1);
    } else {
      MatchAt(content, rewrites[0].sourceStart + 6, rewrites[1..], j - 1);
    }
  }

  /** The rewrites of a source are matches of the pattern, and meet every condition below. */
  lemma {:induction false} CollectedRewrites(content: Text)
    ensures var rewrites := CollectFrom(content, 0);
      InOrder(content, rewrites) && Shrinking(rewrites) && WithinLines(content, rewrites)
  {
    hide MatchesFrom, CollectFrom;
    var rewrites := CollectFrom(content, 0);
    CollectedMatches(content, 0, 0);
    forall i | 0 <= i < |rewrites|
      ensures rewrites[i].sourceStart + 6 == rewrites[i].sourceEnd < |content|
      ensures rewrites[i].generatedText == CLASS
      ensures content[rewrites[i].sourceStart..rewrites[i].sourceEnd] == STRUCT
    {
      MatchAt(content, 0, rewrites, i);
    }
    forall i, j | 0 <= i < j < |rewrites| ensures rewrites[i].sourceEnd <= rewrites[j].sourceStart {
      MatchesInOrder(content, 0, rewrites, i, j);
    }
  }

  lemma {:induction false} StructsApart(content: Text, a: nat, b: nat)
    requires StructAt(content, a) && StructAt(content, b) && a < b
    ensures a + 6 <= b
  {
    assert content[b..b + 6][0] == content[b] == STRUCT[0];
    assert forall k | 0 <= k < 6 :: content[a + k] == content[a..a + 6][k] == STRUCT[k];
    assert forall k | 0 < k < 6 :: STRUCT[k] != STRUCT[0];
  }

  /** No match is missed: matches cannot overlap, so skipping a matched token skips no other. */
  lemma {:induction false} EveryMatchIsCollected(content: Text, from: nat, at: nat)
    requires from <= at && StructAt(content, at)
    ensures TextRewrite(at, at + 6, CLASS) in CollectFrom(content, from)
    decreases |content| - from
  {
    if from < at {
      if StructAt(content, from) {
        StructsApart(content, from, at);
        EveryMatchIsCollected(content, from + 6, at);
      } else {
        EveryMatchIsCollected(content, from + 1, at);
      }
    }
  }

  // ----- What a match is -----

  /** White space and line terminators of ECMAScript. */
  const SPACES: seq<int> := [
    0x09, 0x0A, 0x0B, 0x0C, 0x0D, 0x20, 0xA0, 0x1680, 0x2000, 0x2001, 0x2002, 0x2003, 0x2004, 0x2005, 0x2006,
    0x2007, 0x2008, 0x2009, 0x200A, 0x2028, 0x2029, 0x202F, 0x205F, 0x3000, 0xFEFF]

  lemma {:induction false} SpacesAreListed(c: CodeUnit)
    ensures IsSpace(c) <==> c in SPACES
  {
    if 0x09 <= c <= 0x0D { assert SPACES[c - 0x09] == c; }
    if 0x2000 <= c <= 0x200A { assert SPACES[c - 0x2000 + 8] == c; }
    assert SPACES[5] == 0x20 && SPACES[6] == 0xA0 && SPACES[7] == 0x1680 && SPACES[19] == 0x2028;
    assert SPACES[20] == 0x2029 && SPACES[21] == 0x202F && SPACES[22] == 0x205F && SPACES[23] == 0x3000;
    assert SPACES[24] == 0xFEFF;
  }

  predicate IsLetter(c: CodeUnit) {
    'a' as int <= c <= 'z' as int || 'A' as int <= c <= 'Z' as int
  }

  predicate IsDigit(c: CodeUnit) {
    '0' as int <= c <= '9' as int
  }

  /** The code units of plain text. */
  predicate Spells(units: Text, word: string) {
    |units| == |word| && forall k | 0 <= k < |word| :: units[k] == word[k] as int
  }

  predicate OnlySpaces(text: Text) {
    forall c <- text :: c in SPACES
  }

  predicate StartsName(c: CodeUnit) {
    IsLetter(c) || c == '_' as int || c == '$' as int
  }

  /** The word `struct`, not the end of a longer one, then white space, then the start of a name. */
  ghost predicate IsKeyword(content: Text, i: nat) {
    && i + 6 <= |content| && Spells(content[i..i + 6], "struct")
    && (i > 0 ==> !IsLetter(content[i - 1]) && !IsDigit(content[i - 1]) && content[i - 1] != '_' as int)
    && SpacesThenName(content[i + 6..])
  }

  ghost predicate SpacesThenName(text: Text) {
    exists n | 0 < n < |text| :: OnlySpaces(text[..n]) && StartsName(text[n])
  }

  lemma {:induction false} NamesAreNotSpaces(c: CodeUnit)
    ensures !(c in SPACES && StartsName(c))
    ensures IsNameStart(c) <==> StartsName(c)
  {
    SpacesAreListed(c);
  }

  lemma {:induction false} SkipsToName(text: Text)
    ensures SpacesThenName(text)
       <==> && text != [] && text[0] in SPACES
            && SkipSpaces(text) != [] && StartsName(SkipSpaces(text)[0])
    ensures text != [] && text[0] !in SPACES ==> SkipSpaces(text) == text
  {
    hide SPACES, IsSpace, StartsName;
    if text != [] {
      var rest := text[1..];
      SpacesAreListed(text[0]);
      NamesAreNotSpaces(text[0]);
      SkipsToName(rest);
      if text[0] in SPACES {
        SpaceBefore(text);
        if rest != [] {
          NamesAreNotSpaces(rest[0]);
        }
      }
    }
  }

  lemma {:induction false} SpaceBefore(text: Text)
    requires text != [] && text[0] in SPACES
    ensures SpacesThenName(text) <==> |text| > 1 && (StartsName(text[1]) || SpacesThenName(text[1..]))
  {
    hide SPACES, StartsName, OnlySpaces;
    var rest := text[1..];
    if SpacesThenName(text) {
      var n :| 0 < n < |text| && OnlySpaces(text[..n]) && StartsName(text[n]);
      if n > 1 {
        SpacesAfter(text, n - 1);
        assert rest[n - 1] == text[n];
      }
    }
    if |text| > 1 && StartsName(text[1]) {
      SpacesAfter(text, 0);
      assert OnlySpaces(text[..1]);
    }
    if SpacesThenName(rest) {
      var n :| 0 < n < |rest| && OnlySpaces(rest[..n]) && StartsName(rest[n]);
      SpacesAfter(text, n);
      assert OnlySpaces(text[..n + 1]) && StartsName(text[n + 1]);
    }
  }

  lemma {:induction false} SpacesAfter(text: Text, n: nat)
    requires n < |text| && text[0] in SPACES
    ensures OnlySpaces(text[..n + 1]) <==> n == 0 || OnlySpaces(text[1..][..n])
  {
    hide SPACES;
    assert text[..n + 1] == [text[0]] + text[1..][..n];
  }

  lemma {:induction false} StructIsKeyword(content: Text, i: nat)
    ensures StructAt(content, i) <==> IsKeyword(content, i)
  {
    hide SkipSpaces, SPACES, IsSpace, SpacesThenName, IsNameStart, StartsName;
    if i + 6 < |content| {
      var tail := content[i + 6..];
      SkipsToName(tail);
      SpacesAreListed(content[i + 6]);
      if SkipSpaces(tail) != [] {
        NamesAreNotSpaces(SkipSpaces(tail)[0]);
      }
      SpellsStruct(content[i..i + 6]);
    } else if i + 6 == |content| {
      SkipsToName(content[i + 6..]);
    }
  }

  lemma {:induction false} SpellsStruct(word: Text)
    requires |word| == 6
    ensures word == STRUCT <==> Spells(word, "struct")
  {
  }

  /** The rewrites are exactly of the keywords of the source, each into `class`. */
  lemma {:induction false} KeywordsAreRewritten(content: Text)
    ensures forall i: nat :: IsKeyword(content, i) <==> TextRewrite(i, i + 6, CLASS) in CollectFrom(content, 0)
    ensures forall rewrite <- CollectFrom(content, 0) :: rewrite == TextRewrite(rewrite.sourceStart, rewrite.sourceStart + 6, CLASS)
    ensures Spells(CLASS, "class")
  {
    hide StructAt, IsKeyword, CollectFrom, MatchesFrom;
    var rewrites := CollectFrom(content, 0);
    CollectedMatches(content, 0, 0);
    forall k | 0 <= k < |rewrites|
      ensures rewrites[k] == TextRewrite(rewrites[k].sourceStart, rewrites[k].sourceStart + 6, CLASS)
      ensures StructAt(content, rewrites[k].sourceStart)
    {
      MatchAt(content, 0, rewrites, k);
    }
    forall i: nat ensures IsKeyword(content, i) <==> TextRewrite(i, i + 6, CLASS) in rewrites {
      StructIsKeyword(content, i);
      if StructAt(content, i) {
        EveryMatchIsCollected(content, 0, i);
      }
    }
  }

  /** The path ends in ".ets", in capitals or not. */
  lemma {:induction false} EtsPathsEndInEts(path: Text)
    ensures IsEtsPath(path)
       <==> && |path| >= 4 && path[|path| - 4] == '.' as int
            && (path[|path| - 3] == 'e' as int || path[|path| - 3] == 'E' as int)
            && (path[|path| - 2] == 't' as int || path[|path| - 2] == 'T' as int)
            && (path[|path| - 1] == 's' as int || path[|path| - 1] == 'S' as int)
  {
  }

  // ----- Applying them -----

  function SourceEndBefore(segments: seq<RewriteSegment>, i: nat): nat
    requires i <= |segments|
  {
    if i == 0 then 0 else segments[i - 1].sourceEnd
  }

  function GeneratedEndBefore(segments: seq<RewriteSegment>, i: nat): nat
    requires i <= |segments|
  {
    if i == 0 then 0 else segments[i - 1].generatedEnd
  }

  /** One token and the text before it, after the given ends of the token before. */
  predicate Fits(
      source: Text, rewrite: TextRewrite, generated: Text, sourceFrom: nat, generatedFrom: nat, s: RewriteSegment)
  {
    && s.sourceStart == rewrite.sourceStart && s.sourceEnd == rewrite.sourceEnd
    && sourceFrom <= s.sourceStart <= s.sourceEnd <= |source|
    && generatedFrom <= s.generatedStart <= s.generatedEnd <= |generated|
    && source[sourceFrom..s.sourceStart] == generated[generatedFrom..s.generatedStart]
    && generated[s.generatedStart..s.generatedEnd] == rewrite.generatedText
  }

  predicate FitsAt(
      source: Text, rewrites: seq<TextRewrite>, generated: Text, segments: seq<RewriteSegment>, i: nat)
    requires i < |segments| && i < |rewrites|
  {
    Fits(source, rewrites[i], generated, SourceEndBefore(segments, i), GeneratedEndBefore(segments, i), segments[i])
  }

  /**
    The segments partition both texts alike: between two tokens stands the same text, and a token
    stands over its replacement.
    */
  ghost predicate Mapped(source: Text, rewrites: seq<TextRewrite>, generated: Text, segments: seq<RewriteSegment>) {
    |segments| == |rewrites| && forall i | 0 <= i < |segments| :: FitsAt(source, rewrites, generated, segments, i)
  }

  lemma {:induction false} FitsLonger(
      source: Text, rewrite: TextRewrite, generated: Text, more: Text, sourceFrom: nat, generatedFrom: nat,
      s: RewriteSegment)
    requires Fits(source, rewrite, generated, sourceFrom, generatedFrom, s) && generated <= more
    ensures Fits(source, rewrite, more, sourceFrom, generatedFrom, s)
  {
    assert more[generatedFrom..s.generatedStart] == generated[generatedFrom..s.generatedStart];
    assert more[s.generatedStart..s.generatedEnd] == generated[s.generatedStart..s.generatedEnd];
  }

  /** The tail after the last token is the same too. */
  ghost predicate SameTail(source: Text, generated: Text, segments: seq<RewriteSegment>) {
    var n := |segments|;
    && SourceEndBefore(segments, n) <= |source| && GeneratedEndBefore(segments, n) <= |generated|
    && source[SourceEndBefore(segments, n)..] == generated[GeneratedEndBefore(segments, n)..]
  }

  lemma {:induction false} MappedMore(
      source: Text, rewrites: seq<TextRewrite>, k: nat, generated: Text, segments: seq<RewriteSegment>,
      more: Text, segment: RewriteSegment)
    requires InOrder(source, rewrites) && k < |rewrites|
    requires Mapped(source, rewrites[..k], generated, segments) && |generated| == GeneratedEndBefore(segments, k)
    requires var from := SourceEndBefore(segments, k);
      && from <= rewrites[k].sourceStart
      && more == generated + source[from..rewrites[k].sourceStart] + rewrites[k].generatedText
      && segment == RewriteSegment(
           rewrites[k].sourceStart, rewrites[k].sourceEnd,
           |generated| + rewrites[k].sourceStart - from, |more|)
    ensures Mapped(source, rewrites[..k + 1], more, segments + [segment])
  {
    var all, longer := segments + [segment], rewrites[..k + 1];
    NewFits(source, rewrites[k], generated, more, SourceEndBefore(segments, k), segment);
    hide Fits;
    forall i | 0 <= i <= k ensures FitsAt(source, longer, more, all, i) {
      assert longer[i] == rewrites[i] && SourceEndBefore(all, i) == SourceEndBefore(segments, i)
          && GeneratedEndBefore(all, i) == GeneratedEndBefore(segments, i);
      if i < k {
        assert FitsAt(source, rewrites[..k], generated, segments, i) && rewrites[..k][i] == rewrites[i];
        FitsLonger(
          source, rewrites[i], generated, more, SourceEndBefore(segments, i), GeneratedEndBefore(segments, i), segments[i]);
      }
    }
  }

  lemma {:induction false} NewFits(
      source: Text, rewrite: TextRewrite, generated: Text, more: Text, from: nat, segment: RewriteSegment)
    requires from <= rewrite.sourceStart <= rewrite.sourceEnd <= |source|
    requires more == generated + source[from..rewrite.sourceStart] + rewrite.generatedText
    requires segment == RewriteSegment(
      rewrite.sourceStart, rewrite.sourceEnd, |generated| + rewrite.sourceStart - from, |more|)
    ensures Fits(source, rewrite, more, from, |generated|, segment) && generated <= more
  {
    assert more[|generated|..segment.generatedStart] == source[from..rewrite.sourceStart];
    assert more[segment.generatedStart..segment.generatedEnd] == rewrite.generatedText;
  }

  method ApplyRewrites(source: Text, rewrites: seq<TextRewrite>)
    returns (generatedContent: Text, segments: seq<RewriteSegment>)
    requires InOrder(source, rewrites)
    ensures Mapped(source, rewrites, generatedContent, segments)
    ensures SameTail(source, generatedContent, segments)
  {
    generatedContent, segments := [], [];
    var sourceCursor := 0;
    for k := 0 to |rewrites|
      invariant Mapped(source, rewrites[..k], generatedContent, segments)
      invariant |generatedContent| == GeneratedEndBefore(segments, k)
      invariant sourceCursor == SourceEndBefore(segments, k) <= |source|
      invariant k < |rewrites| ==> sourceCursor <= rewrites[k].sourceStart
    {
      ghost var before, done := generatedContent, segments;
      generatedContent := generatedContent + source[sourceCursor..rewrites[k].sourceStart];
      var generatedStart := |generatedContent|;
      generatedContent := generatedContent + rewrites[k].generatedText;
      var segment := RewriteSegment(
        rewrites[k].sourceStart, rewrites[k].sourceEnd, generatedStart, |generatedContent|);
      MappedMore(source, rewrites, k, before, done, generatedContent, segment);
      segments := segments + [segment];
      sourceCursor := rewrites[k].sourceEnd;
    }
    assert rewrites[..|rewrites|] == rewrites;
    MappedTail(source, rewrites, generatedContent, segments, source[sourceCursor..]);
    generatedContent := generatedContent + source[sourceCursor..];
  }

  lemma {:induction false} MappedTail(
      source: Text, rewrites: seq<TextRewrite>, generated: Text, segments: seq<RewriteSegment>, tail: Text)
    requires Mapped(source, rewrites, generated, segments)
    ensures Mapped(source, rewrites, generated + tail, segments)
  {
    hide Fits;
    forall i | 0 <= i < |segments| ensures FitsAt(source, rewrites, generated + tail, segments, i) {
      assert FitsAt(source, rewrites, generated, segments, i);
      FitsLonger(
        source, rewrites[i], generated, generated + tail, SourceEndBefore(segments, i), GeneratedEndBefore(segments, i),
        segments[i]);
    }
  }

  // ----- Mapping offsets -----

  function StartOf(segment: RewriteSegment, direction: Direction): nat {
    if direction.FromSource? then segment.sourceStart else segment.generatedStart
  }

  function EndOf(segment: RewriteSegment, direction: Direction): nat {
    if direction.FromSource? then segment.sourceEnd else segment.generatedEnd
  }

  function Opposite(direction: Direction): Direction {
    if direction.FromSource? then FromGenerated else FromSource
  }

  /** How many segments start at the offset or before it, counted one by one from the end. */
  function StartedBefore(segments: seq<RewriteSegment>, offset: nat, direction: Direction): (n: nat)
    ensures n <= |segments|
    ensures n > 0 ==> StartOf(segments[n - 1], direction) <= offset
    ensures forall i | n <= i < |segments| :: StartOf(segments[i], direction) > offset
  {
    if segments == [] then 0
    else if StartOf(segments[|segments| - 1], direction) <= offset then |segments|
    else StartedBefore(segments[..|segments| - 1], offset, direction)
  }

  ghost predicate StartsSorted(segments: seq<RewriteSegment>, direction: Direction) {
    forall i, j | 0 <= i <= j < |segments| :: StartOf(segments[i], direction) <= StartOf(segments[j], direction)
  }

  /** The binary search finds the last segment starting at the offset or before it. */
  method LastSegmentStartingBefore(segments: seq<RewriteSegment>, offset: nat, direction: Direction)
    returns (found: Option<RewriteSegment>)
    requires StartsSorted(segments, direction)
    ensures var n := StartedBefore(segments, offset, direction);
      found == if n == 0 then None else Some(segments[n - 1])
  {
    var low, high := 0, |segments| - 1;
    found := None;
    while low <= high
      invariant 0 <= low <= high + 1 <= |segments|
      invariant found == if low == 0 then None else Some(segments[low - 1])
      invariant low > 0 ==> StartOf(segments[low - 1], direction) <= offset
      invariant high + 1 < |segments| ==> StartOf(segments[high + 1], direction) > offset
      decreases high + 1 - low
    {
      var middle := (low + high) / 2;
      if StartOf(segments[middle], direction) <= offset {
        found := Some(segments[middle]);
        low := middle + 1;
      } else {
        high := middle - 1;
      }
    }
  }

  /** Where an offset goes that the given segment is the last to start before. */
  function MapThrough(segment: RewriteSegment, offset: nat, direction: Direction): int {
    var start, end := StartOf(segment, direction), EndOf(segment, direction);
    var targetStart, targetEnd := StartOf(segment, Opposite(direction)), EndOf(segment, Opposite(direction));
    if offset == end then targetEnd
    else if offset < end then
      targetStart + if offset - start < targetEnd - targetStart then offset - start else targetEnd - targetStart
    else offset + targetEnd - end
  }

  function MappedOffset(segments: seq<RewriteSegment>, offset: nat, direction: Direction): int {
    var n := StartedBefore(segments, offset, direction);
    if n == 0 then offset else MapThrough(segments[n - 1], offset, direction)
  }

  method MapOffset(offset: nat, segments: seq<RewriteSegment>, direction: Direction) returns (mapped: int)
    requires StartsSorted(segments, direction)
    ensures mapped == MappedOffset(segments, offset, direction)
  {
    var found := LastSegmentStartingBefore(segments, offset, direction);
    match found {
      case None =>
        mapped := offset;
      case Some(segment) =>
        var start, end := StartOf(segment, direction), EndOf(segment, direction);
        var targetStart, targetEnd := StartOf(segment, Opposite(direction)), EndOf(segment, Opposite(direction));
        if offset <= end {
          if offset == end {
            return targetEnd;
          }
          mapped := targetStart
            + if offset - start < targetEnd - targetStart then offset - start else targetEnd - targetStart;
        } else {
          mapped := offset + targetEnd - end;
        }
    }
  }
}
