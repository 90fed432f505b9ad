/** The sidecar's request loop over standard input: bounded, newline-delimited requests. */
module RequestFraming {
  import opened Sequences
  import opened Utf8
  import opened DeviceLogLine

  const REQUEST_BYTE_LIMIT: nat := 512 * 1024
  const LINE_FEED: Byte := 10

  datatype RequestLine = Eof | TooLarge | Line(line: string)

  /** `TooLarge` is the fixed error; what the handler answers to a line is its own matter. */
  datatype Response = Oversized | Answer(line: string)

  datatype StreamError = NotUtf8

  // ----- What the loop is to do -----

  /** How many bytes a bounded read up to a line feed takes. */
  function Taken(input: seq<Byte>, limit: nat): (n: nat)
    ensures n <= limit && n <= |input|
  {
    if limit == 0 || input == [] then 0
    else if input[0] == LINE_FEED then 1
    else 1 + Taken(input[1..], limit - 1)
  }

  function FirstPiece(input: seq<Byte>): (n: nat)
    ensures n <= |input| && (input != [] ==> n > 0)
  {
    Taken(input, |input|)
  }

  /** The input line by line, each with its line feed. */
  function Pieces(input: seq<Byte>): seq<seq<Byte>> {
    if input == [] then [] else [input[..FirstPiece(input)]] + Pieces(input[FirstPiece(input)..])
  }

  /** What the reader takes of a line before it looks at it. */
  function Head(piece: seq<Byte>): seq<Byte> {
    if |piece| <= REQUEST_BYTE_LIMIT + 1 then piece else piece[..REQUEST_BYTE_LIMIT + 1]
  }

  predicate Readable(piece: seq<Byte>) {
    Decode(Head(piece)).Some?
  }

  function ReadPiece(piece: seq<Byte>): Result<RequestLine, StreamError> {
    if piece == [] then Ok(Eof)
    else if !Readable(piece) then Err(NotUtf8)
    else if |piece| > REQUEST_BYTE_LIMIT then Ok(TooLarge)
    else Ok(Line(Decode(piece).value))
  }

  predicate IsBlank(line: string) {
    forall c <- line :: IsWhitespace(c)
  }

  function Respond(request: RequestLine): seq<Response> {
    match request
    case Eof => []
    case TooLarge => [Oversized]
    case Line(line) => if IsBlank(line) then [] else [Answer(line)]
  }

  /** Line by line, until a line that cannot be read. */
  function Serve(pieces: seq<seq<Byte>>): (seq<Response>, Result<(), StreamError>) {
    if pieces == [] then ([], Ok(()))
    else
      match ReadPiece(pieces[0])
      case Err(error) => ([], Err(error))
      case Ok(request) =>
        var (responses, result) := Serve(pieces[1..]);
        (Respond(request) + responses, result)
  }

  // ----- The reader -----

  function LineFeedAt(buffer: seq<Byte>): (n: nat)
    ensures n <= |buffer|
    ensures LINE_FEED !in buffer[..n]
    ensures n < |buffer| ==> buffer[n] == LINE_FEED
  {
    if buffer == [] || buffer[0] == LINE_FEED then 0
    else
      var n := 1 + LineFeedAt(buffer[1..]);
      assert buffer[..n] == [buffer[0]] + buffer[1..][..n - 1];
      n
  }

  lemma {:induction false} TakenPast(input: seq<Byte>, n: nat, limit: nat)
    requires n <= limit && n <= |input| && LINE_FEED !in input[..n]
    ensures Taken(input, limit) == n + Taken(input[n..], limit - n)
  {
    if n > 0 {
      assert input[0] in input[..n];
      assert input[1..][..n - 1] == input[1..n] && forall b <- input[1..n] :: b in input[..n];
      TakenPast(input[1..], n - 1, limit - 1);
      assert input[1..][n - 1..] == input[n..];
    } else {
      assert input[0..] == input;
    }
  }

  lemma {:induction false} TakenHere(input: seq<Byte>, n: nat, limit: nat)
    requires n < limit && n < |input| && LINE_FEED !in input[..n] && input[n] == LINE_FEED
    ensures Taken(input, limit) == n + 1
  {
    TakenPast(input, n, limit);
    assert input[n..][0] == LINE_FEED;
  }

  /** One more chunk of an input of which `done` bytes without a line feed are consumed. */
  lemma {:induction false} NextChunk(input: seq<Byte>, done: nat, buffer: seq<Byte>, limit: nat)
    requires done + |buffer| <= limit && done <= |input| && buffer <= input[done..] && LINE_FEED !in input[..done]
    ensures done + |buffer| <= |input|
    ensures var at := LineFeedAt(buffer);
      if at < |buffer| then
        Taken(input, limit) == done + at + 1 && input[..done] + buffer[..at + 1] == input[..done + at + 1]
      else
        LINE_FEED !in input[..done + |buffer|] && input[..done] + buffer == input[..done + |buffer|]
  {
    var at := LineFeedAt(buffer);
    var size := if at < |buffer| then at + 1 else at;
    assert buffer == input[done..][..|buffer|];
    ChunkIsSlice(input, done, buffer, size);
    ChunkIsSlice(input, done, buffer, at);
    if at < |buffer| {
      assert input[done + at] == buffer[at];
      TakenHere(input, done + at, limit);
    } else {
      assert buffer[..at] == buffer;
    }
  }

  lemma {:induction false} ChunkIsSlice(input: seq<Byte>, done: nat, buffer: seq<Byte>, size: nat)
    requires done <= |input| && buffer <= input[done..] && size <= |buffer|
    ensures done + size <= |input| && input[..done] + buffer[..size] == input[..done + size]
    ensures LINE_FEED !in input[..done] && LINE_FEED !in buffer[..size] ==> LINE_FEED !in input[..done + size]
  {
    assert forall i :: 0 <= i < size ==> buffer[i] == input[done..][i];
  }

  lemma {:induction false} DropDrop(input: seq<Byte>, done: nat, more: nat)
    requires done + more <= |input|
    ensures input[done..][more..] == input[done + more..]
  {
  }

  class BufferedReader {
    /** The input not consumed yet. */
    var rest: seq<Byte>

    constructor (input: seq<Byte>)
      ensures rest == input
    {
      rest := input;
    }

    /** Any chunk the source happens to have ready; an empty one only at the end. */
    method FillBuf() returns (buffer: seq<Byte>)
      ensures buffer <= rest && (buffer == [] <==> rest == [])
    {
      if rest == [] {
        buffer := [];
      } else {
        var size :| 1 <= size <= |rest|;
        buffer := rest[..size];
      }
    }

    method Consume(n: nat)
      requires n <= |rest|
      modifies this
      ensures rest == old(rest[n..])
    {
      rest := rest[n..];
    }

    /** Reading up to and including a line feed, through a reader limited to `limit` bytes. */
    method TakeLine(limit: nat) returns (taken: seq<Byte>)
      modifies this
      ensures taken == old(rest[..Taken(rest, limit)])
      ensures rest == old(rest[Taken(rest, limit)..])
    {
      hide Taken, LineFeedAt;
      ghost var input := rest;
      taken := [];
      while |taken| < limit
        invariant |taken| <= limit && |taken| <= |input|
        invariant taken == input[..|taken|] && rest == input[|taken|..]
        invariant LINE_FEED !in taken
      {
        var buffer := FillBuf();
        if buffer == [] {
          break;
        }
        if |buffer| > limit - |taken| {
          buffer := buffer[..limit - |taken|];
        }
        ghost var done := |taken|;
        assert buffer <= input[done..];
        NextChunk(input, done, buffer, limit);
        var at := LineFeedAt(buffer);
        if at < |buffer| {
          DropDrop(input, done, at + 1);
          taken := taken + buffer[..at + 1];
          Consume(at + 1);
          return;
        }
        DropDrop(input, done, |buffer|);
        taken := taken + buffer;
        Consume(|buffer|);
      }
      TakenAll(input, |taken|, limit);
    }

    /** After an oversized head: the rest of its line goes. */
    method DiscardUntilNewline()
      modifies this
      ensures rest == old(rest[FirstPiece(rest)..])
    {
      hide Taken;
      ghost var input, gone := rest, 0;
      while true
        invariant gone <= |input| && rest == input[gone..]
        invariant LINE_FEED !in input[..gone]
        decreases |input| - gone
      {
        var buffer := FillBuf();
        if buffer == [] {
          TakenAll(input, gone, |input|);
          return;
        }
        NextChunk(input, gone, buffer, |input|);
        var at := LineFeedAt(buffer);
        if at < |buffer| {
          DropDrop(input, gone, at + 1);
          Consume(at + 1);
          return;
        }
        DropDrop(input, gone, |buffer|);
        gone := gone + |buffer|;
        Consume(|buffer|);
      }
    }
  }

  lemma {:induction false} TakenAll(input: seq<Byte>, n: nat, limit: nat)
    requires n <= limit && n <= |input| && LINE_FEED !in input[..n] && (n == limit || n == |input|)
    ensures Taken(input, limit) == n
  {
    TakenPast(input, n, limit);
  }

  lemma {:induction false} TakenMonotone(input: seq<Byte>, limit: nat, more: nat)
    requires limit <= more
    ensures Taken(input, limit) == if Taken(input, more) <= limit then Taken(input, more) else limit
  {
    if limit > 0 && input != [] && input[0] != LINE_FEED {
      TakenMonotone(input[1..], limit - 1, more - 1);
    }
  }

  lemma {:induction false} TakenOfShort(input: seq<Byte>, limit: nat)
    requires limit >= |input|
    ensures Taken(input, limit) == FirstPiece(input)
  {
    TakenMonotone(input, |input|, limit);
  }

  lemma {:induction false} TakenIsHead(input: seq<Byte>)
    ensures input[..Taken(input, REQUEST_BYTE_LIMIT + 1)] == Head(input[..FirstPiece(input)])
    ensures Taken(input, REQUEST_BYTE_LIMIT + 1) == |Head(input[..FirstPiece(input)])|
  {
    hide Taken;
    if REQUEST_BYTE_LIMIT + 1 <= |input| {
      TakenMonotone(input, REQUEST_BYTE_LIMIT + 1, |input|);
    } else {
      TakenOfShort(input, REQUEST_BYTE_LIMIT + 1);
    }
  }

  /** What is left of a piece after its head was taken. */
  lemma {:induction false} PieceAfterHead(input: seq<Byte>)
    requires FirstPiece(input) > REQUEST_BYTE_LIMIT
    ensures var head := REQUEST_BYTE_LIMIT + 1;
      if input[head - 1] == LINE_FEED then FirstPiece(input) == head
      else FirstPiece(input) == head + FirstPiece(input[head..])
  {
    var head := REQUEST_BYTE_LIMIT + 1;
    NoFeedBefore(input, head - 1, |input|);
    if input[head - 1] == LINE_FEED {
      TakenHere(input, head - 1, |input|);
    } else {
      assert input[..head] == input[..head - 1] + [input[head - 1]];
      TakenPast(input, head, |input|);
    }
  }

  lemma {:induction false} NoFeedBefore(input: seq<Byte>, n: nat, limit: nat)
    requires n < Taken(input, limit)
    ensures LINE_FEED !in input[..n]
  {
    if n > 0 {
      NoFeedBefore(input[1..], n - 1, limit - 1);
      assert input[..n] == [input[0]] + input[1..][..n - 1];
    }
  }

  method ReadRequestLine(reader: BufferedReader) returns (line: Result<RequestLine, StreamError>)
    modifies reader
    ensures line == old(ReadPiece(reader.rest[..FirstPiece(reader.rest)]))
    ensures line.Ok? ==> reader.rest == old(reader.rest[FirstPiece(reader.rest)..])
  {
    hide Taken, Decode, FirstPiece;
    ghost var input := reader.rest;
    TakenIsHead(input);
    var bytes := reader.TakeLine(REQUEST_BYTE_LIMIT + 1);
    var text := Decode(bytes);
    if text.None? {
      assert Decode([]) == Some("") by { EmptyDecodes(); }
      return Err(NotUtf8);
    }
    if |bytes| == 0 {
      return Ok(Eof);
    }
    if |bytes| > REQUEST_BYTE_LIMIT {
      PieceAfterHead(input);
      if bytes[|bytes| - 1] != LINE_FEED {
        reader.DiscardUntilNewline();
        DropDrop(input, |bytes|, FirstPiece(input[|bytes|..]));
      }
      return Ok(TooLarge);
    }
    return Ok(Line(text.value));
  }

  lemma {:induction false} EmptyDecodes()
    ensures Decode([]) == Some("")
  {
  }

  lemma {:induction false} ServeNext(input: seq<Byte>)
    ensures var (responses, result) := Serve(Pieces(input));
      match ReadPiece(input[..FirstPiece(input)])
      case Err(error) => responses == [] && result == Err(error)
      case Ok(request) =>
        if request.Eof? then input == [] && responses == [] && result == Ok(())
        else
          && input != []
          && (responses, result)
             == (Respond(request) + Serve(Pieces(input[FirstPiece(input)..])).0,
                 Serve(Pieces(input[FirstPiece(input)..])).1)
  {
    if input != [] {
      var pieces := Pieces(input);
      assert pieces[0] == input[..FirstPiece(input)] && pieces[1..] == Pieces(input[FirstPiece(input)..]);
    }
  }

  method RunStream(reader: BufferedReader) returns (responses: seq<Response>, result: Result<(), StreamError>)
    modifies reader
    ensures responses == Serve(Pieces(old(reader.rest))).0
    ensures result == Serve(Pieces(old(reader.rest))).1
  {
    hide ReadPiece, FirstPiece, IsBlank;
    ghost var expected := Serve(Pieces(reader.rest));
    responses := [];
    assert [] + expected.0 == expected.0;
    while true
      invariant expected.0 == responses + Serve(Pieces(reader.rest)).0
      invariant expected.1 == Serve(Pieces(reader.rest)).1
      decreases |reader.rest|
    {
      ServeNext(reader.rest);
      assert responses + [] == responses;
      var line := ReadRequestLine(reader);
      if line.Err? {
        return responses, Err(line.error);
      }
      ghost var next := Serve(Pieces(reader.rest)).0;
      assert responses + (Respond(line.value) + next) == responses + Respond(line.value) + next;
      match line.value
      case Eof =>
        return responses, Ok(());
      case TooLarge =>
        responses := responses + [Oversized];
      case Line(text) =>
        if !IsBlank(text) {
          responses := responses + [Answer(text)];
        }
    }
  }

  // ----- The pieces are the lines -----

  predicate EndsLine(piece: seq<Byte>) {
    piece != [] && piece[|piece| - 1] == LINE_FEED
  }

  /** Nothing but the last byte of a piece is a line feed. */
  predicate IsPiece(piece: seq<Byte>) {
    piece != [] && LINE_FEED !in piece[..|piece| - 1]
  }

  lemma {:induction false} TakenEnds(input: seq<Byte>, limit: nat)
    requires 0 < Taken(input, limit) < limit && Taken(input, limit) < |input|
    ensures input[Taken(input, limit) - 1] == LINE_FEED
  {
    if input[0] != LINE_FEED {
      TakenEnds(input[1..], limit - 1);
    }
  }

  lemma {:induction false} FirstIsPiece(input: seq<Byte>)
    requires input != []
    ensures IsPiece(input[..FirstPiece(input)])
    ensures FirstPiece(input) < |input| ==> EndsLine(input[..FirstPiece(input)])
  {
    var n := FirstPiece(input);
    NoFeedBefore(input, n - 1, |input|);
    assert input[..n][..n - 1] == input[..n - 1];
    if n < |input| {
      TakenEnds(input, |input|);
    }
  }

  /** The pieces make up the input, and every piece but the last ends in its one line feed. */
  lemma {:induction false} PiecesAreTheInput(input: seq<Byte>)
    ensures Flatten(Pieces(input)) == input
    ensures forall piece <- Pieces(input) :: IsPiece(piece)
    ensures forall i :: 0 <= i < |Pieces(input)| - 1 ==> EndsLine(Pieces(input)[i])
    decreases |input|
  {
    if input != [] {
      hide FirstPiece, IsPiece, EndsLine;
      var piece, rest := input[..FirstPiece(input)], input[FirstPiece(input)..];
      assert piece + rest == input && Pieces(input) == [piece] + Pieces(rest);
      FirstIsPiece(input);
      PiecesAreTheInput(rest);
      assert Pieces(input)[1..] == Pieces(rest);
    }
  }

  /** A line and its line feed are a piece, whatever follows. */
  lemma {:induction false} PiecesOfLine(line: seq<Byte>, rest: seq<Byte>)
    requires LINE_FEED !in line
    ensures Pieces(line + [LINE_FEED] + rest) == [line + [LINE_FEED]] + Pieces(rest)
  {
    var input := line + [LINE_FEED] + rest;
    var n := |line| + 1;
    assert input[..|line|] == line && input[..n] == line + [LINE_FEED] && input[n..] == rest;
    TakenHere(input, |line|, |input|);
  }

  // ----- One response for every answered line -----

  predicate IsAnswered(piece: seq<Byte>) {
    Readable(piece) && piece != [] && (|piece| > REQUEST_BYTE_LIMIT || !IsBlank(Decode(piece).value))
  }

  function ResponseTo(piece: seq<Byte>): Response
    requires IsAnswered(piece)
  {
    if |piece| > REQUEST_BYTE_LIMIT then Oversized else Answer(Decode(piece).value)
  }

  /** The lines that get a response, in order. */
  function Answered(pieces: seq<seq<Byte>>): (answered: seq<seq<Byte>>)
    ensures forall piece <- answered :: IsAnswered(piece)
  {
    if pieces == [] then []
    else (if IsAnswered(pieces[0]) then [pieces[0]] else []) + Answered(pieces[1..])
  }

  function ResponsesTo(answered: seq<seq<Byte>>): (responses: seq<Response>)
    requires forall piece <- answered :: IsAnswered(piece)
    ensures |responses| == |answered|
    ensures forall k :: 0 <= k < |responses| ==> responses[k] == ResponseTo(answered[k])
  {
    if answered == [] then [] else [ResponseTo(answered[0])] + ResponsesTo(answered[1..])
  }

  lemma {:induction false} RespondIsResponse(piece: seq<Byte>)
    requires piece != [] && Readable(piece)
    ensures ReadPiece(piece).Ok?
    ensures Respond(ReadPiece(piece).value) == if IsAnswered(piece) then [ResponseTo(piece)] else []
  {
    hide Decode;
  }

  /**
    If every line can be read, the loop ends well and its responses are, in order, one for each
    line that is oversized or not blank.
    */
  lemma {:induction false} OneResponseEach(pieces: seq<seq<Byte>>)
    requires forall piece <- pieces :: piece != [] && Readable(piece)
    ensures Serve(pieces).1 == Ok(()) && Serve(pieces).0 == ResponsesTo(Answered(pieces))
  {
    if pieces != [] {
      hide Readable, ReadPiece, Respond, IsAnswered, ResponseTo;
      assert forall piece <- pieces[1..] :: piece in pieces;
      assert pieces[0] in pieces;
      OneResponseEach(pieces[1..]);
      RespondIsResponse(pieces[0]);
      var rest := Answered(pieces[1..]);
      if IsAnswered(pieces[0]) {
        assert ([pieces[0]] + rest)[1..] == rest;
      }
    }
  }

  /** The loop fails exactly when some line cannot be read. */
  lemma {:induction false} FailsExactlyOnUnreadable(pieces: seq<seq<Byte>>)
    requires forall piece <- pieces :: piece != []
    ensures Serve(pieces).1.Ok? <==> forall piece <- pieces :: Readable(piece)
  {
    hide Readable;
    if pieces != [] {
      assert pieces == [pieces[0]] + pieces[1..] && pieces[0] in pieces;
      assert forall piece <- pieces[1..] :: piece in pieces;
      FailsExactlyOnUnreadable(pieces[1..]);
    }
  }

  /** An oversized line costs one error and leaves what follows as it would be without it. */
  lemma {:induction false} OversizedCostsOne(line: seq<Byte>, rest: seq<Byte>)
    requires LINE_FEED !in line && |line| >= 524_288 && Readable(line + [LINE_FEED])
    ensures Serve(Pieces(line + [LINE_FEED] + rest)).0 == [Oversized] + Serve(Pieces(rest)).0
    ensures Serve(Pieces(line + [LINE_FEED] + rest)).1 == Serve(Pieces(rest)).1
  {
    hide Readable;
    PiecesOfLine(line, rest);
    assert ([line + [LINE_FEED]] + Pieces(rest))[1..] == Pieces(rest);
  }

  /** A stream of ASCII never fails. */
  lemma {:induction false} AsciiStream(input: seq<Byte>)
    requires forall b <- input :: b < 0x80
    ensures Serve(Pieces(input)).1 == Ok(()) && Serve(Pieces(input)).0 == ResponsesTo(Answered(Pieces(input)))
  {
    PiecesAreTheInput(input);
    forall piece <- Pieces(input) ensures Readable(piece) {
      PieceBytes(input, piece);
      assert forall b <- Head(piece) :: b in piece && b < 0x80;
      AsciiDecodes(Head(piece));
    }
    OneResponseEach(Pieces(input));
  }

  lemma {:induction false} PieceBytes(input: seq<Byte>, piece: seq<Byte>)
    requires piece in Pieces(input)
    ensures forall b <- piece :: b in input
    decreases |input|
  {
    if input != [] {
      var n := FirstPiece(input);
      assert Pieces(input) == [input[..n]] + Pieces(input[n..]);
      if piece != input[..n] {
        PieceBytes(input[n..], piece);
      }
    }
  }

  // ----- Which lines are answered -----

  /** Some character of the text is not white space. */
  ghost predicate SaysSomething(text: string) {
    exists c <- text :: c as int !in WHITE_SPACE
  }

  lemma {:induction false} RespondsToText(piece: seq<Byte>, text: string)
    requires 0 < |piece| <= REQUEST_BYTE_LIMIT && Decode(piece) == Some(text)
    ensures ReadPiece(piece) == Ok(Line(text))
    ensures Respond(Line(text)) == if SaysSomething(text) then [Answer(text)] else []
  {
    forall c <- text ensures IsWhitespace(c) <==> c as int in WHITE_SPACE {
      WhitespaceIsListed(c);
    }
  }

  /** What a line within the limit adds to what is served after it. */
  ghost predicate AddsAnswer(
      served: (seq<Response>, Result<(), StreamError>), text: string, after: (seq<Response>, Result<(), StreamError>))
  {
    && served.1 == after.1
    && served.0 == if SaysSomething(text) then [Answer(text)] + after.0 else after.0
  }

  /** A line that can be read, within the limit, is answered exactly if it holds more than white space. */
  lemma {:induction false} LineIsAnswered(line: seq<Byte>, rest: seq<Byte>, text: string)
    requires LINE_FEED !in line && |line| < 524_288 && Decode(line + [LINE_FEED]) == Some(text)
    ensures AddsAnswer(Serve(Pieces(line + [LINE_FEED] + rest)), text, Serve(Pieces(rest)))
  {
    var piece := line + [LINE_FEED];
    hide Decode, Pieces, ReadPiece, Respond, SaysSomething;
    PiecesOfLine(line, rest);
    RespondsToText(piece, text);
    assert ([piece] + Pieces(rest))[1..] == Pieces(rest);
    assert [] + Serve(Pieces(rest)).0 == Serve(Pieces(rest)).0;
  }

  /** So is what stands after the last line feed. */
  lemma {:induction false} LastLineIsAnswered(line: seq<Byte>, text: string)
    requires LINE_FEED !in line && 0 < |line| <= 524_288 && Decode(line) == Some(text)
    ensures AddsAnswer(Serve(Pieces(line)), text, ([], Ok(())))
  {
    RespondsToText(line, text);
    hide Decode, ReadPiece, Respond, SaysSomething;
    assert line[..|line|] == line && line[|line|..] == [];
    TakenAll(line, |line|, |line|);
    assert Pieces(line) == [line] + Pieces([]) && Pieces([]) == [];
    assert [line][1..] == [] && Serve([]).0 == [] && Respond(Line(text)) + [] == Respond(Line(text));
  }

  lemma {:induction false} AsciiWhiteSpace(c: char)
    requires c as int < 0x80
    ensures c as int in WHITE_SPACE <==> 9 <= c as int <= 13 || c as int == 32
  {
    hide WHITE_SPACE;
    WhitespaceIsListed(c);
  }

  lemma {:induction false} AsciiSays(line: seq<Byte>, text: string)
    requires |text| == |line| + 1 && text[|line|] == '\n'
    requires forall i | 0 <= i < |line| :: text[i] as int == line[i] as int && line[i] < 0x80
    ensures SaysSomething(text) <==> exists b <- line :: !(9 <= b <= 13 || b == 32)
  {
    hide WHITE_SPACE;
    forall i | 0 <= i < |text| ensures text[i] as int in WHITE_SPACE <==> 9 <= text[i] as int <= 13 || text[i] as int == 32 {
      AsciiWhiteSpace(text[i]);
    }
    if SaysSomething(text) {
      var i :| 0 <= i < |text| && text[i] as int !in WHITE_SPACE;
      assert line[i] in line;
    }
    if b :| b in line && !(9 <= b <= 13 || b == 32) {
      var i :| 0 <= i < |line| && line[i] == b;
      assert text[i] in text;
    }
  }

  /** A line of ASCII is answered exactly if it has a byte other than 9 to 13 and 32. */
  lemma {:induction false} AsciiLineIsAnswered(line: seq<Byte>, rest: seq<Byte>)
    requires (forall b <- line :: b < 0x80 && b != LINE_FEED) && |line| < 524_288
    ensures var text := Decode(line + [LINE_FEED]);
      && text.Some?
      && var (responses, result) := Serve(Pieces(line + [LINE_FEED] + rest));
         && result == Serve(Pieces(rest)).1
         && responses
            == if exists b <- line :: !(9 <= b <= 13 || b == 32) then [Answer(text.value)] + Serve(Pieces(rest)).0
               else Serve(Pieces(rest)).0
  {
    var piece := line + [LINE_FEED];
    AsciiDecodes(piece);
    var text := Decode(piece).value;
    assert text[|line|] == '\n';
    forall i | 0 <= i < |line| ensures text[i] as int == line[i] as int && line[i] < 0x80 {
      assert piece[i] == line[i] && line[i] in line;
    }
    hide *;
    AsciiSays(line, text);
    LineIsAnswered(line, rest, text);
    Added(Serve(Pieces(piece + rest)), text, Serve(Pieces(rest)));
  }

  lemma {:induction false} Added(
      served: (seq<Response>, Result<(), StreamError>), text: string, after: (seq<Response>, Result<(), StreamError>))
    requires AddsAnswer(served, text, after)
    ensures served.1 == after.1 && served.0 == if SaysSomething(text) then [Answer(text)] + after.0 else after.0
  {
    hide SaysSomething;
  }

  // ----- Text beyond ASCII -----

  lemma {:induction false} EncodedLead(c: char)
    ensures var e := EncodeChar(c);
      && !Continuation(e[0]) && (forall i :: 1 <= i < |e| ==> Continuation(e[i]))
      && forall k :: 0 < k < |e| ==> DecodeChar(e[..k]).None?
  {
  }

  /** Encoded text cut at a byte decodes exactly if the cut does not split a character. */
  lemma {:induction false} CutDecodes(text: string, k: nat)
    requires k <= |Encode(text)|
    ensures Decode(Encode(text)[..k]).Some? <==> k == |Encode(text)| || !Continuation(Encode(text)[k])
  {
    if text != "" {
      var head, tail := EncodeChar(text[0]), Encode(text[1..]);
      EncodedLead(text[0]);
      if k >= |head| {
        hide DecodeChar, EncodeChar;
        CutDecodes(text[1..], k - |head|);
        DecodeEncodedChar(text[0], tail[..k - |head|]);
        assert (head + tail)[..k] == head + tail[..k - |head|];
        assert (head + tail[..k - |head|])[|head|..] == tail[..k - |head|];
      } else {
        assert (head + tail)[..k] == head[..k];
      }
    }
  }

  lemma {:induction false} EncodedNewline(c: char)
    ensures c == '\n' ==> EncodeChar(c) == [LINE_FEED]
    ensures c != '\n' ==> LINE_FEED !in EncodeChar(c)
  {
  }

  /** The first line of encoded text is the encoding of its first line. */
  lemma {:induction false} FirstPieceOfText(text: string) returns (k: nat)
    requires text != ""
    ensures 0 < k <= |text|
    ensures var n := FirstPiece(Encode(text));
      Encode(text)[..n] == Encode(text[..k]) && Encode(text)[n..] == Encode(text[k..])
  {
    hide EncodeChar;
    var head, tail := EncodeChar(text[0]), Encode(text[1..]);
    var input := Encode(text);
    EncodedNewline(text[0]);
    if text[0] == '\n' {
      k := 1;
      assert FirstPiece(input) == 1;
    } else {
      assert input[..|head|] == head && input[|head|..] == tail;
      TakenPast(input, |head|, |input|);
      if |text| == 1 {
        k := 1;
      } else {
        var rest := FirstPieceOfText(text[1..]);
        k := rest + 1;
        assert text[..k][1..] == text[1..][..rest] && text[..k][0] == text[0];
      }
    }
    hide FirstPiece, Taken;
    SplitEncode(text, k);
  }

  lemma {:induction false} SplitEncode(text: string, k: nat)
    requires k <= |text|
    ensures Encode(text) == Encode(text[..k]) + Encode(text[k..])
  {
    EncodeConcat(text[..k], text[k..]);
    assert text == text[..k] + text[k..];
  }

  /** A line is cut inside a character where the reader stops reading it. */
  predicate Straddles(piece: seq<Byte>) {
    |piece| > REQUEST_BYTE_LIMIT + 1 && Continuation(piece[REQUEST_BYTE_LIMIT + 1])
  }

  lemma {:induction false} TextIsReadable(text: string)
    ensures Readable(Encode(text)) <==> !Straddles(Encode(text))
  {
    hide Encode;
    var bytes := Encode(text);
    if |bytes| > REQUEST_BYTE_LIMIT + 1 {
      CutDecodes(text, REQUEST_BYTE_LIMIT + 1);
    } else {
      DecodeEncode(text);
    }
  }

  lemma {:induction false} TextPieces(text: string)
    ensures forall piece <- Pieces(Encode(text)) :: Readable(piece) <==> !Straddles(piece)
    decreases |text|
  {
    hide Readable, Straddles, Encode, FirstPiece;
    if text != "" {
      var k := FirstPieceOfText(text);
      var input := Encode(text);
      TextPieces(text[k..]);
      TextIsReadable(text[..k]);
      NonEmpty(text);
      assert Pieces(input) == [input[..FirstPiece(input)]] + Pieces(input[FirstPiece(input)..]);
    } else {
      assert Encode("") == [] by { NothingEncoded(); }
    }
  }

  lemma {:induction false} NonEmpty(text: string)
    requires text != ""
    ensures Encode(text) != []
  {
  }

  lemma {:induction false} NothingEncoded()
    ensures Encode("") == []
  {
  }

  /** A stream of valid UTF-8 is served to its end exactly if no line straddles the limit. */
  lemma {:induction false} TextStream(text: string)
    ensures Serve(Pieces(Encode(text))).1.Ok? <==> forall piece <- Pieces(Encode(text)) :: !Straddles(piece)
  {
    hide Readable, Straddles, Encode, FirstPiece;
    PiecesAreTheInput(Encode(text));
    FailsExactlyOnUnreadable(Pieces(Encode(text)));
    TextPieces(text);
  }

  function Filler(n: nat): string {
    if n == 0 then "" else "x" + Filler(n - 1)
  }

  lemma {:induction false} EncodedFiller(n: nat, rest: string)
    ensures |Encode(Filler(n) + rest)| == n + |Encode(rest)|
    ensures Encode(Filler(n) + rest)[n..] == Encode(rest)
    ensures '\n' !in Filler(n)
  {
    if n > 0 {
      EncodedFiller(n - 1, rest);
      assert (Filler(n) + rest)[1..] == Filler(n - 1) + rest && (Filler(n) + rest)[0] == 'x';
      assert Encode(Filler(n) + rest) == [120] + Encode(Filler(n - 1) + rest);
    } else {
      assert Filler(0) + rest == rest;
    }
  }

  /** One such line, valid UTF-8 and oversized, ends the stream instead of costing one error. */
  lemma {:induction false} StraddlingLineEndsTheStream(rest: string)
    ensures var line := Filler(REQUEST_BYTE_LIMIT) + "\U{E9}";
      Serve(Pieces(Encode(line) + [LINE_FEED] + Encode(rest))) == ([], Err(NotUtf8))
  {
    var line := Filler(REQUEST_BYTE_LIMIT) + "\U{E9}";
    var bytes := Encode(line);
    assert Encode("\U{E9}") == [0xC3, 0xA9];
    EncodedFiller(REQUEST_BYTE_LIMIT, "\U{E9}");
    hide Filler, Encode, Pieces, Decode;
    NoNewlineEncoded(line);
    PiecesOfLine(bytes, Encode(rest));
    CutDecodes(line, REQUEST_BYTE_LIMIT + 1);
    assert bytes[REQUEST_BYTE_LIMIT + 1] == bytes[REQUEST_BYTE_LIMIT..][1] == 0xA9;
    assert Head(bytes + [LINE_FEED]) == bytes[..REQUEST_BYTE_LIMIT + 1];
    assert !Readable(bytes + [LINE_FEED]);
    var pieces := Pieces(bytes + [LINE_FEED] + Encode(rest));
    assert pieces[0] == bytes + [LINE_FEED];
  }

  lemma {:induction false} NoNewlineEncoded(text: string)
    requires '\n' !in text
    ensures LINE_FEED !in Encode(text)
  {
    if text != "" {
      EncodedNewline(text[0]);
      assert forall c <- text[1..] :: c in text;
      NoNewlineEncoded(text[1..]);
    }
  }
}
