/** What the filters of a query ask of a line: said of its printed tokens, letter by letter. */
module DeviceLogFilters {
  import opened Sequences
  import opened Utf8
  import opened DeviceLogLine
  import opened DeviceLogSegment
  import opened DeviceLogMetadata
  import opened DeviceLogQuery
  import opened DeviceLogPruning

  // ----- Text in text -----

  ghost predicate Blank(text: string) {
    forall c <- text :: c as int in WHITE_SPACE
  }

  /** The same, or a letter of the alphabet and its capital. */
  predicate SameLetter(a: char, b: char) {
    || a == b
    || ('a' <= a <= 'z' && b as int == a as int - 'a' as int + 'A' as int)
    || ('A' <= a <= 'Z' && b as int == a as int - 'A' as int + 'a' as int)
  }

  predicate SameLetters(a: string, b: string) {
    |a| == |b| && forall k | 0 <= k < |a| :: SameLetter(a[k], b[k])
  }

  /** The text stands somewhere in the token, letter by letter, or whatever the capitals. */
  ghost predicate Occurs(text: string, token: string, matchCase: bool) {
    if matchCase then exists a, b :: token == a + text + b
    else exists a, here, b :: token == a + here + b && SameLetters(here, text)
  }

  lemma {:induction false} ContainedOccurs(token: string, text: string)
    ensures Contains(token, text) <==> Occurs(text, token, true)
  {
    if Contains(token, text) {
      var (a, b) := SplitOnce(token, text).value;
      assert token == a + text + b;
    }
    if a, b :| token == a + text + b {
      assert token[|a|..] == text + b;
      ContainsAt(token, |a|, text);
    }
  }

  lemma {:induction false} LowercaseAt(s: string)
    ensures |ToAsciiLowercase(s)| == |s|
    ensures forall k | 0 <= k < |s| :: ToAsciiLowercase(s)[k] == AsciiLower(s[k])
  {
    if s != "" {
      LowercaseAt(s[1..]);
    }
  }

  lemma {:induction false} LowercaseAlike(a: string, b: string)
    ensures ToAsciiLowercase(a) == ToAsciiLowercase(b) <==> SameLetters(a, b)
  {
    LowercaseAt(a);
    LowercaseAt(b);
    hide ToAsciiLowercase;
    if |a| == |b| {
      forall k | 0 <= k < |a| ensures AsciiLower(a[k]) == AsciiLower(b[k]) <==> SameLetter(a[k], b[k]) {
        LettersAlike(a[k], b[k]);
      }
      if SameLetters(a, b) {
        assert forall k | 0 <= k < |a| :: ToAsciiLowercase(a)[k] == ToAsciiLowercase(b)[k];
      }
    }
  }

  lemma {:induction false} LettersAlike(a: char, b: char)
    ensures AsciiLower(a) == AsciiLower(b) <==> SameLetter(a, b)
  {
  }

  lemma {:induction false} LowercaseConcat(a: string, b: string)
    ensures ToAsciiLowercase(a + b) == ToAsciiLowercase(a) + ToAsciiLowercase(b)
  {
    if a == "" {
      assert a + b == b;
    } else {
      assert (a + b)[1..] == a[1..] + b;
      LowercaseConcat(a[1..], b);
    }
  }

  lemma {:induction false} LowercaseSplits(s: string, i: nat, j: nat)
    requires i <= j <= |s|
    ensures |ToAsciiLowercase(s)| == |s|
    ensures ToAsciiLowercase(s)[..i] == ToAsciiLowercase(s[..i])
    ensures ToAsciiLowercase(s)[i..j] == ToAsciiLowercase(s[i..j])
  {
    LowercaseAt(s);
    LowercaseAt(s[..i]);
    LowercaseAt(s[i..j]);
  }

  lemma {:induction false} LowercaseContainedOccurs(token: string, text: string)
    ensures Contains(ToAsciiLowercase(token), ToAsciiLowercase(text)) <==> Occurs(text, token, false)
  {
    hide ToAsciiLowercase, SameLetters;
    var lower, wanted := ToAsciiLowercase(token), ToAsciiLowercase(text);
    ContainedOccurs(lower, wanted);
    LowercaseLength(text);
    if Occurs(wanted, lower, true) {
      var a, b :| lower == a + wanted + b;
      LowercaseLength(token);
      var i, j := |a|, |a| + |wanted|;
      LowercaseSplits(token, i, j);
      assert lower[i..j] == wanted;
      LowercaseAlike(token[i..j], text);
      assert token == token[..i] + token[i..j] + token[j..];
    }
    if Occurs(text, token, false) {
      var a, here, b :| token == a + here + b && SameLetters(here, text);
      LowercaseAlike(here, text);
      LowercaseConcat(a + here, b);
      LowercaseConcat(a, here);
      assert lower == ToAsciiLowercase(a) + wanted + ToAsciiLowercase(b);
    }
  }

  lemma {:induction false} LowercaseLength(s: string)
    ensures |ToAsciiLowercase(s)| == |s|
  {
    LowercaseAt(s);
  }

  // ----- Trimming -----

  lemma {:induction false} TrimStartIs(s: string) returns (n: nat)
    ensures n <= |s| && TrimStart(s) == s[n..] && Blank(s[..n])
    ensures n < |s| ==> s[n] as int !in WHITE_SPACE
  {
    hide WHITE_SPACE, IsWhitespace;
    if s != "" {
      WhitespaceIsListed(s[0]);
    }
    if s != "" && IsWhitespace(s[0]) {
      var rest := TrimStartIs(s[1..]);
      n := rest + 1;
      assert s[..n] == [s[0]] + s[1..][..rest] && s[1..][rest..] == s[n..];
    } else {
      n := 0;
    }
  }

  lemma {:induction false} TrimEndIs(s: string) returns (n: nat)
    ensures n <= |s| && TrimEnd(s) == s[..n] && Blank(s[n..])
    ensures n > 0 ==> s[n - 1] as int !in WHITE_SPACE
  {
    hide WHITE_SPACE, IsWhitespace;
    var last := |s| - 1;
    if s != "" {
      WhitespaceIsListed(s[last]);
    }
    if s != "" && IsWhitespace(s[last]) {
      n := TrimEndIs(s[..last]);
      assert s[n..] == s[..last][n..] + [s[last]] && s[..last][..n] == s[..n];
    } else {
      n := |s|;
    }
  }

  /** Trimming takes blanks off both ends and stops at anything else. */
  lemma {:induction false} TrimIs(s: string) returns (a: string, b: string)
    ensures s == a + Trim(s) + b && Blank(a) && Blank(b)
    ensures Trim(s) != "" ==>
      Trim(s)[0] as int !in WHITE_SPACE && Trim(s)[|Trim(s)| - 1] as int !in WHITE_SPACE
  {
    hide WHITE_SPACE, TrimStart, TrimEnd, Blank;
    var n := TrimStartIs(s);
    var rest := s[n..];
    var m := TrimEndIs(rest);
    a, b := s[..n], rest[m..];
    assert rest == rest[..m] + b;
  }

  lemma {:induction false} TrimmedIsBlank(s: string)
    ensures Trim(s) == "" <==> Blank(s)
  {
    hide WHITE_SPACE, Trim;
    var a, b := TrimIs(s);
    assert Trim(s) != "" ==> Trim(s)[0] == s[|a|] && s[|a|] in s;
    assert Trim(s) == "" ==> s == a + b;
  }

  lemma {:induction false} BlanksBefore(a: string, c: string, x: string, z: string)
    requires a + c == x + z && Blank(a) && Blank(x)
    requires c != "" && c[0] as int !in WHITE_SPACE && z != "" && z[0] as int !in WHITE_SPACE
    ensures a == x && c == z
  {
    hide WHITE_SPACE;
    var s := a + c;
    assert s[|a|] == c[0] && s[|x|] == z[0];
    forall k | 0 <= k < |a| ensures s[k] as int in WHITE_SPACE { assert s[k] == a[k] && a[k] in a; }
    forall k | 0 <= k < |x| ensures s[k] as int in WHITE_SPACE { assert s[k] == x[k] && x[k] in x; }
    assert a == s[..|a|] && x == s[..|x|] && c == s[|a|..] && z == s[|x|..];
  }

  lemma {:induction false} BlanksAfter(c: string, a: string, z: string, x: string)
    requires c + a == z + x && Blank(a) && Blank(x)
    requires c != "" && c[|c| - 1] as int !in WHITE_SPACE && z != "" && z[|z| - 1] as int !in WHITE_SPACE
    ensures c == z
  {
    hide WHITE_SPACE;
    var s := c + a;
    assert s[|c| - 1] == c[|c| - 1] && s[|z| - 1] == z[|z| - 1];
    forall k | |c| <= k < |s| ensures s[k] as int in WHITE_SPACE { assert s[k] == a[k - |c|] && a[k - |c|] in a; }
    forall k | |z| <= k < |s| ensures s[k] as int in WHITE_SPACE { assert s[k] == x[k - |z|] && x[k - |z|] in x; }
    assert c == s[..|c|] && z == s[..|z|];
  }

  /** The trimmed text is what stands between the blanks. */
  lemma {:induction false} TrimBetween(a: string, text: string, b: string)
    requires Blank(a) && Blank(b) && text != ""
    requires text[0] as int !in WHITE_SPACE && text[|text| - 1] as int !in WHITE_SPACE
    ensures Trim(a + text + b) == text
  {
    hide WHITE_SPACE, Trim, Blank;
    var s := a + text + b;
    var x, y := TrimIs(s);
    assert Trim(s) != "" by { SomethingLeft(a, text, b); }
    assert a + (text + b) == s == x + (Trim(s) + y);
    BlanksBefore(a, text + b, x, Trim(s) + y);
    BlanksAfter(text, b, Trim(s), y);
  }

  lemma {:induction false} SomethingLeft(a: string, text: string, b: string)
    requires text != "" && text[0] as int !in WHITE_SPACE
    ensures Trim(a + text + b) != ""
  {
    hide WHITE_SPACE, Trim;
    TrimmedIsBlank(a + text + b);
    assert (a + text + b)[|a|] == text[0] && text[0] in a + text + b;
  }

  // ----- Numbers -----

  predicate AllDigits(text: string) {
    forall k | 0 <= k < |text| :: '0' <= text[k] <= '9'
  }

  /** The number some digits stand for. */
  function NumberOf(digits: string): int
    requires AllDigits(digits)
  {
    if digits == "" then 0
    else (digits[0] as int - '0' as int) * Power10(|digits| - 1) + NumberOf(digits[1..])
  }

  function Power10(n: nat): nat {
    if n == 0 then 1 else 10 * Power10(n - 1)
  }

  /** The text is the number in decimal digits, perhaps after a plus sign, and of 64 bits. */
  ghost predicate Reads(text: string, n: nat) {
    && n < 0x1_0000_0000_0000_0000
    && exists digits | digits != "" && AllDigits(digits) && (text == digits || text == "+" + digits) ::
         NumberOf(digits) == n
  }

  lemma {:induction false} DigitsValueIsNumber(digits: string)
    ensures DigitsValue(digits).Some? <==> AllDigits(digits)
    ensures DigitsValue(digits).Some? ==> DigitsValue(digits).value == NumberOf(digits)
  {
    hide NumberOf;
    if digits != "" {
      var init, last := digits[..|digits| - 1], digits[|digits| - 1];
      assert digits == init + [last];
      DigitsValueIsNumber(init);
      assert AllDigits(digits) <==> AllDigits(init) && '0' <= last <= '9' by {
        assert forall k | 0 <= k < |init| :: init[k] == digits[k];
      }
      if AllDigits(digits) {
        NumberAppend(init, last);
      }
    } else {
      NoDigits();
    }
  }

  lemma {:induction false} NoDigits()
    ensures AllDigits("") && NumberOf("") == 0
  {
  }

  lemma {:induction false} NumberAppend(digits: string, last: char)
    requires AllDigits(digits) && '0' <= last <= '9'
    ensures AllDigits(digits + [last])
    ensures NumberOf(digits + [last]) == NumberOf(digits) * 10 + (last as int - '0' as int)
  {
    var more := digits + [last];
    if digits == "" {
      assert more[1..] == "" && Power10(0) == 1;
    } else {
      assert more[1..] == digits[1..] + [last] && more[0] == digits[0];
      NumberAppend(digits[1..], last);
      assert Power10(|more| - 1) == 10 * Power10(|digits| - 1);
      TenTimes(digits[0] as int - '0' as int, Power10(|digits| - 1));
    }
  }

  lemma {:induction false} TenTimes(d: int, p: int)
    ensures d * (10 * p) == (d * p) * 10
  {
  }

  lemma {:induction false} ParsedReads(text: string, n: nat)
    ensures ParseU64(text) == Some(n) <==> Reads(text, n)
  {
    hide DigitsValue, NumberOf;
    if ParseU64(text) == Some(n) {
      var digits := if text != "" && text[0] == '+' then text[1..] else text;
      DigitsValueIsNumber(digits);
      assert text == digits || text == "+" + digits;
    }
    if Reads(text, n) {
      var digits :| digits != "" && AllDigits(digits) && (text == digits || text == "+" + digits)
        && NumberOf(digits) == n;
      DigitsValueIsNumber(digits);
      assert text == "+" + digits ==> text[1..] == digits;
    }
  }

  /** No number is written with a blank at either end. */
  lemma {:induction false} NumbersHaveNoBlanks(text: string, n: nat)
    requires Reads(text, n)
    ensures text != "" && text[0] as int !in WHITE_SPACE && text[|text| - 1] as int !in WHITE_SPACE
  {
    hide NumberOf, WHITE_SPACE, IsWhitespace;
    var digits :| digits != "" && AllDigits(digits) && (text == digits || text == "+" + digits)
      && NumberOf(digits) == n;
    NotBlank(text[0]);
    NotBlank(text[|text| - 1]);
  }

  lemma {:induction false} NotBlank(c: char)
    ensures '0' <= c <= '9' || c == '+' ==> c as int !in WHITE_SPACE
  {
    WhitespaceIsListed(c);
  }

  /** The filter asks for this number, written between blanks. */
  ghost predicate AsksFor(filter: string, n: nat) {
    exists a, number, b :: filter == a + number + b && Blank(a) && Blank(b) && Reads(number, n)
  }

  lemma {:induction false} TrimmedReads(filter: string, n: nat)
    ensures ParseU64(Trim(filter)) == Some(n) <==> AsksFor(filter, n)
  {
    hide ParseU64, Trim, Reads, Blank, WHITE_SPACE;
    ParsedReads(Trim(filter), n);
    var a, b := TrimIs(filter);
    if AsksFor(filter, n) {
      var x, number, y :| filter == x + number + y && Blank(x) && Blank(y) && Reads(number, n);
      NumbersHaveNoBlanks(number, n);
      TrimBetween(x, number, y);
    }
  }

  // ----- A printed line -----

  datatype Printed = Printed(
    date: string, time: string, pid: string, tid: string, letter: string, domain: string, tag: string,
    process: string, message: string)
  {
    function Line(): string {
      HilogLine(date, time, pid, tid, letter, domain, tag, process, message)
    }

    /** Tokens without blanks, a domain without a slash, a process without a colon at its end. */
    ghost predicate IsPlain() {
      && IsToken(date) && IsToken(time) && IsToken(pid) && IsToken(tid) && IsToken(letter)
      && IsToken(domain + "/" + tag) && '/' !in domain
      && IsToken(process + ":") && (process != "" ==> process[|process| - 1] != ':')
      && (message != "" ==> !IsWhitespace(message[0]))
    }
  }

  const LEVEL_LETTERS: seq<(string, string)> :=
    [("V", "verbose"), ("D", "debug"), ("I", "info"), ("W", "warn"), ("E", "error"), ("F", "fatal")]

  /** The level of a letter is asked for: its own, or "unknown" for a letter of none. */
  ghost predicate LevelWanted(levels: seq<string>, letter: string) {
    || levels == []
    || (exists i | 0 <= i < |LEVEL_LETTERS| :: LEVEL_LETTERS[i].0 == letter && LEVEL_LETTERS[i].1 in levels)
    || ((forall i | 0 <= i < |LEVEL_LETTERS| :: LEVEL_LETTERS[i].0 != letter) && "unknown" in levels)
  }

  /** Each filter that is not blank stands in its own token; that of the process id is its number. */
  ghost predicate FieldsWanted(request: Request, p: Printed) {
    && LevelWanted(request.levels, p.letter)
    && (Blank(request.pid) || exists n: nat :: AsksFor(request.pid, n) && Reads(p.pid, n))
    && (Blank(request.process) || Occurs(request.process, p.process, request.matchCase))
    && (Blank(request.domain) || Occurs(request.domain, p.domain, request.matchCase))
    && (Blank(request.tag) || Occurs(request.tag, p.tag, request.matchCase))
  }

  lemma {:induction false} ContainsFilterOccurs(token: string, filter: string, matchCase: bool)
    ensures ContainsFilter(token, filter, matchCase) <==> Blank(filter) || Occurs(filter, token, matchCase)
  {
    hide Contains, Trim, Occurs, ToAsciiLowercase, Blank;
    TrimmedIsBlank(filter);
    ContainedOccurs(token, filter);
    LowercaseContainedOccurs(token, filter);
  }

  lemma {:induction false} PidMatches(pid: string, filter: string)
    ensures MatchesPid(ParseU64(pid), filter)
       <==> Blank(filter) || exists n: nat :: AsksFor(filter, n) && Reads(pid, n)
  {
    hide ParseU64, Trim, Reads, Blank, AsksFor;
    TrimmedIsBlank(filter);
    if ParseU64(Trim(filter)).Some? {
      TrimmedReads(filter, ParseU64(Trim(filter)).value);
      ParsedReads(pid, ParseU64(Trim(filter)).value);
    }
    forall n: nat | AsksFor(filter, n) && Reads(pid, n) ensures ParseU64(Trim(filter)) == ParseU64(pid) == Some(n) {
      TrimmedReads(filter, n);
      ParsedReads(pid, n);
    }
  }

  lemma {:induction false} LevelMatches(letter: string, levels: seq<string>)
    ensures levels == [] || LevelName(letter) in levels <==> LevelWanted(levels, letter)
  {
    assert LEVEL_LETTERS[0] == ("V", "verbose") && LEVEL_LETTERS[1] == ("D", "debug") && LEVEL_LETTERS[2] == ("I", "info");
    assert LEVEL_LETTERS[3] == ("W", "warn") && LEVEL_LETTERS[4] == ("E", "error") && LEVEL_LETTERS[5] == ("F", "fatal");
  }

  lemma {:induction false} PrintedPasses(seqNo: nat, receivedAtMs: nat, p: Printed, request: Request)
    requires p.IsPlain()
    ensures MatchesStructuredFilters(ParseQueryRow(seqNo, receivedAtMs, p.Line()), request) <==> FieldsWanted(request, p)
    ensures ParseQueryRow(seqNo, receivedAtMs, p.Line()).level == LevelFromLine(p.Line()) == LevelName(p.letter)
  {
    HilogLineParsesBack(
      seqNo, receivedAtMs, p.date, p.time, p.pid, p.tid, p.letter, p.domain, p.tag, p.process, p.message);
    LineParts(p.date, p.time, p.pid, p.tid, p.letter, p.domain, p.tag, p.process, p.message);
    ContainsFilterOccurs(p.process, request.process, request.matchCase);
    ContainsFilterOccurs(p.domain, request.domain, request.matchCase);
    ContainsFilterOccurs(p.tag, request.tag, request.matchCase);
    PidMatches(p.pid, request.pid);
    LevelMatches(p.letter, request.levels);
    hide HilogLine, Prefix, ParseQueryRow, ContainsFilter, MatchesPid, LevelWanted, LevelName, IsToken, SplitWhitespace,
      Occurs, Blank, Reads, AsksFor, ParseU64, Contains;
  }

  // ----- The text query -----

  /** The text asked for stands in the line, or its pattern accepts the line. */
  ghost predicate TextWanted(request: Request, engine: RegexEngine, raw: string) {
    || Blank(request.query)
    || if request.regex then
         var pattern := engine(request.query, request.matchCase);
         pattern.Some? && pattern.value(raw)
       else Occurs(request.query, raw, request.matchCase)
  }

  /** A matcher is refused exactly for a pattern that is too long or does not compile. */
  lemma {:induction false} MatcherExactly(request: Request, engine: RegexEngine)
    ensures BuildMatcher(request, engine).Err?
       <==> !Blank(request.query) && request.regex
            && (|request.query| > 2048 || engine(request.query, request.matchCase).None?)
  {
    hide Trim, Blank;
    TrimmedIsBlank(request.query);
  }

  lemma {:induction false} MatcherWants(request: Request, engine: RegexEngine, matcher: TextMatcher, row: QueryRow)
    requires BuildMatcher(request, engine) == Ok(matcher)
    ensures MatchesText(matcher)(row) <==> TextWanted(request, engine, row.raw)
  {
    hide Contains, Trim, Occurs, ToAsciiLowercase, Blank;
    TrimmedIsBlank(request.query);
    ContainedOccurs(row.raw, request.query);
    LowercaseContainedOccurs(row.raw, request.query);
  }

  // ----- What a query returns of one line -----

  /** Received within the time asked for, counted back from now, or from the last time SQLite can hold. */
  predicate TimeWanted(request: Request, nowMs: nat, receivedAtMs: nat) {
    var end := if nowMs <= 0x7FFF_FFFF_FFFF_FFFF then nowMs else 0x7FFF_FFFF_FFFF_FFFF;
    receivedAtMs <= end <= receivedAtMs + request.timeRangeMs
  }

  /** The stream, the time, the place before the cursor, the fields and the text are those asked for. */
  ghost predicate Wanted(request: Request, nowMs: nat, engine: RegexEngine, batch: MetadataRow, p: Printed) {
    && batch.streamId == request.streamId && TimeWanted(request, nowMs, batch.receivedAtMs)
    && (request.cursorSeq.Some? ==> batch.firstSeq < request.cursorSeq.value)
    && FieldsWanted(request, p) && TextWanted(request, engine, p.Line())
  }

  /** One batch of one printed line, as it is stored, with the one file that holds it. */
  ghost predicate HoldsLine(files: Files, batch: MetadataRow, p: Printed) {
    && p.IsPlain() && '\n' !in p.Line() && StripCarriageReturn(p.Line()) == p.Line()
    && batch.segmentFile in files && files[batch.segmentFile] == BatchBytes([p.Line()])
    && batch.segmentOffset == 0 && batch.segmentBytes == |BatchBytes([p.Line()])| <= MAX_SEGMENT_READ_BYTES
    && batch.levels == LevelSummary([p.Line()])
  }

  lemma {:induction false} HeldLineReads(files: Files, batch: MetadataRow, p: Printed)
    requires HoldsLine(files, batch, p)
    ensures BatchLines(files, batch) == Ok([p.Line()]) && batch.levels == [LevelFromLine(p.Line())]
    ensures BatchRows(files, batch) == [ParseQueryRow(batch.firstSeq, batch.receivedAtMs, p.Line())]
  {
    hide LevelFromLine, Printed.Line, Printed.IsPlain, ParseQueryRow;
    var line := p.Line();
    assert LevelSummary([line][..0]) == [];
    hide Written, Encode;
    var bytes := BatchBytes([line]);
    assert [] + bytes + [] == bytes;
    ReadBack([], [line], []);
    assert [line][1..] == [] && StoredLines([]) == [] && StoredLines([line]) == [line];
    assert ParseRows(batch.firstSeq + 1, batch.receivedAtMs, []) == [];
  }

  lemma {:induction false} HeldLineIsCandidate(
      files: Files, batch: MetadataRow, p: Printed, request: Request, nowMs: nat)
    requires HoldsLine(files, batch, p)
    ensures var row := ParseQueryRow(batch.firstSeq, batch.receivedAtMs, p.Line());
      Candidates(files, QueriedBatches([batch], request, nowMs), request)
      == if batch.streamId == request.streamId && TimeWanted(request, nowMs, batch.receivedAtMs)
            && (request.cursorSeq.Some? ==> batch.firstSeq < request.cursorSeq.value) && FieldsWanted(request, p)
         then [row] else []
  {
    HeldLineReads(files, batch, p);
    PrintedPasses(batch.firstSeq, batch.receivedAtMs, p, request);
    ParsedSeq(batch.firstSeq, batch.receivedAtMs, p.Line());
    hide HoldsLine, BatchLines, BatchRows, ParseQueryRow, Printed.Line, FieldsWanted, LevelFromLine;
    var row := ParseQueryRow(batch.firstSeq, batch.receivedAtMs, p.Line());
    OneQueried(batch, request, nowMs);
    OneCandidate(files, batch, request, row);
  }

  lemma {:induction false} OneQueried(batch: MetadataRow, request: Request, nowMs: nat)
    ensures QueriedBatches([batch], request, nowMs)
         == if batch.streamId == request.streamId && TimeWanted(request, nowMs, batch.receivedAtMs) then [batch] else []
  {
    assert [batch][1..] == [];
    var startMs, endMs := RangeStart(nowMs, request.timeRangeMs), RangeEnd(nowMs);
    assert startMs <= batch.receivedAtMs <= endMs <==> TimeWanted(request, nowMs, batch.receivedAtMs);
    OneFiltered(batch, Selects(request.streamId, startMs, endMs));
  }

  lemma {:induction false} OneFiltered<T>(x: T, keep: T -> bool)
    ensures Filter([x], keep) == if keep(x) then [x] else []
    ensures Filter([], keep) == []
  {
    assert [x][1..] == [];
  }

  /** Its level is the summarised one, so the batch is skipped only if the row is out of scope. */
  lemma {:induction false} OneCandidate(files: Files, batch: MetadataRow, request: Request, row: QueryRow)
    requires BatchRows(files, batch) == [row] && batch.levels == [row.level] && row.seqNo == batch.firstSeq
    ensures Candidates(files, [batch], request) == if InScope(request)(row) then [row] else []
    ensures Candidates(files, [], request) == []
  {
    hide BatchRows, MatchesPid, ContainsFilter;
    assert [batch][1..] == [] && [row][1..] == [];
    assert Filter([row], InScope(request)) == if InScope(request)(row) then [row] else [];
    if ExcludedByLevel(batch.levels, request.levels) {
      assert row.level in batch.levels;
    }
  }

  /** What a scan of at most one candidate comes to. */
  lemma {:induction false} OneScanned(
      rules: ScanRules, candidates: seq<QueryRow>, scanned: seq<QueryRow>, reason: StopReason, row: QueryRow)
    requires Stopped(rules, candidates, scanned, reason) && reason != Cancelled
    requires candidates == [] || candidates == [row]
    ensures Respond(rules, scanned, reason).rows
         == if candidates == [row] && MatchesText(rules.matcher)(row) then [row] else []
  {
    hide MatchesText, Verdict, RanThrough;
    assert scanned == candidates;
    assert [row][1..] == [];
    var matches := Filter(scanned, MatchesText(rules.matcher));
    OneFiltered(row, MatchesText(rules.matcher));
    assert matches == if candidates == [row] && MatchesText(rules.matcher)(row) then [row] else [];
    assert Reverse(matches) == matches && SortBySeq(matches) == matches;
  }

  /**
    A query of a store that holds one printed line answers with its row exactly if it is wanted: of the
    stream, the time and the place asked for, with each filter found in its own token, by letters, by
    letters whatever their capitals, or by number, and with the text.
    */
  lemma {:induction false} QueryFindsPrintedLine(
      files: Files, batch: MetadataRow, p: Printed, request: Request, nowMs: nat, engine: RegexEngine,
      expired: nat -> bool, response: Response, scanned: seq<QueryRow>, stale: set<string>, polls: nat)
    requires HoldsLine(files, batch, p)
    requires QueryOutcome(
      files, [batch], request, nowMs, engine, expired, None, Ok(response), scanned, stale, polls)
    ensures response.rows
         == if Wanted(request, nowMs, engine, batch, p)
            then [ParseQueryRow(batch.firstSeq, batch.receivedAtMs, p.Line())] else []
  {
    hide HoldsLine, BatchLines, ParseQueryRow, Printed.Line, FieldsWanted, TextWanted, Stopped, Respond, MatchesText,
      BuildMatcher, Collected, AllStale, QueriedBatches, Candidates, TimeWanted;
    var matcher := BuildMatcher(request, engine).value;
    var row := ParseQueryRow(batch.firstSeq, batch.receivedAtMs, p.Line());
    assert response.stopReason != Cancelled by {
      assert response.stopReason == Cancelled ==> PollsCancelled(None, polls - 1);
    }
    HeldLineIsCandidate(files, batch, p, request, nowMs);
    RawIs(batch.firstSeq, batch.receivedAtMs, p.Line());
    MatcherWants(request, engine, matcher, row);
    OneScanned(
      Rules(request, matcher, expired), Candidates(files, QueriedBatches([batch], request, nowMs), request), scanned,
      response.stopReason, row);
  }

  lemma {:induction false} RawIs(seqNo: nat, receivedAtMs: nat, line: string)
    ensures ParseQueryRow(seqNo, receivedAtMs, line).raw == line
  {
  }
}
