/** One HiLog line: its tokens, the level summary written beside a batch, and the row a query parses. */
module DeviceLogLine {
  import opened Sequences

  const U64_LIMIT: nat := 0x1_0000_0000_0000_0000

  // ----- Rust's string helpers -----

  /** Unicode `White_Space`, which `split_whitespace` and `trim` use. */
  predicate IsWhitespace(c: char) {
    var n := c as int;
    || 0x09 <= n <= 0x0D || n == 0x20 || n == 0x85 || n == 0xA0 || n == 0x1680
    || 0x2000 <= n <= 0x200A || n == 0x2028 || n == 0x2029 || n == 0x202F || n == 0x205F || n == 0x3000
  }

  /** The code points with the property `White_Space`. */
  const WHITE_SPACE: seq<int> := [
    0x09, 0x0A, 0x0B, 0x0C, 0x0D, 0x20, 0x85, 0xA0, 0x1680, 0x2000, 0x2001, 0x2002, 0x2003, 0x2004, 0x2005,
    0x2006, 0x2007, 0x2008, 0x2009, 0x200A, 0x2028, 0x2029, 0x202F, 0x205F, 0x3000]

  lemma {:induction false} WhitespaceIsListed(c: char)
    ensures IsWhitespace(c) <==> c as int in WHITE_SPACE
  {
    var n := c as int;
    if 0x09 <= n <= 0x0D { assert WHITE_SPACE[n - 0x09] == n; }
    if 0x2000 <= n <= 0x200A { assert WHITE_SPACE[n - 0x2000 + 9] == n; }
    assert WHITE_SPACE[5] == 0x20 && WHITE_SPACE[6] == 0x85 && WHITE_SPACE[7] == 0xA0 && WHITE_SPACE[8] == 0x1680;
    assert WHITE_SPACE[20] == 0x2028 && WHITE_SPACE[21] == 0x2029 && WHITE_SPACE[22] == 0x202F;
    assert WHITE_SPACE[23] == 0x205F && WHITE_SPACE[24] == 0x3000;
  }

  /** How many characters precede the first whitespace. */
  function WordLength(s: string): (n: nat)
    ensures n <= |s|
    ensures forall i | 0 <= i < n :: !IsWhitespace(s[i])
    ensures n < |s| ==> IsWhitespace(s[n])
  {
    if s == "" || IsWhitespace(s[0]) then 0 else 1 + WordLength(s[1..])
  }

  function SplitWhitespace(s: string): seq<string> {
    if s == "" then []
    else if IsWhitespace(s[0]) then SplitWhitespace(s[1..])
    else [s[..WordLength(s)]] + SplitWhitespace(s[WordLength(s)..])
  }

  function TrimStart(s: string): string {
    if s != "" && IsWhitespace(s[0]) then TrimStart(s[1..]) else s
  }

  function TrimEnd(s: string): string {
    if s != "" && IsWhitespace(s[|s| - 1]) then TrimEnd(s[..|s| - 1]) else s
  }

  function Trim(s: string): string {
    TrimEnd(TrimStart(s))
  }

  function TrimEndColons(s: string): string {
    if s != "" && s[|s| - 1] == ':' then TrimEndColons(s[..|s| - 1]) else s
  }

  /** The text around the first occurrence of `pattern`. */
  function SplitOnce(s: string, pattern: string): (r: Option<(string, string)>)
    ensures r.Some? ==> s == r.value.0 + pattern + r.value.1
  {
    if pattern <= s then Some(("", s[|pattern|..]))
    else if s == "" then None
    else
      match SplitOnce(s[1..], pattern)
      case None => None
      case Some((before, after)) => Some(([s[0]] + before, after))
  }

  predicate Contains(s: string, pattern: string) {
    SplitOnce(s, pattern).Some?
  }

  function AsciiLower(c: char): char {
    if 'A' <= c <= 'Z' then c + 32 as char else c
  }

  function ToAsciiLowercase(s: string): string {
    if s == "" then "" else [AsciiLower(s[0])] + ToAsciiLowercase(s[1..])
  }

  function DigitsValue(s: string): Option<nat> {
    if s == "" then Some(0)
    else if !('0' <= s[|s| - 1] <= '9') then None
    else
      match DigitsValue(s[..|s| - 1])
      case None => None
      case Some(high) => Some(high * 10 + (s[|s| - 1] as int - '0' as int))
  }

  /** `str::parse::<u64>().ok()`: an optional plus sign, digits, no overflow. */
  function ParseU64(s: string): Option<nat> {
    var digits := if s != "" && s[0] == '+' then s[1..] else s;
    if digits == "" then None
    else
      match DigitsValue(digits)
      case None => None
      case Some(n) => if n < U64_LIMIT then Some(n) else None
  }

  // ----- Tokens -----

  lemma {:induction false} WordEnds(word: string, rest: string)
    requires forall i | 0 <= i < |word| :: !IsWhitespace(word[i])
    requires rest == "" || IsWhitespace(rest[0])
    ensures WordLength(word + rest) == |word|
  {
    if word == "" {
      assert word + rest == rest;
    } else {
      assert (word + rest)[1..] == word[1..] + rest;
      WordEnds(word[1..], rest);
    }
  }

  lemma {:induction false} OneToken(word: string, rest: string)
    requires word != "" && forall i | 0 <= i < |word| :: !IsWhitespace(word[i])
    requires rest == "" || IsWhitespace(rest[0])
    ensures SplitWhitespace(word + rest) == [word] + SplitWhitespace(rest)
  {
    WordEnds(word, rest);
    assert (word + rest)[..|word|] == word && (word + rest)[|word|..] == rest;
  }

  lemma {:induction false} SpacedToken(letter: char, rest: string)
    requires !IsWhitespace(letter)
    ensures SplitWhitespace([letter, ' '] + rest) == [[letter]] + SplitWhitespace(rest)
  {
    assert [letter, ' '] + rest == [letter] + ([' '] + rest);
    OneToken([letter], [' '] + rest);
    assert ([' '] + rest)[1..] == rest;
  }

  lemma {:induction false} LastToken(letter: char)
    requires !IsWhitespace(letter)
    ensures SplitWhitespace([letter]) == [[letter]]
  {
    OneToken([letter], "");
    assert [letter] + "" == [letter];
  }

  // ----- Levels -----

  const NAMED_LEVELS: seq<string> := ["verbose", "debug", "info", "warn", "error", "fatal"]

  function LevelName(part: string): string {
    if part == "V" then "verbose"
    else if part == "D" then "debug"
    else if part == "I" then "info"
    else if part == "W" then "warn"
    else if part == "E" then "error"
    else if part == "F" then "fatal"
    else "unknown"
  }

  /** The summary's reading of a line: five tokens are enough. */
  function LevelFromLine(line: string): string {
    var parts := SplitWhitespace(line);
    if |parts| < 5 then "unknown" else LevelName(parts[4])
  }

  /** Distinct levels in first-seen order. */
  function LevelSummary(lines: seq<string>): seq<string> {
    if lines == [] then []
    else
      var earlier := LevelSummary(lines[..|lines| - 1]);
      var level := LevelFromLine(lines[|lines| - 1]);
      if level in earlier then earlier else earlier + [level]
  }

  method SummarizeLogLevels(lines: seq<string>) returns (levels: seq<string>)
    ensures levels == LevelSummary(lines)
  {
    levels := [];
    for i := 0 to |lines|
      invariant levels == LevelSummary(lines[..i])
    {
      assert lines[..i + 1][..i] == lines[..i];
      var level := LevelFromLine(lines[i]);
      if level !in levels {
        levels := levels + [level];
      }
    }
    assert lines[..|lines|] == lines;
  }

  /** The summary holds a level exactly when some line has it, and holds it once. */
  lemma {:induction false} SummaryIsTheSetOfLevels(lines: seq<string>)
    ensures forall level :: level in LevelSummary(lines) <==> exists line <- lines :: LevelFromLine(line) == level
    ensures forall i, j | 0 <= i < j < |LevelSummary(lines)| :: LevelSummary(lines)[i] != LevelSummary(lines)[j]
  {
    if lines != [] {
      var init, last := lines[..|lines| - 1], lines[|lines| - 1];
      SummaryIsTheSetOfLevels(init);
      assert lines == init + [last];
    }
  }

  // ----- Severities -----

  datatype SeverityCounts = SeverityCounts(warn: nat, error: nat, fatal: nat)

  function HasLevel(level: string): string -> bool {
    (line: string) => LevelFromLine(line) == level
  }

  /** How many of the lines have each of the three severities. */
  function Severities(lines: seq<string>): SeverityCounts {
    SeverityCounts(
      |Filter(lines, HasLevel("warn"))|, |Filter(lines, HasLevel("error"))|, |Filter(lines, HasLevel("fatal"))|)
  }

  function AddSeverities(a: SeverityCounts, b: SeverityCounts): SeverityCounts {
    SeverityCounts(a.warn + b.warn, a.error + b.error, a.fatal + b.fatal)
  }

  lemma {:induction false} SeveritiesConcat(a: seq<string>, b: seq<string>)
    ensures Severities(a + b) == AddSeverities(Severities(a), Severities(b))
  {
    hide HasLevel;
    FilterConcat(a, b, HasLevel("warn"));
    FilterConcat(a, b, HasLevel("error"));
    FilterConcat(a, b, HasLevel("fatal"));
  }

  /** Each further line counts once, for the severity its level is, if it is one of the three. */
  lemma {:induction false} SeveritiesCountLines(lines: seq<string>, line: string)
    ensures Severities([]) == SeverityCounts(0, 0, 0)
    ensures var before, after, level := Severities(lines), Severities(lines + [line]), LevelFromLine(line);
      && after.warn == before.warn + (if level == "warn" then 1 else 0)
      && after.error == before.error + (if level == "error" then 1 else 0)
      && after.fatal == before.fatal + (if level == "fatal" then 1 else 0)
  {
    hide LevelFromLine;
    FilterConcat(lines, [line], HasLevel("warn"));
    FilterConcat(lines, [line], HasLevel("error"));
    FilterConcat(lines, [line], HasLevel("fatal"));
  }

  method CountLogSeverities(lines: seq<string>) returns (counts: SeverityCounts)
    ensures counts == Severities(lines)
  {
    hide LevelFromLine;
    counts := SeverityCounts(0, 0, 0);
    for i := 0 to |lines|
      invariant counts == Severities(lines[..i])
    {
      assert lines[..i + 1] == lines[..i] + [lines[i]];
      FilterConcat(lines[..i], [lines[i]], HasLevel("warn"));
      FilterConcat(lines[..i], [lines[i]], HasLevel("error"));
      FilterConcat(lines[..i], [lines[i]], HasLevel("fatal"));
      var level := LevelFromLine(lines[i]);
      if level == "warn" {
        counts := counts.(warn := counts.warn + 1);
      } else if level == "error" {
        counts := counts.(error := counts.error + 1);
      } else if level == "fatal" {
        counts := counts.(fatal := counts.fatal + 1);
      }
    }
    assert lines[..|lines|] == lines;
  }

  // ----- Query rows -----

  datatype QueryRow = QueryRow(
    seqNo: nat, receivedAtMs: nat, raw: string, timestamp: Option<string>, level: string,
    pid: Option<nat>, tid: Option<nat>, process: string, domain: string, tag: string, message: string)

  function FallbackRow(seqNo: nat, receivedAtMs: nat, raw: string): QueryRow {
    QueryRow(seqNo, receivedAtMs, raw, None, "unknown", None, None, "", "", "", raw)
  }

  /** The query's reading of a line: seven tokens, and a slash in the sixth. */
  function ParseQueryRow(seqNo: nat, receivedAtMs: nat, raw: string): (row: QueryRow)
    ensures row.seqNo == seqNo && row.receivedAtMs == receivedAtMs && row.raw == raw
  {
    var parts := SplitWhitespace(raw);
    if |parts| < 7 then FallbackRow(seqNo, receivedAtMs, raw)
    else
      match SplitOnce(parts[5], "/")
      case None => FallbackRow(seqNo, receivedAtMs, raw)
      case Some((domain, tag)) =>
        var process := TrimEndColons(parts[6]);
        var message :=
          match SplitOnce(raw, process + ":")
          case None => raw
          case Some((_, after)) => TrimStart(after);
        QueryRow(seqNo, receivedAtMs, raw, Some(parts[0] + " " + parts[1]), LevelName(parts[4]),
                 ParseU64(parts[2]), ParseU64(parts[3]), process, domain, tag, message)
  }

  /** What HiLog prints. */
  function HilogLine(
      date: string, time: string, pid: string, tid: string, letter: string, domain: string, tag: string,
      process: string, message: string): string
  {
    Prefix(date, time, pid, tid, letter, domain, tag) + (process + ":") + (" " + message)
  }

  function Prefix(
      date: string, time: string, pid: string, tid: string, letter: string, domain: string, tag: string): string
  {
    date + " " + (time + " " + (pid + " " + (tid + " " + (letter + " " + (domain + "/" + tag + " ")))))
  }

  predicate IsToken(s: string) {
    s != "" && forall i | 0 <= i < |s| :: !IsWhitespace(s[i])
  }

  lemma {:induction false} TokenThen(token: string, rest: string)
    requires IsToken(token)
    ensures SplitWhitespace(token + " " + rest) == [token] + SplitWhitespace(rest)
  {
    assert token + " " + rest == token + (" " + rest);
    OneToken(token, " " + rest);
    assert (" " + rest)[1..] == rest;
  }

  /** A word at the front does not reach past the space that ends `head`. */
  lemma {:induction false} WordInHead(head: string, word: string, tail: string)
    requires IsToken(word) && head != "" && IsWhitespace(head[|head| - 1])
    ensures word <= head + tail <==> word <= head
  {
    var s := head + tail;
    assert word <= s ==> forall k | 0 <= k < |word| :: word[k] == s[k];
    assert s[|head| - 1] == head[|head| - 1];
    assert |word| <= |head| ==> s[..|word|] == head[..|word|];
  }

  /** How a text ending in a space splits at a word when the word, and more, comes after it. */
  function Continued(split: Option<(string, string)>, head: string, word: string, tail: string): Option<(string, string)>
    requires word <= tail
  {
    match split
    case None => Some((head, tail[|word|..]))
    case Some((before, between)) => Some((before, between + tail))
  }

  function Pushed(c: char, split: Option<(string, string)>): Option<(string, string)> {
    match split
    case None => None
    case Some((before, after)) => Some(([c] + before, after))
  }

  lemma {:induction false} SplitUnfolds(s: string, word: string)
    ensures word <= s ==> SplitOnce(s, word) == Some(("", s[|word|..]))
    ensures !(word <= s) && s != "" ==> SplitOnce(s, word) == Pushed(s[0], SplitOnce(s[1..], word))
    ensures !(word <= s) && s == "" ==> SplitOnce(s, word) == None
  {
  }

  lemma {:induction false} PushedContinues(split: Option<(string, string)>, head: string, word: string, tail: string)
    requires head != "" && word <= tail
    ensures Pushed(head[0], Continued(split, head[1..], word, tail)) == Continued(Pushed(head[0], split), head, word, tail)
  {
    assert [head[0]] + head[1..] == head;
  }

  lemma {:induction false} SequencesShift(head: string, word: string, tail: string)
    requires head != ""
    ensures (head + tail)[0] == head[0] && (head + tail)[1..] == head[1..] + tail
    ensures word <= head ==> (head + tail)[|word|..] == head[|word|..] + tail
    ensures head[1..] != "" ==> head[1..][|head[1..]| - 1] == head[|head| - 1]
  {
  }

  /** A word split at where it stands at the front of `tail`, unless `head` holds it already. */
  lemma {:induction false} SplitAfterHead(head: string, word: string, tail: string)
    requires IsToken(word) && word <= tail && (head != "" ==> IsWhitespace(head[|head| - 1]))
    ensures SplitOnce(head + tail, word) == Continued(SplitOnce(head, word), head, word, tail)
  {
    SplitUnfolds(head + tail, word);
    SplitUnfolds(head, word);
    if head == "" {
      assert head + tail == tail;
    } else {
      WordInHead(head, word, tail);
      SequencesShift(head, word, tail);
      hide SplitOnce, IsToken, Pushed;
      if !(word <= head) {
        hide Continued;
        SplitAfterHead(head[1..], word, tail);
        PushedContinues(SplitOnce(head[1..], word), head, word, tail);
      }
    }
  }

  lemma {:induction false} TrimStopsAtWord(between: string, word: string, tail: string)
    requires IsToken(word) && word <= tail
    ensures |TrimStart(between + tail)| >= |tail|
  {
    if between != "" {
      assert (between + tail)[1..] == between[1..] + tail;
      TrimStopsAtWord(between[1..], word, tail);
    } else {
      assert between + tail == tail && tail[0] == word[0];
    }
  }

  lemma {:induction false} HilogTokens(
      date: string, time: string, pid: string, tid: string, letter: string, domain: string, tag: string,
      process: string, message: string)
    requires IsToken(date) && IsToken(time) && IsToken(pid) && IsToken(tid) && IsToken(letter)
    requires IsToken(domain + "/" + tag) && IsToken(process + ":")
    ensures SplitWhitespace(HilogLine(date, time, pid, tid, letter, domain, tag, process, message))
         == [date, time, pid, tid, letter, domain + "/" + tag, process + ":"] + SplitWhitespace(message)
  {
    hide SplitWhitespace, IsToken;
    var last := process + ":" + " " + message;
    var sixth := domain + "/" + tag + " " + last;
    var fifth := letter + " " + sixth;
    var fourth := tid + " " + fifth;
    var third := pid + " " + fourth;
    var second := time + " " + third;
    assert HilogLine(date, time, pid, tid, letter, domain, tag, process, message) == date + " " + second;
    TokenThen(date, second);
    TokenThen(time, third);
    TokenThen(pid, fourth);
    TokenThen(tid, fifth);
    TokenThen(letter, sixth);
    TokenThen(domain + "/" + tag, last);
    TokenThen(process + ":", message);
  }

  lemma {:induction false} SplitAtSlash(domain: string, tag: string)
    requires '/' !in domain
    ensures SplitOnce(domain + "/" + tag, "/") == Some((domain, tag))
  {
    if domain == "" {
      assert domain + "/" + tag == "/" + tag;
    } else {
      assert (domain + "/" + tag)[1..] == domain[1..] + "/" + tag;
      SplitAtSlash(domain[1..], tag);
      assert [domain[0]] + domain[1..] == domain;
    }
  }

  /**
    A printed line parses back to its fields, and to its message exactly if the process name followed
    by a colon does not occur among the tokens before it: the message is taken to start at the first.
    */
  lemma {:induction false} HilogLineParsesBack(
      seqNo: nat, receivedAtMs: nat, date: string, time: string, pid: string, tid: string, letter: string,
      domain: string, tag: string, process: string, message: string)
    requires IsToken(date) && IsToken(time) && IsToken(pid) && IsToken(tid) && IsToken(letter)
    requires IsToken(domain + "/" + tag) && '/' !in domain
    requires IsToken(process + ":") && (process != "" ==> process[|process| - 1] != ':')
    requires message != "" ==> !IsWhitespace(message[0])
    ensures var line := HilogLine(date, time, pid, tid, letter, domain, tag, process, message);
      var row := ParseQueryRow(seqNo, receivedAtMs, line);
      && row == QueryRow(seqNo, receivedAtMs, line, Some(date + " " + time), LevelName(letter),
                         ParseU64(pid), ParseU64(tid), process, domain, tag, row.message)
      && (row.message == message
          <==> !Contains(Prefix(date, time, pid, tid, letter, domain, tag), process + ":"))
  {
    hide *;
    MessageOfLine(date, time, pid, tid, letter, domain, tag, process, message);
    LineParts(date, time, pid, tid, letter, domain, tag, process, message);
    SplitAtSlash(domain, tag);
    ColonTrimmed(process);
    WholeLineParses(seqNo, receivedAtMs, HilogLine(date, time, pid, tid, letter, domain, tag, process, message));
  }

  lemma {:induction false} LineParts(
      date: string, time: string, pid: string, tid: string, letter: string, domain: string, tag: string,
      process: string, message: string)
    requires IsToken(date) && IsToken(time) && IsToken(pid) && IsToken(tid) && IsToken(letter)
    requires IsToken(domain + "/" + tag) && IsToken(process + ":")
    ensures var parts := SplitWhitespace(HilogLine(date, time, pid, tid, letter, domain, tag, process, message));
      && |parts| >= 7 && parts[0] == date && parts[1] == time && parts[2] == pid && parts[3] == tid
      && parts[4] == letter && parts[5] == domain + "/" + tag && parts[6] == process + ":"
  {
    hide *;
    HilogTokens(date, time, pid, tid, letter, domain, tag, process, message);
  }

  lemma {:induction false} MessageOfLine(
      date: string, time: string, pid: string, tid: string, letter: string, domain: string, tag: string,
      process: string, message: string)
    requires IsToken(process + ":") && (message != "" ==> !IsWhitespace(message[0]))
    ensures var line := HilogLine(date, time, pid, tid, letter, domain, tag, process, message);
      var split := SplitOnce(line, process + ":");
      && split.Some?
      && (TrimStart(split.value.1) == message
          <==> !Contains(Prefix(date, time, pid, tid, letter, domain, tag), process + ":"))
  {
    var head := Prefix(date, time, pid, tid, letter, domain, tag);
    assert head != "" && head[|head| - 1] == ' ';
    LineIs(date, time, pid, tid, letter, domain, tag, process, message);
    hide *;
    MessageIsAfter(head, process + ":", message);
  }

  /** The message is what follows the word, as long as the head does not hold the word. */
  lemma {:induction false} MessageIsAfter(head: string, word: string, message: string)
    requires IsToken(word) && head != "" && head[|head| - 1] == ' '
    requires message != "" ==> !IsWhitespace(message[0])
    ensures var split := SplitOnce(head + (word + (" " + message)), word);
      split.Some? && (TrimStart(split.value.1) == message <==> !Contains(head, word))
  {
    var tail := word + (" " + message);
    SplitAfterHead(head, word, tail);
    assert tail[|word|..] == " " + message;
    SpaceTrimmed(message);
    hide SplitOnce, TrimStart, IsToken;
    if Contains(head, word) {
      TrimStopsAtWord(SplitOnce(head, word).value.1, word, tail);
    }
  }

  lemma {:induction false} WholeLineParses(seqNo: nat, receivedAtMs: nat, line: string)
    requires var parts := SplitWhitespace(line); |parts| >= 7 && SplitOnce(parts[5], "/").Some?
    ensures var parts := SplitWhitespace(line);
      var row, (domain, tag) := ParseQueryRow(seqNo, receivedAtMs, line), SplitOnce(parts[5], "/").value;
      var name := TrimEndColons(parts[6]);
      && row == QueryRow(seqNo, receivedAtMs, line, Some(parts[0] + " " + parts[1]), LevelName(parts[4]),
                         ParseU64(parts[2]), ParseU64(parts[3]), name, domain, tag, row.message)
      && (SplitOnce(line, name + ":").Some? ==> row.message == TrimStart(SplitOnce(line, name + ":").value.1))
  {
    hide SplitWhitespace, SplitOnce, TrimEndColons, TrimStart, ParseU64, LevelName;
  }

  lemma {:induction false} LineIs(
      date: string, time: string, pid: string, tid: string, letter: string, domain: string, tag: string,
      process: string, message: string)
    ensures HilogLine(date, time, pid, tid, letter, domain, tag, process, message)
         == Prefix(date, time, pid, tid, letter, domain, tag) + (process + ":" + (" " + message))
  {
  }

  lemma {:induction false} ContainsAt(s: string, i: nat, pattern: string)
    requires i <= |s| && pattern <= s[i..]
    ensures Contains(s, pattern)
  {
    if i > 0 && !(pattern <= s) {
      assert s[1..][i - 1..] == s[i..];
      ContainsAt(s[1..], i - 1, pattern);
    }
  }

  /** A process named after the minute of its line. */
  lemma {:induction false} MinuteProcessLosesMessage(message: string)
    requires message != "" ==> !IsWhitespace(message[0])
    ensures var line := HilogLine("06-25", "15:21:48", "1", "2", "I", "C0", "App", "21", message);
      ParseQueryRow(0, 0, line).message != message
  {
    var head := Prefix("06-25", "15:21:48", "1", "2", "I", "C0", "App");
    assert "21" + ":" <= head[9..];
    ContainsAt(head, 9, "21" + ":");
    hide Prefix, HilogLine, Contains, ParseQueryRow;
    HilogLineParsesBack(0, 0, "06-25", "15:21:48", "1", "2", "I", "C0", "App", "21", message);
  }

  lemma {:induction false} ColonTrimmed(process: string)
    requires process != "" ==> process[|process| - 1] != ':'
    ensures TrimEndColons(process + ":") == process
  {
    assert (process + ":")[..|process|] == process;
  }

  lemma {:induction false} SpaceTrimmed(message: string)
    requires message != "" ==> !IsWhitespace(message[0])
    ensures TrimStart(" " + message) == message
  {
    assert (" " + message)[1..] == message;
  }

  /** The two readings of one line agree, except that the query may say "unknown" where the summary does not. */
  lemma {:induction false} ReadingsAgreeUpToUnknown(seqNo: nat, receivedAtMs: nat, raw: string)
    ensures var level := ParseQueryRow(seqNo, receivedAtMs, raw).level;
      level == LevelFromLine(raw) || level == "unknown"
    ensures var level := ParseQueryRow(seqNo, receivedAtMs, raw).level;
      level == "unknown" || level in NAMED_LEVELS
  {
    var parts := SplitWhitespace(raw);
    if |parts| >= 7 && SplitOnce(parts[5], "/").Some? {
      assert LevelName(parts[4]) == "unknown" || LevelName(parts[4]) in NAMED_LEVELS;
    }
  }

  // ----- A trailing carriage return -----

  /** What `lines()` gives back for a line that was written followed by a line feed. */
  function StripCarriageReturn(line: string): string {
    if line != "" && line[|line| - 1] == '\r' then line[..|line| - 1] else line
  }

  lemma {:induction false} WordBeforeSpace(s: string, space: char)
    requires IsWhitespace(space)
    ensures WordLength(s + [space]) == WordLength(s)
  {
    if s != "" && !IsWhitespace(s[0]) {
      assert (s + [space])[1..] == s[1..] + [space];
      WordBeforeSpace(s[1..], space);
    }
  }

  lemma {:induction false} TrailingSpaceSplits(s: string, space: char)
    requires IsWhitespace(space)
    ensures SplitWhitespace(s + [space]) == SplitWhitespace(s)
    decreases |s|
  {
    var t := s + [space];
    if s == "" {
      assert t[1..] == "";
    } else if IsWhitespace(s[0]) {
      assert t[1..] == s[1..] + [space];
      TrailingSpaceSplits(s[1..], space);
    } else {
      var n := WordLength(s);
      WordBeforeSpace(s, space);
      assert t[..n] == s[..n] && t[n..] == s[n..] + [space];
      TrailingSpaceSplits(s[n..], space);
    }
  }

  /** Losing a trailing carriage return does not change the level summary. */
  lemma {:induction false} StrippedLevel(line: string)
    ensures LevelFromLine(StripCarriageReturn(line)) == LevelFromLine(line)
  {
    var stripped := StripCarriageReturn(line);
    if stripped != line {
      assert line == stripped + ['\r'];
      TrailingSpaceSplits(stripped, '\r');
    }
  }
}
