/** The strict UTF-8 codec behind Rust's `String`: RFC 3629, section 3. */
module Utf8 {
  import opened Sequences

  type Byte = n: int | 0 <= n < 0x100

  predicate Continuation(b: Byte) {
    0x80 <= b < 0xC0
  }

  function EncodeChar(c: char): (bytes: seq<Byte>)
    ensures 1 <= |bytes| <= 4
  {
    var n := c as int;
    if n < 0x80 then [n]
    else if n < 0x800 then [0xC0 + n / 0x40, 0x80 + n % 0x40]
    else if n < 0x10000 then [0xE0 + n / 0x1000, 0x80 + n / 0x40 % 0x40, 0x80 + n % 0x40]
    else [0xF0 + n / 0x40000, 0x80 + n / 0x1000 % 0x40, 0x80 + n / 0x40 % 0x40, 0x80 + n % 0x40]
  }

  function Encode(text: string): seq<Byte> {
    if text == "" then [] else EncodeChar(text[0]) + Encode(text[1..])
  }

  /** The first character and its length; overlong forms and surrogates are rejected. */
  function DecodeChar(b: seq<Byte>): (r: Option<(char, nat)>)
    requires b != []
    ensures r.Some? ==> 1 <= r.value.1 <= |b|
  {
    if b[0] < 0x80 then Some((b[0] as char, 1))
    else if 0xC2 <= b[0] < 0xE0 && |b| >= 2 && Continuation(b[1]) then
      Some((((b[0] as int - 0xC0) * 0x40 + (b[1] as int - 0x80)) as char, 2))
    else if 0xE0 <= b[0] < 0xF0 && |b| >= 3 && Continuation(b[1]) && Continuation(b[2]) then
      var n := (b[0] as int - 0xE0) * 0x1000 + (b[1] as int - 0x80) * 0x40 + (b[2] as int - 0x80);
      if n < 0x800 || 0xD800 <= n < 0xE000 then None else Some((n as char, 3))
    else if 0xF0 <= b[0] < 0xF5 && |b| >= 4
            && Continuation(b[1]) && Continuation(b[2]) && Continuation(b[3]) then
      var n := (b[0] as int - 0xF0) * 0x40000 + (b[1] as int - 0x80) * 0x1000 + (b[2] as int - 0x80) * 0x40 + (b[3] as int - 0x80);
      if n < 0x10000 || 0x110000 <= n then None else Some((n as char, 4))
    else None
  }

  function Decode(b: seq<Byte>): Option<string> {
    if b == [] then Some("")
    else
      match DecodeChar(b)
      case None => None
      case Some((c, n)) =>
        match Decode(b[n..])
        case None => None
        case Some(rest) => Some([c] + rest)
  }

  lemma {:induction false} Sextets(n: nat)
    ensures n == n / 0x40 * 0x40 + n % 0x40
    ensures n == n / 0x1000 * 0x1000 + n / 0x40 % 0x40 * 0x40 + n % 0x40
    ensures n == n / 0x40000 * 0x40000 + n / 0x1000 % 0x40 * 0x1000 + n / 0x40 % 0x40 * 0x40 + n % 0x40
  {
    assert n / 0x1000 == n / 0x40 / 0x40;
    assert n / 0x40000 == n / 0x1000 / 0x40;
  }

  lemma {:induction false} DecodeEncodedChar(c: char, rest: seq<Byte>)
    ensures DecodeChar(EncodeChar(c) + rest) == Some((c, |EncodeChar(c)|))
  {
    var n := c as int;
    var e := EncodeChar(c);
    var b := e + rest;
    Sextets(n);
    assert forall i | 0 <= i < |e| :: b[i] == e[i];
  }

  /** Decoding undoes encoding, for every text. */
  lemma {:induction false} DecodeEncode(text: string)
    ensures Decode(Encode(text)) == Some(text)
  {
    if text != "" {
      var head, tail := EncodeChar(text[0]), Encode(text[1..]);
      DecodeEncodedChar(text[0], tail);
      assert (head + tail)[|head|..] == tail;
      DecodeEncode(text[1..]);
      assert text == [text[0]] + text[1..];
    }
  }

  /** Only encodings decode: no two byte sequences are the same text. */
  lemma {:induction false} EncodeDecode(b: seq<Byte>)
    requires Decode(b).Some?
    ensures Encode(Decode(b).value) == b
  {
    if b != [] {
      hide *;
      DecodeFirst(b);
      var (c, n) := DecodeChar(b).value;
      DecodedCharEncodes(b);
      EncodeDecode(b[n..]);
      EncodeFirst(c, Decode(b[n..]).value);
      assert b == b[..n] + b[n..];
    }
  }

  lemma {:induction false} DecodeFirst(b: seq<Byte>)
    requires b != [] && Decode(b).Some?
    ensures DecodeChar(b).Some? && Decode(b[DecodeChar(b).value.1..]).Some?
    ensures Decode(b).value == [DecodeChar(b).value.0] + Decode(b[DecodeChar(b).value.1..]).value
  {
    hide DecodeChar;
  }

  lemma {:induction false} EncodeFirst(c: char, rest: string)
    ensures Encode([c] + rest) == EncodeChar(c) + Encode(rest)
  {
    hide EncodeChar;
    assert ([c] + rest)[1..] == rest;
  }

  lemma {:induction false} DecodedCharEncodes(b: seq<Byte>)
    requires b != [] && DecodeChar(b).Some?
    ensures EncodeChar(DecodeChar(b).value.0) == b[..DecodeChar(b).value.1]
  {
    var n, length := DecodeChar(b).value.0 as int, DecodeChar(b).value.1;
    if length == 1 {
      assert b[..1] == [b[0]];
    } else if length == 2 {
      SextetsOf(b[0] as int - 0xC0, b[1] as int - 0x80, n);
      assert b[..2] == [b[0], b[1]];
    } else if length == 3 {
      var a := (b[0] as int - 0xE0) * 0x40 + (b[1] as int - 0x80);
      SextetsOf(b[0] as int - 0xE0, b[1] as int - 0x80, a);
      SextetsOf(a, b[2] as int - 0x80, n);
      assert n / 0x1000 == n / 0x40 / 0x40;
      assert b[..3] == [b[0], b[1], b[2]];
    } else {
      EncodesFour(b);
    }
  }

  lemma {:induction false} EncodesFour(b: seq<Byte>)
    requires |b| >= 4 && DecodeChar(b).Some? && DecodeChar(b).value.1 == 4
    ensures EncodeChar(DecodeChar(b).value.0) == b[..4]
  {
    var n := DecodeChar(b).value.0 as int;
    var x := (b[0] as int - 0xF0) * 0x40 + (b[1] as int - 0x80);
    var y := x * 0x40 + (b[2] as int - 0x80);
    SextetsOf(b[0] as int - 0xF0, b[1] as int - 0x80, x);
    SextetsOf(x, b[2] as int - 0x80, y);
    SextetsOf(y, b[3] as int - 0x80, n);
    assert n / 0x1000 == n / 0x40 / 0x40 && n / 0x40000 == n / 0x40 / 0x40 / 0x40;
    assert b[..4] == [b[0], b[1], b[2], b[3]];
  }

  lemma {:induction false} SextetsOf(high: int, low: int, n: int)
    requires 0 <= low < 0x40 && n == high * 0x40 + low
    ensures n / 0x40 == high && n % 0x40 == low
  {
  }

  lemma {:induction false} EncodeConcat(a: string, b: string)
    ensures Encode(a + b) == Encode(a) + Encode(b)
  {
    if a == "" {
      assert a + b == b;
    } else {
      assert (a + b)[1..] == a[1..] + b;
      EncodeConcat(a[1..], b);
    }
  }

  lemma {:induction false} EncodedLength(text: string)
    ensures |Encode(text)| <= 4 * |text|
  {
    if text != "" {
      EncodedLength(text[1..]);
    }
  }

  /** Plain ASCII bytes always decode, each to the character of its number. */
  lemma {:induction false} AsciiDecodes(b: seq<Byte>)
    requires forall x <- b :: x < 0x80
    ensures Decode(b).Some? && |Decode(b).value| == |b|
    ensures forall i | 0 <= i < |b| :: Decode(b).value[i] as int == b[i] as int
  {
    if b != [] {
      assert b[0] in b;
      assert forall x <- b[1..] :: x in b;
      AsciiDecodes(b[1..]);
      assert DecodeChar(b) == Some((b[0] as char, 1));
    }
  }
}
