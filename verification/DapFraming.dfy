/**
 The wire layer of the Debug Adapter Protocol: messages framed by a Content-Length header,
 received in arbitrary pieces into a fixed buffer, extracted and compacted in place.
 A byte of the stream is a `char`; NUL ends a C string.
 */
module DapFraming {
  const SIZE: nat := 0x10000
  const NUL: char := '\0'
  const FIELD: string := "Content-Length:"
  const BLANK_LINE: string := "\r\n\r\n"

  // ---- The C string routines the extractor uses ---------------------------------------

  /** Where the header ends, as strstr finds it; negative when it has not arrived. */
  function HeaderEnd(s: string): (h: int)
    ensures -1 <= h
    ensures h >= 0 ==> h + 4 <= |s| && s[h..h+4] == BLANK_LINE
  {
    if s == [] || s[0] == NUL then -1
    else if |s| >= 4 && s[..4] == BLANK_LINE then 0
    else
      var h := HeaderEnd(s[1..]);
      if h < 0 then -1 else h + 1
  }

  predicate IsDigit(c: char) {
    48 <= c as int <= 57
  }

  function DigitValue(c: char): nat
    requires IsDigit(c)
  {
    c as int - 48
  }

  function Digits(s: string, acc: nat): nat {
    if s == [] || !IsDigit(s[0]) then acc else Digits(s[1..], 10 * acc + DigitValue(s[0]))
  }

  predicate IsSpace(c: char) {
    c == ' ' || '\t' <= c <= '\r'
  }

  function SkipSpace(s: string): string {
    if s == [] || !IsSpace(s[0]) then s else SkipSpace(s[1..])
  }

  function Atoi(s: string): int {
    var t := SkipSpace(s);
    if t != [] && t[0] == '-' then 0 - Digits(t[1..], 0)
    else if t != [] && t[0] == '+' then Digits(t[1..], 0)
    else Digits(t, 0)
  }

  function SkipBlanks(s: string): string {
    if s == [] || (s[0] != ' ' && s[0] != '\t') then s else SkipBlanks(s[1..])
  }

  /** How far the next newline is, as strchr finds it; negative when there is none. */
  function Newline(s: string): (n: int)
    ensures -1 <= n < |s|
  {
    if s == [] || s[0] == NUL then -1
    else if s[0] == '\n' then 0
    else
      var n := Newline(s[1..]);
      if n < 0 then -1 else n + 1
  }

  /** The value of the Content-Length line among the first `h` characters, or -1. */
  function LengthField(s: string, h: int): int
    decreases |s|
  {
    if h <= 0 then -1
    else if FIELD <= s then Atoi(SkipBlanks(s[|FIELD|..]))
    else
      var nl := Newline(s);
      if nl < 0 || nl >= h then -1 else LengthField(s[nl+1..], h - nl - 1)
  }

  // ---- One extraction ---------------------------------------------------------------

  datatype Extract = NeedMore | Skip(n: nat) | TooLarge | Message(body: string, n: nat)

  function TryExtract(s: string): (e: Extract)
    ensures e.Skip? || e.Message? ==> 4 <= e.n <= |s|
  {
    var h := HeaderEnd(s);
    if h < 0 then NeedMore
    else
      var length := LengthField(s, h);
      if length < 0 then Skip(h + 4)
      else if length >= SIZE then TooLarge
      else if |s| < h + 4 + length then NeedMore
      else Message(s[h+4..h+4+length], h + 4 + length)
  }

  /** What is left in the buffer when extraction runs dry, and the bodies dispatched on the way. */
  datatype Drained = Drained(bodies: seq<string>, rest: string, open: bool)

  function Drain(s: string): Drained
    decreases |s|
  {
    match TryExtract(s)
    case NeedMore => Drained([], s, true)
    case TooLarge => Drained([], [], false)
    case Skip(n) => Drain(s[n..])
    case Message(body, n) =>
      var d := Drain(s[n..]);
      Drained([body] + d.bodies, d.rest, d.open)
  }

  // ---- The connection over many polls -----------------------------------------------

  datatype Conn = Conn(buf: string, open: bool, dispatched: seq<string>)

  const Fresh: Conn := Conn([], true, [])

  /** How many bytes the next read may ask for; the buffer keeps room for a terminator. */
  function Space(c: Conn): int {
    SIZE - |c.buf| - 2
  }

  /** Everything complete in the buffer is dispatched. */
  function Pumped(c: Conn): Conn {
    var d := Drain(c.buf);
    Conn(d.rest, d.open, c.dispatched + d.bodies)
  }

  /** One poll that receives `chunk`, which is empty when the socket has nothing yet. */
  function Poll(c: Conn, chunk: string): Conn {
    if !c.open then c
    else if Space(c) <= 0 then Conn([], false, c.dispatched)
    else Pumped(c.(buf := c.buf + chunk))
  }

  function Polls(c: Conn, chunks: seq<string>): Conn
    decreases |chunks|
  {
    if chunks == [] then c else Polls(Poll(c, chunks[0]), chunks[1..])
  }

  /** Every read returns at most what it asked for. */
  predicate Admissible(c: Conn, chunks: seq<string>)
    decreases |chunks|
  {
    chunks == [] ||
    ((c.open && Space(c) > 0 ==> |chunks[0]| <= Space(c)) && Admissible(Poll(c, chunks[0]), chunks[1..]))
  }

  function Concat(chunks: seq<string>): string {
    if chunks == [] then [] else chunks[0] + Concat(chunks[1..])
  }

  // ---- Framing ------------------------------------------------------------------------

  function Decimal(n: nat): string {
    if n < 10 then [(48 + n) as char] else Decimal(n / 10) + [(48 + n % 10) as char]
  }

  function Header(length: nat): string {
    FIELD + " " + Decimal(length)
  }

  /** A message as a client sends it, and as the server sends its own. */
  function Frame(body: string): string {
    Header(|body|) + BLANK_LINE + body
  }

  /** The frame is one the receive buffer can hold. */
  predicate Fits(body: string) {
    |Frame(body)| <= SIZE - 2
  }

  function Frames(bodies: seq<string>): seq<string> {
    if bodies == [] then [] else [Frame(bodies[0])] + Frames(bodies[1..])
  }

  /** The bytes a client sends for these messages. */
  function Stream(bodies: seq<string>): string {
    Concat(Frames(bodies))
  }

  // ---- The header round trip ------------------------------------------------------------

  lemma {:induction false} DecimalChars(n: nat, i: nat)
    requires i < |Decimal(n)|
    ensures IsDigit(Decimal(n)[i])
  {
    if n >= 10 && i < |Decimal(n / 10)| {
      DecimalChars(n / 10, i);
    }
  }

  lemma {:induction false} DigitsDecimal(n: nat, rest: string)
    ensures Digits(Decimal(n) + rest, 0) == Digits(rest, n)
  {
    if n < 10 {
      assert (Decimal(n) + rest)[1..] == rest;
    } else {
      var c := (48 + n % 10) as char;
      assert Decimal(n) + rest == Decimal(n / 10) + ([c] + rest);
      DigitsDecimal(n / 10, [c] + rest);
      assert ([c] + rest)[1..] == rest;
    }
  }

  /** Before the blank line a header has no carriage return and no NUL. */
  lemma HeaderChars(length: nat, i: nat)
    requires i < |Header(length)|
    ensures Header(length)[i] != '\r' && Header(length)[i] != NUL
  {
    if i > |FIELD| {
      DecimalChars(length, i - |FIELD| - 1);
    }
  }

  lemma {:induction false} HeaderEndAt(p: string, rest: string)
    requires forall i :: 0 <= i < |p| ==> p[i] != '\r' && p[i] != NUL
    ensures HeaderEnd(p + BLANK_LINE + rest) == |p|
  {
    var s := p + BLANK_LINE + rest;
    if p == [] {
      assert s[..4] == BLANK_LINE;
    } else {
      assert s[0] == p[0];
      assert s[1..] == p[1..] + BLANK_LINE + rest;
      HeaderEndAt(p[1..], rest);
      assert s[..4][0] != BLANK_LINE[0];
    }
  }

  lemma {:induction false} HeaderNotEnded(p: string, s: string)
    requires forall i :: 0 <= i < |p| ==> p[i] != '\r' && p[i] != NUL
    requires s <= p + BLANK_LINE && |s| < |p| + 4
    ensures HeaderEnd(s) == -1
  {
    if s != [] {
      if p != [] {
        assert s[0] == (p + BLANK_LINE)[0] == p[0];
        assert (p + BLANK_LINE)[1..] == p[1..] + BLANK_LINE;
        HeaderNotEnded(p[1..], s[1..]);
        if |s| >= 4 {
          assert s[..4][0] != BLANK_LINE[0];
        }
      } else {
        assert BLANK_LINE == [] + BLANK_LINE;
        NoShortHeader(s);
      }
    }
  }

  lemma NoShortHeader(s: string)
    requires |s| < 4
    ensures HeaderEnd(s) == -1
  {
  }

  lemma LengthOfHeader(length: nat, rest: string)
    ensures LengthField(Header(length) + BLANK_LINE + rest, |Header(length)|) == length
  {
    var s := Header(length) + BLANK_LINE + rest;
    var digits := Decimal(length) + (BLANK_LINE + rest);
    assert s[|FIELD|..] == " " + digits;
    assert (" " + digits)[1..] == digits;
    DecimalChars(length, 0);
    assert SkipBlanks(digits) == digits;
    assert SkipSpace(digits) == digits;
    DigitsDecimal(length, BLANK_LINE + rest);
  }
}
