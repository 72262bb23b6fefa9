/**
 Headers as clients may send them: other lines before the Content-Length line are passed
 over, and a header without a usable length is skipped by itself.
 */
module DapHeaders {
  import opened DapFraming
  import opened DapTheorems
  import opened DapCuts

  /** A length is written in the ten decimal digits, behind white space as C has it. */
  lemma DigitsAre(c: char)
    ensures IsDigit(c) <==> '0' <= c <= '9'
    ensures IsDigit(c) ==> DigitValue(c) == c as int - '0' as int
    ensures IsSpace(c) <==> c in {' ', '\t', '\n', '\r', 11 as char, 12 as char}
  {
  }

  /** A line of a header, and not the Content-Length line. */
  predicate OtherLine(x: string) {
    !(FIELD <= x) && forall i :: 0 <= i < |x| ==> x[i] != '\r' && x[i] != '\n' && x[i] != NUL
  }

  lemma {:induction false} NewlineAfter(x: string, t: string)
    requires forall i :: 0 <= i < |x| ==> x[i] != '\n' && x[i] != NUL
    ensures Newline(x + "\r\n" + t) == |x| + 1
    decreases |x|
  {
    var s := x + "\r\n" + t;
    if x == [] {
      assert s[1..][0] == '\n';
    } else {
      assert s[1..] == x[1..] + "\r\n" + t;
      NewlineAfter(x[1..], t);
    }
  }

  lemma {:induction false} EndAfter(x: string, t: string)
    requires forall i :: 0 <= i < |x| ==> x[i] != '\r' && x[i] != NUL
    requires t != [] && t[0] != '\r' && HeaderEnd(t) >= 0
    ensures HeaderEnd(x + "\r\n" + t) == |x| + 2 + HeaderEnd(t)
    decreases |x|
  {
    var s := x + "\r\n" + t;
    if x == [] {
      assert s[2] == t[0] && s[1..][0] == '\n' && s[1..][1..] == t;
      assert |s| >= 4 ==> s[..4][2] != BLANK_LINE[2];
      assert |s[1..]| >= 4 ==> s[1..][..4][0] != BLANK_LINE[0];
    } else {
      assert s[1..] == x[1..] + "\r\n" + t;
      assert |s| >= 4 ==> s[..4][0] != BLANK_LINE[0];
      EndAfter(x[1..], t);
    }
  }

  lemma NotTheField(x: string, t: string)
    requires OtherLine(x)
    ensures !(FIELD <= x + "\r\n" + t)
  {
    var s := x + "\r\n" + t;
    if |x| < |FIELD| {
      assert s[|x|] == '\r' && FIELD[|x|] != '\r';
    } else {
      assert s[..|FIELD|] == x[..|FIELD|];
    }
  }

  lemma FramedStart(body: string, rest: string)
    requires |body| < SIZE
    ensures var t := Frame(body) + rest;
            t != [] && t[0] != '\r' && HeaderEnd(t) == |Header(|body|)| && LengthField(t, HeaderEnd(t)) == |body|
    ensures |Frame(body)| == |Header(|body|)| + 4 + |body|
  {
    FrameSplit(body, rest);
    forall i | 0 <= i < |Header(|body|)|
      ensures Header(|body|)[i] != '\r' && Header(|body|)[i] != NUL
    {
      HeaderChars(|body|, i);
    }
    HeaderEndAt(Header(|body|), body + rest);
    LengthOfHeader(|body|, body + rest);
  }

  /** The header of a frame behind another line. */
  lemma BehindLine(x: string, t: string)
    requires OtherLine(x) && t != [] && t[0] != '\r' && HeaderEnd(t) > 0
    ensures var s := x + "\r\n" + t;
            HeaderEnd(s) == |x| + 2 + HeaderEnd(t) && LengthField(s, HeaderEnd(s)) == LengthField(t, HeaderEnd(t))
  {
    EndAfter(x, t);
    NotTheField(x, t);
    NewlineAfter(x, t);
    assert (x + "\r\n" + t)[|x|+2..] == t;
  }

  /** A frame is extracted whole whatever other line its header starts with. */
  lemma OtherLinesPassedOver(x: string, body: string, rest: string)
    requires OtherLine(x) && |body| < SIZE
    ensures TryExtract(x + "\r\n" + (Frame(body) + rest)) == Message(body, |x| + 2 + |Frame(body)|)
  {
    FramedStart(body, rest);
    BehindLine(x, Frame(body) + rest);
    BodyBehind(x + "\r\n", body, rest);
    Extracted(x + "\r\n" + (Frame(body) + rest), |x| + 2 + |Header(|body|)|, body);
  }

  lemma BodyBehind(x: string, body: string, rest: string)
    ensures var at := |x| + |Header(|body|)| + 4;
            at + |body| <= |x + (Frame(body) + rest)| && (x + (Frame(body) + rest))[at..at+|body|] == body
  {
    FrameSplit(body, rest);
    BodyPlace(x, Header(|body|) + BLANK_LINE, body, rest);
    assert x + (Frame(body) + rest) == x + (Header(|body|) + BLANK_LINE + (body + rest));
  }

  lemma BodyPlace(x: string, head: string, body: string, rest: string)
    ensures (x + (head + (body + rest)))[|x|+|head|..|x|+|head|+|body|] == body
  {
    assert x + (head + (body + rest)) == (x + head) + body + rest;
  }

  lemma Extracted(s: string, h: nat, body: string)
    requires HeaderEnd(s) == h && LengthField(s, h) == |body| < SIZE
    requires h + 4 + |body| <= |s| && s[h+4..h+4+|body|] == body
    ensures TryExtract(s) == Message(body, h + 4 + |body|)
  {
    ExtractIs(s);
  }

  lemma Skipped(s: string, h: nat)
    requires HeaderEnd(s) == h && LengthField(s, h) < 0
    ensures TryExtract(s) == Skip(h + 4)
  {
    ExtractIs(s);
  }

  lemma NoField(x: string, t: string)
    requires OtherLine(x)
    ensures LengthField(x + "\r\n" + t, |x|) == -1
  {
    NotTheField(x, t);
    NewlineAfter(x, t);
  }

  /** A header with no Content-Length line is skipped, and no more. */
  lemma NoLengthSkipped(x: string, rest: string)
    requires OtherLine(x)
    ensures TryExtract(x + BLANK_LINE + rest) == Skip(|x| + 4)
  {
    HeaderEndAt(x, rest);
    NoField(x, "\r\n" + rest);
    assert x + BLANK_LINE + rest == x + "\r\n" + ("\r\n" + rest);
    Skipped(x + BLANK_LINE + rest, |x|);
  }

  lemma {:induction false} NumberRead(n: nat, t: string)
    requires t != [] && !IsDigit(t[0])
    ensures Digits(Decimal(n) + t, 0) == n
  {
    DigitsDecimal(n, t);
  }

  lemma FieldRead(v: string, h: nat)
    requires h > 0
    ensures LengthField(FIELD + v, h) == Atoi(SkipBlanks(v))
  {
    assert (FIELD + v)[|FIELD|..] == v;
  }

  lemma NegativeRead(v: string)
    requires v != [] && v[0] == '-'
    ensures Atoi(SkipBlanks(" " + v)) == 0 - Digits(v[1..], 0)
  {
    assert (" " + v)[1..] == v;
  }

  /** A header that gives a negative number. */
  function Negative(n: nat): string {
    FIELD + (" -" + Decimal(n))
  }

  lemma NegativeChars(n: nat, i: nat)
    requires i < |Negative(n)|
    ensures Negative(n)[i] != '\r' && Negative(n)[i] != NUL
  {
    var k := i - |FIELD|;
    if k >= 2 {
      assert Negative(n)[i] == (" -" + Decimal(n))[k] == Decimal(n)[k-2];
      DecimalChars(n, k - 2);
    } else if k == 1 {
      assert Negative(n)[i] == (" -" + Decimal(n))[1] == '-';
    } else if k == 0 {
      assert Negative(n)[i] == (" -" + Decimal(n))[0] == ' ';
    } else {
      assert Negative(n)[i] == Header(0)[i];
      HeaderChars(0, i);
    }
  }

  lemma Joined<T>(a: seq<T>, b: seq<T>, c: seq<T>)
    ensures a + b + c == a + (b + c)
  {
  }

  lemma NegativeSplit(n: nat, t: string)
    ensures Negative(n) + t == FIELD + (" " + ("-" + (Decimal(n) + t)))
  {
    assert " -" == " " + "-";
    Joined(FIELD, " -" + Decimal(n), t);
    Joined(" -", Decimal(n), t);
    Joined(" ", "-", Decimal(n) + t);
  }

  lemma NegativeNumber(n: nat, t: string, v: string)
    requires t != [] && !IsDigit(t[0]) && v == "-" + (Decimal(n) + t)
    ensures Atoi(SkipBlanks(" " + v)) == 0 - n as int
  {
    NumberRead(n, t);
    NegativeRead(v);
    assert v[1..] == Decimal(n) + t;
  }

  lemma NegativeLength(n: nat, t: string)
    requires t != [] && !IsDigit(t[0])
    ensures LengthField(Negative(n) + t, |Negative(n)|) == 0 - n as int
  {
    NegativeSplit(n, t);
    NegativeNumber(n, t, "-" + (Decimal(n) + t));
    FieldRead(" " + ("-" + (Decimal(n) + t)), |Negative(n)|);
  }

  lemma NegativeField(n: nat, rest: string)
    ensures HeaderEnd(Negative(n) + BLANK_LINE + rest) == |Negative(n)|
    ensures LengthField(Negative(n) + BLANK_LINE + rest, |Negative(n)|) == 0 - n as int
  {
    forall i | 0 <= i < |Negative(n)|
      ensures Negative(n)[i] != '\r' && Negative(n)[i] != NUL
    {
      NegativeChars(n, i);
    }
    HeaderEndAt(Negative(n), rest);
    NegativeLength(n, BLANK_LINE + rest);
    assert Negative(n) + (BLANK_LINE + rest) == Negative(n) + BLANK_LINE + rest;
  }

  /** So is one whose length is negative. */
  lemma NegativeLengthSkipped(n: nat, rest: string)
    requires n > 0
    ensures TryExtract(Negative(n) + BLANK_LINE + rest) == Skip(|Negative(n)| + 4)
  {
    NegativeField(n, rest);
    Skipped(Negative(n) + BLANK_LINE + rest, |Negative(n)|);
  }
}
