/**
 What extraction makes of any bytes at all, framed messages or not, and when it depends on
 where one read ended and the next began.
 */
module DapCuts {
  import opened DapFraming

  // ---- What is still to come --------------------------------------------------------------

  lemma {:induction false} HeaderEndSettled(s: string, t: string)
    requires HeaderEnd(s) >= 0
    ensures HeaderEnd(s + t) == HeaderEnd(s)
  {
    if |s| >= 4 && s[..4] == BLANK_LINE {
      assert (s + t)[..4] == s[..4];
    } else {
      assert (s + t)[1..] == s[1..] + t;
      HeaderEndSettled(s[1..], t);
      if |s| >= 4 {
        assert (s + t)[..4] == s[..4];
      }
    }
  }

  /** The bytes up to `h` are a header's, or the end of one: then the blank line follows. */
  predicate Headed(s: string, h: int) {
    0 <= h && h + 4 <= |s| && s[h..h+4] == BLANK_LINE && forall i :: 0 <= i < h ==> s[i] != NUL
  }

  lemma {:induction false} EndHeads(s: string)
    requires HeaderEnd(s) >= 0
    ensures Headed(s, HeaderEnd(s))
  {
    if !(|s| >= 4 && s[..4] == BLANK_LINE) {
      EndHeads(s[1..]);
      var h := HeaderEnd(s[1..]);
      assert s[h+1..h+5] == s[1..][h..h+4];
      assert forall i :: 1 <= i < h + 1 ==> s[i] == s[1..][i-1];
    }
  }

  lemma {:induction false} NewlineSettled(s: string, t: string)
    requires Newline(s) >= 0
    ensures Newline(s + t) == Newline(s)
  {
    if s[0] != '\n' {
      assert (s + t)[1..] == s[1..] + t;
      NewlineSettled(s[1..], t);
    }
  }

  /** There is a newline to be found: the blank line has one. */
  lemma {:induction false} NewlineThere(s: string, h: int)
    requires Headed(s, h)
    ensures 0 <= Newline(s) <= h + 1
    decreases h
  {
    if h == 0 {
      assert s[0] == s[0..4][0] && s[1] == s[0..4][1];
      assert s[1..][0] == '\n';
    } else if s[0] != '\n' {
      HeadedOn(s, h, 0);
      NewlineThere(s[1..], h - 1);
    }
  }

  lemma HeadedOn(s: string, h: int, n: int)
    requires Headed(s, h) && 0 <= n < h
    ensures Headed(s[n+1..], h - n - 1)
  {
    assert s[n+1..][h-n-1..h-n+3] == s[h..h+4];
  }

  // ---- The number after the colon --------------------------------------------------------

  lemma {:induction false} SpaceSkipped(s: string, t: string)
    ensures SkipSpace(s + t) == if SkipSpace(s) == [] then SkipSpace(t) else SkipSpace(s) + t
  {
    if s == [] {
      assert s + t == t;
    } else if IsSpace(s[0]) {
      assert (s + t)[1..] == s[1..] + t;
      SpaceSkipped(s[1..], t);
    }
  }

  lemma BlankLineIsSpace(t: string)
    ensures SkipSpace(BLANK_LINE + t) == SkipSpace(t)
  {
    var s := BLANK_LINE + t;
    assert s[1..][1..][1..][1..] == t;
    assert IsSpace(s[0]) && IsSpace(s[1..][0]) && IsSpace(s[1..][1..][0]) && IsSpace(s[1..][1..][1..][0]);
    assert SkipSpace(s[1..][1..]) == SkipSpace(s[1..][1..][1..]) == SkipSpace(t);
  }

  /** Skipping blanks first makes no difference. */
  lemma {:induction false} BlanksAreSpace(s: string)
    ensures SkipSpace(SkipBlanks(s)) == SkipSpace(s)
  {
    if s != [] && (s[0] == ' ' || s[0] == '\t') {
      BlanksAreSpace(s[1..]);
    }
  }

  lemma {:induction false} DigitsSettled(s: string, t: string, acc: nat, k: nat)
    requires k < |s| && !IsDigit(s[k])
    ensures Digits(s + t, acc) == Digits(s, acc)
  {
    if IsDigit(s[0]) {
      assert (s + t)[1..] == s[1..] + t;
      DigitsSettled(s[1..], t, 10 * acc + DigitValue(s[0]), k - 1);
    }
  }

  /** A number ends at the carriage return of the blank line, if it has started before it. */
  lemma NumberEnds(u: string, t: string)
    requires u != []
    ensures var v := u + BLANK_LINE;
            Digits(v + t, 0) == Digits(v, 0) && Digits((v + t)[1..], 0) == Digits(v[1..], 0)
  {
    var v := u + BLANK_LINE;
    assert v[|u|] == '\r' && v[1..][|u|-1] == '\r';
    DigitsSettled(v, t, 0, |u|);
    DigitsSettled(v[1..], t, 0, |u| - 1);
    assert (v + t)[1..] == v[1..] + t;
  }

  lemma NumberSettled(w: string, t: string)
    requires SkipSpace(w) != []
    ensures Atoi(SkipBlanks(w + BLANK_LINE + t)) == Atoi(SkipBlanks(w + BLANK_LINE))
  {
    var u := SkipSpace(w);
    var v := u + BLANK_LINE;
    BlanksAreSpace(w + BLANK_LINE + t);
    BlanksAreSpace(w + BLANK_LINE);
    SpaceSkipped(w, BLANK_LINE + t);
    SpaceSkipped(w, BLANK_LINE);
    assert w + BLANK_LINE + t == w + (BLANK_LINE + t) && v + t == u + (BLANK_LINE + t);
    NumberEnds(u, t);
    assert (v + t)[0] == v[0];
  }

  /** With no number in front of the blank line, one behind it is read. */
  lemma NumberBeyond(w: string, t: string)
    requires SkipSpace(w) == []
    ensures Atoi(SkipBlanks(w + BLANK_LINE + t)) == Atoi(t)
  {
    BlanksAreSpace(w + BLANK_LINE + t);
    SpaceSkipped(w, BLANK_LINE + t);
    BlankLineIsSpace(t);
    assert w + BLANK_LINE + t == w + (BLANK_LINE + t);
  }

  // ---- The length --------------------------------------------------------------------------

  /** The first Content-Length line has no value: white space is all there is up to the blank line. */
  predicate BlankLength(s: string, h: int)
    decreases |s|
  {
    h > 0 && h + 4 <= |s| &&
    if FIELD <= s then |FIELD| <= h && SkipSpace(s[|FIELD|..h]) == []
    else
      var nl := Newline(s);
      0 <= nl < h && BlankLength(s[nl+1..], h - nl - 1)
  }

  lemma FieldBeforeEnd(s: string, h: int, t: string)
    requires Headed(s, h) && h > 0
    ensures FIELD <= s + t <==> FIELD <= s
    ensures FIELD <= s ==> |FIELD| <= h
  {
    assert s[h] == s[h..h+4][0];
    if h < |FIELD| {
      assert (s + t)[h] == '\r' && FIELD[h] != '\r';
    }
  }

  /** What follows the colon: a value, the blank line, and what has come in behind it. */
  lemma Value(s: string, h: int, t: string)
    requires Headed(s, h) && |FIELD| <= h
    ensures (s + t)[|FIELD|..] == s[|FIELD|..h] + BLANK_LINE + (s[h+4..] + t)
  {
    assert s == s[..|FIELD|] + s[|FIELD|..h] + s[h..h+4] + s[h+4..];
  }

  lemma FieldSettled(s: string, h: int, t: string)
    requires Headed(s, h) && 0 < h && FIELD <= s && !BlankLength(s, h)
    ensures LengthField(s + t, h) == LengthField(s, h)
  {
    FieldBeforeEnd(s, h, t);
    var (w, q) := (s[|FIELD|..h], s[h+4..]);
    Value(s, h, t);
    Value(s, h, []);
    assert s + [] == s && q + [] == q;
    NumberSettled(w, q + t);
    NumberSettled(w, q);
  }

  lemma AfterLine(s: string, h: int, t: string)
    requires Headed(s, h) && 0 < h && !(FIELD <= s)
    ensures var nl := Newline(s);
            LengthField(s + t, h) == if nl >= h then -1 else LengthField(s[nl+1..] + t, h - nl - 1)
    ensures 0 <= Newline(s) < h ==> Headed(s[Newline(s)+1..], h - Newline(s) - 1)
    ensures 0 <= Newline(s)
  {
    FieldBeforeEnd(s, h, t);
    NewlineThere(s, h);
    NewlineSettled(s, t);
    var nl := Newline(s);
    if nl < h {
      HeadedOn(s, h, nl);
      assert (s + t)[nl+1..] == s[nl+1..] + t;
    }
  }

  /** The length is the header's own, whatever follows it, unless the header gives none. */
  lemma {:induction false} LengthSettled(s: string, h: int, t: string)
    requires Headed(s, h) && !BlankLength(s, h)
    ensures LengthField(s + t, h) == LengthField(s, h)
    decreases |s|
  {
    if h > 0 {
      if FIELD <= s {
        FieldSettled(s, h, t);
      } else {
        var nl := Newline(s);
        AfterLine(s, h, t);
        AfterLine(s, h, []);
        assert s + [] == s && s[nl+1..] + [] == s[nl+1..];
        if nl < h {
          LengthSettled(s[nl+1..], h - nl - 1, t);
        }
      }
    }
  }

  lemma FieldFromBody(p: string, h: int, t: string)
    requires Headed(p, h) && |p| == h + 4 && 0 < h && FIELD <= p && BlankLength(p, h)
    ensures LengthField(p + t, h) == Atoi(t)
  {
    FieldBeforeEnd(p, h, t);
    Value(p, h, t);
    assert p[h+4..] + t == t;
    NumberBeyond(p[|FIELD|..h], t);
  }

  lemma BlankOn(p: string, h: int) returns (nl: int, rest: string, k: int)
    requires Headed(p, h) && |p| == h + 4 && BlankLength(p, h) && !(FIELD <= p)
    ensures 0 < h && nl == Newline(p) < h && 0 <= nl && rest == p[nl+1..] && k == h - nl - 1
    ensures Headed(rest, k) && |rest| == k + 4 && |rest| < |p| && BlankLength(rest, k)
  {
    nl := Newline(p);
    HeadedOn(p, h, nl);
    rest, k := p[nl+1..], h - nl - 1;
  }

  /** Past a line that is not the Content-Length line. */
  lemma PastLine(p: string, h: int, t: string, nl: int, rest: string)
    requires Headed(p, h) && 0 < h && !(FIELD <= p) && nl == Newline(p) < h && rest == p[nl+1..]
    ensures 0 <= nl && LengthField(p + t, h) == LengthField(rest + t, h - nl - 1)
  {
    FieldBeforeEnd(p, h, t);
    NewlineThere(p, h);
    NewlineSettled(p, t);
    assert (p + t)[nl+1..] == rest + t;
  }

  /** And if it gives none, the length is read out of the body. */
  lemma {:induction false} LengthFromBody(p: string, h: int, t: string)
    requires Headed(p, h) && |p| == h + 4 && BlankLength(p, h)
    ensures LengthField(p + t, h) == Atoi(t)
    decreases |p|
  {
    if FIELD <= p {
      FieldFromBody(p, h, t);
    } else {
      var nl, rest, k := BlankOn(p, h);
      PastLine(p, h, t, nl, rest);
      LengthFromBody(rest, k, t);
    }
  }

  lemma ShortNumbers()
    ensures Atoi("") == 0 && Atoi("1") == 1
  {
    assert Digits("1", 0) == Digits("1"[1..], 1) == 1;
  }

  lemma BlankLengthMoves(p: string, h: int)
    requires Headed(p, h) && |p| == h + 4 && BlankLength(p, h)
    ensures exists t :: LengthField(p + t, h) != LengthField(p, h)
  {
    ShortNumbers();
    LengthFromBody(p, h, "");
    LengthFromBody(p, h, "1");
    assert p + "" == p;
    assert LengthField(p + "1", h) != LengthField(p, h);
  }

  lemma LengthStays(p: string, h: int)
    requires Headed(p, h) && !BlankLength(p, h)
    ensures forall t :: LengthField(p + t, h) == LengthField(p, h)
  {
    forall t: string
      ensures LengthField(p + t, h) == LengthField(p, h)
    {
      LengthSettled(p, h, t);
    }
  }

  /** A header says how long its body is, before any of the body is there, exactly when its first
      Content-Length line has a value or it has no such line. */
  lemma LengthIsTheHeaders(p: string)
    requires HeaderEnd(p) >= 0 && |p| == HeaderEnd(p) + 4
    ensures (forall t :: LengthField(p + t, HeaderEnd(p)) == LengthField(p, HeaderEnd(p)))
            <==> !BlankLength(p, HeaderEnd(p))
  {
    EndHeads(p);
    if BlankLength(p, HeaderEnd(p)) {
      BlankLengthMoves(p, HeaderEnd(p));
    } else {
      LengthStays(p, HeaderEnd(p));
    }
  }

  // ---- Extraction, and one read or two ------------------------------------------------------

  /** An extraction, the header's end and length being known. */
  function ExtractAt(s: string, h: int, length: int): Extract
    requires h >= 0 ==> h + 4 <= |s|
  {
    if h < 0 then NeedMore
    else if length < 0 then Skip(h + 4)
    else if length >= SIZE then TooLarge
    else if |s| < h + 4 + length then NeedMore
    else Message(s[h+4..h+4+length], h + 4 + length)
  }

  lemma ExtractIs(s: string)
    ensures TryExtract(s) == ExtractAt(s, HeaderEnd(s), LengthField(s, HeaderEnd(s)))
  {
  }

  /** A message's body is the last of the bytes it consumes, as many as its header says. */
  lemma BodyIsLast(s: string)
    requires TryExtract(s).Message?
    ensures var e := TryExtract(s);
            |e.body| == LengthField(s, HeaderEnd(s)) < SIZE && e.body == s[HeaderEnd(s)+4..e.n]
  {
    ExtractIs(s);
  }

  lemma ExtractAtSettled(s: string, t: string, h: int, length: int)
    requires 0 <= h && h + 4 <= |s| && ExtractAt(s, h, length) != NeedMore
    ensures ExtractAt(s + t, h, length) == ExtractAt(s, h, length)
  {
  }

  /** What has been extracted does not change when more arrives. */
  lemma ExtractSettled(s: string, t: string)
    requires TryExtract(s) != NeedMore && !BlankLength(s, HeaderEnd(s))
    ensures TryExtract(s + t) == TryExtract(s)
  {
    var h := HeaderEnd(s);
    ExtractIs(s);
    ExtractIs(s + t);
    HeaderEndSettled(s, t);
    EndHeads(s);
    LengthSettled(s, h, t);
    ExtractAtSettled(s, t, h, LengthField(s, h));
  }

  /** Every header extracted on the way has a value or no Content-Length line. */
  predicate Steady(s: string)
    decreases |s|
  {
    match TryExtract(s)
    case NeedMore => true
    case TooLarge => !BlankLength(s, HeaderEnd(s))
    case Skip(n) => !BlankLength(s, HeaderEnd(s)) && Steady(s[n..])
    case Message(_, n) => !BlankLength(s, HeaderEnd(s)) && Steady(s[n..])
  }

  /** What is left behind what an extraction consumed. */
  function Behind(e: Extract, s: string): string {
    if (e.Skip? || e.Message?) && e.n <= |s| then s[e.n..] else []
  }

  /** Draining, one extraction further on: `d` is what draining the rest comes to. */
  function Before(e: Extract, s: string, d: Drained): Drained {
    match e
    case NeedMore => Drained([], s, true)
    case TooLarge => Drained([], [], false)
    case Skip(_) => d
    case Message(body, _) => Drained([body] + d.bodies, d.rest, d.open)
  }

  /** Draining by any way of extracting. */
  ghost predicate DrainsAt(ex: string -> Extract, dr: string -> Drained, s: string) {
    dr(s) == Before(ex(s), s, dr(Behind(ex(s), s)))
  }

  /** In a steady stretch extraction is settled, and what is left behind is steady. */
  ghost predicate SettledAt(ex: string -> Extract, steady: string -> bool, s: string, t: string) {
    steady(s) && ex(s) != NeedMore ==>
      ex(s + t) == ex(s) && (!ex(s).TooLarge? ==> 0 < ex(s).n <= |s| && steady(s[ex(s).n..]))
  }

  lemma DrainDrains(s: string)
    ensures DrainsAt(TryExtract, Drain, s)
  {
  }

  lemma SteadySettles(s: string, t: string)
    ensures SettledAt(TryExtract, Steady, s, t)
  {
    if Steady(s) && TryExtract(s) != NeedMore {
      ExtractSettled(s, t);
    }
  }

  /** `d`, and then, if the connection is still there, `e`. */
  function Then(d: Drained, e: Drained): Drained {
    if d.open then Drained(d.bodies + e.bodies, e.rest, e.open) else d
  }

  lemma {:induction false} TwoDrains(ex: string -> Extract, dr: string -> Drained, steady: string -> bool,
                                     s: string, t: string)
    requires forall r :: DrainsAt(ex, dr, r)
    requires forall r, u :: SettledAt(ex, steady, r, u)
    requires steady(s)
    ensures dr(s + t) == Then(dr(s), dr(dr(s).rest + t))
    decreases |s|
  {
    assert DrainsAt(ex, dr, s) && DrainsAt(ex, dr, s + t) && SettledAt(ex, steady, s, t);
    match ex(s)
    case NeedMore =>
      assert dr(s).rest == s;
    case TooLarge =>
    case Skip(n) =>
      assert (s + t)[n..] == s[n..] + t;
      TwoDrains(ex, dr, steady, s[n..], t);
    case Message(body, n) =>
      assert (s + t)[n..] == s[n..] + t;
      TwoDrains(ex, dr, steady, s[n..], t);
  }

  /** Bytes that arrive in two reads are dispatched as they would be in one. */
  lemma TwoReadsAreOne(s: string, t: string)
    requires Steady(s)
    ensures Drain(s + t) == Then(Drain(s), Drain(Drain(s).rest + t))
  {
    forall r
      ensures DrainsAt(TryExtract, Drain, r)
    {
      DrainDrains(r);
    }
    forall r, u
      ensures SettledAt(TryExtract, Steady, r, u)
    {
      SteadySettles(r, u);
    }
    TwoDrains(TryExtract, Drain, Steady, s, t);
  }

  // ---- A header with no length --------------------------------------------------------------

  lemma OneByte(p: string, b: string, h: int)
    requires 0 <= h && |p| == h + 4 && |b| == 1
    ensures ExtractAt(p, h, 0) == Message("", |p|) && ExtractAt(p + b, h, 1) == Message(b, |p| + 1)
  {
  }

  /** A header with no length, then the digit one: in one read they are a message of that digit, in
      two an empty message, and the digit waits. */
  lemma BlankLengthIsCutDependent(p: string, h: int)
    requires h == HeaderEnd(p) >= 0 && |p| == h + 4 && BlankLength(p, h)
    ensures TryExtract(p) == Message("", |p|) && TryExtract(p + "1") == Message("1", |p| + 1)
  {
    EndHeads(p);
    HeaderEndSettled(p, "1");
    ShortNumbers();
    LengthFromBody(p, h, "");
    LengthFromBody(p, h, "1");
    assert p + "" == p;
    ExtractIs(p);
    ExtractIs(p + "1");
    OneByte(p, "1", h);
  }

  /** Such a header is easily written. */
  lemma BlankLengthThere()
    ensures var p := FIELD + BLANK_LINE;
            HeaderEnd(p) >= 0 && |p| == HeaderEnd(p) + 4 && BlankLength(p, HeaderEnd(p))
  {
    var p := FIELD + BLANK_LINE;
    assert p + "" == p;
    HeaderEndAt(FIELD, "");
    assert p[|FIELD|..|FIELD|] == [];
  }
}
