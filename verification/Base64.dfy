/**
 Base64 as the memory requests carry it (RFC 4648, section 4): the encoder's loop over
 triplets, and the decoder's loop over a 32-bit accumulator, each against the reading of
 the text as a row of 6-bit values.
 */
module Base64 {
  import opened Numbers

  type Sextet = v: int | 0 <= v < 64

  const WIDTH: nat := 0x1_0000_0000

  // ---- Working through a sequence in groups ---------------------------------------------

  /** `p` of each group of `n`, the last one possibly shorter. */
  function Grouped<A, B>(p: seq<A> -> seq<B>, n: nat, s: seq<A>): seq<B>
    requires n > 0
  {
    if |s| <= n then p(s) else p(s[..n]) + Grouped(p, n, s[n..])
  }

  lemma {:induction false} GroupedOnto<A, B>(p: seq<A> -> seq<B>, n: nat, k: nat, done: seq<A>, s: seq<A>)
    requires n > 0 && |done| == k * n && p([]) == []
    ensures Grouped(p, n, done + s) == Grouped(p, n, done) + Grouped(p, n, s)
  {
    if k == 0 {
      assert done + s == s;
    } else {
      assert (k - 1) * n == k * n - n;
      var rest := done[n..];
      assert (done + s)[..n] == done[..n] && (done + s)[n..] == rest + s;
      GroupedOnto(p, n, k - 1, rest, s);
      GroupedFirst(p, n, done + s);
      GroupedFirst(p, n, done);
    }
  }

  lemma GroupedFirst<A, B>(p: seq<A> -> seq<B>, n: nat, s: seq<A>)
    requires 0 < n <= |s| && p([]) == []
    ensures Grouped(p, n, s) == p(s[..n]) + Grouped(p, n, s[n..])
  {
    if |s| == n {
      assert s[..n] == s && s[n..] == [];
    }
  }

  // ---- The alphabet --------------------------------------------------------------------

  /** Upper case, lower case, digits, plus and slash. */
  function Symbol(v: Sextet): char {
    if v < 26 then (65 + v) as char
    else if v < 52 then (97 + (v - 26)) as char
    else if v < 62 then (48 + (v - 52)) as char
    else if v == 62 then '+' else '/'
  }

  /** The value of a data character, or -1 for padding, white space and anything else. */
  function ValueOf(ch: char): (v: int)
    ensures -1 <= v < 64
  {
    if 'A' <= ch <= 'Z' then ch as int - 65
    else if 'a' <= ch <= 'z' then ch as int - 97 + 26
    else if '0' <= ch <= '9' then ch as int - 48 + 52
    else if ch == '+' then 62
    else if ch == '/' then 63
    else -1
  }

  /** The alphabet is that of RFC 4648, table 1: from A to Z, a to z and 0 to 9, then plus and slash. */
  lemma AlphabetIs(v: Sextet)
    ensures Symbol(0) == 'A' && Symbol(25) == 'Z' && Symbol(26) == 'a' && Symbol(51) == 'z'
    ensures Symbol(52) == '0' && Symbol(61) == '9' && Symbol(62) == '+' && Symbol(63) == '/'
    ensures v !in {25, 51, 61, 62, 63} ==> Symbol(v + 1) as int == Symbol(v) as int + 1
  {
  }

  /** Only the symbols of the alphabet carry data. */
  lemma OnlySymbols(ch: char)
    ensures ValueOf(ch) >= 0 <==> exists v: Sextet :: Symbol(v) == ch
    ensures ValueOf(ch) >= 0 ==> Symbol(ValueOf(ch)) == ch
  {
    if ValueOf(ch) >= 0 {
      assert Symbol(ValueOf(ch)) == ch;
    }
  }

  lemma SymbolValue(v: Sextet)
    ensures ValueOf(Symbol(v)) == v
  {
  }

  // ---- The standard's reading ---------------------------------------------------------

  function Data(s: string): seq<Sextet> {
    if |s| == 1 && ValueOf(s[0]) >= 0 then [ValueOf(s[0])] else []
  }

  /** The data characters of a text, as 6-bit values. */
  function Sextets(s: string): seq<Sextet> {
    Grouped(Data, 1, s)
  }

  /** The low bits of one 6-bit value above the high bits of the next. */
  function Upper(a: Sextet, b: Sextet): Octet {
    var x: int, y: int := a, b;
    x * 4 + y / 16
  }

  function Middle(a: Sextet, b: Sextet): Octet {
    var x: int, y: int := a, b;
    x % 16 * 16 + y / 4
  }

  function Lower(a: Sextet, b: Sextet): Octet {
    var x: int, y: int := a, b;
    x % 4 * 64 + y
  }

  /** Four 6-bit values are three octets, three are two, two are one. */
  function Unpacked(v: seq<Sextet>): seq<Octet> {
    if |v| < 2 then []
    else if |v| == 2 then [Upper(v[0], v[1])]
    else if |v| == 3 then [Upper(v[0], v[1]), Middle(v[1], v[2])]
    else [Upper(v[0], v[1]), Middle(v[1], v[2]), Lower(v[2], v[3])]
  }

  function Octets(v: seq<Sextet>): seq<Octet> {
    Grouped(Unpacked, 4, v)
  }

  // ---- Encoding ----------------------------------------------------------------------

  /** The four 6-bit values of up to three octets. */
  function Quarter(g: seq<Octet>, i: nat): Sextet {
    var a: int, b: int, c: int := At(g, 0), At(g, 1), At(g, 2);
    if i == 0 then a / 4 else if i == 1 then a % 4 * 16 + b / 16 else if i == 2 then b % 16 * 4 + c / 64 else c % 64
  }

  function At(g: seq<Octet>, i: nat): Octet {
    if i < |g| then g[i] else 0
  }

  /** The four characters of a group, the missing octets padded. */
  function Packed(g: seq<Octet>): string {
    if g == [] then []
    else [Symbol(Quarter(g, 0)), Symbol(Quarter(g, 1)),
          if |g| > 1 then Symbol(Quarter(g, 2)) else '=',
          if |g| > 2 then Symbol(Quarter(g, 3)) else '=']
  }

  function Encoded(raw: seq<Octet>): string {
    Grouped(Packed, 3, raw)
  }

  /** The 24-bit word the encoder takes its four 6-bit values from. */
  function Triplet(a: Octet, b: Octet, c: Octet): nat {
    a * 0x10000 + b * 0x100 + c
  }

  lemma By64(q: nat, r: nat)
    requires r < 64
    ensures (64 * q + r) / 64 == q && (64 * q + r) % 64 == r
  {
  }

  lemma By12(q: nat, r: nat)
    requires r < 0x1000
    ensures (0x1000 * q + r) / 0x1000 == q
  {
  }

  lemma By18(q: nat, r: nat)
    requires r < 0x40000
    ensures (0x40000 * q + r) / 0x40000 == q
  {
  }

  /** Three octets and the four values they are packed in are the same 24-bit number, most significant first. */
  lemma GroupIsNumber(a: Octet, b: Octet, c: Octet)
    ensures var g: seq<Octet> := [a, b, c];
            ((Quarter(g, 0) * 64 + Quarter(g, 1)) * 64 + Quarter(g, 2)) * 64 + Quarter(g, 3)
            == (a * 256 + b) * 256 + c
    ensures |Packed([a, b, c])| == |Packed([a, b])| == |Packed([a])| == 4
    ensures Packed([a, b]) == Packed([a, b, 0])[..3] + "=" && Packed([a]) == Packed([a, 0, 0])[..2] + "=="
  {
  }

  lemma TripletHigh(a: Octet, b: Octet, c: Octet)
    ensures Triplet(a, b, c) / 0x40000 % 64 == a / 4
    ensures Triplet(a, b, c) / 0x1000 % 64 == a % 4 * 16 + b / 16
  {
    var q: nat, r: nat, h: nat, l: nat, z: nat := a / 4, a % 4, b / 16, b % 16, c;
    By18(q, 0x10000 * r + 0x1000 * h + 0x100 * l + z);
    By12(64 * q + 16 * r + h, 0x100 * l + z);
    By64(0, q);
    By64(q, 16 * r + h);
  }

  lemma TripletLow(a: Octet, b: Octet, c: Octet)
    ensures Triplet(a, b, c) / 0x40 % 64 == b % 16 * 4 + c / 64
    ensures Triplet(a, b, c) % 64 == c % 64
  {
    var x: nat, h: nat, l: nat, q: nat, r: nat := a, b / 16, b % 16, c / 64, c % 64;
    By64(1024 * x + 64 * h + 4 * l + q, r);
    By64(16 * x + h, 4 * l + q);
  }

  /** One pass of the encoder's loop. */
  method EncodeGroup(raw: seq<Octet>, i: nat) returns (g: string)
    requires i < |raw|
    ensures g == Packed(raw[i..Stop(raw, i)])
  {
    var remaining := |raw| - i;
    var b: Octet := if remaining > 1 then raw[i+1] else 0;
    var c: Octet := if remaining > 2 then raw[i+2] else 0;
    var triplet := Triplet(raw[i], b, c);
    TripletHigh(raw[i], b, c);
    TripletLow(raw[i], b, c);
    g := [Symbol(triplet / 0x40000 % 64), Symbol(triplet / 0x1000 % 64),
          if remaining > 1 then Symbol(triplet / 0x40 % 64) else '=',
          if remaining > 2 then Symbol(triplet % 64) else '='];
  }

  function Stop(raw: seq<Octet>, i: nat): nat {
    if i + 3 <= |raw| then i + 3 else |raw|
  }

  lemma EncodedStep(raw: seq<Octet>, k: nat)
    requires 3 * k < |raw|
    ensures Encoded(raw[..Stop(raw, 3 * k)]) == Encoded(raw[..3*k]) + Packed(raw[3*k..Stop(raw, 3 * k)])
  {
    var next := Stop(raw, 3 * k);
    assert raw[..next] == raw[..3*k] + raw[3*k..next];
    GroupedOnto(Packed, 3, k, raw[..3*k], raw[3*k..next]);
  }

  method Encode(raw: seq<Octet>) returns (b64: string)
    ensures b64 == Encoded(raw)
  {
    b64 := [];
    var i := 0;
    ghost var k := 0;
    ghost var done := 0;
    while i < |raw|
      invariant i == 3 * k && done == (if i < |raw| then i else |raw|)
      invariant b64 == Encoded(raw[..done])
    {
      EncodedStep(raw, k);
      var g := EncodeGroup(raw, i);
      b64 := b64 + g;
      done := Stop(raw, i);
      i := i + 3;
      k := k + 1;
    }
    assert raw[..|raw|] == raw;
  }

  // ---- Decoding ------------------------------------------------------------------------

  /** The bits still wanted before the next octet is complete, by how many values have come. */
  function BitsAfter(n: nat): int {
    if n % 4 == 0 then -8 else if n % 4 == 1 then -2 else if n % 4 == 2 then -4 else -6
  }

  /** The octet the value `d`, coming after `n` others, completes. */
  function Completed(n: nat, last: Sextet, d: Sextet): seq<Octet> {
    if n % 4 == 0 then []
    else if n % 4 == 1 then [Upper(last, d)]
    else if n % 4 == 2 then [Middle(last, d)]
    else [Lower(last, d)]
  }

  function Last(v: seq<Sextet>): Sextet {
    if v == [] then 0 else v[|v|-1]
  }

  lemma UnpackedOneMore(t: seq<Sextet>, d: Sextet)
    requires |t| < 4
    ensures Unpacked(t + [d]) == Unpacked(t) + Completed(|t|, Last(t), d)
  {
  }

  /** The whole groups of four, and what is left over. */
  lemma WholeGroups(v: seq<Sextet>) returns (done: seq<Sextet>, t: seq<Sextet>)
    ensures v == done + t && |done| == |v| / 4 * 4 && |t| == |v| % 4
    ensures t != [] ==> Last(t) == Last(v)
  {
    var m := |v| - |v| % 4;
    done, t := v[..m], v[m..];
  }

  lemma OctetsOneMore(v: seq<Sextet>, d: Sextet)
    ensures Octets(v + [d]) == Octets(v) + Completed(|v|, Last(v), d)
  {
    var done, t := WholeGroups(v);
    GroupedOnto(Unpacked, 4, |v| / 4, done, t);
    GroupedOnto(Unpacked, 4, |v| / 4, done, t + [d]);
    UnpackedOneMore(t, d);
    JoinOneMore(done, t, d, Octets(done), Unpacked(t), Completed(|v|, Last(v), d));
  }

  lemma JoinOneMore(done: seq<Sextet>, t: seq<Sextet>, d: Sextet, a: seq<Octet>, b: seq<Octet>, c: seq<Octet>)
    ensures done + (t + [d]) == (done + t) + [d] && a + (b + c) == (a + b) + c
  {
  }

  lemma SextetsOneMore(s: string, ch: char)
    ensures Sextets(s + [ch]) == Sextets(s) + if ValueOf(ch) < 0 then [] else [ValueOf(ch)]
  {
    GroupedOnto(Data, 1, |s|, s, [ch]);
  }

  lemma {:induction false} SextetsLength(s: string)
    ensures |Sextets(s)| <= |s|
  {
    if |s| > 1 {
      SextetsLength(s[1..]);
    }
  }

  lemma {:induction false} OctetsLength(v: seq<Sextet>)
    ensures 4 * |Octets(v)| <= 3 * |v|
  {
    if |v| > 4 {
      OctetsLength(v[4..]);
    }
  }

  /** Whatever the text, what has come out never outgrows the buffer allocated from its length. */
  lemma DecodedFits(s: string)
    ensures |Octets(Sextets(s))| < |s| / 4 * 3 + 4
  {
    SextetsLength(s);
    OctetsLength(Sextets(s));
  }

  /** The accumulator shifted down by the bits not yet needed, and cut to an octet. */
  function Shift(acc: nat, bits: int): Octet {
    (if bits == 4 then acc / 16 else if bits == 2 then acc / 4 else acc) % 256
  }

  /** The accumulator after one more value, in 32 bits. */
  function Accumulated(acc: nat, d: Sextet): (r: nat)
    ensures r < WIDTH
  {
    (acc * 64 + d) % WIDTH
  }

  lemma AccumulatedLow(acc: nat, d: Sextet) returns (k: int)
    ensures Accumulated(acc, d) == 4096 * k + 64 * (acc % 64) + d
  {
    var q := acc / 64;
    var x := acc * 64 + d;
    assert x == 4096 * q + 64 * (acc % 64) + d;
    k := q - 0x100000 * (x / WIDTH);
  }

  lemma ShiftedUpper(k: int, last: Sextet, d: Sextet)
    ensures (4096 * k + 64 * last + d) / 16 % 256 == Upper(last, d)
  {
    var q: int, r: int := d / 16, d % 16;
    assert 4096 * k + 64 * last + d == 16 * (256 * k + 4 * last + q) + r;
  }

  lemma ShiftedMiddle(k: int, last: Sextet, d: Sextet)
    ensures (4096 * k + 64 * last + d) / 4 % 256 == Middle(last, d)
  {
    var q: int, r: int := d / 4, d % 4;
    var h: int, l: int := last / 16, last % 16;
    assert 4096 * k + 64 * last + d == 4 * (256 * (4 * k + h) + 16 * l + q) + r;
  }

  lemma ShiftedLower(k: int, last: Sextet, d: Sextet)
    ensures (4096 * k + 64 * last + d) % 256 == Lower(last, d)
  {
    var h: int, l: int := last / 4, last % 4;
    assert 4096 * k + 64 * last + d == 256 * (16 * k + h) + 64 * l + d;
  }

  /** Shifting the accumulator down gives the octet the last two values complete. */
  lemma Shifted(acc: nat, n: nat, d: Sextet)
    requires n % 4 != 0
    ensures Completed(n, acc % 64, d) == [Shift(Accumulated(acc, d), BitsAfter(n) + 6)]
  {
    var k := AccumulatedLow(acc, d);
    if n % 4 == 1 {
      ShiftedUpper(k, acc % 64, d);
    } else if n % 4 == 2 {
      ShiftedMiddle(k, acc % 64, d);
    } else {
      ShiftedLower(k, acc % 64, d);
    }
  }

  lemma AccumulatedLast(acc: nat, d: Sextet)
    ensures Accumulated(acc, d) % 64 == d
  {
    var k := AccumulatedLow(acc, d);
    assert Accumulated(acc, d) == 64 * (64 * k + acc % 64) + d;
  }

  /** What one value completes is what the shifted accumulator holds, when the bits say so. */
  lemma Completes(n: nat, last: Sextet, acc: nat, d: Sextet)
    requires n % 4 == 0 || acc % 64 == last
    ensures var b := BitsAfter(n) + 6;
            BitsAfter(n + 1) == (if b >= 0 then b - 8 else b)
            && Completed(n, last, d) == if b >= 0 then [Shift(Accumulated(acc, d), b)] else []
  {
    if n % 4 != 0 {
      Shifted(acc, n, d);
    }
  }

  lemma DecodeStep(v: seq<Sextet>, acc: nat, d: Sextet)
    requires v != [] ==> acc % 64 == Last(v)
    ensures Accumulated(acc, d) % 64 == d
    ensures var b := BitsAfter(|v|) + 6;
            BitsAfter(|v| + 1) == (if b >= 0 then b - 8 else b)
            && Octets(v + [d]) == Octets(v) + if b >= 0 then [Shift(Accumulated(acc, d), b)] else []
  {
    OctetsOneMore(v, d);
    AccumulatedLast(acc, d);
    Completes(|v|, Last(v), acc, d);
  }

  method DecodeOne(raw: array<Octet>, out: nat, acc: nat, bits: int, ghost v: seq<Sextet>, d: Sextet)
    returns (acc': nat, bits': int, out': nat)
    requires bits == BitsAfter(|v|) && (v != [] ==> acc % 64 == Last(v))
    requires out < raw.Length && raw[..out] == Octets(v) && |Octets(v + [d])| < raw.Length
    modifies raw
    ensures acc' % 64 == d && bits' == BitsAfter(|v| + 1)
    ensures out' < raw.Length && raw[..out'] == Octets(v + [d])
  {
    DecodeStep(v, acc, d);
    acc' := Accumulated(acc, d);
    bits' := bits + 6;
    out' := out;
    if bits' >= 0 {
      raw[out] := Shift(acc', bits');
      out' := out + 1;
      bits' := bits' - 8;
    }
  }

  lemma SextetsStep(s: string, i: nat)
    requires i < |s|
    ensures Sextets(s[..i+1]) == Sextets(s[..i]) + if ValueOf(s[i]) < 0 then [] else [ValueOf(s[i])]
    ensures |Octets(Sextets(s[..i+1]))| < |s| / 4 * 3 + 4
  {
    assert s[..i+1] == s[..i] + [s[i]];
    SextetsOneMore(s[..i], s[i]);
    DecodedFits(s[..i+1]);
  }

  /** Any text at all decodes to the octets its data characters stand for, in bounds. */
  method Decode(b64: string, raw: array<Octet>) returns (out: nat)
    requires raw.Length == |b64| / 4 * 3 + 4
    modifies raw
    ensures out < raw.Length && raw[..out] == Octets(Sextets(b64))
  {
    out := 0;
    var acc, bits := 0, -8;
    var i := 0;
    ghost var v: seq<Sextet> := [];
    while i < |b64|
      invariant i <= |b64| && v == Sextets(b64[..i])
      invariant bits == BitsAfter(|v|) && 0 <= acc && (v != [] ==> acc % 64 == Last(v))
      invariant out < raw.Length && raw[..out] == Octets(v)
    {
      SextetsStep(b64, i);
      var d := ValueOf(b64[i]);
      if d >= 0 {
        acc, bits, out := DecodeOne(raw, out, acc, bits, v, d);
        v := v + [d];
      }
      i := i + 1;
    }
    assert b64[..i] == b64;
  }

  // ---- The round trip ---------------------------------------------------------------

  lemma PackedSextets(g: seq<Octet>)
    requires 1 <= |g| <= 3
    ensures Sextets(Packed(g)) == [Quarter(g, 0), Quarter(g, 1)]
                                  + (if |g| > 1 then [Quarter(g, 2)] else [])
                                  + (if |g| > 2 then [Quarter(g, 3)] else [])
  {
    var s := Packed(g);
    var empty: string := [];
    forall i | 0 <= i < 4
      ensures ValueOf(Symbol(Quarter(g, i))) == Quarter(g, i)
    {
      SymbolValue(Quarter(g, i));
    }
    SextetsOneMore(empty, s[0]);
    assert empty + [s[0]] == [s[0]];
    assert Sextets([s[0]]) == [Quarter(g, 0)];
    SextetsOneMore([s[0]], s[1]);
    assert [s[0]] + [s[1]] == [s[0], s[1]];
    assert Sextets([s[0], s[1]]) == [Quarter(g, 0), Quarter(g, 1)];
    SextetsOneMore([s[0], s[1]], s[2]);
    assert [s[0], s[1]] + [s[2]] == [s[0], s[1], s[2]];
    SextetsOneMore([s[0], s[1], s[2]], s[3]);
    assert s == [s[0], s[1], s[2]] + [s[3]];
  }

  lemma JoinsBack(a: Octet, b: Octet, c: Octet)
    ensures Upper(a / 4, a % 4 * 16 + b / 16) == a
    ensures Middle(a % 4 * 16 + b / 16, b % 16 * 4 + c / 64) == b
    ensures Lower(b % 16 * 4 + c / 64, c % 64) == c
  {
    var q: int, r: int := a % 4, b / 16;
    assert (q * 16 + r) / 16 == q && (q * 16 + r) % 16 == r;
    var h: int, l: int := b % 16, c / 64;
    assert (h * 4 + l) / 4 == h && (h * 4 + l) % 4 == l;
  }

  /** Unpacking what a group was packed into gives the group back. */
  lemma UnpackPacked(g: seq<Octet>)
    requires 1 <= |g| <= 3
    ensures Unpacked(Sextets(Packed(g))) == g && |Sextets(Packed(g))| == |g| + 1
  {
    PackedSextets(g);
    JoinsBack(At(g, 0), At(g, 1), At(g, 2));
    assert g == if |g| == 1 then [g[0]] else if |g| == 2 then [g[0], g[1]] else [g[0], g[1], g[2]];
  }

  /** Decoding what the encoder produced gives back every octet, in all three padding cases. */
  lemma {:induction false} RoundTrip(raw: seq<Octet>)
    ensures Octets(Sextets(Encoded(raw))) == raw
  {
    if raw != [] {
      if |raw| <= 3 {
        UnpackPacked(raw);
      } else {
        var g, rest := raw[..3], raw[3..];
        UnpackPacked(g);
        RoundTrip(rest);
        GroupedOnto(Data, 1, |Packed(g)|, Packed(g), Encoded(rest));
        GroupedOnto(Unpacked, 4, 1, Sextets(Packed(g)), Sextets(Encoded(rest)));
      }
    }
  }
}
