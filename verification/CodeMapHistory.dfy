/**
 What the context cache holds after any sequence of records since a reset, told from the
 records alone.
 */
module CodeMapHistory {
  import opened Machine
  import opened CodeMapEvidence
  import opened CodeMapCache

  datatype Event = Event(key: Key, addr: Addr, anchor: Anchor)

  /** The cache after the records of `h`, as Cache.Record updates it. */
  function Run(h: seq<Event>): seq<Entry> {
    if h == [] then []
    else
      var e := h[|h|-1];
      Recorded(Run(h[..|h|-1]), e.key, e.addr, e.anchor)
  }

  // ---- Told from the records alone --------------------------------------------

  function Keys(h: seq<Event>): set<Key> {
    set i | 0 <= i < |h| :: h[i].key
  }

  /** The other keys recorded since `key` was last recorded. */
  function KeysSince(h: seq<Event>, key: Key): (s: set<Key>)
    ensures key !in s && s <= Keys(h)
  {
    if h == [] || h[|h|-1].key == key then {}
    else
      var s := KeysSince(h[..|h|-1], key);
      assert Keys(h[..|h|-1]) <= Keys(h) by { KeysGrow(h); }
      assert h[|h|-1].key in Keys(h);
      s + {h[|h|-1].key}
  }

  lemma KeysGrow(h: seq<Event>)
    requires h != []
    ensures Keys(h) == Keys(h[..|h|-1]) + {h[|h|-1].key}
  {
    forall k | k in Keys(h)
      ensures k in Keys(h[..|h|-1]) || k == h[|h|-1].key
    {
      var i :| 0 <= i < |h| && h[i].key == k;
      if i < |h| - 1 {
        assert h[..|h|-1][i].key == k;
      }
    }
    forall k | k in Keys(h[..|h|-1])
      ensures k in Keys(h)
    {
      var i :| 0 <= i < |h| - 1 && h[..|h|-1][i].key == k;
      assert h[i].key == k;
    }
  }

  /** `key` is among the sixteen most recently recorded distinct keys. */
  predicate AmongLatest(h: seq<Event>, key: Key) {
    key in Keys(h) && |KeysSince(h, key)| < MAX_CONTEXTS
  }

  // ---- The cache keeps exactly those --------------------------------------------

  function KeyList(m: seq<Entry>): (l: seq<Key>)
    ensures |l| == |m|
  {
    seq(|m|, i requires 0 <= i < |m| => m[i].key)
  }

  /** The key list after `q` is recorded. */
  function TouchKeys(l: seq<Key>, q: Key): seq<Key> {
    if q in l then
      Fronted(l, Position(l, q))
    else [q] + if |l| < MAX_CONTEXTS then l else l[..|l|-1]
  }

  function Position(l: seq<Key>, q: Key): (i: nat)
    requires q in l
    ensures i < |l| && l[i] == q && q !in l[..i]
  {
    if l[0] == q then 0 else 1 + Position(l[1..], q)
  }

  /** `l` lists the latest keys of `h` by recency, and nothing else. */
  ghost predicate Tracks(h: seq<Event>, l: seq<Key>) {
    && |l| <= MAX_CONTEXTS && Distinct(l)
    && (forall i :: 0 <= i < |l| ==> ListedAt(h, l, i))
    && (forall k :: k in Keys(h) && k !in l ==> |KeysSince(h, k)| >= MAX_CONTEXTS)
  }

  /** Exactly the keys listed before number `i` were recorded since it. */
  ghost predicate ListedAt(h: seq<Event>, l: seq<Key>, i: nat)
    requires i < |l|
  {
    l[i] in Keys(h) && KeysSince(h, l[i]) == Elements(l[..i])
  }

  lemma RecordedKeys(m: seq<Entry>, q: Key, a: Addr, an: Anchor)
    ensures KeyList(Recorded(m, q, a, an)) == TouchKeys(KeyList(m), q)
  {
    var l := KeyList(m);
    var i := IndexOf(m, q);
    if i < |m| {
      assert l[i] == q;
      assert q !in l[..i];
      assert Position(l, q) == i by {
        PositionUnique(l, q, i);
      }
    } else {
      assert q !in l;
    }
  }

  lemma {:induction false} PositionUnique(l: seq<Key>, q: Key, i: nat)
    requires i < |l| && l[i] == q && q !in l[..i]
    ensures Position(l, q) == i
  {
    if i > 0 {
      assert l[..i] == [l[0]] + l[1..][..i-1];
      PositionUnique(l[1..], q, i - 1);
    }
  }

  lemma AppendedSince(p: seq<Event>, e: Event, k: Key)
    ensures KeysSince(p + [e], k) == if e.key == k then {} else KeysSince(p, k) + {e.key}
    ensures Keys(p + [e]) == Keys(p) + {e.key}
  {
    assert (p + [e])[..|p|] == p;
    KeysGrow(p + [e]);
  }

  lemma ElementsJoin<T>(a: seq<T>, b: seq<T>)
    ensures Elements(a + b) == Elements(a) + Elements(b)
  {
  }

  /** Key number `i` of `l` moved to the front. */
  function Fronted(l: seq<Key>, i: nat): seq<Key>
    requires i < |l|
  {
    [l[i]] + (l[..i] + l[i+1..])
  }

  lemma FrontedFirst(l: seq<Key>, i: nat, j: nat)
    requires 0 < j <= i < |l|
    ensures Fronted(l, i)[j] == l[j-1] && Elements(Fronted(l, i)[..j]) == Elements(l[..j-1]) + {l[i]}
  {
    assert Fronted(l, i)[..j] == [l[i]] + l[..j-1];
    ElementsJoin([l[i]], l[..j-1]);
  }

  lemma FrontedRest(l: seq<Key>, i: nat, j: nat)
    requires i < j < |l|
    ensures Fronted(l, i)[j] == l[j] && Elements(Fronted(l, i)[..j]) == Elements(l[..j])
  {
    assert Fronted(l, i)[..j] == [l[i]] + (l[..i] + l[i+1..j]);
    ElementsJoin([l[i]], l[..i] + l[i+1..j]);
    ElementsJoin(l[..i], l[i+1..j]);
    SplitElements(l, i, j);
  }

  /** The first `j` listed keys after `q` moved to the front are `q` and the first ones before. */
  lemma MovedKeys(l: seq<Key>, q: Key, j: nat)
    requires q in l && 0 < j < |l|
    ensures var l' := TouchKeys(l, q);
            var was := if j <= Position(l, q) then j - 1 else j;
            l'[j] == l[was] && Elements(l'[..j]) == Elements(l[..was]) + {q}
  {
    var i := Position(l, q);
    if j <= i {
      FrontedFirst(l, i, j);
    } else {
      FrontedRest(l, i, j);
      assert l[..j][i] == q;
    }
  }

  lemma SplitElements<T>(l: seq<T>, i: nat, j: nat)
    requires i < j <= |l|
    ensures Elements(l[..j]) == Elements(l[..i]) + {l[i]} + Elements(l[i+1..j])
  {
    assert l[..j] == l[..i] + ([l[i]] + l[i+1..j]);
    ElementsJoin(l[..i], [l[i]] + l[i+1..j]);
    ElementsJoin([l[i]], l[i+1..j]);
  }

  lemma AddedKeys(l: seq<Key>, q: Key, j: nat)
    requires q !in l && 0 < j < |TouchKeys(l, q)|
    ensures var l' := TouchKeys(l, q);
            l'[j] == l[j-1] && Elements(l'[..j]) == Elements(l[..j-1]) + {q}
  {
    assert TouchKeys(l, q)[..j] == [q] + l[..j-1];
    ElementsJoin([q], l[..j-1]);
  }

  /** A key that was listed stays listed where it was, or one place later. */
  lemma ListedStep(p: seq<Event>, e: Event, l: seq<Key>, j: nat)
    requires Tracks(p, l) && j < |TouchKeys(l, e.key)|
    ensures ListedAt(p + [e], TouchKeys(l, e.key), j)
  {
    var q := e.key;
    AppendedSince(p, e, TouchKeys(l, q)[j]);
    if j > 0 {
      var was := if q in l && j > Position(l, q) then j else j - 1;
      if q in l {
        MovedKeys(l, q, j);
      } else {
        AddedKeys(l, q, j);
      }
      assert ListedAt(p, l, was);
      TouchKeysDistinct(l, q);
    }
  }

  lemma TouchKeysDistinct(l: seq<Key>, q: Key)
    requires Distinct(l) && |l| <= MAX_CONTEXTS
    ensures Distinct(TouchKeys(l, q)) && |TouchKeys(l, q)| <= MAX_CONTEXTS
  {
    var l' := TouchKeys(l, q);
    var i := if q in l then Position(l, q) else |l|;
    forall j | 0 < j < |l'|
      ensures l'[j] == (if j <= i then l[j-1] else l[j]) && l'[j] != q
    {
    }
  }

  lemma TouchKeysKeeps(l: seq<Key>, q: Key, j: nat)
    requires |l| <= MAX_CONTEXTS && j < |l|
    requires q in l || |l| < MAX_CONTEXTS || j < |l| - 1
    ensures l[j] in TouchKeys(l, q)
  {
    var l' := TouchKeys(l, q);
    if q in l {
      var i := Position(l, q);
      assert l'[if j < i then j + 1 else if j == i then 0 else j] == l[j];
    } else {
      assert l'[j+1] == l[j];
    }
  }

  /** Only the last of a full list is ever dropped, and only for a newcomer. */
  lemma TouchKeysDrops(l: seq<Key>, q: Key, k: Key)
    requires |l| <= MAX_CONTEXTS && k in l && k !in TouchKeys(l, q)
    ensures q !in l && |l| == MAX_CONTEXTS && k == l[MAX_CONTEXTS-1]
  {
    var j :| 0 <= j < |l| && l[j] == k;
    if q in l || |l| < MAX_CONTEXTS || j < |l| - 1 {
      TouchKeysKeeps(l, q, j);
    }
  }

  /** A key that is not listed has at least sixteen others recorded since. */
  lemma DroppedStep(p: seq<Event>, e: Event, l: seq<Key>, k: Key)
    requires Tracks(p, l) && k in Keys(p + [e]) && k !in TouchKeys(l, e.key)
    ensures |KeysSince(p + [e], k)| >= MAX_CONTEXTS
  {
    AppendedSince(p, e, k);
    assert e.key == TouchKeys(l, e.key)[0];
    if k in l {
      TouchKeysDrops(l, e.key, k);
      assert ListedAt(p, l, MAX_CONTEXTS - 1);
      DistinctCount(l[..MAX_CONTEXTS-1]);
    } else {
      Subset(KeysSince(p, k), KeysSince(p, k) + {e.key});
    }
  }

  lemma TracksStep(p: seq<Event>, e: Event, l: seq<Key>)
    requires Tracks(p, l)
    ensures Tracks(p + [e], TouchKeys(l, e.key))
  {
    TouchKeysDistinct(l, e.key);
    forall j | 0 <= j < |TouchKeys(l, e.key)|
      ensures ListedAt(p + [e], TouchKeys(l, e.key), j)
    {
      ListedStep(p, e, l, j);
    }
    forall k | k in Keys(p + [e]) && k !in TouchKeys(l, e.key)
      ensures |KeysSince(p + [e], k)| >= MAX_CONTEXTS
    {
      DroppedStep(p, e, l, k);
    }
  }

  lemma {:induction false} RunTracks(h: seq<Event>)
    ensures Tracks(h, KeyList(Run(h)))
  {
    if h != [] {
      var p, e := h[..|h|-1], h[|h|-1];
      RunTracks(p);
      RecordedKeys(Run(p), e.key, e.addr, e.anchor);
      TracksStep(p, e, KeyList(Run(p)));
      assert h == p + [e];
    }
  }

  /** The cache holds exactly the sixteen most recently recorded distinct keys, one context each,
      ordered by when they were last recorded, the latest first. */
  lemma CacheHoldsLatest(h: seq<Event>, key: Key)
    ensures |Run(h)| <= MAX_CONTEXTS && Tracks(h, KeyList(Run(h)))
    ensures key in KeyList(Run(h)) <==> AmongLatest(h, key)
  {
    var l := KeyList(Run(h));
    RunTracks(h);
    if key in l {
      var i := Position(l, key);
      assert ListedAt(h, l, i);
      DistinctCount(l[..i]);
    }
  }

  // ---- And what each context covers ----------------------------------------------

  /** The last record of `a` under `key`, or -1. */
  function LastRecord(h: seq<Event>, key: Key, a: Addr): (j: int)
    ensures -1 <= j < |h|
    ensures j >= 0 ==> h[j].key == key && h[j].addr == a
  {
    if h == [] then -1
    else if h[|h|-1].key == key && h[|h|-1].addr == a then |h| - 1
    else LastRecord(h[..|h|-1], key, a)
  }

  /** `key` has been in the cache ever since record `j`: after it, and after every record since. */
  predicate StayedSince(h: seq<Event>, key: Key, j: nat) {
    |h| <= j || (AmongLatest(h, key) && StayedSince(h[..|h|-1], key, j))
  }

  function AnchorsOf(m: seq<Entry>, key: Key): map<Addr, Anchor> {
    var i := IndexOf(m, key);
    if i < |m| then m[i].anchors else map[]
  }

  lemma IndexedKeys(m: seq<Entry>, key: Key)
    ensures IndexOf(m, key) < |m| <==> key in KeyList(m)
  {
    var i := IndexOf(m, key);
    if i < |m| {
      assert KeyList(m)[i] == key;
    }
  }

  lemma IndexUnique(m: seq<Entry>, key: Key, i: nat)
    requires i < |m| && m[i].key == key && Distinct(KeyList(m))
    ensures IndexOf(m, key) == i
  {
    var k := IndexOf(m, key);
    assert KeyList(m)[i] == key && (k < |m| ==> KeyList(m)[k] == key);
  }

  lemma RecordedRest(m: seq<Entry>, q: Key, a: Addr, an: Anchor, i: nat)
    requires 0 < i < |Recorded(m, q, a, an)|
    ensures Recorded(m, q, a, an)[i] in m
  {
    var t := Touch(m, q);
    assert Recorded(m, q, a, an)[i] == t[i];
    var k := IndexOf(m, q);
    if k < |m| {
      assert t[i] == if i <= k then m[i-1] else m[i];
    } else {
      assert t[i] == m[i-1];
    }
  }

  lemma RecordedAnchors(m: seq<Entry>, q: Key, a: Addr, an: Anchor, key: Key)
    requires Distinct(KeyList(m)) && |m| <= MAX_CONTEXTS && key in TouchKeys(KeyList(m), q)
    ensures AnchorsOf(Recorded(m, q, a, an), key)
            == if key == q then AnchorsOf(m, q)[a := an] else AnchorsOf(m, key)
    ensures key == q || key in KeyList(m)
  {
    if key != q {
      RecordedKeys(m, q, a, an);
      OtherAnchors(m, q, a, an, key);
    }
  }

  lemma OtherAnchors(m: seq<Entry>, q: Key, a: Addr, an: Anchor, key: Key)
    requires Distinct(KeyList(m)) && key != q && key in KeyList(Recorded(m, q, a, an))
    ensures key in KeyList(m) && AnchorsOf(Recorded(m, q, a, an), key) == AnchorsOf(m, key)
  {
    var m' := Recorded(m, q, a, an);
    var i := IndexOf(m', key);
    IndexedKeys(m', key);
    RecordedRest(m, q, a, an, i);
    var k :| 0 <= k < |m| && m[k] == m'[i];
    IndexUnique(m, key, k);
    assert KeyList(m)[k] == key;
  }

  /**
   A context covers an address exactly when it was recorded since the context last entered
   the cache, and then with the latest status and opcode.
   */
  ghost predicate CoversSinceEntry(h: seq<Event>, key: Key, a: Addr) {
    var j := LastRecord(h, key, a);
    var anchors := AnchorsOf(Run(h), key);
    && (a in anchors <==> j >= 0 && StayedSince(h, key, j))
    && (a in anchors ==> anchors[a] == h[j].anchor)
  }

  lemma {:induction false} CoverageIsSinceEntry(h: seq<Event>, key: Key, a: Addr)
    requires AmongLatest(h, key)
    ensures CoversSinceEntry(h, key, a)
  {
    var p, e := h[..|h|-1], h[|h|-1];
    assert h == p + [e];
    LatestStep(p, e, key);
    if AmongLatest(p, key) {
      CoverageIsSinceEntry(p, key, a);
    }
    CoverageStep(p, e, key, a);
  }

  lemma CoverageStep(p: seq<Event>, e: Event, key: Key, a: Addr)
    requires AmongLatest(p + [e], key)
    requires AmongLatest(p, key) ==> CoversSinceEntry(p, key, a)
    requires !AmongLatest(p, key) ==> AnchorsOf(Run(p), key) == map[]
    requires AnchorsOf(Run(p + [e]), key)
             == if key == e.key then AnchorsOf(Run(p), key)[e.addr := e.anchor] else AnchorsOf(Run(p), key)
    ensures CoversSinceEntry(p + [e], key, a)
  {
    var h := p + [e];
    assert h[..|h|-1] == p;
    var j := LastRecord(h, key, a);
    if e.key == key && e.addr == a {
      assert StayedSince(h, key, |p|);
    } else {
      assert j == LastRecord(p, key, a);
      assert j >= 0 ==> (StayedSince(h, key, j) <==> StayedSince(p, key, j));
      assert j >= 0 && StayedSince(p, key, j) ==> AmongLatest(p, key);
    }
  }

  /** How one more record changes what the context of a resident key covers. */
  lemma LatestStep(p: seq<Event>, e: Event, key: Key)
    requires AmongLatest(p + [e], key)
    ensures AnchorsOf(Run(p + [e]), key)
            == if key == e.key then AnchorsOf(Run(p), key)[e.addr := e.anchor] else AnchorsOf(Run(p), key)
    ensures key == e.key || AmongLatest(p, key)
    ensures !AmongLatest(p, key) ==> AnchorsOf(Run(p), key) == map[]
  {
    var h := p + [e];
    assert h[..|h|-1] == p;
    CacheHoldsLatest(h, key);
    CacheHoldsLatest(p, key);
    RunTracks(p);
    RecordedKeys(Run(p), e.key, e.addr, e.anchor);
    RecordedAnchors(Run(p), e.key, e.addr, e.anchor, key);
    IndexedKeys(Run(p), key);
  }
}
