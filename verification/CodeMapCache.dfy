/**
 The bounded cache of bank contexts that recording fills: sixteen slots, recycled least
 recently used first, with a shortcut that skips the bookkeeping while the bank state does
 not change. A context's coverage bits, status bytes and opcode bytes are one map here,
 the addresses whose coverage bit is set being its keys.
 */
module CodeMapCache {
  import opened Machine
  import opened CodeMapEvidence

  const MAX_CONTEXTS: nat := 16

  // ---- What the cache stands for --------------------------------------------------

  /** One bank context: its key and what was recorded since it entered the cache. */
  datatype Entry = Entry(key: Key, anchors: map<Addr, Anchor>)

  /** Where `key` is, or the length when it is not there. */
  function IndexOf(m: seq<Entry>, key: Key): (i: nat)
    ensures i <= |m|
    ensures i < |m| ==> m[i].key == key
    ensures forall j :: 0 <= j < i ==> m[j].key != key
  {
    if m == [] || m[0].key == key then 0 else 1 + IndexOf(m[1..], key)
  }

  /** Bring `key` to the front, most recent first; a newcomer pushes the oldest of a full cache out. */
  function Touch(m: seq<Entry>, key: Key): seq<Entry> {
    var i := IndexOf(m, key);
    if i < |m| then [m[i]] + m[..i] + m[i+1..]
    else [Entry(key, map[])] + if |m| < MAX_CONTEXTS then m else m[..|m|-1]
  }

  lemma TouchFront(m: seq<Entry>, key: Key)
    requires m != [] && m[0].key == key
    ensures Touch(m, key) == m
  {
  }

  /** A newcomer goes to the front, so bringing it there again changes nothing. */
  lemma TouchAgain(m: seq<Entry>, key: Key)
    ensures IndexOf(m, key) == |m| ==> Touch(m, key)[0].key == key && Touch(Touch(m, key), key) == Touch(m, key)
  {
  }

  /** Record one anchor under `key`. */
  function Recorded(m: seq<Entry>, key: Key, a: Addr, an: Anchor): seq<Entry> {
    var t := Touch(m, key);
    [Entry(key, t[0].anchors[a := an])] + t[1..]
  }

  /** What the disassembler sees of the cache. */
  function CoverageOf(m: seq<Entry>): Coverage {
    if m == [] then map[] else CoverageOf(m[1..])[m[0].key := m[0].anchors]
  }

  lemma {:induction false} CoverageAt(m: seq<Entry>, key: Key)
    ensures key in CoverageOf(m) <==> IndexOf(m, key) < |m|
    ensures key in CoverageOf(m) ==> CoverageOf(m)[key] == m[IndexOf(m, key)].anchors
  {
    if m != [] && m[0].key != key {
      CoverageAt(m[1..], key);
    }
  }

  // ---- Counting distinct elements -----------------------------------------------

  ghost predicate Distinct<T>(s: seq<T>) {
    forall i, j :: 0 <= i < j < |s| ==> s[i] != s[j]
  }

  function Elements<T>(s: seq<T>): set<T> {
    set x | x in s
  }

  lemma {:induction false} DistinctCount<T>(s: seq<T>)
    ensures |Elements(s)| <= |s|
    ensures Distinct(s) ==> |Elements(s)| == |s|
  {
    if s != [] {
      DistinctCount(s[1..]);
      assert Elements(s) == {s[0]} + Elements(s[1..]);
    }
  }

  /** Distinct elements drawn from a list are no more than the list is long. */
  lemma Pigeonhole<T>(s: seq<T>, t: seq<T>)
    requires Distinct(s) && forall x :: x in s ==> x in t
    ensures |s| <= |t|
  {
    DistinctCount(s);
    DistinctCount(t);
    Subset(Elements(s), Elements(t));
  }

  lemma Subset<T>(a: set<T>, b: set<T>)
    requires a <= b
    ensures |a| <= |b|
  {
    assert b == a + (b - a);
  }

  // ---- The cache itself -----------------------------------------------------------

  class Context {
    var used: bool
    var key: Key
    var lru: nat
    var anchors: map<Addr, Anchor>

    constructor ()
      ensures !used && anchors == map[]
    {
      used, key, lru, anchors := false, Key(0, 0, 0), 0, map[];
    }
  }

  /** A context in use, with the stamp and the content it is known to have. */
  datatype Item = Item(ctx: Context, slot: nat, lru: nat, entry: Entry)

  ghost predicate Above(x: Item, y: Item) {
    x.lru > y.lru && x.ctx != y.ctx && x.entry.key != y.entry.key
  }

  /** By falling stamp, one item a context and one a key. */
  ghost predicate Sorted(items: seq<Item>) {
    forall i, j :: 0 <= i < j < |items| ==> Above(items[i], items[j])
  }

  ghost function Entries(items: seq<Item>): (m: seq<Entry>)
    ensures |m| == |items|
  {
    seq(|items|, i requires 0 <= i < |items| => items[i].entry)
  }

  ghost function ContextsOf(items: seq<Item>): (cs: seq<Context?>)
    ensures |cs| == |items|
  {
    seq(|items|, i requires 0 <= i < |items| => items[i].ctx)
  }

  ghost function MoveFront(items: seq<Item>, i: nat, stamp: nat): seq<Item>
    requires i < |items|
  {
    [items[i].(lru := stamp)] + items[..i] + items[i+1..]
  }

  /** Moving an item to the front keeps every other item where it stood among the rest. */
  lemma MoveFrontAt(items: seq<Item>, i: nat, stamp: nat, j: nat)
    requires i < |items| && 0 < j < |items|
    ensures MoveFront(items, i, stamp)[j] == if j <= i then items[j-1] else items[j]
  {
  }

  lemma MoveFrontSorted(items: seq<Item>, i: nat, stamp: nat)
    requires i < |items| && Sorted(items) && forall it :: it in items ==> it.lru < stamp
    ensures Sorted(MoveFront(items, i, stamp))
  {
    var moved := MoveFront(items, i, stamp);
    forall j, k | 0 <= j < k < |moved|
      ensures Above(moved[j], moved[k])
    {
      MoveFrontAt(items, i, stamp, k);
      if j > 0 {
        MoveFrontAt(items, i, stamp, j);
      }
    }
  }

  lemma MoveFrontKeeps(items: seq<Item>, i: nat, stamp: nat, it: Item)
    requires i < |items| && it in items && it.ctx != items[i].ctx
    ensures it in MoveFront(items, i, stamp)
  {
    var k :| 0 <= k < |items| && items[k] == it;
    MoveFrontAt(items, i, stamp, if k < i then k + 1 else k);
  }

  lemma MoveFrontAddsNone(items: seq<Item>, i: nat, stamp: nat, it: Item)
    requires i < |items| && Sorted(items) && it in MoveFront(items, i, stamp)
    ensures it == items[i].(lru := stamp) || (it in items && it.ctx != items[i].ctx)
  {
    var moved := MoveFront(items, i, stamp);
    var k :| 0 <= k < |items| && moved[k] == it;
    if k > 0 {
      MoveFrontAt(items, i, stamp, k);
    }
  }

  lemma MoveFrontMembers(items: seq<Item>, i: nat, stamp: nat)
    requires i < |items| && Sorted(items)
    ensures var moved := MoveFront(items, i, stamp);
            && (forall it :: it in moved ==> it == items[i].(lru := stamp) || (it in items && it.ctx != items[i].ctx))
            && (forall it :: it in items && it.ctx != items[i].ctx ==> it in moved)
  {
    forall it | it in MoveFront(items, i, stamp)
      ensures it == items[i].(lru := stamp) || (it in items && it.ctx != items[i].ctx)
    {
      MoveFrontAddsNone(items, i, stamp, it);
    }
    forall it | it in items && it.ctx != items[i].ctx
      ensures it in MoveFront(items, i, stamp)
    {
      MoveFrontKeeps(items, i, stamp, it);
    }
  }

  lemma MoveFrontEntries(items: seq<Item>, i: nat, stamp: nat)
    requires i < |items|
    ensures var m := Entries(items);
            Entries(MoveFront(items, i, stamp)) == [m[i]] + m[..i] + m[i+1..]
  {
  }

  lemma PushFrontSorted(items: seq<Item>, keep: nat, it: Item)
    requires keep <= |items| && Sorted(items)
    requires forall x :: x in items[..keep] ==> x.lru < it.lru && x.ctx != it.ctx && x.entry.key != it.entry.key
    ensures var pushed := [it] + items[..keep];
            Sorted(pushed) && Entries(pushed) == [it.entry] + Entries(items)[..keep]
  {
    var pushed := [it] + items[..keep];
    forall j | 0 < j < |pushed|
      ensures pushed[j] == items[j-1] && pushed[j] in items[..keep]
    {
    }
  }

  class Cache {
    const slots: array<Context?>
    var lruClock: nat
    var last: Context?

    /** The contexts in use, most recently recorded first. */
    ghost var items: seq<Item>
    ghost var Repr: set<Context>

    /** What the context in slot `i` holds. */
    ghost function ItemAt(i: nat): Item
      requires i < slots.Length && slots[i] != null
      reads slots, slots[i]
    {
      Item(slots[i], i, slots[i].lru, Entry(slots[i].key, slots[i].anchors))
    }

    ghost predicate Holds(it: Item)
      reads this, slots, it.ctx
    {
      && it.ctx in Repr && it.slot < slots.Length && slots[it.slot] == it.ctx
      && it == ItemAt(it.slot) && it.ctx.used && it.lru <= lruClock
    }

    /** Every slot is distinct, and the ones in use are exactly those of `items`. */
    ghost predicate Ordered()
      reads this, slots, Repr, set it | it in items :: it.ctx
    {
      && slots.Length == MAX_CONTEXTS && |items| <= MAX_CONTEXTS
      && (forall i, j :: 0 <= i < j < slots.Length && slots[i] != null ==> slots[i] != slots[j])
      && (forall i :: 0 <= i < slots.Length && slots[i] != null ==> slots[i] in Repr)
      && (forall i :: 0 <= i < slots.Length && slots[i] != null && slots[i].used ==> ItemAt(i) in items)
      && (forall it :: it in items ==> Holds(it))
      && Sorted(items)
    }

    /** Between calls the shortcut, when set, names the most recently recorded context. */
    ghost predicate Valid()
      reads this, slots, Repr, set it | it in items :: it.ctx
    {
      Ordered() && (last != null ==> items != [] && last == items[0].ctx)
    }

    /** What the cache holds, most recently recorded first. */
    ghost function Contents(): seq<Entry>
      reads this
    {
      Entries(items)
    }

    constructor ()
      ensures Valid() && Contents() == []
    {
      slots := new Context?[MAX_CONTEXTS](_ => null);
      lruClock, last, items, Repr := 0, null, [], {};
    }

    method Find(key: Key) returns (c: Context?)
      requires Ordered()
      ensures c == null <==> IndexOf(Contents(), key) == |items|
      ensures c != null ==> c == items[IndexOf(Contents(), key)].ctx
    {
      for i := 0 to slots.Length
        invariant forall j :: 0 <= j < i && slots[j] != null && slots[j].used ==> slots[j].key != key
      {
        c := slots[i];
        if c != null && c.used && c.key == key {
          FoundAt(i, key);
          return;
        }
      }
      c := null;
      forall k | 0 <= k < |items|
        ensures Contents()[k].key != key
      {
        assert items[k] in items && slots[items[k].slot] == items[k].ctx;
      }
    }

    lemma FoundAt(i: nat, key: Key)
      requires Ordered() && i < slots.Length && slots[i] != null && slots[i].used && slots[i].key == key
      ensures var k := IndexOf(Contents(), key); k < |items| && items[k].ctx == slots[i]
    {
      var j :| 0 <= j < |items| && items[j] == ItemAt(i);
      assert Contents()[j].key == key;
    }

    ghost predicate Free(i: nat)
      requires i < slots.Length
      reads this, slots, slots[i]
    {
      slots[i] == null || !slots[i].used
    }

    /** Room is left exactly while some slot is free. */
    lemma FreeMeansRoom(i: nat)
      requires Ordered() && i < slots.Length && Free(i)
      ensures |items| < MAX_CONTEXTS
    {
      var others := slots[..i] + slots[i+1..];
      var held := ContextsOf(items);
      forall c: Context? | c in held
        ensures c in others
      {
        var k :| 0 <= k < |items| && held[k] == c;
        assert items[k] in items && slots[items[k].slot] == c;
      }
      Pigeonhole(held, others);
    }

    lemma NoFreeMeansFull()
      requires Ordered() && forall i :: 0 <= i < slots.Length ==> slots[i] != null && slots[i].used
      ensures |items| == MAX_CONTEXTS
    {
      var held := ContextsOf(items);
      forall i | 0 <= i < slots.Length
        ensures slots[i] in held
      {
        var k :| 0 <= k < |items| && items[k] == ItemAt(i);
        assert held[k] == slots[i];
      }
      assert Distinct(slots[..]);
      Pigeonhole(slots[..], held);
    }

    /** The context with the smallest stamp is the last in order. */
    lemma OldestIs(slot: nat)
      requires Ordered() && items != [] && slot < slots.Length && slots[slot] != null && slots[slot].used
      requires forall j :: 0 <= j < slots.Length ==> slots[j] != null && slots[slot].lru <= slots[j].lru
      ensures slots[slot] == items[|items|-1].ctx
    {
      var oldest := items[|items|-1];
      var k :| 0 <= k < |items| && items[k] == ItemAt(slot);
      assert oldest in items && slots[oldest.slot] == oldest.ctx;
      assert items[k].lru <= oldest.lru;
    }

    /** A free slot when there is one, else the slot of the least recently used context. */
    method ChooseSlot() returns (slot: nat)
      requires Ordered()
      ensures slot < slots.Length
      ensures if |items| < MAX_CONTEXTS then Free(slot) else slots[slot] == items[|items|-1].ctx
    {
      var s := -1;
      for i := 0 to slots.Length
        invariant -1 <= s < i && (i > 0 ==> s >= 0)
        invariant forall j :: 0 <= j < i ==> slots[j] != null && slots[j].used
        invariant forall j :: 0 <= j < i ==> slots[s].lru <= slots[j].lru
      {
        if slots[i] == null || !slots[i].used {
          FreeMeansRoom(i);
          return i;
        }
        if s < 0 || slots[i].lru < slots[s].lru {
          s := i;
        }
      }
      NoFreeMeansFull();
      slot := s;
      OldestIs(slot);
    }

    /** Give a context that is in use the newest stamp, which puts its item in front. */
    method Restamp(c: Context, ghost i: nat)
      requires Ordered() && i < |items| && c == items[i].ctx
      modifies this, Repr
      ensures Ordered() && last == old(last) && Repr == old(Repr)
      ensures items == MoveFront(old(items), i, old(lruClock) + 1) && items[0].ctx == c
    {
      assert items[i] in items;
      MoveFrontSorted(items, i, lruClock + 1);
      MoveFrontMembers(items, i, lruClock + 1);
      lruClock := lruClock + 1;
      c.lru := lruClock;
      items := MoveFront(items, i, lruClock);
    }

    /** Move a context that is in use to the front. */
    method Promote(c: Context, ghost i: nat)
      requires Ordered() && i < |items| && c == items[i].ctx
      modifies this, Repr
      ensures Valid() && last == c && Repr == old(Repr)
      ensures Contents() == [old(Contents())[i]] + old(Contents())[..i] + old(Contents())[i+1..]
      ensures items[0].ctx == c
    {
      MoveFrontEntries(items, i, lruClock + 1);
      Restamp(c, i);
      last := c;
    }

    /** Everything is in order except for the context in one slot, which no item of `kept` uses. */
    ghost predicate OrderedBut(kept: seq<Item>, c: Context, slot: nat)
      reads this, slots, Repr, set it | it in kept :: it.ctx
    {
      && slots.Length == MAX_CONTEXTS && |kept| < MAX_CONTEXTS && slot < slots.Length && slots[slot] == c && c in Repr
      && (forall i, j :: 0 <= i < j < slots.Length && slots[i] != null ==> slots[i] != slots[j])
      && (forall i :: 0 <= i < slots.Length && slots[i] != null ==> slots[i] in Repr)
      && (forall i :: 0 <= i < slots.Length && i != slot && slots[i] != null && slots[i].used ==> ItemAt(i) in kept)
      && (forall it :: it in kept ==> Holds(it) && it.ctx != c)
      && Sorted(kept)
    }

    /** What stays when a newcomer takes a slot: everything, or all but the oldest of a full cache. */
    ghost function Kept(): (kept: seq<Item>)
      reads this
    {
      if |items| < MAX_CONTEXTS then items else items[..|items|-1]
    }

    lemma KeptSpares(slot: nat)
      requires Ordered() && slot < slots.Length
      requires if |items| < MAX_CONTEXTS then Free(slot) else slots[slot] == items[|items|-1].ctx
      ensures |Kept()| < MAX_CONTEXTS && Sorted(Kept())
      ensures forall it :: it in Kept() ==> it in items && it.ctx != slots[slot]
      ensures forall i :: 0 <= i < slots.Length && i != slot && slots[i] != null && slots[i].used ==>
                ItemAt(i) in Kept()
    {
      forall i | 0 <= i < slots.Length && i != slot && slots[i] != null && slots[i].used
        ensures ItemAt(i) in Kept()
      {
        var k :| 0 <= k < |items| && items[k] == ItemAt(i);
        assert k < |Kept()| ==> Kept()[k] == ItemAt(i);
      }
    }

    /** Get the context of a chosen slot ready for reuse: a new one, or the old one with its record cleared. */
    method Claim(slot: nat) returns (c: Context)
      requires Ordered() && slot < slots.Length
      requires if |items| < MAX_CONTEXTS then Free(slot) else slots[slot] == items[|items|-1].ctx
      modifies this, slots, Repr
      ensures fresh(Repr - old(Repr)) && items == old(items) && lruClock == old(lruClock)
      ensures OrderedBut(Kept(), c, slot) && c.anchors == map[]
    {
      KeptSpares(slot);
      if slots[slot] == null {
        c := FillSlot(slot);
      } else {
        c := slots[slot];
        c.anchors := map[];
        if last == c {
          last := null;
        }
      }
    }

    method FillSlot(slot: nat) returns (c: Context)
      requires Ordered() && slot < slots.Length && slots[slot] == null && |items| < MAX_CONTEXTS
      modifies this, slots
      ensures fresh(Repr - old(Repr)) && items == old(items) && lruClock == old(lruClock)
      ensures OrderedBut(items, c, slot) && c.anchors == map[]
    {
      c := new Context();
      slots[slot] := c;
      Repr := Repr + {c};
    }

    /** Stamp a claimed context for `key` and put it at the front. */
    method Stamp(ghost slot: nat, c: Context, key: Key)
      requires OrderedBut(Kept(), c, slot) && c.anchors == map[]
      requires forall it :: it in Kept() ==> it.entry.key != key
      modifies this, c
      ensures Ordered() && Repr == old(Repr)
      ensures items != [] && c == items[0].ctx
      ensures Contents() == [Entry(key, map[])] + Entries(old(Kept()))
    {
      ghost var kept := Kept();
      lruClock := lruClock + 1;
      c.used, c.key, c.lru := true, key, lruClock;
      ghost var it := Item(c, slot, lruClock, Entry(key, map[]));
      PushFrontSorted(kept, |kept|, it);
      assert kept[..|kept|] == kept && Entries(kept)[..|kept|] == Entries(kept);
      items := [it] + kept;
    }

    /** The context for `key`, made at the front when there is none. */
    method GetOrCreate(key: Key) returns (c: Context)
      requires Ordered()
      modifies this, slots, Repr
      ensures Ordered() && fresh(Repr - old(Repr))
      ensures Contents() == if IndexOf(old(Contents()), key) < |old(items)| then old(Contents())
                            else Touch(old(Contents()), key)
      ensures IndexOf(Contents(), key) < |items| && c == items[IndexOf(Contents(), key)].ctx
    {
      var found := Find(key);
      if found != null {
        return found;
      }
      var slot := ChooseSlot();
      KeptEntries(key);
      c := Claim(slot);
      Stamp(slot, c, key);
    }

    lemma KeptEntries(key: Key)
      requires Ordered() && IndexOf(Contents(), key) == |items|
      ensures [Entry(key, map[])] + Entries(Kept()) == Touch(Contents(), key)
      ensures forall it :: it in Kept() ==> it.entry.key != key
    {
      forall it | it in Kept()
        ensures it.entry.key != key
      {
        var k :| 0 <= k < |items| && items[k] == it;
        assert Contents()[k].key != key;
      }
    }

    /** Look `key`'s context up, or make it, and bring it to the front. */
    method Refresh(key: Key) returns (c: Context)
      requires Valid()
      modifies this, slots, Repr
      ensures Valid() && fresh(Repr - old(Repr))
      ensures Contents() == Touch(old(Contents()), key)
      ensures items != [] && c == items[0].ctx && items[0].entry.key == key
    {
      c := GetOrCreate(key);
      ghost var m := Contents();
      TouchAgain(old(Contents()), key);
      assert Touch(m, key) == Touch(old(Contents()), key);
      Promote(c, IndexOf(m, key));
      assert Contents() == Touch(m, key);
      assert items[0].entry == Contents()[0];
    }

    /** Make `key`'s context the front one, unless the shortcut says it already is. */
    method Select(key: Key) returns (c: Context)
      requires Valid()
      modifies this, slots, Repr
      ensures Valid() && fresh(Repr - old(Repr))
      ensures Contents() == Touch(old(Contents()), key)
      ensures items != [] && c == items[0].ctx && c in Repr && items[0].entry.key == key
    {
      if last == null || !last.used || last.key != key {
        c := Refresh(key);
      } else {
        assert items[0] in items;
        c := last;
        TouchFront(Contents(), key);
      }
      assert items[0] in items;
    }

    /** Write one anchor into the front context. */
    method Note(c: Context, a: Addr, an: Anchor)
      requires Valid() && items != [] && c == items[0].ctx
      modifies this`items, c`anchors
      ensures Valid() && |items| == |old(items)|
      ensures var e := old(Contents())[0];
              Contents() == [Entry(e.key, e.anchors[a := an])] + old(Contents())[1..]
    {
      assert items[0] in items;
      ghost var rest := items[1..];
      forall i | 0 <= i < slots.Length && slots[i] != null && slots[i].used && slots[i] != c
        ensures ItemAt(i) in rest
      {
        var k :| 0 <= k < |items| && items[k] == ItemAt(i);
        assert items[k] == rest[k-1];
      }
      forall it | it in rest
        ensures it in items && it.ctx != c
      {
        var k :| 0 <= k < |rest| && rest[k] == it;
        assert items[k+1] == it;
      }
      c.anchors := c.anchors[a := an];
      items := [items[0].(entry := Entry(items[0].entry.key, c.anchors))] + rest;
    }

    /** Record an instruction start as the CPU executes it. */
    method Record(m: Cpu, pc: Addr, banks: Banks, status: Byte)
      requires Valid()
      modifies this, slots, Repr
      ensures Valid() && fresh(Repr - old(Repr))
      ensures Contents() == Recorded(old(Contents()), KeyFor(m.gen2, pc, banks), pc,
                                     Anchor(status, MemoryAt(m, banks, pc)))
    {
      var c := Select(KeyFor(m.gen2, pc, banks));
      Note(c, pc, Anchor(status, MemoryAt(m, banks, pc)));
    }

    /** Forget everything; the contexts stay allocated. */
    method Reset()
      requires Valid()
      modifies this, Repr
      ensures Valid() && Contents() == [] && Repr == old(Repr)
    {
      for i := 0 to slots.Length
        invariant forall j :: 0 <= j < i && slots[j] != null ==> !slots[j].used
        modifies Repr
      {
        if slots[i] != null {
          slots[i].used := false;
          slots[i].anchors := map[];
        }
      }
      lruClock, last, items := 0, null, [];
    }

    /** Is `pc` a believed instruction start, and with what status? */
    method Lookup(m: Cpu, pc: Addr, banks: Banks, fallback: Byte) returns (believed: bool, status: Byte)
      requires Valid()
      ensures believed == AnchorOk(m, banks, CoverageOf(Contents()), pc)
      ensures status == if believed then AnchorStatus(m, banks, CoverageOf(Contents()), pc) else fallback
    {
      var key := KeyFor(m.gen2, pc, banks);
      CoverageAt(Contents(), key);
      var c := Find(key);
      if c != null {
        assert items[IndexOf(Contents(), key)] in items;
        believed := pc in c.anchors && c.anchors[pc].opcode == MemoryAt(m, banks, pc);
        status := if believed then c.anchors[pc].status else fallback;
      } else {
        believed, status := false, fallback;
      }
    }
  }
}
