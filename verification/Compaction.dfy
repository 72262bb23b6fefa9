/**
 Keeping some elements of a table, in place and in order, as the loops that drop records do.
 */
module Compaction {
  function Filter<T>(p: T -> bool, s: seq<T>): seq<T> {
    if s == [] then []
    else Filter(p, s[..|s|-1]) + if p(s[|s|-1]) then [s[|s|-1]] else []
  }

  lemma FilterNext<T>(p: T -> bool, s: seq<T>, i: nat)
    requires i < |s|
    ensures Filter(p, s[..i+1]) == Filter(p, s[..i]) + if p(s[i]) then [s[i]] else []
  {
    assert s[..i+1][..i] == s[..i];
  }

  lemma {:induction false} FilterIn<T>(p: T -> bool, s: seq<T>, x: T)
    ensures x in Filter(p, s) <==> x in s && p(x)
  {
    if s != [] {
      assert s == s[..|s|-1] + [s[|s|-1]];
      FilterIn(p, s[..|s|-1], x);
    }
  }

  /** `at` lists, in order, where in `s` the elements that pass the test are; `kept` is those elements. */
  ghost predicate SiftedAt<T>(kept: seq<T>, s: seq<T>, p: T -> bool, at: seq<int>) {
    && |at| == |kept|
    && (forall i :: 0 <= i < |at| ==> 0 <= at[i] < |s| && kept[i] == s[at[i]])
    && (forall i, j :: 0 <= i < j < |at| ==> at[i] < at[j])
    && (forall k :: 0 <= k < |s| ==> (k in at <==> p(s[k])))
  }

  ghost predicate Sifted<T>(kept: seq<T>, s: seq<T>, p: T -> bool) {
    exists at :: SiftedAt(kept, s, p, at)
  }

  lemma SiftNext<T>(kept: seq<T>, s: seq<T>, p: T -> bool, at: seq<int>, x: T)
    requires SiftedAt(kept, s, p, at)
    ensures if p(x) then SiftedAt(kept + [x], s + [x], p, at + [|s|]) else SiftedAt(kept, s + [x], p, at)
  {
  }

  lemma SiftedNext<T>(kept: seq<T>, s: seq<T>, p: T -> bool, x: T)
    requires Sifted(kept, s, p)
    ensures Sifted(if p(x) then kept + [x] else kept, s + [x], p)
  {
    var at :| SiftedAt(kept, s, p, at);
    SiftNext(kept, s, p, at, x);
  }

  lemma NoneSifted<T>(p: T -> bool)
    ensures Sifted([], [], p)
  {
    assert SiftedAt([], [], p, []);
  }

  lemma FilterSnoc<T>(p: T -> bool, front: seq<T>, x: T)
    ensures Filter(p, front + [x]) == if p(x) then Filter(p, front) + [x] else Filter(p, front)
  {
    assert (front + [x])[..|front|] == front;
    assert Filter(p, front) + [] == Filter(p, front);
  }

  lemma FilterSiftsNext<T>(p: T -> bool, front: seq<T>, x: T)
    requires Sifted(Filter(p, front), front, p)
    ensures Sifted(Filter(p, front + [x]), front + [x], p)
  {
    FilterSnoc(p, front, x);
    SiftedNext(Filter(p, front), front, p, x);
  }

  /** What is kept is what passes the test, each as often as it was there and in the order it was. */
  lemma {:induction false} FilterSifts<T>(p: T -> bool, s: seq<T>)
    ensures Sifted(Filter(p, s), s, p)
  {
    if s == [] {
      NoneSifted(p);
    } else {
      FilterSifts(p, s[..|s|-1]);
      FilterSiftsNext(p, s[..|s|-1], s[|s|-1]);
      assert s == s[..|s|-1] + [s[|s|-1]];
    }
  }

  ghost predicate UniqueBy<T, K>(key: T -> K, s: seq<T>) {
    forall i, j :: 0 <= i < j < |s| ==> key(s[i]) != key(s[j])
  }

  lemma UniqueAppend<T, K>(key: T -> K, s: seq<T>, x: T)
    ensures UniqueBy(key, s + [x]) <==> UniqueBy(key, s) && forall y :: y in s ==> key(y) != key(x)
  {
    var t := s + [x];
    if UniqueBy(key, t) {
      forall i, j | 0 <= i < j < |s|
        ensures key(s[i]) != key(s[j])
      {
        assert t[i] == s[i] && t[j] == s[j];
      }
      forall y | y in s
        ensures key(y) != key(x)
      {
        var i :| 0 <= i < |s| && s[i] == y;
        assert t[i] == y && t[|s|] == x;
      }
    }
  }

  lemma {:induction false} FilterUnique<T, K>(p: T -> bool, key: T -> K, s: seq<T>)
    requires UniqueBy(key, s)
    ensures UniqueBy(key, Filter(p, s))
  {
    if s != [] {
      var front, last := s[..|s|-1], s[|s|-1];
      assert s == front + [last];
      FilterUnique(p, key, front);
      if p(last) {
        UniqueAppend(key, front, last);
        UniqueAppend(key, Filter(p, front), last);
        forall y | y in Filter(p, front)
          ensures key(y) != key(last)
        {
          FilterIn(p, front, y);
        }
      }
    }
  }

  /** Drop, in place and in order, what fails the test. */
  method Compact<T(0)>(a: seq<T>, p: T -> bool) returns (kept: seq<T>)
    ensures kept == Filter(p, a)
  {
    kept := a;
    var keep := 0;
    var i := 0;
    while i < |a|
      invariant keep <= i <= |a| == |kept|
      invariant kept[..keep] == Filter(p, a[..i])
      invariant kept[i..] == a[i..]
    {
      FilterNext(p, a, i);
      assert kept[i] == a[i];
      if p(kept[i]) {
        kept := kept[keep := kept[i]];
        keep := keep + 1;
      }
      i := i + 1;
    }
    assert a[..i] == a;
    kept := kept[..keep];
  }
}
