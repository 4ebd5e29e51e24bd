/**
 * util/util.go: removing duplicates from a list of strings and the
 * difference of two lists of integers.
 */
module Util {

  predicate NoDuplicates<T(==)>(s: seq<T>) {
    forall i, j :: 0 <= i < j < |s| ==> s[i] != s[j]
  }

  /** A list without repetitions has as many elements as the set of its elements. */
  lemma {:induction false} DistinctCardinality<T>(s: seq<T>)
    requires NoDuplicates(s)
    ensures |set x | x in s| == |s|
    decreases |s|
  {
    if s != [] {
      var init, last := s[..|s| - 1], s[|s| - 1];
      assert s == init + [last];
      DistinctCardinality(init);
      assert (set x | x in s) == (set x | x in init) + {last};
      assert forall i :: 0 <= i < |init| ==> init[i] != last;
      assert last !in (set x | x in init);
    }
  }

  // ---------------------------------------------------------------------------
  // DeDupe
  // ---------------------------------------------------------------------------

  /** The elements of `s`, each kept where it first occurs. */
  function FirstOccurrences(s: seq<string>): seq<string> {
    if s == [] then []
    else
      var kept := FirstOccurrences(s[..|s| - 1]);
      if s[|s| - 1] in kept then kept else kept + [s[|s| - 1]]
  }

  /** The position of the first occurrence of `x` in `s`. */
  function FirstIndex(s: seq<string>, x: string): (i: nat)
    requires x in s
    ensures i < |s| && s[i] == x
    ensures forall j :: 0 <= j < i ==> s[j] != x
  {
    if s[0] == x then 0 else 1 + FirstIndex(s[1..], x)
  }

  /** DeDupe: one pass over the input, remembering what was seen in a map. */
  method DeDupe(original: seq<string>) returns (items: seq<string>)
    ensures items == FirstOccurrences(original)
  {
    items := [];
    var unique: map<string, bool> := map[];
    for i := 0 to |original|
      invariant items == FirstOccurrences(original[..i])
      invariant forall x :: x in unique <==> x in items
    {
      var val := original[i];
      assert original[..i + 1][..i] == original[..i];
      if val !in unique {
        items := items + [val];
        unique := unique[val := true];
      }
    }
    assert original[..|original|] == original;
  }

  lemma {:induction false} FirstOccurrencesElements(s: seq<string>)
    ensures forall x :: x in FirstOccurrences(s) <==> x in s
    decreases |s|
  {
    if s != [] {
      var init := s[..|s| - 1];
      FirstOccurrencesElements(init);
      assert s == init + [s[|s| - 1]];
    }
  }

  /** DeDupe's result holds no element twice. */
  lemma {:induction false} FirstOccurrencesNoDuplicates(s: seq<string>)
    ensures NoDuplicates(FirstOccurrences(s))
    decreases |s|
  {
    if s != [] {
      FirstOccurrencesNoDuplicates(s[..|s| - 1]);
    }
  }

  lemma FirstIndexExtend(s: seq<string>, y: string, x: string)
    requires x in s
    ensures FirstIndex(s + [y], x) == FirstIndex(s, x)
  {
    var i := FirstIndex(s, x);
    var t := s + [y];
    assert t[i] == x;
    var k := FirstIndex(t, x);
    assert k <= i;
  }

  /** `r` lists elements of `s` in the order of their first occurrences in `s`. */
  ghost predicate InFirstOccurrenceOrder(s: seq<string>, r: seq<string>) {
    (forall x :: x in r ==> x in s) &&
    forall i, j :: 0 <= i < j < |r| ==> FirstIndex(s, r[i]) < FirstIndex(s, r[j])
  }

  lemma OrderExtend(init: seq<string>, last: string, kept: seq<string>)
    requires InFirstOccurrenceOrder(init, kept)
    ensures InFirstOccurrenceOrder(init + [last], kept)
    ensures forall x :: x in kept ==> FirstIndex(init + [last], x) < |init|
  {
    forall x | x in kept
      ensures FirstIndex(init + [last], x) == FirstIndex(init, x)
    {
      FirstIndexExtend(init, last, x);
    }
  }

  lemma OrderAppendNew(init: seq<string>, last: string, kept: seq<string>)
    requires InFirstOccurrenceOrder(init, kept)
    requires last !in init
    ensures InFirstOccurrenceOrder(init + [last], kept + [last])
  {
    var s, r := init + [last], kept + [last];
    OrderExtend(init, last, kept);
    assert s[|init|] == last;
    assert FirstIndex(s, last) == |init|;
    forall i, j | 0 <= i < j < |r|
      ensures FirstIndex(s, r[i]) < FirstIndex(s, r[j])
    {
      assert r[i] == kept[i];
      if j < |kept| {
        assert r[j] == kept[j];
      }
    }
  }

  /** DeDupe keeps the input order: earlier results first occur earlier in the input. */
  lemma {:induction false} FirstOccurrencesOrdered(s: seq<string>)
    ensures InFirstOccurrenceOrder(s, FirstOccurrences(s))
    decreases |s|
  {
    if s != [] {
      var init, last := s[..|s| - 1], s[|s| - 1];
      assert s == init + [last];
      FirstOccurrencesOrdered(init);
      FirstOccurrencesElements(init);
      var kept := FirstOccurrences(init);
      if last in kept {
        OrderExtend(init, last, kept);
      } else {
        OrderAppendNew(init, last, kept);
      }
    }
  }

  lemma DeDupeExample()
    ensures FirstOccurrences(["one", "one", "two", "three"]) == ["one", "two", "three"]
  {
    var s := ["one", "one", "two", "three"];
    assert s[..3] == ["one", "one", "two"] && s[..3][..2] == ["one", "one"];
    assert ["one", "one"][..1] == ["one"] && ["one"][..0] == [];
    assert FirstOccurrences(["one"]) == ["one"];
    assert FirstOccurrences(["one", "one"]) == ["one"];
    assert FirstOccurrences(["one", "one", "two"]) == ["one", "two"];
  }

  // ---------------------------------------------------------------------------
  // Difference
  // ---------------------------------------------------------------------------

  /** The elements of `a` that are not in `b`, in the order of `a`. */
  function Without(a: seq<int>, b: set<int>): seq<int> {
    if a == [] then []
    else Without(a[..|a| - 1], b) + (if a[|a| - 1] in b then [] else [a[|a| - 1]])
  }

  /** Difference: the items of `b` go into a set-like map, then `a` is filtered by it. */
  method Difference(a: seq<int>, b: seq<int>) returns (diff: seq<int>)
    ensures diff == Without(a, set x | x in b)
  {
    var m: map<int, bool> := map[];
    for i := 0 to |b|
      invariant forall x :: x in m <==> x in b[..i]
    {
      assert b[..i + 1] == b[..i] + [b[i]];
      m := m[b[i] := true];
    }
    assert b[..|b|] == b;
    diff := [];
    for i := 0 to |a|
      invariant diff == Without(a[..i], set x | x in b)
    {
      assert a[..i + 1][..i] == a[..i] && a[..i + 1][i] == a[i];
      assert a[i] in m <==> a[i] in b;
      if a[i] !in m {
        diff := diff + [a[i]];
      }
    }
    assert a[..|a|] == a;
  }

  /** An element is in the difference exactly when it is in `a` and not in `b`. */
  lemma {:induction false} WithoutElements(a: seq<int>, b: set<int>)
    ensures forall x :: x in Without(a, b) <==> x in a && x !in b
    ensures |Without(a, b)| <= |a|
    decreases |a|
  {
    if a != [] {
      WithoutElements(a[..|a| - 1], b);
      assert a == a[..|a| - 1] + [a[|a| - 1]];
    }
  }

  /** The difference keeps the order of `a`: it distributes over concatenation. */
  lemma {:induction false} WithoutAppend(a: seq<int>, c: seq<int>, b: set<int>)
    ensures Without(a + c, b) == Without(a, b) + Without(c, b)
    decreases |c|
  {
    if c == [] {
      assert a + c == a;
    } else {
      var init := c[..|c| - 1];
      assert (a + c)[..|a + c| - 1] == a + init;
      WithoutAppend(a, init, b);
    }
  }

  /** The difference of a list without repetitions has none either. */
  lemma {:induction false} WithoutNoDuplicates(a: seq<int>, b: set<int>)
    requires NoDuplicates(a)
    ensures NoDuplicates(Without(a, b))
    decreases |a|
  {
    if a != [] {
      var init := a[..|a| - 1];
      assert NoDuplicates(init);
      WithoutNoDuplicates(init, b);
      WithoutElements(init, b);
    }
  }

  /** Nothing is left when every element of `a` is in `b`. */
  lemma {:induction false} WithoutCovered(a: seq<int>, b: set<int>)
    requires forall i :: 0 <= i < |a| ==> a[i] in b
    ensures Without(a, b) == []
    decreases |a|
  {
    if a != [] {
      var init := a[..|a| - 1];
      assert forall i :: 0 <= i < |init| ==> init[i] == a[i];
      WithoutCovered(init, b);
    }
  }

  lemma DifferenceExample()
    ensures Without([1, 2, 3], {1, 2}) == [3]
  {
    var a := [1, 2, 3];
    assert a[..1] == [1] && a[..2] == [1, 2];
    assert Without(a[..1], {1, 2}) == [];
    assert Without(a[..2], {1, 2}) == [];
  }
}
