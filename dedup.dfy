/**
 * `get_unique_elements`: `list(OrderedDict.fromkeys(xs))`, which keeps the
 * first occurrence of every element and drops the later, exactly equal ones.
 */
module Dedup {

  predicate NoDuplicates(s: seq<string>) {
    forall i, j :: 0 <= i < j < |s| ==> s[i] != s[j]
  }

  /** The position of the first occurrence of `x` in `s`. */
  function FirstIndex(s: seq<string>, x: string): (k: nat)
    requires x in s
    ensures k < |s| && s[k] == x && x !in s[..k]
  {
    if s[0] == x then 0
    else
      var k := FirstIndex(s[1..], x);
      assert s[..k + 1] == [s[0]] + s[1..][..k];
      k + 1
  }

  /** The elements of `r` come from `s` and appear in the order of their first occurrence in `s`. */
  predicate InFirstOccurrenceOrder(s: seq<string>, r: seq<string>) {
    && (forall x :: x in r ==> x in s)
    && (forall i, j :: 0 <= i < j < |r| ==> FirstsBefore(s, r[i], r[j]))
  }

  /** `x` first occurs in `s` before `y` does. */
  predicate FirstsBefore(s: seq<string>, x: string, y: string) {
    x in s && y in s && FirstIndex(s, x) < FirstIndex(s, y)
  }

  /** `list(OrderedDict.fromkeys(s))`: walking `s` left to right, keep each element not seen before. */
  function GetUniqueElements(s: seq<string>): (r: seq<string>)
    ensures NoDuplicates(r)
    ensures forall x :: x in r <==> x in s
    ensures |r| <= |s|
  {
    if |s| == 0 then []
    else
      var init, last := s[..|s| - 1], s[|s| - 1];
      var p := GetUniqueElements(init);
      assert forall x :: x in s <==> x in init || x == last;
      if last in init then p else p + [last]
  }

  /** Any index holding the first occurrence of `x` is the one FirstIndex finds. */
  lemma FirstIndexIs(s: seq<string>, x: string, k: nat)
    requires k < |s| && s[k] == x && x !in s[..k]
    ensures FirstIndex(s, x) == k
  {
  }

  /** Cutting off a tail does not move the first occurrence of an element of the head. */
  lemma FirstIndexPrefix(s: seq<string>, n: nat, x: string)
    requires n <= |s| && x in s[..n]
    ensures x in s && FirstIndex(s, x) == FirstIndex(s[..n], x)
  {
    var k := FirstIndex(s[..n], x);
    assert s[..n][..k] == s[..k];
    FirstIndexIs(s, x, k);
  }

  /** The result keeps the first-occurrence order of the input. */
  lemma {:induction false} GetUniqueElementsOrdered(s: seq<string>)
    ensures InFirstOccurrenceOrder(s, GetUniqueElements(s))
  {
    if |s| > 0 {
      var n := |s| - 1;
      var init, last := s[..n], s[n];
      var p := GetUniqueElements(init);
      GetUniqueElementsOrdered(init);
      var r := GetUniqueElements(s);
      assert r == if last in init then p else p + [last];
      forall i | 0 <= i < |p|
        ensures p[i] in s && FirstIndex(s, p[i]) == FirstIndex(init, p[i]) < n
      {
        FirstIndexPrefix(s, n, p[i]);
      }
      if last !in init {
        FirstIndexIs(s, last, n);
      }
      forall i, j | 0 <= i < j < |r|
        ensures FirstsBefore(s, r[i], r[j])
      {
        assert r[i] == p[i];
        if j < |p| {
          assert r[j] == p[j];
          assert FirstsBefore(init, p[i], p[j]);
        }
      }
    }
  }

  /** In a first-occurrence-ordered sequence the head occurs first. */
  lemma OrderedHeadFirst(s: seq<string>, r: seq<string>, k: nat)
    requires InFirstOccurrenceOrder(s, r) && k < |r|
    ensures r[0] in s && r[k] in s && FirstIndex(s, r[0]) <= FirstIndex(s, r[k])
  {
    assert r[0] in r && r[k] in r;
    if k > 0 { assert FirstsBefore(s, r[0], r[k]); }
  }

  /** No duplicates, the same elements and the first-occurrence order determine the sequence. */
  lemma {:induction false} FirstOccurrenceOrderDetermines(s: seq<string>, a: seq<string>, b: seq<string>)
    requires NoDuplicates(a) && NoDuplicates(b)
    requires forall x :: x in a <==> x in b
    requires InFirstOccurrenceOrder(s, a) && InFirstOccurrenceOrder(s, b)
    ensures a == b
  {
    if |b| > 0 {
      assert b[0] in a;
    }
    if |a| > 0 {
      assert a[0] in b;
      var k :| 0 <= k < |b| && b[k] == a[0];
      assert b[0] in a;
      var m :| 0 <= m < |a| && a[m] == b[0];
      OrderedHeadFirst(s, b, k);
      OrderedHeadFirst(s, a, m);
      assert s[FirstIndex(s, a[0])] == a[0] && s[FirstIndex(s, b[0])] == b[0];
      assert a[0] == b[0];
      var a', b' := a[1..], b[1..];
      forall x ensures x in a' <==> x in b' {
        assert x in a' <==> x in a && x != a[0];
        assert x in b' <==> x in b && x != b[0];
      }
      assert InFirstOccurrenceOrder(s, a') by {
        forall i, j | 0 <= i < j < |a'| ensures FirstsBefore(s, a'[i], a'[j]) {
          assert a'[i] == a[i + 1] && a'[j] == a[j + 1];
        }
      }
      assert InFirstOccurrenceOrder(s, b') by {
        forall i, j | 0 <= i < j < |b'| ensures FirstsBefore(s, b'[i], b'[j]) {
          assert b'[i] == b[i + 1] && b'[j] == b[j + 1];
        }
      }
      FirstOccurrenceOrderDetermines(s, a', b');
      assert a == [a[0]] + a' && b == [b[0]] + b';
    }
  }

  /**
   * GetUniqueElements(s) is the one sequence without duplicates, with the
   * elements of s, in first-occurrence order.
   */
  lemma GetUniqueElementsCharacterized(s: seq<string>, r: seq<string>)
    ensures r == GetUniqueElements(s) <==>
              NoDuplicates(r) && (forall x :: x in r <==> x in s) && InFirstOccurrenceOrder(s, r)
  {
    GetUniqueElementsOrdered(s);
    if NoDuplicates(r) && (forall x :: x in r <==> x in s) && InFirstOccurrenceOrder(s, r) {
      FirstOccurrenceOrderDetermines(s, r, GetUniqueElements(s));
    }
  }

  /** A list that has no duplicates comes back unchanged. */
  lemma {:induction false} GetUniqueElementsOfDistinct(s: seq<string>)
    requires NoDuplicates(s)
    ensures GetUniqueElements(s) == s
  {
    if |s| > 0 {
      var n := |s| - 1;
      assert NoDuplicates(s[..n]);
      GetUniqueElementsOfDistinct(s[..n]);
      assert s[n] !in s[..n];
      assert s[..n] + [s[n]] == s;
    }
  }

  /** Deduplicating twice is deduplicating once. */
  lemma GetUniqueElementsIdempotent(s: seq<string>)
    ensures GetUniqueElements(GetUniqueElements(s)) == GetUniqueElements(s)
  {
    GetUniqueElementsOfDistinct(GetUniqueElements(s));
  }

  /** Only exact duplicates are removed: two different strings both survive, in order. */
  lemma NoNormalisation()
    ensures GetUniqueElements(["a.jpg", "A.jpg", "a.jpg", "a.jpg?x"]) == ["a.jpg", "A.jpg", "a.jpg?x"]
  {
    var s := ["a.jpg", "A.jpg", "a.jpg", "a.jpg?x"];
    assert s[..3][..2] == ["a.jpg", "A.jpg"];
    assert s[..3][..2][..1] == ["a.jpg"];
    assert s[..3][..2][..1][..0] == [];
  }
}
