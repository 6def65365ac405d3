/**
 * Removing repeated elements from a list while keeping the first
 * occurrence of each, as the report code does with `Map`/`Set` lookups
 * and with `indexOf` tests before `push`.
 */
module Sequences {
  ghost predicate Distinct<T>(s: seq<T>) {
    forall i, j :: 0 <= i < j < |s| ==> s[i] != s[j]
  }

  lemma AppendAssoc<T>(a: seq<T>, b: seq<T>, c: seq<T>)
    ensures a + (b + c) == (a + b) + c
  {
  }

  lemma ConsTail<T>(x: T, s: seq<T>)
    ensures ([x] + s)[0] == x && ([x] + s)[1..] == s
  {
  }

  lemma PrefixOfPrefix<T>(s: seq<T>, i: nat, j: nat)
    requires i <= j <= |s|
    ensures s[..j][..i] == s[..i]
  {
  }

  /** Lists that agree before their last elements and on their last elements are equal. */
  lemma EqualByInitLast<T>(a: seq<T>, b: seq<T>)
    requires |a| > 0 && |b| > 0 && a[..|a| - 1] == b[..|b| - 1] && a[|a| - 1] == b[|b| - 1]
    ensures a == b
  {
    assert |a| == |b|;
    forall i | 0 <= i < |a|
      ensures a[i] == b[i]
    {
      if i < |a| - 1 {
        assert a[i] == a[..|a| - 1][i];
      }
    }
  }

  /** The index of the first occurrence of `x` in `s`. */
  function FirstIndexOf<T(==)>(s: seq<T>, x: T): (r: nat)
    requires x in s
    ensures r < |s| && s[r] == x
    ensures forall i :: 0 <= i < r ==> s[i] != x
  {
    if s[0] == x then 0 else 1 + FirstIndexOf(s[1..], x)
  }

  /** In a list without repeats, the position of an element is its first index. */
  lemma FirstIndexOfDistinct<T>(s: seq<T>, k: nat)
    requires Distinct(s) && k < |s|
    ensures FirstIndexOf(s, s[k]) == k
  {
  }

  /** A first index is the same in any extension of a list that already holds the element. */
  lemma FirstIndexOfExtend<T>(s: seq<T>, t: seq<T>, x: T)
    requires x in s
    ensures x in s + t && FirstIndexOf(s + t, x) == FirstIndexOf(s, x)
  {
    var k := FirstIndexOf(s, x);
    assert (s + t)[k] == x;
  }

  /** The first occurrence of each element, in the order of first occurrence. */
  function Dedup<T(==)>(s: seq<T>): (r: seq<T>)
    ensures Distinct(r)
    ensures |r| <= |s|
  {
    if s == [] then []
    else
      var d := Dedup(s[..|s| - 1]);
      if s[|s| - 1] in d then d else d + [s[|s| - 1]]
  }

  /** One more element: `Dedup` grows by it exactly when it is new. */
  lemma DedupStep<T>(s: seq<T>, i: nat)
    requires i < |s|
    ensures Dedup(s[..i + 1]) == if s[i] in Dedup(s[..i]) then Dedup(s[..i]) else Dedup(s[..i]) + [s[i]]
  {
    assert s[..i + 1][..i] == s[..i] && s[..i + 1][i] == s[i];
  }

  /** `Dedup` keeps exactly the elements of its input. */
  lemma {:induction false} DedupMember<T>(s: seq<T>, x: T)
    ensures x in Dedup(s) <==> x in s
    decreases |s|
  {
    if s != [] {
      DedupMember(s[..|s| - 1], x);
      assert s == s[..|s| - 1] + [s[|s| - 1]];
    }
  }

  lemma DedupMembers<T>(s: seq<T>)
    ensures forall x :: x in Dedup(s) <==> x in s
  {
    forall x
      ensures x in Dedup(s) <==> x in s
    {
      DedupMember(s, x);
    }
  }

  /**
   * `Dedup` lists the elements in the order of their first occurrence in
   * the input.
   */
  lemma {:induction false} DedupOrder<T>(s: seq<T>)
    ensures (forall x :: x in Dedup(s) <==> x in s)
      && forall i, j :: 0 <= i < j < |Dedup(s)| ==>
        FirstIndexOf(s, Dedup(s)[i]) < FirstIndexOf(s, Dedup(s)[j])
    decreases |s|, 1
  {
    DedupMembers(s);
    if s != [] {
      var init, x := s[..|s| - 1], s[|s| - 1];
      assert s == init + [x];
      forall i, j | 0 <= i < j < |Dedup(s)|
        ensures FirstIndexOf(s, Dedup(s)[i]) < FirstIndexOf(s, Dedup(s)[j])
      {
        DedupOrderStep(init, x, i, j);
      }
    }
  }

  /** The order of two kept elements after one more input element. */
  lemma {:induction false} DedupOrderStep<T>(init: seq<T>, x: T, i: nat, j: nat)
    requires i < j < |Dedup(init + [x])|
    ensures Dedup(init + [x])[i] in init + [x] && Dedup(init + [x])[j] in init + [x]
    ensures FirstIndexOf(init + [x], Dedup(init + [x])[i]) < FirstIndexOf(init + [x], Dedup(init + [x])[j])
    decreases |init| + 1, 0
  {
    var s := init + [x];
    assert s[..|s| - 1] == init;
    var d := Dedup(init);
    var r := Dedup(s);
    assert r == if x in d then d else d + [x];
    assert i < |d| && r[i] == d[i];
    DedupMember(init, d[i]);
    FirstIndexOfExtend(init, [x], d[i]);
    if j < |d| {
      assert r[j] == d[j];
      DedupMember(init, d[j]);
      FirstIndexOfExtend(init, [x], d[j]);
      DedupOrder(init);
    } else {
      DedupMember(init, x);
      assert r[j] == x && x !in init;
      assert FirstIndexOf(s, x) == |s| - 1;
    }
  }

  /** A list without repeats is its own `Dedup`. */
  lemma {:induction false} DedupDistinct<T>(s: seq<T>)
    requires Distinct(s)
    ensures Dedup(s) == s
    decreases |s|
  {
    if s != [] {
      var init := s[..|s| - 1];
      DedupDistinct(init);
      assert s[|s| - 1] !in init;
      assert s == init + [s[|s| - 1]];
    }
  }

  /** `Dedup` of a longer input extends `Dedup` of its prefix. */
  lemma {:induction false} DedupPrefix<T>(s: seq<T>, n: nat)
    requires n <= |s|
    ensures |Dedup(s[..n])| <= |Dedup(s)| && Dedup(s)[..|Dedup(s[..n])|] == Dedup(s[..n])
    decreases |s| - n
  {
    if n < |s| {
      DedupPrefix(s, n + 1);
      var s' := s[..n + 1];
      assert s'[..|s'| - 1] == s[..n];
    } else {
      assert s[..n] == s;
    }
  }

  /** The keys of a list's elements, in order. */
  function KeysOf<T, K>(s: seq<T>, key: T -> K): (r: seq<K>)
    ensures |r| == |s| && forall i :: 0 <= i < |s| ==> r[i] == key(s[i])
  {
    if s == [] then [] else KeysOf(s[..|s| - 1], key) + [key(s[|s| - 1])]
  }

  /** The first element with each key, in order: deduplication through a key string or a `Map` keyed by it. */
  function DedupBy<T, K(==)>(s: seq<T>, key: T -> K): (r: seq<T>)
    ensures |r| <= |s|
    ensures Distinct(KeysOf(r, key))
  {
    if s == [] then []
    else
      var d := DedupBy(s[..|s| - 1], key);
      if key(s[|s| - 1]) in KeysOf(d, key) then d else d + [s[|s| - 1]]
  }

  /** With a key that tells elements apart, deduplication by key is deduplication by value. */
  lemma {:induction false} DedupByInjective<T, K>(s: seq<T>, key: T -> K)
    requires forall x, y :: key(x) == key(y) ==> x == y
    ensures DedupBy(s, key) == Dedup(s)
    decreases |s|
  {
    if s != [] {
      var init, x := s[..|s| - 1], s[|s| - 1];
      DedupByInjective(init, key);
      KeyOfMember(Dedup(init), x, key);
    }
  }

  /** Under a key that tells elements apart, an element is kept exactly when its key is. */
  lemma KeyOfMember<T, K>(d: seq<T>, x: T, key: T -> K)
    requires forall y, z :: key(y) == key(z) ==> y == z
    ensures key(x) in KeysOf(d, key) <==> x in d
  {
    if key(x) in KeysOf(d, key) {
      var i :| 0 <= i < |d| && KeysOf(d, key)[i] == key(x);
      assert d[i] == x;
    }
  }

  /** Every element's key is the key of some kept element. */
  lemma {:induction false} DedupByKeys<T, K>(s: seq<T>, key: T -> K)
    ensures forall i :: 0 <= i < |s| ==> key(s[i]) in KeysOf(DedupBy(s, key), key)
    decreases |s|
  {
    if s != [] {
      var init := s[..|s| - 1];
      DedupByKeys(init, key);
      var d := DedupBy(init, key);
      assert KeysOf(d, key) <= KeysOf(d + [s[|s| - 1]], key);
      forall i | 0 <= i < |s|
        ensures key(s[i]) in KeysOf(DedupBy(s, key), key)
      {
        if i < |s| - 1 {
          assert s[i] == init[i];
        }
      }
    }
  }

  /** The parts one after another. */
  function Flatten<T>(parts: seq<seq<T>>): seq<T> {
    if |parts| == 0 then [] else Flatten(parts[..|parts| - 1]) + parts[|parts| - 1]
  }

  /** An element of the whole is an element of one of the parts, and every element of a part is in the whole. */
  lemma {:induction false} FlattenMembers<T>(parts: seq<seq<T>>)
    ensures forall x :: x in Flatten(parts) <==> exists k :: 0 <= k < |parts| && x in parts[k]
  {
    if |parts| > 0 {
      var init := parts[..|parts| - 1];
      FlattenMembers(init);
      forall x ensures x in Flatten(parts) <==> exists k :: 0 <= k < |parts| && x in parts[k] {
        if exists k :: 0 <= k < |parts| && x in parts[k] {
          var k :| 0 <= k < |parts| && x in parts[k];
          if k < |parts| - 1 {
            assert x in init[k];
          }
        }
        if exists k :: 0 <= k < |init| && x in init[k] {
          var k :| 0 <= k < |init| && x in init[k];
          assert x in parts[k];
        }
      }
    }
  }

  /** Parts of one width `w` flatten to `|parts| * w` elements. */
  lemma {:induction false} FlattenUniform<T>(parts: seq<seq<T>>, w: nat)
    requires forall k :: 0 <= k < |parts| ==> |parts[k]| == w
    ensures |Flatten(parts)| == |parts| * w
  {
    if |parts| > 0 {
      FlattenUniform(parts[..|parts| - 1], w);
      assert (|parts| - 1) * w + w == |parts| * w;
    }
  }

  /** A list without repeats has as many distinct elements as it has entries. */
  lemma {:induction false} DistinctCardinality<T>(s: seq<T>)
    requires Distinct(s)
    ensures |set x | x in s| == |s|
  {
    if |s| > 0 {
      var rest := s[1..];
      DistinctCardinality(rest);
      assert (set x | x in s) == (set x | x in rest) + {s[0]};
    }
  }

  /**
   * `x` placed before the first element whose key is not smaller, so that
   * it comes before the elements with the same key.
   */
  function InsertBy<T>(x: T, s: seq<T>, key: T -> int): (r: seq<T>)
    ensures multiset(r) == multiset(s) + multiset{x}
  {
    if s == [] || key(x) <= key(s[0]) then [x] + s
    else
      assert s == [s[0]] + s[1..];
      [s[0]] + InsertBy(x, s[1..], key)
  }

  /** A stable sort by ascending key (`Array.prototype.sort` with `(a, b) => key(a) - key(b)`). */
  function SortBy<T>(s: seq<T>, key: T -> int): (r: seq<T>)
    ensures multiset(r) == multiset(s)
  {
    if s == [] then []
    else
      assert s == [s[0]] + s[1..];
      InsertBy(s[0], SortBy(s[1..], key), key)
  }

  ghost predicate SortedBy<T>(s: seq<T>, key: T -> int) {
    forall i, j :: 0 <= i < j < |s| ==> key(s[i]) <= key(s[j])
  }

  lemma {:induction false} InsertBySorted<T>(x: T, s: seq<T>, key: T -> int)
    requires SortedBy(s, key)
    ensures SortedBy(InsertBy(x, s, key), key)
  {
    if s == [] || key(x) <= key(s[0]) {
      ConsSortedBy(x, s, key);
    } else {
      var rest := InsertBy(x, s[1..], key);
      InsertBySorted(x, s[1..], key);
      forall z | z in rest ensures key(s[0]) <= key(z) {
        assert z in multiset(rest);
        assert z == x || z in multiset(s[1..]);
      }
      ConsSortedBy(s[0], rest, key);
    }
  }

  lemma ConsSortedBy<T>(y: T, s: seq<T>, key: T -> int)
    requires SortedBy(s, key) && forall z :: z in s ==> key(y) <= key(z)
    ensures SortedBy([y] + s, key)
  {
    var r := [y] + s;
    forall i, j | 0 <= i < j < |r| ensures key(r[i]) <= key(r[j]) {
      if i == 0 {
        assert r[j] == s[j - 1];
      } else {
        assert r[i] == s[i - 1] && r[j] == s[j - 1];
      }
    }
  }

  lemma {:induction false} SortBySorted<T>(s: seq<T>, key: T -> int)
    ensures SortedBy(SortBy(s, key), key)
  {
    if s != [] {
      SortBySorted(s[1..], key);
      InsertBySorted(s[0], SortBy(s[1..], key), key);
    }
  }
}
