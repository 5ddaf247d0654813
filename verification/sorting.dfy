/** Sequences of strings: distinctness, sortedness, and the sort that models
    Python's `sorted()` on a list of keys. */
module Sorting {
  import opened Lexicographic

  /** Every pair of positions is in `<=` order. */
  predicate Sorted(s: seq<string>)
  {
    forall i, j | 0 <= i < j < |s| :: Below(s[i], s[j])
  }

  /** Every pair of positions is in `<` order. */
  predicate StrictlyAscending(s: seq<string>)
  {
    forall i, j | 0 <= i < j < |s| :: Below(s[i], s[j]) && s[i] != s[j]
  }

  /** No element occurs twice. */
  predicate Distinct(s: seq<string>)
  {
    forall x | x in s :: multiset(s)[x] == 1
  }

  /** Inserts x before the first element it is `<=` to. */
  function Insert(x: string, s: seq<string>): (r: seq<string>)
    ensures multiset(r) == multiset(s) + multiset{x}
  {
    if |s| == 0 then [x]
    else if Below(x, s[0]) then [x] + s
    else
      assert s == [s[0]] + s[1..];
      [s[0]] + Insert(x, s[1..])
  }

  lemma {:induction false} InsertSorted(x: string, s: seq<string>)
    requires Sorted(s)
    ensures Sorted(Insert(x, s))
  {
    if |s| == 0 {
    } else if Below(x, s[0]) {
      PrependLeast(x, s);
    } else {
      Total(x, s[0]);
      InsertSorted(x, s[1..]);
      PrependBelowAll(s, x, Insert(x, s[1..]));
    }
  }

  /** Putting x before a sorted sequence whose head x is `<=` to keeps it sorted. */
  lemma PrependLeast(x: string, s: seq<string>)
    requires Sorted(s) && |s| > 0 && Below(x, s[0])
    ensures Sorted([x] + s)
  {
    var r := [x] + s;
    forall i, j | 0 <= i < j < |r| ensures Below(r[i], r[j]) {
      if i == 0 && j > 1 {
        Transitive(x, s[0], s[j - 1]);
      }
    }
  }

  /** s[0] is `<=` both x and the rest of s, so it may head any sorted
      arrangement t of them. */
  lemma PrependBelowAll(s: seq<string>, x: string, t: seq<string>)
    requires Sorted(s) && |s| > 0 && Below(s[0], x)
    requires Sorted(t) && multiset(t) == multiset(s[1..]) + multiset{x}
    ensures Sorted([s[0]] + t)
  {
    forall k | 0 <= k < |t| ensures Below(s[0], t[k]) {
      assert t[k] in multiset(t);
      if t[k] != x {
        assert t[k] in multiset(s[1..]);
        var m :| 0 <= m < |s[1..]| && s[1..][m] == t[k];
        assert s[m + 1] == t[k];
      }
    }
    var r := [s[0]] + t;
    forall i, j | 0 <= i < j < |r| ensures Below(r[i], r[j]) {
      if i == 0 {
        assert r[j] == t[j - 1];
      } else {
        assert r[i] == t[i - 1] && r[j] == t[j - 1];
      }
    }
  }

  /** Insertion sort: a sorted permutation of its input, which is what
      `sorted()` returns (by SortedUnique there is only one). */
  function Sort(s: seq<string>): (r: seq<string>)
    ensures multiset(r) == multiset(s)
    ensures Sorted(r)
  {
    if |s| == 0 then []
    else
      assert s == [s[0]] + s[1..];
      InsertSorted(s[0], Sort(s[1..]));
      Insert(s[0], Sort(s[1..]))
  }

  /** The first element of a sorted sequence is `<=` every element. */
  lemma HeadIsLeast(s: seq<string>, x: string)
    requires Sorted(s) && x in s
    ensures Below(s[0], x)
  {
    var j :| 0 <= j < |s| && s[j] == x;
    if j == 0 {
      Reflexive(x);
    }
  }

  /** Two sorted sequences with the same elements (and multiplicities) are equal. */
  lemma {:induction false} SortedUnique(a: seq<string>, b: seq<string>)
    requires Sorted(a) && Sorted(b) && multiset(a) == multiset(b)
    ensures a == b
  {
    assert |a| == |multiset(a)| == |multiset(b)| == |b|;
    if |a| > 0 {
      SameHead(a, b);
      SameTail(a, b);
      SortedUnique(a[1..], b[1..]);
      assert a == [a[0]] + a[1..];
      assert b == [b[0]] + b[1..];
    }
  }

  /** Sorted sequences with the same elements start with the same element. */
  lemma SameHead(a: seq<string>, b: seq<string>)
    requires Sorted(a) && Sorted(b) && multiset(a) == multiset(b) && |a| > 0 && |b| > 0
    ensures a[0] == b[0]
  {
    assert a[0] in multiset(b) && b[0] in multiset(a);
    HeadIsLeast(b, a[0]);
    HeadIsLeast(a, b[0]);
    Antisymmetric(a[0], b[0]);
  }

  /** Removing the same first element from both sides keeps the multisets equal. */
  lemma SameTail(a: seq<string>, b: seq<string>)
    requires multiset(a) == multiset(b) && |a| > 0 && |b| > 0 && a[0] == b[0]
    ensures multiset(a[1..]) == multiset(b[1..])
  {
    assert a == [a[0]] + a[1..];
    assert b == [b[0]] + b[1..];
    assert multiset(a) == multiset{a[0]} + multiset(a[1..]);
    assert multiset(b) == multiset{b[0]} + multiset(b[1..]);
    forall x ensures multiset(a[1..])[x] == multiset(b[1..])[x] {
      assert multiset(a)[x] == multiset(b)[x];
    }
  }

  /** A repeated element occurs at least twice in the multiset. */
  lemma Repeated(s: seq<string>, i: int, j: int)
    requires 0 <= i < j < |s| && s[i] == s[j]
    ensures multiset(s)[s[i]] >= 2
  {
    assert s == s[..j] + s[j..];
    assert s[i] in s[..j];
    assert s[j] in s[j..];
  }

  lemma SortedDistinctAscending(s: seq<string>)
    requires Sorted(s) && Distinct(s)
    ensures StrictlyAscending(s)
  {
    forall i, j | 0 <= i < j < |s| ensures s[i] != s[j] {
      if s[i] == s[j] {
        Repeated(s, i, j);
      }
    }
  }

  lemma DistinctTail(s: seq<string>)
    requires Distinct(s) && |s| > 0
    ensures s[0] !in s[1..]
    ensures Distinct(s[1..])
  {
    assert s == [s[0]] + s[1..];
    assert multiset(s) == multiset{s[0]} + multiset(s[1..]);
    assert s[0] in s;
    assert multiset(s[1..])[s[0]] == 0;
    forall x | x in s[1..] ensures multiset(s[1..])[x] == 1 {
      assert x in s;
    }
  }

  /** Appending a new element keeps a sequence distinct. */
  lemma AppendDistinct(s: seq<string>, x: string)
    requires Distinct(s) && x !in s
    ensures Distinct(s + [x])
  {
    var r := s + [x];
    assert multiset(r) == multiset(s) + multiset{x};
    forall y | y in r ensures multiset(r)[y] == 1 {
      if y != x {
        assert y in s;
      }
    }
  }

  /** Distinct sequences with the same elements are permutations of each other. */
  lemma SameElements(a: seq<string>, b: seq<string>)
    requires Distinct(a) && Distinct(b)
    requires forall x :: x in a <==> x in b
    ensures multiset(a) == multiset(b)
  {
    forall x ensures multiset(a)[x] == multiset(b)[x] {
      if x !in a {
        assert x !in multiset(a) && x !in multiset(b);
      }
    }
  }

  /** A sorted sequence holding a and b once each and nothing else, with
      a < b, is [a, b]. */
  lemma TwoAscending(g: seq<string>, a: string, b: string)
    requires Sorted(g) && Distinct(g)
    requires forall x :: x in g <==> x == a || x == b
    requires Below(a, b) && a != b
    ensures g == [a, b]
  {
    var ab := [a, b];
    assert multiset(ab)[a] == 1 && multiset(ab)[b] == 1;
    SameElements(g, ab);
    SortedUnique(g, ab);
  }

  /** Sorting distinct keys gives a result fixed by the key set alone, whatever
      order the keys were inserted in. */
  lemma SortDetermined(a: seq<string>, b: seq<string>)
    requires Distinct(a) && Distinct(b)
    requires forall x :: x in a <==> x in b
    ensures Sort(a) == Sort(b)
  {
    SameElements(a, b);
    SortedUnique(Sort(a), Sort(b));
  }

  /** Sorting distinct keys gives them in strictly ascending order. */
  lemma SortDistinct(s: seq<string>)
    requires Distinct(s)
    ensures StrictlyAscending(Sort(s))
    ensures forall x :: x in Sort(s) <==> x in s
  {
    var r := Sort(s);
    forall x ensures x in r <==> x in s {
      assert x in r <==> x in multiset(r);
      assert x in s <==> x in multiset(s);
    }
    SortedDistinctAscending(r);
  }

  /** Keeps the first occurrence of every element. */
  function Dedup(s: seq<string>): (r: seq<string>)
    ensures Distinct(r)
    ensures forall x :: x in r <==> x in s
  {
    if |s| == 0 then []
    else
      var n := |s| - 1;
      assert s == s[..n] + [s[n]];
      var d := Dedup(s[..n]);
      if s[n] in d then d else d + [s[n]]
  }
}
