/** The order JavaScript's `Array.prototype.sort()` uses when called without
    a comparator on strings: lexicographic by character code, a proper prefix
    sorting first. The chart's state axis is sorted this way. */
module StringOrder {
  import opened Seqs

  /** `a` sorts strictly before `b`. */
  predicate Less(a: string, b: string) {
    if |a| == 0 then |b| > 0
    else if |b| == 0 then false
    else if a[0] != b[0] then a[0] < b[0]
    else Less(a[1..], b[1..])
  }

  predicate LessEq(a: string, b: string) {
    a == b || Less(a, b)
  }

  lemma {:induction false} LessIrreflexive(a: string)
    ensures !Less(a, a)
  {
    if |a| > 0 {
      LessIrreflexive(a[1..]);
    }
  }

  lemma {:induction false} LessTransitive(a: string, b: string, c: string)
    requires Less(a, b) && Less(b, c)
    ensures Less(a, c)
  {
    if |a| > 0 && |b| > 0 && |c| > 0 && a[0] == b[0] && b[0] == c[0] {
      LessTransitive(a[1..], b[1..], c[1..]);
    }
  }

  /** Any two different strings are ordered one way or the other. */
  lemma {:induction false} LessTotal(a: string, b: string)
    ensures a == b || Less(a, b) || Less(b, a)
  {
    if |a| > 0 && |b| > 0 && a[0] == b[0] {
      LessTotal(a[1..], b[1..]);
      if a[1..] == b[1..] {
        assert a == [a[0]] + a[1..] && b == [b[0]] + b[1..];
      }
    }
  }

  lemma {:induction false} LessAsymmetric(a: string, b: string)
    requires Less(a, b)
    ensures !Less(b, a)
  {
    if |a| > 0 && |b| > 0 && a[0] == b[0] {
      LessAsymmetric(a[1..], b[1..]);
    }
  }

  lemma LessEqTransitive(a: string, b: string, c: string)
    requires LessEq(a, b) && LessEq(b, c)
    ensures LessEq(a, c)
  {
    if a != b && b != c {
      LessTransitive(a, b, c);
    }
  }

  /** Ascending, repetitions allowed. */
  predicate Sorted(xs: seq<string>) {
    forall i, j :: 0 <= i < j < |xs| ==> LessEq(xs[i], xs[j])
  }

  /** Ascending without repetitions. */
  predicate StrictlySorted(xs: seq<string>) {
    forall i, j :: 0 <= i < j < |xs| ==> Less(xs[i], xs[j])
  }

  /** Puts `x` in front of the first element that does not sort before it. */
  function Insert(x: string, xs: seq<string>): (r: seq<string>)
    requires Sorted(xs)
    ensures Sorted(r)
    ensures multiset(r) == multiset(xs) + multiset{x}
  {
    if |xs| == 0 then [x]
    else if Less(xs[0], x) then
      var rest := Insert(x, xs[1..]);
      assert xs == [xs[0]] + xs[1..];
      PrependSmallest(xs[0], rest);
      [xs[0]] + rest
    else
      LessTotal(x, xs[0]);
      PrependSmallest(x, xs);
      [x] + xs
  }

  /** Prepending an element that sorts no later than every element keeps the order. */
  lemma PrependSmallest(x: string, xs: seq<string>)
    requires Sorted(xs)
    requires |xs| > 0 ==> LessEq(x, xs[0])
    ensures Sorted([x] + xs)
  {
    var r := [x] + xs;
    forall i, j | 0 <= i < j < |r|
      ensures LessEq(r[i], r[j])
    {
      if i == 0 && j > 1 {
        LessEqTransitive(x, xs[0], xs[j - 1]);
      }
    }
  }

  /** Insertion sort: an ascending rearrangement of `xs`. */
  function Sort(xs: seq<string>): (r: seq<string>)
    ensures Sorted(r)
    ensures multiset(r) == multiset(xs)
  {
    if |xs| == 0 then []
    else
      assert xs == xs[..|xs| - 1] + [xs[|xs| - 1]];
      Insert(xs[|xs| - 1], Sort(xs[..|xs| - 1]))
  }

  /** Sorting keys that are already distinct orders them strictly. */
  lemma SortDistinct(xs: seq<string>)
    requires Distinct(xs)
    ensures StrictlySorted(Sort(xs))
    ensures Distinct(Sort(xs))
    ensures Elements(Sort(xs)) == Elements(xs)
  {
    var r := Sort(xs);
    assert forall x :: x in r <==> x in multiset(r);
    assert forall x :: x in xs <==> x in multiset(xs);
    DistinctMultiplicity(xs);
    forall i, j | 0 <= i < j < |r|
      ensures r[i] != r[j]
    {
      if r[i] == r[j] {
        MultiplicityTwo(r, i, j);
      }
    }
  }

  lemma {:induction false} DistinctMultiplicity(xs: seq<string>)
    requires Distinct(xs)
    ensures forall x :: multiset(xs)[x] <= 1
  {
    if |xs| > 0 {
      var p := xs[..|xs| - 1];
      assert xs == p + [xs[|xs| - 1]];
      DistinctMultiplicity(p);
      assert xs[|xs| - 1] !in p;
    }
  }

  lemma MultiplicityTwo(r: seq<string>, i: int, j: int)
    requires 0 <= i < j < |r| && r[i] == r[j]
    ensures multiset(r)[r[i]] >= 2
  {
    assert r == r[..i] + [r[i]] + r[i + 1..j] + [r[j]] + r[j + 1..];
  }

  /** Two strictly ascending sequences with the same elements are equal: the
      sorted order of a set of keys does not depend on where the keys came from. */
  lemma {:induction false} StrictlySortedUnique(a: seq<string>, b: seq<string>)
    requires StrictlySorted(a) && StrictlySorted(b)
    requires Elements(a) == Elements(b)
    ensures a == b
    decreases |a|
  {
    if |a| == 0 {
      FirstIsElement(b);
    } else {
      assert a[0] in Elements(b);
      assert |b| > 0 by {
        assert a[0] in Elements(a);
      }
      assert b[0] in Elements(a);
      if a[0] != b[0] {
        var i :| 0 <= i < |a| && a[i] == b[0];
        var j :| 0 <= j < |b| && b[j] == a[0];
        assert Less(a[0], b[0]) by {
          assert i > 0;
        }
        assert Less(b[0], a[0]) by {
          assert j > 0;
        }
        LessAsymmetric(a[0], b[0]);
      }
      forall x | x in Elements(a[1..])
        ensures x in Elements(b[1..])
      {
        var i :| 1 <= i < |a| && a[i] == x;
        assert x in Elements(b);
        var j :| 0 <= j < |b| && b[j] == x;
        if j == 0 {
          LessIrreflexive(x);
        }
      }
      forall x | x in Elements(b[1..])
        ensures x in Elements(a[1..])
      {
        var j :| 1 <= j < |b| && b[j] == x;
        assert x in Elements(a);
        var i :| 0 <= i < |a| && a[i] == x;
        if i == 0 {
          LessIrreflexive(x);
        }
      }
      StrictlySortedUnique(a[1..], b[1..]);
      assert a == [a[0]] + a[1..] && b == [b[0]] + b[1..];
    }
  }

  /** The first `n` keys of a strictly ascending sequence are strictly ascending
      and sort before every key that was cut off. */
  lemma TakeSorted(xs: seq<string>, n: nat)
    requires StrictlySorted(xs)
    ensures StrictlySorted(Take(xs, n))
    ensures forall x :: x in xs && x !in Take(xs, n) ==>
      forall i :: 0 <= i < |Take(xs, n)| ==> Less(Take(xs, n)[i], x)
  {
    var t := Take(xs, n);
    forall x, i | x in xs && x !in t && 0 <= i < |t|
      ensures Less(t[i], x)
    {
      var j :| 0 <= j < |xs| && xs[j] == x;
      assert t == xs[..|t|];
      assert i < |t| <= j;
      assert t[i] == xs[i];
    }
  }
}
