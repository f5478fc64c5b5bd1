/** Sequence helpers shared by the parser and the chart builder: distinctness,
    first-occurrence de-duplication (the iteration order of a JavaScript `Set`
    or of an object's keys) and truncation (`Array.prototype.slice(0, n)`). */
module Seqs {

  /** No element occurs twice. */
  predicate Distinct<T(==)>(xs: seq<T>) {
    forall i, j :: 0 <= i < j < |xs| ==> xs[i] != xs[j]
  }

  /** The elements of `xs` as a set. */
  function Elements<T>(xs: seq<T>): set<T> {
    set x | x in xs
  }

  /** Keeps the first occurrence of every element, in order of first appearance. */
  function Dedup<T(==)>(xs: seq<T>): (r: seq<T>)
    ensures Distinct(r)
    ensures Elements(r) == Elements(xs)
    ensures |r| <= |xs|
  {
    if |xs| == 0 then []
    else
      var d := Dedup(xs[..|xs| - 1]);
      ElementsAppend(xs[..|xs| - 1], [xs[|xs| - 1]]);
      ElementsAppend(d, [xs[|xs| - 1]]);
      assert xs == xs[..|xs| - 1] + [xs[|xs| - 1]];
      if xs[|xs| - 1] in d then d else d + [xs[|xs| - 1]]
  }

  lemma ElementsAppend<T>(xs: seq<T>, ys: seq<T>)
    ensures Elements(xs + ys) == Elements(xs) + Elements(ys)
  {
  }

  lemma FirstIsElement<T>(xs: seq<T>)
    ensures |xs| > 0 ==> xs[0] in Elements(xs)
  {
  }

  /** The first `n` elements, or all of them when there are fewer. */
  function Take<T>(xs: seq<T>, n: nat): (r: seq<T>)
    ensures |r| == if |xs| < n then |xs| else n
    ensures r == xs[..|r|]
  {
    if |xs| <= n then xs else xs[..n]
  }

  function Min(a: int, b: int): int {
    if a <= b then a else b
  }

  /** Appending elements that were already present does not change the
      de-duplicated sequence. */
  lemma {:induction false} DedupAppendSeen<T>(xs: seq<T>, ys: seq<T>)
    requires forall y :: y in ys ==> y in xs
    ensures Dedup(xs + ys) == Dedup(xs)
    decreases |ys|
  {
    if |ys| > 0 {
      var zs := xs + ys;
      assert zs[..|zs| - 1] == xs + ys[..|ys| - 1];
      DedupAppendSeen(xs, ys[..|ys| - 1]);
      assert ys[|ys| - 1] in ys;
      assert ys[|ys| - 1] in Elements(Dedup(zs[..|zs| - 1]));
    } else {
      assert xs + ys == xs;
    }
  }

  /** First-occurrence order: the de-duplication of a prefix is a prefix of the
      de-duplication of the whole. */
  lemma {:induction false} DedupPrefix<T>(xs: seq<T>, ys: seq<T>)
    ensures Dedup(xs) <= Dedup(xs + ys)
    decreases |ys|
  {
    if |ys| > 0 {
      var zs := xs + ys;
      assert zs[..|zs| - 1] == xs + ys[..|ys| - 1];
      DedupPrefix(xs, ys[..|ys| - 1]);
    } else {
      assert xs + ys == xs;
    }
  }

  /** De-duplication reads its input left to right, so inputs with the same
      de-duplication stay alike after the same suffix. */
  lemma {:induction false} DedupCongruent<T>(xs: seq<T>, ys: seq<T>, zs: seq<T>)
    requires Dedup(xs) == Dedup(ys)
    ensures Dedup(xs + zs) == Dedup(ys + zs)
    decreases |zs|
  {
    if |zs| > 0 {
      var zs' := zs[..|zs| - 1];
      DedupCongruent(xs, ys, zs');
      assert (xs + zs)[..|xs + zs| - 1] == xs + zs';
      assert (ys + zs)[..|ys + zs| - 1] == ys + zs';
    } else {
      assert xs + zs == xs && ys + zs == ys;
    }
  }

  /** De-duplicating a suffix first changes nothing. */
  lemma {:induction false} DedupInner<T>(xs: seq<T>, ys: seq<T>)
    ensures Dedup(xs + Dedup(ys)) == Dedup(xs + ys)
    decreases |ys|
  {
    if |ys| > 0 {
      var ys', y := ys[..|ys| - 1], ys[|ys| - 1];
      DedupInner(xs, ys');
      assert ys == ys' + [y];
      assert xs + ys == xs + ys' + [y];
      DedupInnerStep(xs, ys', y);
    } else {
      assert xs + ys == xs + Dedup(ys);
    }
  }

  /** The inductive step of `DedupInner`: one more element at the end. */
  lemma DedupInnerStep<T>(xs: seq<T>, ys: seq<T>, y: T)
    requires Dedup(xs + Dedup(ys)) == Dedup(xs + ys)
    ensures Dedup(xs + Dedup(ys + [y])) == Dedup(xs + ys + [y])
  {
    var a, b := Dedup(ys), Dedup(xs + ys);
    DedupSnoc(ys, y);
    DedupSnoc(xs + ys, y);
    if y in a {
      SeenStaysSeen(xs, ys, y);
      assert Dedup(ys + [y]) == a;
    } else {
      DedupSnoc(xs + a, y);
      assert xs + Dedup(ys + [y]) == (xs + a) + [y];
    }
  }

  /** An element kept from a suffix is kept from the whole. */
  lemma SeenStaysSeen<T>(xs: seq<T>, ys: seq<T>, y: T)
    requires y in Dedup(ys)
    ensures y in Dedup(xs + ys)
  {
    assert y in Elements(Dedup(ys));
    ElementsAppend(xs, ys);
    assert y in Elements(Dedup(xs + ys));
  }

  /** One more element is kept exactly when it is new. */
  lemma DedupSnoc<T>(xs: seq<T>, y: T)
    ensures Dedup(xs + [y]) == if y in Dedup(xs) then Dedup(xs) else Dedup(xs) + [y]
  {
    assert (xs + [y])[..|xs|] == xs;
  }

  /** A sequence without repetitions has as many elements as its set. */
  lemma {:induction false} DistinctCardinality<T>(xs: seq<T>)
    requires Distinct(xs)
    ensures |Elements(xs)| == |xs|
  {
    if |xs| > 0 {
      var ys := xs[..|xs| - 1];
      var x := xs[|xs| - 1];
      assert Distinct(ys);
      DistinctCardinality(ys);
      assert x !in ys;
      assert Elements(xs) == Elements(ys) + {x};
    } else {
      assert Elements(xs) == {};
    }
  }

  /** The number of distinct elements of `xs`, counted by de-duplication,
      is the cardinality of its set. */
  lemma DedupCardinality<T>(xs: seq<T>)
    ensures |Dedup(xs)| == |Elements(xs)|
  {
    var d := Dedup(xs);
    DistinctCardinality(d);
    assert Elements(d) == Elements(xs);
  }

  /** Applies `f` to every element in order and concatenates the results
      (a `forEach` that pushes zero or more items per element). */
  function FlatMap<A, B>(f: A -> seq<B>, xs: seq<A>): seq<B> {
    if |xs| == 0 then [] else FlatMap(f, xs[..|xs| - 1]) + f(xs[|xs| - 1])
  }

  /** Mapping distributes over concatenation, so outputs keep input order. */
  lemma {:induction false} FlatMapAppend<A, B>(f: A -> seq<B>, a: seq<A>, b: seq<A>)
    ensures FlatMap(f, a + b) == FlatMap(f, a) + FlatMap(f, b)
    decreases |b|
  {
    if |b| == 0 {
      assert a + b == a;
    } else {
      var ab := a + b;
      assert ab[..|ab| - 1] == a + b[..|b| - 1];
      assert ab[|ab| - 1] == b[|b| - 1];
      FlatMapAppend(f, a, b[..|b| - 1]);
    }
  }

  /** Every output element comes from the image of some input element. */
  lemma {:induction false} FlatMapOrigin<A, B>(f: A -> seq<B>, xs: seq<A>)
    ensures forall k :: 0 <= k < |FlatMap(f, xs)| ==>
      exists i :: 0 <= i < |xs| && FlatMap(f, xs)[k] in f(xs[i])
  {
    if |xs| > 0 {
      var p := xs[..|xs| - 1];
      FlatMapOrigin(f, p);
      var r := FlatMap(f, xs);
      forall k | 0 <= k < |r|
        ensures exists i :: 0 <= i < |xs| && r[k] in f(xs[i])
      {
        if k < |FlatMap(f, p)| {
          assert r[k] == FlatMap(f, p)[k];
          var i :| 0 <= i < |p| && FlatMap(f, p)[k] in f(p[i]);
          assert xs[i] == p[i];
        } else {
          var i := |xs| - 1;
          assert r[k] == f(xs[i])[k - |FlatMap(f, p)|];
          assert r[k] in f(xs[i]);
        }
      }
      assert forall k :: 0 <= k < |FlatMap(f, xs)| ==>
        exists i :: 0 <= i < |xs| && FlatMap(f, xs)[k] in f(xs[i]);
    } else {
      assert FlatMap(f, xs) == [];
    }
  }

  /** When every element yields at most one item, there are at most as many
      items as elements. */
  lemma {:induction false} FlatMapAtMostOne<A, B>(f: A -> seq<B>, xs: seq<A>)
    requires forall x :: |f(x)| <= 1
    ensures |FlatMap(f, xs)| <= |xs|
  {
    if |xs| > 0 {
      FlatMapAtMostOne(f, xs[..|xs| - 1]);
    }
  }

  /** Every item of an element's image appears in the mapped sequence. */
  lemma {:induction false} FlatMapContains<A, B>(f: A -> seq<B>, xs: seq<A>, i: int, y: B)
    requires 0 <= i < |xs| && y in f(xs[i])
    ensures y in FlatMap(f, xs)
  {
    var p := xs[..|xs| - 1];
    if i < |xs| - 1 {
      assert xs[i] == p[i];
      FlatMapContains(f, p, i, y);
    }
  }

  /** Mapping with two functions that agree on every element gives the same result. */
  lemma {:induction false} FlatMapAgree<A, B>(f: A -> seq<B>, g: A -> seq<B>, xs: seq<A>)
    requires forall i :: 0 <= i < |xs| ==> f(xs[i]) == g(xs[i])
    ensures FlatMap(f, xs) == FlatMap(g, xs)
  {
    if |xs| > 0 {
      var p := xs[..|xs| - 1];
      assert forall i :: 0 <= i < |p| ==> p[i] == xs[i];
      FlatMapAgree(f, g, p);
    }
  }

  /** `f` followed by de-duplication. */
  function DedupEach<A, B(==)>(f: A -> seq<B>): A -> seq<B> {
    (x: A) => Dedup(f(x))
  }

  /** De-duplicating every image first does not change the de-duplicated
      concatenation. */
  lemma {:induction false} FlatMapDedup<A, B>(f: A -> seq<B>, xs: seq<A>)
    ensures Dedup(FlatMap(DedupEach(f), xs)) == Dedup(FlatMap(f, xs))
  {
    if |xs| > 0 {
      var p, x := xs[..|xs| - 1], xs[|xs| - 1];
      FlatMapDedup(f, p);
      DedupInner(FlatMap(DedupEach(f), p), f(x));
      DedupCongruent(FlatMap(DedupEach(f), p), FlatMap(f, p), f(x));
    }
  }

  /** The mapped sequence is empty exactly when every element's image is. */
  lemma {:induction false} FlatMapEmpty<A, B>(f: A -> seq<B>, xs: seq<A>)
    ensures FlatMap(f, xs) == [] <==> forall i :: 0 <= i < |xs| ==> f(xs[i]) == []
  {
    if |xs| > 0 {
      var p := xs[..|xs| - 1];
      FlatMapEmpty(f, p);
      assert forall i :: 0 <= i < |p| ==> p[i] == xs[i];
    }
  }
}
