/** Finite sums over the reals, independent of the order of summation. */
module RealSums {

  ghost function Pick<K>(s: set<K>): (x: K)
    requires s != {}
    ensures x in s
  {
    var x :| x in s; x
  }

  ghost function Sum<K>(s: set<K>, f: K -> real): real {
    if s == {} then 0.0 else f(Pick(s)) + Sum(s - {Pick(s)}, f)
  }

  /** Any element may be summed first. */
  lemma {:induction false} SumTake<K>(s: set<K>, f: K -> real, x: K)
    requires x in s
    ensures Sum(s, f) == f(x) + Sum(s - {x}, f)
  {
    var y := Pick(s);
    if y != x {
      SumTake(s - {y}, f, x);
      SumTake(s - {x}, f, y);
      assert s - {y} - {x} == s - {x} - {y};
    }
  }

  lemma SumAdd<K>(s: set<K>, f: K -> real, x: K)
    requires x !in s
    ensures Sum(s + {x}, f) == Sum(s, f) + f(x)
  {
    SumTake(s + {x}, f, x);
    assert s + {x} - {x} == s;
  }

  lemma {:induction false} SumSame<K>(s: set<K>, f: K -> real, g: K -> real)
    requires forall x :: x in s ==> f(x) == g(x)
    ensures Sum(s, f) == Sum(s, g)
  {
    if s != {} {
      SumSame(s - {Pick(s)}, f, g);
    }
  }

  lemma {:induction false} SumPlus<K>(s: set<K>, f: K -> real, g: K -> real, h: K -> real)
    requires forall x :: x in s ==> h(x) == f(x) + g(x)
    ensures Sum(s, h) == Sum(s, f) + Sum(s, g)
  {
    if s != {} {
      SumPlus(s - {Pick(s)}, f, g, h);
    }
  }

  lemma {:induction false} SumTimes<K>(s: set<K>, c: real, f: K -> real, h: K -> real)
    requires forall x :: x in s ==> h(x) == c * f(x)
    ensures Sum(s, h) == c * Sum(s, f)
  {
    if s != {} {
      SumTimes(s - {Pick(s)}, c, f, h);
    }
  }

  lemma {:induction false} SumConstant<K>(s: set<K>, c: real, f: K -> real)
    requires forall x :: x in s ==> f(x) == c
    ensures Sum(s, f) == |s| as real * c
  {
    if s != {} {
      SumConstant(s - {Pick(s)}, c, f);
    }
  }

  lemma {:induction false} SumMonotone<K>(s: set<K>, f: K -> real, g: K -> real)
    requires forall x :: x in s ==> f(x) <= g(x)
    ensures Sum(s, f) <= Sum(s, g)
  {
    if s != {} {
      SumMonotone(s - {Pick(s)}, f, g);
    }
  }

  function Abs(x: real): real {
    if x < 0.0 then -x else x
  }

  lemma {:induction false} SumTriangle<K>(s: set<K>, f: K -> real, g: K -> real)
    requires forall x :: x in s ==> g(x) == Abs(f(x))
    ensures Abs(Sum(s, f)) <= Sum(s, g)
  {
    if s != {} {
      SumTriangle(s - {Pick(s)}, f, g);
    }
  }

  /** Terms that are zero may be left out. */
  lemma {:induction false} SumSupport<K>(s: set<K>, support: set<K>, f: K -> real)
    requires support <= s && forall x :: x in s && x !in support ==> f(x) == 0.0
    ensures Sum(s, f) == Sum(support, f)
  {
    if s != support {
      var x :| x in s && x !in support;
      SumTake(s, f, x);
      SumSupport(s - {x}, support, f);
    }
  }

  ghost function Along<K>(f: (K, K) -> real, x: K): K -> real {
    y => f(x, y)
  }

  ghost function Into<K>(f: (K, K) -> real, y: K): K -> real {
    x => f(x, y)
  }

  /** A double sum may be taken row by row or column by column. */
  lemma {:induction false} SumSwap<K>(s: set<K>, t: set<K>, f: (K, K) -> real, rows: K -> real, cols: K -> real)
    requires forall x :: x in s ==> rows(x) == Sum(t, Along(f, x))
    requires forall y :: y in t ==> cols(y) == Sum(s, Into(f, y))
    ensures Sum(s, rows) == Sum(t, cols)
  {
    if s == {} {
      SumConstant(t, 0.0, cols);
    } else {
      var x := Pick(s);
      var rest := y => Sum(s - {x}, Into(f, y));
      SumSwap(s - {x}, t, f, rows, rest);
      forall y | y in t
        ensures cols(y) == rest(y) + Along(f, x)(y)
      {
        SumTake(s, Into(f, y), x);
      }
      SumPlus(t, rest, Along(f, x), cols);
    }
  }
}
