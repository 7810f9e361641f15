/**
  Sums of reals over finite sets, the arithmetic behind modularity and the
  random walk. `Sum` picks its elements in no particular order; the lemmas say
  the order does not matter and give the usual algebra, including the exchange
  of two sums and the regrouping of a sum by label.
 */
module Sums {

  ghost function Sum<T(!new)>(s: set<T>, f: T -> real): real
    decreases |s|
  {
    if s == {} then 0.0
    else
      var x :| x in s;
      f(x) + Sum(s - {x}, f)
  }

  lemma SumNone<T(!new)>(f: T -> real)
    ensures Sum({}, f) == 0.0
  {}

  /** Any element may be taken out first. */
  lemma {:induction false} SumPick<T(!new)>(s: set<T>, f: T -> real, x: T)
    requires x in s
    ensures Sum(s, f) == f(x) + Sum(s - {x}, f)
    decreases |s|
  {
    var y :| y in s && Sum(s, f) == f(y) + Sum(s - {y}, f);
    if y != x {
      SumPick(s - {y}, f, x);
      SumPick(s - {x}, f, y);
      assert s - {y} - {x} == s - {x} - {y};
    }
  }

  lemma {:induction false} SumEq<T(!new)>(s: set<T>, f: T -> real, g: T -> real)
    requires forall x :: x in s ==> f(x) == g(x)
    ensures Sum(s, f) == Sum(s, g)
    decreases |s|
  {
    if s != {} {
      var x :| x in s;
      SumPick(s, f, x);
      SumPick(s, g, x);
      SumEq(s - {x}, f, g);
    }
  }

  lemma {:induction false} SumLe<T(!new)>(s: set<T>, f: T -> real, g: T -> real)
    requires forall x :: x in s ==> f(x) <= g(x)
    ensures Sum(s, f) <= Sum(s, g)
    decreases |s|
  {
    if s != {} {
      var x :| x in s;
      SumPick(s, f, x);
      SumPick(s, g, x);
      SumLe(s - {x}, f, g);
    }
  }

  lemma {:induction false} SumZero<T(!new)>(s: set<T>, f: T -> real)
    requires forall x :: x in s ==> f(x) == 0.0
    ensures Sum(s, f) == 0.0
    decreases |s|
  {
    if s != {} {
      var x :| x in s;
      SumPick(s, f, x);
      SumZero(s - {x}, f);
    }
  }

  lemma SumNonNegative<T(!new)>(s: set<T>, f: T -> real)
    requires forall x :: x in s ==> f(x) >= 0.0
    ensures Sum(s, f) >= 0.0
  {
    SumZero(s, (x: T) => 0.0);
    SumLe(s, (x: T) => 0.0, f);
  }

  /** No term of a non-negative sum exceeds the sum. */
  lemma SumTermLe<T(!new)>(s: set<T>, f: T -> real, x: T)
    requires forall y :: y in s ==> f(y) >= 0.0
    requires x in s
    ensures f(x) <= Sum(s, f)
  {
    SumPick(s, f, x);
    SumNonNegative(s - {x}, f);
  }

  lemma {:induction false} SumAdd<T(!new)>(s: set<T>, f: T -> real, g: T -> real, h: T -> real)
    requires forall x :: x in s ==> h(x) == f(x) + g(x)
    ensures Sum(s, h) == Sum(s, f) + Sum(s, g)
    decreases |s|
  {
    if s != {} {
      var x :| x in s;
      SumPick(s, f, x);
      SumPick(s, g, x);
      SumPick(s, h, x);
      SumAdd(s - {x}, f, g, h);
    }
  }

  /** The entry of a table of sums, zero where nothing has been added yet. */
  function At<T(==)>(m: map<T, real>, k: T): real {
    if k in m then m[k] else 0.0
  }

  /** Multiplication by name, so that a proof may hide it from the solver and use only the laws it needs. */
  function Product(a: real, b: real): real {
    a * b
  }

  lemma Distribute(c: real, a: real, b: real)
    ensures Product(c, a + b) == Product(c, a) + Product(c, b)
    ensures Product(c, 0.0) == 0.0
    ensures Product(a, b) == Product(b, a)
  {}

  lemma {:induction false} SumScale<T(!new)>(s: set<T>, c: real, f: T -> real, h: T -> real)
    requires forall x :: x in s ==> h(x) == Product(c, f(x))
    ensures Sum(s, h) == Product(c, Sum(s, f))
    decreases |s|
  {
    hide Product;
    if s == {} {
      Distribute(c, 0.0, 0.0);
    } else {
      var x :| x in s;
      SumScale(s - {x}, c, f, h);
      SumPick(s, f, x);
      SumPick(s, h, x);
      Distribute(c, f(x), Sum(s - {x}, f));
    }
  }

  lemma {:induction false} SumUnion<T(!new)>(s: set<T>, t: set<T>, f: T -> real)
    requires s !! t
    ensures Sum(s + t, f) == Sum(s, f) + Sum(t, f)
    decreases |s|
  {
    if s == {} {
      assert s + t == t;
    } else {
      var x :| x in s;
      SumPick(s, f, x);
      SumPick(s + t, f, x);
      SumUnion(s - {x}, t, f);
      assert s + t - {x} == (s - {x}) + t;
    }
  }

  /** Elements whose term is zero may be left out. */
  lemma SumSupport<T(!new)>(s: set<T>, t: set<T>, f: T -> real)
    requires s <= t
    requires forall x :: x in t && x !in s ==> f(x) == 0.0
    ensures Sum(s, f) == Sum(t, f)
  {
    SumUnion(s, t - s, f);
    SumZero(t - s, f);
    assert s + (t - s) == t;
  }

  /** A term that vanishes everywhere but at `x`. */
  lemma SumPoint<T(!new)>(s: set<T>, f: T -> real, x: T)
    requires x in s
    requires forall y :: y in s && y != x ==> f(y) == 0.0
    ensures Sum(s, f) == f(x)
  {
    SumPick(s, f, x);
    SumZero(s - {x}, f);
  }

  /** Counting is summing ones. */
  lemma {:induction false} SumOnes<T(!new)>(s: set<T>, f: T -> real)
    requires forall x :: x in s ==> f(x) == 1.0
    ensures Sum(s, f) == |s| as real
    decreases |s|
  {
    if s != {} {
      var x :| x in s;
      SumPick(s, f, x);
      SumOnes(s - {x}, f);
    }
  }

  // ---- walking a set

  /** The elements a loop has been through, when `left` remain. */
  ghost function Walked<T>(all: set<T>, left: set<T>): set<T> {
    all - left
  }

  lemma WalkStart<T>(all: set<T>)
    ensures Walked(all, all) == {}
  {}

  lemma WalkOne<T>(all: set<T>, left: set<T>, x: T)
    requires left <= all && x in left
    ensures x !in Walked(all, left) && Walked(all, left - {x}) == Walked(all, left) + {x}
  {}

  lemma WalkEnd<T>(all: set<T>)
    ensures Walked(all, {}) == all
  {}

  // ---- sums of two indices

  ghost function Row<T(!new), U(!new)>(f: (T, U) -> real, x: T): U -> real {
    y => f(x, y)
  }

  ghost function Flip<T(!new), U(!new)>(f: (T, U) -> real): (U, T) -> real {
    (y, x) => f(x, y)
  }

  ghost function RowSums<T(!new), U(!new)>(t: set<U>, f: (T, U) -> real): T -> real {
    x => Sum(t, Row(f, x))
  }

  ghost function Sum2<T(!new), U(!new)>(s: set<T>, t: set<U>, f: (T, U) -> real): real {
    Sum(s, RowSums(t, f))
  }

  lemma Sum2Eq<T(!new), U(!new)>(s: set<T>, t: set<U>, f: (T, U) -> real, g: (T, U) -> real)
    requires forall x, y :: x in s && y in t ==> f(x, y) == g(x, y)
    ensures Sum2(s, t, f) == Sum2(s, t, g)
  {
    forall x | x in s ensures RowSums(t, f)(x) == RowSums(t, g)(x) {
      SumEq(t, Row(f, x), Row(g, x));
    }
    SumEq(s, RowSums(t, f), RowSums(t, g));
  }

  lemma Sum2Le<T(!new), U(!new)>(s: set<T>, t: set<U>, f: (T, U) -> real, g: (T, U) -> real)
    requires forall x, y :: x in s && y in t ==> f(x, y) <= g(x, y)
    ensures Sum2(s, t, f) <= Sum2(s, t, g)
  {
    forall x | x in s ensures RowSums(t, f)(x) <= RowSums(t, g)(x) {
      SumLe(t, Row(f, x), Row(g, x));
    }
    SumLe(s, RowSums(t, f), RowSums(t, g));
  }

  lemma Sum2Zero<T(!new), U(!new)>(s: set<T>, t: set<U>, f: (T, U) -> real)
    requires forall x, y :: x in s && y in t ==> f(x, y) == 0.0
    ensures Sum2(s, t, f) == 0.0
  {
    forall x | x in s ensures RowSums(t, f)(x) == 0.0 {
      SumZero(t, Row(f, x));
    }
    SumZero(s, RowSums(t, f));
  }

  lemma Sum2Add<T(!new), U(!new)>(s: set<T>, t: set<U>, f: (T, U) -> real, g: (T, U) -> real, h: (T, U) -> real)
    requires forall x, y :: x in s && y in t ==> h(x, y) == f(x, y) + g(x, y)
    ensures Sum2(s, t, h) == Sum2(s, t, f) + Sum2(s, t, g)
  {
    forall x | x in s ensures RowSums(t, h)(x) == RowSums(t, f)(x) + RowSums(t, g)(x) {
      SumAdd(t, Row(f, x), Row(g, x), Row(h, x));
    }
    SumAdd(s, RowSums(t, f), RowSums(t, g), RowSums(t, h));
  }

  /** The order of summation may be exchanged. */
  lemma {:induction false} Sum2Swap<T(!new), U(!new)>(s: set<T>, t: set<U>, f: (T, U) -> real)
    ensures Sum2(s, t, f) == Sum2(t, s, Flip(f))
    decreases |s|
  {
    if s == {} {
      forall y | y in t ensures RowSums(s, Flip(f))(y) == 0.0 {}
      SumZero(t, RowSums(s, Flip(f)));
    } else {
      var x :| x in s;
      SumPick(s, RowSums(t, f), x);
      Sum2Swap(s - {x}, t, f);
      forall y | y in t
        ensures RowSums(s, Flip(f))(y) == Row(f, x)(y) + RowSums(s - {x}, Flip(f))(y)
      {
        SumPick(s, Row(Flip(f), y), x);
      }
      SumAdd(t, Row(f, x), RowSums(s - {x}, Flip(f)), RowSums(s, Flip(f)));
    }
  }

  /** The sum of products is the product of sums. */
  lemma Sum2Product<T(!new), U(!new)>(s: set<T>, t: set<U>, f: T -> real, g: U -> real, h: (T, U) -> real)
    requires forall x, y :: x in s && y in t ==> h(x, y) == Product(f(x), g(y))
    ensures Sum2(s, t, h) == Product(Sum(s, f), Sum(t, g))
  {
    hide Product;
    var c := Sum(t, g);
    forall x | x in s ensures RowSums(t, h)(x) == Product(c, f(x)) {
      SumScale(t, f(x), g, Row(h, x));
      Distribute(0.0, f(x), c);
    }
    SumScale(s, c, f, RowSums(t, h));
    Distribute(0.0, Sum(s, f), c);
  }

  /** Splitting one node off a square sum. */
  lemma Sum2Pick<T(!new)>(s: set<T>, f: (T, T) -> real, x: T)
    requires x in s
    ensures Sum2(s, s, f) == f(x, x) + Sum(s - {x}, Row(f, x)) + Sum(s - {x}, Row(Flip(f), x)) + Sum2(s - {x}, s - {x}, f)
  {
    var r := s - {x};
    SumPick(s, RowSums(s, f), x);
    SumPick(s, Row(f, x), x);
    forall a | a in r ensures RowSums(s, f)(a) == Row(Flip(f), x)(a) + RowSums(r, f)(a) {
      SumPick(s, Row(f, a), x);
    }
    SumAdd(r, Row(Flip(f), x), RowSums(r, f), RowSums(s, f));
  }

  // ---- pairs as one index

  ghost function Cross<T(!new)>(s: set<T>, t: set<T>): set<(T, T)> {
    set a, b | a in s && b in t :: (a, b)
  }

  ghost function OnPairs<T(!new)>(f: (T, T) -> real): ((T, T)) -> real {
    (p: (T, T)) => f(p.0, p.1)
  }

  lemma {:induction false} SumColumn<T(!new)>(x: T, t: set<T>, f: (T, T) -> real)
    ensures Sum(Cross({x}, t), OnPairs(f)) == Sum(t, Row(f, x))
    decreases |t|
  {
    if t == {} {
      assert Cross({x}, t) == {};
    } else {
      var y :| y in t;
      SumPick(t, Row(f, x), y);
      SumPick(Cross({x}, t), OnPairs(f), (x, y));
      assert Cross({x}, t) - {(x, y)} == Cross({x}, t - {y});
      SumColumn(x, t - {y}, f);
    }
  }

  lemma CrossSplit<T(!new)>(s: set<T>, t: set<T>, x: T)
    requires x in s
    ensures Cross(s, t) == Cross({x}, t) + Cross(s - {x}, t)
    ensures Cross({x}, t) !! Cross(s - {x}, t)
  {
    forall p | p in Cross(s, t) ensures p in Cross({x}, t) + Cross(s - {x}, t) {
      assert p.0 in {x} || p.0 in s - {x};
    }
  }

  /** Splitting the first row off both sides. */
  lemma CrossRow<T(!new)>(s: set<T>, t: set<T>, f: (T, T) -> real, x: T)
    requires x in s
    ensures Sum2(s, t, f) == Sum(t, Row(f, x)) + Sum2(s - {x}, t, f)
    ensures Sum(Cross(s, t), OnPairs(f)) == Sum(t, Row(f, x)) + Sum(Cross(s - {x}, t), OnPairs(f))
  {
    hide Sum, Cross, OnPairs;
    SumPick(s, RowSums(t, f), x);
    SumColumn(x, t, f);
    CrossSplit(s, t, x);
    SumUnion(Cross({x}, t), Cross(s - {x}, t), OnPairs(f));
  }

  lemma {:induction false} SumCross<T(!new)>(s: set<T>, t: set<T>, f: (T, T) -> real)
    ensures Sum2(s, t, f) == Sum(Cross(s, t), OnPairs(f))
    decreases |s|
  {
    hide Sum, OnPairs, Row;
    if s == {} {
      assert Cross(s, t) == {};
      SumNone(RowSums(t, f));
      SumNone(OnPairs(f));
    } else {
      hide Cross, Sum2;
      var x :| x in s;
      CrossRow(s, t, f, x);
      SumCross(s - {x}, t, f);
    }
  }

  // ---- regrouping by label

  /** The part of `f` on the elements labelled `l`. */
  ghost function Labelled<T(!new), U(!new)>(c: T -> U, f: T -> real): (U, T) -> real {
    (l, x) => if c(x) == l then f(x) else 0.0
  }

  /** Summing block by block gives the whole sum, whatever the labels weigh. */
  lemma SumByLabel<T(!new), U(!new)>(s: set<T>, labels: set<U>, c: T -> U, f: T -> real)
    requires forall x :: x in s ==> c(x) in labels
    ensures Sum2(labels, s, Labelled(c, f)) == Sum(s, f)
  {
    var h := Labelled(c, f);
    Sum2Swap(labels, s, h);
    forall x | x in s ensures RowSums(labels, Flip(h))(x) == f(x) {
      SumPoint(labels, Row(Flip(h), x), c(x));
    }
    SumEq(s, RowSums(labels, Flip(h)), f);
  }
}
