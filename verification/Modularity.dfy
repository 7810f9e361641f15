/** Modularity as a sum over pairs of nodes that share a community. */
module Modularity {
  // The three facts every step of the clustering rests on: what one move changes,
  // what regrouping nodes into their communities keeps, and what splitting a
  // community between parts that share no edge cannot lower.

  import opened Names
  import opened Sums
  import opened WeightedGraph

  ghost predicate Same<C(!new)>(m: map<Name, C>, a: Name, b: Name) {
    a in m && b in m && m[a] == m[b]
  }

  ghost function Together<C(!new)>(m: map<Name, C>): (Name, Name) -> bool {
    (a, b) => Same(m, a, b)
  }

  /** `f` on the selected pairs, zero elsewhere. */
  ghost function Select(sel: (Name, Name) -> bool, f: Kernel): Kernel {
    (a, b) => if sel(a, b) then f(a, b) else 0.0
  }

  /** `f` on the pairs that share a community. */
  ghost function SameOnly<C(!new)>(m: map<Name, C>, f: Kernel): Kernel {
    Select(Together(m), f)
  }

  /** `f` summed over all ordered pairs of nodes that share a community. */
  ghost function PairSum<C(!new)>(v: set<Name>, m: map<Name, C>, f: Kernel): real {
    Sum2(v, v, SameOnly(m, f))
  }

  ghost function DegreeProduct(g: WGraph): Kernel {
    (a, b) => Product(Degree(g, a), Degree(g, b))
  }

  /** Edge weight inside communities, counted from both ends. */
  ghost function Internal<C(!new)>(g: WGraph, m: map<Name, C>): real {
    PairSum(g.Keys, m, Adjacency(g))
  }

  /** What the degrees alone would put inside communities, times `m2`. */
  ghost function Expected<C(!new)>(g: WGraph, m: map<Name, C>): real {
    PairSum(g.Keys, m, DegreeProduct(g))
  }

  /** Modularity times `m2`: the quantity every step compares. */
  ghost function Score<C(!new)>(g: WGraph, m: map<Name, C>, m2: real): real
    requires m2 != 0.0
  {
    Internal(g, m) - Expected(g, m) / m2
  }

  ghost predicate SymmetricOn(v: set<Name>, f: Kernel) {
    forall a, b :: a in v && b in v ==> f(a, b) == f(b, a)
  }

  // ---- one move

  /** `f` from `x` into community `c`, `x` itself left out. */
  ghost function TowardTerm<C(!new)>(m: map<Name, C>, x: Name, c: C, f: Kernel): Name -> real {
    b => if b in m && m[b] == c then f(x, b) else 0.0
  }

  ghost function Toward<C(!new)>(v: set<Name>, m: map<Name, C>, x: Name, c: C, f: Kernel): real {
    Sum(v - {x}, TowardTerm(m, x, c, f))
  }

  /** Moving one node changes only the pairs it is part of. */
  lemma PairSumMove<C(!new)>(v: set<Name>, m: map<Name, C>, x: Name, c: C, f: Kernel)
    requires x in v && v <= m.Keys && SymmetricOn(v, f)
    ensures PairSum(v, m[x := c], f) - PairSum(v, m, f) == 2.0 * (Toward(v, m, x, c, f) - Toward(v, m, x, m[x], f))
  {
    hide *;
    PairSumAround(v, m, x, m[x], f);
    PairSumAround(v, m[x := c], x, c, f);
    OthersStay(v, m, x, c, f);
  }

  lemma OthersStay<C(!new)>(v: set<Name>, m: map<Name, C>, x: Name, c: C, f: Kernel)
    requires x in v && v <= m.Keys
    ensures Sum2(v - {x}, v - {x}, SameOnly(m[x := c], f)) == Sum2(v - {x}, v - {x}, SameOnly(m, f))
    ensures Toward(v, m[x := c], x, c, f) == Toward(v, m, x, c, f)
  {
    var m' := m[x := c];
    Sum2Eq(v - {x}, v - {x}, SameOnly(m, f), SameOnly(m', f));
    SumEq(v - {x}, TowardTerm(m, x, c, f), TowardTerm(m', x, c, f));
  }

  lemma PairSumAround<C(!new)>(v: set<Name>, m: map<Name, C>, x: Name, c: C, f: Kernel)
    requires x in v && v <= m.Keys && SymmetricOn(v, f) && m[x] == c
    ensures PairSum(v, m, f) == f(x, x) + 2.0 * Toward(v, m, x, c, f) + Sum2(v - {x}, v - {x}, SameOnly(m, f))
  {
    var s := SameOnly(m, f);
    Sum2Pick(v, s, x);
    SumEq(v - {x}, Row(s, x), TowardTerm(m, x, c, f));
    SumEq(v - {x}, Row(Flip(s), x), TowardTerm(m, x, c, f));
  }

  ghost function Others(g: WGraph, m: map<Name, Name>, x: Name, c: Name): real {
    Sum(g.Keys - {x}, MemberDegree(g, m, c))
  }

  /** The degree of the members of `c`. */
  ghost function MemberDegree<C(!new)>(g: WGraph, m: map<Name, C>, c: C): Name -> real {
    b => if b in m && m[b] == c then Degree(g, b) else 0.0
  }

  /** The gain `localMoving` computes for putting `x` into `c`. */
  ghost function Gain(g: WGraph, m: map<Name, Name>, m2: real, x: Name, c: Name): real
    requires m2 != 0.0
  {
    Toward(g.Keys, m, x, c, Adjacency(g)) - Product(Others(g, m, x, c), Degree(g, x)) / m2
  }

  lemma TowardDegrees(g: WGraph, m: map<Name, Name>, x: Name, c: Name)
    ensures Toward(g.Keys, m, x, c, DegreeProduct(g)) == Product(Others(g, m, x, c), Degree(g, x))
  {
    hide Product;
    Distribute(Degree(g, x), 0.0, 0.0);
    SumScale(g.Keys - {x}, Degree(g, x), MemberDegree(g, m, c), TowardTerm(m, x, c, DegreeProduct(g)));
    Distribute(0.0, Others(g, m, x, c), Degree(g, x));
  }

  /** A move changes the score by exactly twice the difference of the two gains. */
  lemma ScoreMove(g: WGraph, m: map<Name, Name>, m2: real, x: Name, c: Name)
    requires WellFormed(g) && g.Keys <= m.Keys && x in g && m2 != 0.0
    ensures Score(g, m[x := c], m2) - Score(g, m, m2) == 2.0 * (Gain(g, m, m2, x, c) - Gain(g, m, m2, x, m[x]))
  {
    hide Product;
    DegreeProductSymmetric(g);
    PairSumMove(g.Keys, m, x, c, Adjacency(g));
    PairSumMove(g.Keys, m, x, c, DegreeProduct(g));
    TowardDegrees(g, m, x, c);
    TowardDegrees(g, m, x, m[x]);
    MoveArithmetic(Expected(g, m[x := c]), Expected(g, m), Product(Others(g, m, x, c), Degree(g, x)),
      Product(Others(g, m, x, m[x]), Degree(g, x)), m2);
  }

  lemma MoveArithmetic(after: real, before: real, joined: real, left: real, m2: real)
    requires m2 != 0.0
    requires after - before == 2.0 * (joined - left)
    ensures after / m2 - before / m2 == 2.0 * (joined / m2 - left / m2)
  {}

  lemma DegreeProductSymmetric(g: WGraph)
    ensures SymmetricOn(g.Keys, DegreeProduct(g))
  {
    hide Product;
    forall a, b | a in g && b in g ensures DegreeProduct(g)(a, b) == DegreeProduct(g)(b, a) {
      Distribute(0.0, Degree(g, a), Degree(g, b));
    }
  }

  // ---- splitting

  /** Separating nodes that share no edge never lowers the score. */
  lemma ScoreSplit<C(!new), D(!new)>(g: WGraph, m: map<Name, C>, m': map<Name, D>, m2: real)
    requires WellFormed(g) && m2 > 0.0
    requires forall a, b :: a in g && b in g && Same(m', a, b) ==> Same(m, a, b)
    requires forall a, b :: a in g && b in g && Same(m, a, b) && !Same(m', a, b) ==> Adjacency(g)(a, b) == 0.0
    ensures Score(g, m', m2) >= Score(g, m, m2)
  {
    hide Product;
    Sum2Eq(g.Keys, g.Keys, SameOnly(m, Adjacency(g)), SameOnly(m', Adjacency(g)));
    forall a, b | a in g && b in g
      ensures SameOnly(m', DegreeProduct(g))(a, b) <= SameOnly(m, DegreeProduct(g))(a, b)
    {
      DegreeProductNonNegative(g, a, b);
    }
    Sum2Le(g.Keys, g.Keys, SameOnly(m', DegreeProduct(g)), SameOnly(m, DegreeProduct(g)));
    DivideLe(Expected(g, m'), Expected(g, m), m2);
  }

  lemma DegreeProductNonNegative(g: WGraph, a: Name, b: Name)
    requires WellFormed(g)
    ensures DegreeProduct(g)(a, b) >= 0.0
  {
    DegreeNonNegative(g, a);
    DegreeNonNegative(g, b);
    ProductNonNegative(Degree(g, a), Degree(g, b));
  }

  lemma ProductNonNegative(a: real, b: real)
    requires a >= 0.0 && b >= 0.0
    ensures Product(a, b) >= 0.0
  {}

  lemma DivideLe(a: real, b: real, c: real)
    requires a <= b && c > 0.0
    ensures a / c <= b / c
  {}
}
