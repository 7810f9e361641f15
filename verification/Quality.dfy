/**
  `modularityOf` of packages/curate/src/communities.ts, which adds modularity up
  community by community, and what its result can be.
 */
module Quality {
  import opened Names
  import opened Sums
  import opened WeightedGraph
  import opened Modularity

  // ---- one community

  ghost function BothIn<C(!new)>(m: map<Name, C>, c: C): (Name, Name) -> bool {
    (a, b) => a in m && b in m && m[a] == c && m[b] == c
  }

  ghost function OneIn<C(!new)>(m: map<Name, C>, c: C): (Name, Name) -> bool {
    (a, b) => a in m && m[a] == c && !(b in m && m[b] == c)
  }

  /** `f` summed over the ordered pairs inside community `c`. */
  ghost function Inside<C(!new)>(v: set<Name>, m: map<Name, C>, f: Kernel, c: C): real {
    Sum2(v, v, Select(BothIn(m, c), f))
  }

  ghost function InsideFn<C(!new)>(v: set<Name>, m: map<Name, C>, f: Kernel): C -> real {
    c => Inside(v, m, f, c)
  }

  /** The weight of the links leaving community `c`. */
  ghost function Leaving<C(!new)>(g: WGraph, m: map<Name, C>, c: C): real {
    Sum2(g.Keys, g.Keys, Select(OneIn(m, c), Adjacency(g)))
  }

  /** The degree sum of community `c`. */
  ghost function Total<C(!new)>(g: WGraph, m: map<Name, C>, c: C): real {
    Sum(g.Keys, MemberDegree(g, m, c))
  }

  ghost function TotalFn<C(!new)>(g: WGraph, m: map<Name, C>): C -> real {
    c => Total(g, m, c)
  }

  /** The labels in use. */
  ghost function Used<C(!new)>(g: WGraph, m: map<Name, C>): set<C> {
    set a | a in g && a in m :: m[a]
  }

  /** One community's entries, as a function of the community and a pair. */
  ghost function ByCommunity<C(!new)>(m: map<Name, C>, f: Kernel): (C, (Name, Name)) -> real {
    (c, ab: (Name, Name)) => Select(BothIn(m, c), f)(ab.0, ab.1)
  }

  /** A sum over pairs that share a community is the sum of the communities' own sums. */
  lemma SumOfInsides<C(!new)>(g: WGraph, m: map<Name, C>, f: Kernel)
    ensures Sum(Used(g, m), InsideFn(g.Keys, m, f)) == PairSum(g.Keys, m, f)
  {
    var v := g.Keys;
    var pairs := Cross(v, v);
    var h := ByCommunity(m, f);
    forall c | c in Used(g, m) ensures InsideFn(v, m, f)(c) == RowSums(pairs, h)(c) {
      SumCross(v, v, Select(BothIn(m, c), f));
      SumEq(pairs, OnPairs(Select(BothIn(m, c), f)), Row(h, c));
    }
    SumEq(Used(g, m), InsideFn(v, m, f), RowSums(pairs, h));
    Sum2Swap(Used(g, m), pairs, h);
    forall ab | ab in pairs ensures RowSums(Used(g, m), Flip(h))(ab) == OnPairs(SameOnly(m, f))(ab) {
      PairCommunity(g, m, f, ab);
    }
    SumEq(pairs, RowSums(Used(g, m), Flip(h)), OnPairs(SameOnly(m, f)));
    SumCross(v, v, SameOnly(m, f));
  }

  lemma PairCommunity<C(!new)>(g: WGraph, m: map<Name, C>, f: Kernel, ab: (Name, Name))
    requires ab.0 in g && ab.1 in g
    ensures Sum(Used(g, m), Row(Flip(ByCommunity(m, f)), ab)) == SameOnly(m, f)(ab.0, ab.1)
  {
    var share := Row(Flip(ByCommunity(m, f)), ab);
    forall c ensures share(c) == if BothIn(m, c)(ab.0, ab.1) then f(ab.0, ab.1) else 0.0 {
      assert share(c) == ByCommunity(m, f)(c, ab);
      assert ByCommunity(m, f)(c, ab) == Select(BothIn(m, c), f)(ab.0, ab.1);
      assert Select(BothIn(m, c), f)(ab.0, ab.1) == if BothIn(m, c)(ab.0, ab.1) then f(ab.0, ab.1) else 0.0;
    }
    if Same(m, ab.0, ab.1) {
      SumPoint(Used(g, m), share, m[ab.0]);
    } else {
      SumZero(Used(g, m), share);
    }
  }

  /** The degree products inside a community are the square of its degree sum. */
  lemma InsideDegrees<C(!new)>(g: WGraph, m: map<Name, C>, c: C)
    ensures Inside(g.Keys, m, DegreeProduct(g), c) == Product(Total(g, m, c), Total(g, m, c))
  {
    hide Product;
    hide Degree;
    var inside := Select(BothIn(m, c), DegreeProduct(g));
    forall a, b | a in g.Keys && b in g.Keys
      ensures inside(a, b) == Product(MemberDegree(g, m, c)(a), MemberDegree(g, m, c)(b))
    {
      Distribute(Degree(g, a), 0.0, Degree(g, b));
      Distribute(Degree(g, b), 0.0, 0.0);
      Distribute(0.0, 0.0, Degree(g, b));
    }
    Sum2Product(g.Keys, g.Keys, MemberDegree(g, m, c), MemberDegree(g, m, c), inside);
  }

  /** Links inside, counted from both ends, and links leaving add up to the degrees of the members. */
  lemma InsideAndLeaving<C(!new)>(g: WGraph, m: map<Name, C>, c: C)
    ensures Inside(g.Keys, m, Adjacency(g), c) + Leaving(g, m, c) == Total(g, m, c)
  {
    var v := g.Keys;
    var mine := (a: Name, b: Name) => if a in m && m[a] == c then Adjacency(g)(a, b) else 0.0;
    Sum2Add(v, v, Select(BothIn(m, c), Adjacency(g)), Select(OneIn(m, c), Adjacency(g)), mine);
    forall a | a in v ensures RowSums(v, mine)(a) == MemberDegree(g, m, c)(a) {
      if a in m && m[a] == c {
        SumEq(v, Row(mine, a), Row(Adjacency(g), a));
      } else {
        SumZero(v, Row(mine, a));
      }
    }
    SumEq(v, RowSums(v, mine), MemberDegree(g, m, c));
  }

  /** The degree sums of the communities add up to the total degree. */
  lemma TotalsAddUp<C(!new)>(g: WGraph, m: map<Name, C>)
    requires g.Keys <= m.Keys
    ensures Sum(Used(g, m), TotalFn(g, m)) == TotalDegree(g)
  {
    hide Degree;
    var h := (c: C, a: Name) => MemberDegree(g, m, c)(a);
    forall c | c in Used(g, m) ensures TotalFn(g, m)(c) == RowSums(g.Keys, h)(c) {
      SumEq(g.Keys, MemberDegree(g, m, c), Row(h, c));
    }
    SumEq(Used(g, m), TotalFn(g, m), RowSums(g.Keys, h));
    Sum2Swap(Used(g, m), g.Keys, h);
    forall a | a in g.Keys ensures RowSums(Used(g, m), Flip(h))(a) == DegreeFn(g)(a) {
      SumPoint(Used(g, m), Row(Flip(h), a), m[a]);
    }
    SumEq(g.Keys, RowSums(Used(g, m), Flip(h)), DegreeFn(g));
  }

  // ---- all communities

  ghost function SquareFn<C(!new)>(g: WGraph, m: map<Name, C>): C -> real {
    c => Product(Total(g, m, c), Total(g, m, c))
  }

  lemma SumOfSquares<C(!new)>(g: WGraph, m: map<Name, C>)
    ensures Sum(Used(g, m), SquareFn(g, m)) == Expected(g, m)
  {
    hide Product;
    hide Inside;
    hide Total;
    forall c | c in Used(g, m) ensures SquareFn(g, m)(c) == InsideFn(g.Keys, m, DegreeProduct(g))(c) {
      InsideDegrees(g, m, c);
    }
    SumEq(Used(g, m), SquareFn(g, m), InsideFn(g.Keys, m, DegreeProduct(g)));
    SumOfInsides(g, m, DegreeProduct(g));
  }

  /** Modularity of a partition, by the textbook formula: share of links inside, less the squared share of degrees. */
  function Contribution(inside: real, total: real, m2: real): real
    requires m2 != 0.0
  {
    inside / m2 - Product(total / m2, total / m2)
  }

  ghost function ModularityTerm<C(!new)>(g: WGraph, m: map<Name, C>, m2: real): C -> real
    requires m2 != 0.0
  {
    c => Contribution(Inside(g.Keys, m, Adjacency(g), c), Total(g, m, c), m2)
  }

  ghost function ModularityValue<C(!new)>(g: WGraph, m: map<Name, C>, m2: real): real {
    if m2 == 0.0 then 0.0 else Sum(Used(g, m), ModularityTerm(g, m, m2))
  }

  lemma TermArithmetic(inside: real, total: real, m2: real)
    requires m2 != 0.0
    ensures Contribution(inside, total, m2)
         == Product(1.0 / m2, inside) - Product(1.0 / m2, Product(1.0 / m2, Product(total, total)))
  {
    var r := 1.0 / m2;
    assert inside / m2 == r * inside;
    assert total / m2 == r * total;
    assert (r * total) * (r * total) == r * (r * (total * total));
  }

  /** The pair form the proofs use and the formula agree. */
  lemma ValueIsScore<C(!new)>(g: WGraph, m: map<Name, C>, m2: real)
    requires m2 != 0.0
    ensures ModularityValue(g, m, m2) == Score(g, m, m2) / m2
  {
    var r := 1.0 / m2;
    var inside := InsideFn(g.Keys, m, Adjacency(g));
    var first := (c: C) => Product(r, inside(c));
    var second := (c: C) => Product(r, SquareFn(g, m)(c));
    var third := (c: C) => Product(r, second(c));
    ScoreOverM2(Internal(g, m), Expected(g, m), m2);
    hide Product;
    hide Score;
    hide Total;
    hide Inside;
    hide Contribution;
    SumScale(Used(g, m), r, inside, first);
    SumScale(Used(g, m), r, SquareFn(g, m), second);
    SumScale(Used(g, m), r, second, third);
    forall c | c in Used(g, m) ensures first(c) == ModularityTerm(g, m, m2)(c) + third(c) {
      TermArithmetic(Inside(g.Keys, m, Adjacency(g), c), Total(g, m, c), m2);
    }
    SumAdd(Used(g, m), ModularityTerm(g, m, m2), third, first);
    SumOfInsides(g, m, Adjacency(g));
    SumOfSquares(g, m);
    ScoreIs(g, m, m2);
  }

  lemma ScoreIs<C(!new)>(g: WGraph, m: map<Name, C>, m2: real)
    requires m2 != 0.0
    ensures Score(g, m, m2) == Internal(g, m) - Expected(g, m) / m2
  {}

  lemma ScoreOverM2(internal: real, expected: real, m2: real)
    requires m2 != 0.0
    ensures (internal - expected / m2) / m2 == Product(1.0 / m2, internal) - Product(1.0 / m2, Product(1.0 / m2, expected))
  {
    var r := 1.0 / m2;
    assert expected / m2 == r * expected;
    assert (internal - r * expected) / m2 == r * (internal - r * expected);
  }

  // ---- bounds

  lemma CommunityFacts<C(!new)>(g: WGraph, m: map<Name, C>, c: C)
    requires WellFormed(g) && g.Keys <= m.Keys
    ensures 0.0 <= Inside(g.Keys, m, Adjacency(g), c) <= Total(g, m, c)
    ensures Inside(g.Keys, m, Adjacency(g), c) >= 2.0 * Total(g, m, c) - TotalDegree(g)
  {
    var nothing := (a: Name, b: Name) => 0.0;
    Sum2Zero(g.Keys, g.Keys, nothing);
    forall a, b ensures Adjacency(g)(a, b) >= 0.0 { WeightMirrored(g, a, b); }
    Sum2Le(g.Keys, g.Keys, nothing, Select(BothIn(m, c), Adjacency(g)));
    Sum2Le(g.Keys, g.Keys, nothing, Select(OneIn(m, c), Adjacency(g)));
    InsideAndLeaving(g, m, c);
    LeavingBound(g, m, c);
  }

  /** What leaves a community cannot exceed what the others have to receive it. */
  lemma LeavingBound<C(!new)>(g: WGraph, m: map<Name, C>, c: C)
    requires WellFormed(g)
    ensures Leaving(g, m, c) <= TotalDegree(g) - Total(g, m, c)
  {
    var v := g.Keys;
    var leaving := Select(OneIn(m, c), Adjacency(g));
    var rest := (b: Name) => Degree(g, b) - MemberDegree(g, m, c)(b);
    Sum2Swap(v, v, leaving);
    forall b | b in v ensures RowSums(v, Flip(leaving))(b) <= rest(b) {
      ReceivedBound(g, m, c, b);
    }
    SumLe(v, RowSums(v, Flip(leaving)), rest);
    SumAdd(v, rest, MemberDegree(g, m, c), DegreeFn(g));
  }

  lemma ReceivedBound<C(!new)>(g: WGraph, m: map<Name, C>, c: C, b: Name)
    requires WellFormed(g) && b in g
    ensures Sum(g.Keys, Row(Flip(Select(OneIn(m, c), Adjacency(g))), b)) <= Degree(g, b) - MemberDegree(g, m, c)(b)
  {
    var received := Row(Flip(Select(OneIn(m, c), Adjacency(g))), b);
    if b in m && m[b] == c {
      SumZero(g.Keys, received);
    } else {
      forall a | a in g.Keys ensures received(a) <= Row(Adjacency(g), b)(a) { WeightMirrored(g, a, b); }
      SumLe(g.Keys, received, Row(Adjacency(g), b));
    }
  }

  /** Squares are bounded by the largest value times the sum. */
  lemma SquaresBound<C(!new)>(s: set<C>, f: C -> real, square: C -> real, most: real)
    requires forall c :: c in s ==> 0.0 <= f(c) <= most && square(c) == Product(f(c), f(c))
    ensures Sum(s, square) <= Product(most, Sum(s, f))
  {
    var scaled := (c: C) => Product(most, f(c));
    forall c | c in s ensures square(c) <= scaled(c) { ProductMonotone(f(c), most, f(c)); }
    hide Product;
    SumLe(s, square, scaled);
    SumScale(s, most, f, scaled);
  }

  lemma ProductMonotone(a: real, b: real, c: real)
    requires a <= b && c >= 0.0
    ensures Product(a, c) <= Product(b, c)
  {}

  lemma TotalsKnown<C(!new)>(g: WGraph, m: map<Name, C>)
    requires WellFormed(g) && g.Keys <= m.Keys
    ensures forall c :: 0.0 <= TotalFn(g, m)(c)
    ensures Sum(Used(g, m), TotalFn(g, m)) == TotalDegree(g)
  {
    TotalsAddUp(g, m);
    forall c ensures 0.0 <= TotalFn(g, m)(c) { CommunityFacts(g, m, c); }
  }

  /** With no community above half of all degrees, the squares stay below half the square. */
  lemma EvenBound<C(!new)>(g: WGraph, m: map<Name, C>, half: real)
    requires WellFormed(g) && g.Keys <= m.Keys
    requires forall c :: c in Used(g, m) ==> Total(g, m, c) <= half
    ensures Expected(g, m) <= Product(half, TotalDegree(g)) && Internal(g, m) >= 0.0
  {
    hide Product;
    hide Total;
    hide Inside;
    hide Expected;
    hide Internal;
    hide TotalDegree;
    TotalsKnown(g, m);
    SumOfSquares(g, m);
    SquaresBound(Used(g, m), TotalFn(g, m), SquareFn(g, m), half);
    InternalNonNegative(g, m);
  }

  lemma InternalNonNegative<C(!new)>(g: WGraph, m: map<Name, C>)
    requires WellFormed(g) && g.Keys <= m.Keys
    ensures Internal(g, m) >= 0.0
  {
    hide Inside;
    SumOfInsides(g, m, Adjacency(g));
    forall c | c in Used(g, m) ensures InsideFn(g.Keys, m, Adjacency(g))(c) >= 0.0 { CommunityFacts(g, m, c); }
    SumNonNegative(Used(g, m), InsideFn(g.Keys, m, Adjacency(g)));
  }

  /** With one community `c`: it holds most links, and the squares of the rest stay below the square of the rest. */
  lemma LopsidedBound<C(!new)>(g: WGraph, m: map<Name, C>, c: C)
    requires WellFormed(g) && g.Keys <= m.Keys && c in Used(g, m)
    ensures Expected(g, m) <= Product(Total(g, m, c), Total(g, m, c)) + Product(TotalDegree(g) - Total(g, m, c), TotalDegree(g) - Total(g, m, c))
    ensures Internal(g, m) >= 2.0 * Total(g, m, c) - TotalDegree(g)
  {
    hide Product;
    hide Total;
    hide Inside;
    var rest := Used(g, m) - {c};
    TotalsKnown(g, m);
    SumPick(Used(g, m), TotalFn(g, m), c);
    SumPick(Used(g, m), SquareFn(g, m), c);
    forall d | d in rest ensures TotalFn(g, m)(d) <= TotalDegree(g) - Total(g, m, c) {
      SumTermLe(rest, TotalFn(g, m), d);
    }
    SquaresBound(rest, TotalFn(g, m), SquareFn(g, m), TotalDegree(g) - Total(g, m, c));
    SumOfSquares(g, m);
    SumOfInsides(g, m, Adjacency(g));
    forall d | d in Used(g, m) ensures InsideFn(g.Keys, m, Adjacency(g))(d) >= 0.0 { CommunityFacts(g, m, d); }
    SumTermLe(Used(g, m), InsideFn(g.Keys, m, Adjacency(g)), c);
    CommunityFacts(g, m, c);
  }

  lemma HalfArithmetic(internal: real, expected: real, m2: real)
    requires m2 > 0.0 && internal >= 0.0 && expected <= Product(m2 / 2.0, m2)
    ensures (internal - expected / m2) / m2 >= -0.5
  {
    assert expected / m2 <= m2 / 2.0;
    DivideLe(-m2 / 2.0, internal - expected / m2, m2);
  }

  lemma LopsidedArithmetic(internal: real, expected: real, t: real, m2: real)
    requires m2 > 0.0 && m2 / 2.0 < t <= m2
    requires internal >= 2.0 * t - m2
    requires expected <= Product(t, t) + Product(m2 - t, m2 - t)
    ensures (internal - expected / m2) / m2 >= -0.5
  {
    var d := m2 - t;
    assert 0.0 <= d < m2 / 2.0;
    assert expected <= m2 * m2 - 2.0 * (m2 * d) + 2.0 * (d * d);
    assert d * d <= m2 / 2.0 * d;
    assert expected <= m2 * m2 - m2 * d;
    assert expected / m2 <= m2 - d;
    assert internal - expected / m2 >= -d;
    DivideLe(-m2 / 2.0, internal - expected / m2, m2);
  }

  /** Modularity never goes below minus one half. */
  lemma ModularityLowerBound<C(!new)>(g: WGraph, m: map<Name, C>)
    requires WellFormed(g) && g.Keys <= m.Keys && TotalDegree(g) > 0.0
    ensures Score(g, m, TotalDegree(g)) / TotalDegree(g) >= -0.5
  {
    hide *;
    var m2 := TotalDegree(g);
    ScoreIs(g, m, m2);
    if c :| c in Used(g, m) && Total(g, m, c) > m2 / 2.0 {
      LopsidedBound(g, m, c);
      TotalAtMost(g, m, c);
      LopsidedArithmetic(Internal(g, m), Expected(g, m), Total(g, m, c), m2);
    } else {
      EvenBound(g, m, m2 / 2.0);
      HalfArithmetic(Internal(g, m), Expected(g, m), m2);
    }
  }

  lemma TotalAtMost<C(!new)>(g: WGraph, m: map<Name, C>, c: C)
    requires WellFormed(g) && g.Keys <= m.Keys && c in Used(g, m)
    ensures Total(g, m, c) <= TotalDegree(g)
  {
    hide Total;
    TotalsKnown(g, m);
    SumTermLe(Used(g, m), TotalFn(g, m), c);
  }

  lemma SomeTotalPositive<C(!new)>(g: WGraph, m: map<Name, C>) returns (c: C)
    requires WellFormed(g) && g.Keys <= m.Keys && TotalDegree(g) > 0.0
    ensures c in Used(g, m) && Total(g, m, c) > 0.0
  {
    hide Total;
    TotalsKnown(g, m);
    if forall d :: d in Used(g, m) ==> TotalFn(g, m)(d) == 0.0 {
      SumZero(Used(g, m), TotalFn(g, m));
      assert false;
    } else {
      c :| c in Used(g, m) && TotalFn(g, m)(c) != 0.0;
      assert 0.0 <= TotalFn(g, m)(c);
    }
  }

  lemma PositiveProduct(a: real, b: real)
    requires a > 0.0 && b > 0.0
    ensures Product(a, b) > 0.0
  {}

  lemma SquareNonNegative(a: real)
    ensures Product(a, a) >= 0.0
  {}

  lemma ExpectedPositive<C(!new)>(g: WGraph, m: map<Name, C>)
    requires WellFormed(g) && g.Keys <= m.Keys && TotalDegree(g) > 0.0
    ensures Expected(g, m) > 0.0
  {
    hide Product;
    hide Total;
    hide TotalDegree;
    hide Expected;
    var c := SomeTotalPositive(g, m);
    SumOfSquares(g, m);
    forall d ensures SquareFn(g, m)(d) >= 0.0 { SquareNonNegative(Total(g, m, d)); }
    SumTermLe(Used(g, m), SquareFn(g, m), c);
    PositiveProduct(Total(g, m, c), Total(g, m, c));
  }

  lemma InternalAtMostTotal<C(!new)>(g: WGraph, m: map<Name, C>)
    requires WellFormed(g) && g.Keys <= m.Keys
    ensures Internal(g, m) <= TotalDegree(g)
  {
    hide Inside;
    hide Total;
    hide TotalDegree;
    SumOfInsides(g, m, Adjacency(g));
    TotalsAddUp(g, m);
    forall c | c in Used(g, m) ensures InsideFn(g.Keys, m, Adjacency(g))(c) <= TotalFn(g, m)(c) { CommunityFacts(g, m, c); }
    SumLe(Used(g, m), InsideFn(g.Keys, m, Adjacency(g)), TotalFn(g, m));
  }

  lemma UpperArithmetic(internal: real, expected: real, m2: real)
    requires m2 > 0.0 && internal <= m2 && expected > 0.0
    ensures (internal - expected / m2) / m2 < 1.0
  {
    assert expected / m2 > 0.0;
  }

  /** Modularity never reaches one. */
  lemma ModularityUpperBound<C(!new)>(g: WGraph, m: map<Name, C>)
    requires WellFormed(g) && g.Keys <= m.Keys && TotalDegree(g) > 0.0
    ensures Score(g, m, TotalDegree(g)) / TotalDegree(g) < 1.0
  {
    hide *;
    ScoreIs(g, m, TotalDegree(g));
    InternalAtMostTotal(g, m);
    ExpectedPositive(g, m);
    UpperArithmetic(Internal(g, m), Expected(g, m), TotalDegree(g));
  }

  // ---- the computation

  lemma InnerTerm<C(!new)>(g: WGraph, membership: map<Name, C>, node: Name, nb: Name, c: C)
    requires LoopFree(g) && node in g && nb in g[node] && node in membership && membership[node] == c
    ensures Row(Select(BothIn(membership, c), Adjacency(g)), node)(nb)
         == if nb in membership && membership[nb] == c then g[node][nb] else 0.0
  {}

  lemma InnerSupport<C(!new)>(g: WGraph, membership: map<Name, C>, node: Name, c: C)
    requires WellFormed(g) && node in g
    ensures Sum(g[node].Keys, Row(Select(BothIn(membership, c), Adjacency(g)), node))
         == Sum(g.Keys, Row(Select(BothIn(membership, c), Adjacency(g)), node))
  {
    RowKeys(g, node);
    SumSupport(g[node].Keys, g.Keys, Row(Select(BothIn(membership, c), Adjacency(g)), node));
  }

  /** The weight `node` sends into its own community. */
  method InnerOf<C(==, !new)>(g: WGraph, membership: map<Name, C>, node: Name) returns (sum: real)
    requires WellFormed(g) && LoopFree(g) && node in g && node in membership
    ensures sum == Sum(g.Keys, Row(Select(BothIn(membership, membership[node]), Adjacency(g)), node))
  {
    hide *;
    var c := membership[node];
    var row := g[node].Keys;
    ghost var term := Row(Select(BothIn(membership, c), Adjacency(g)), node);
    InnerSupport(g, membership, node, c);
    forall nb | nb in row
      ensures term(nb) == if nb in membership && membership[nb] == c then g[node][nb] else 0.0
    {
      InnerTerm(g, membership, node, nb, c);
    }
    sum := 0.0;
    var left := row;
    while left != {}
      invariant left <= row
      invariant sum + Sum(left, term) == Sum(row, term)
      decreases |left|
    {
      var nb :| nb in left;
      SumPick(left, term, nb);
      if nb in membership && membership[nb] == c {
        sum := sum + g[node][nb];
      }
      left := left - {nb};
    }
    SumNone(term);
  }

  ghost function CommunitiesOf<C(!new)>(m: map<Name, C>, done: set<Name>): set<C> {
    set a | a in done && a in m :: m[a]
  }

  /** The two tables of `modularityOf` after the nodes in `done`. */
  ghost predicate Counted<C(!new)>(g: WGraph, m: map<Name, C>, done: set<Name>, inner: map<C, real>, total: map<C, real>) {
    && (forall c: C :: At(inner, c) == Sum2(done, g.Keys, Select(BothIn(m, c), Adjacency(g))))
    && (forall c: C :: At(total, c) == Sum(done, MemberDegree(g, m, c)))
    && total.Keys == CommunitiesOf(m, done)
  }

  lemma AtUpdate<C(!new)>(t: map<C, real>, k: C, v: real, c: C)
    ensures At(t[k := v], c) == if c == k then v else At(t, c)
  {}

  lemma CountedAt<C(!new)>(g: WGraph, m: map<Name, C>, done: set<Name>, inner: map<C, real>, total: map<C, real>, c: C)
    requires Counted(g, m, done, inner, total)
    ensures At(inner, c) == Sum2(done, g.Keys, Select(BothIn(m, c), Adjacency(g)))
    ensures At(total, c) == Sum(done, MemberDegree(g, m, c))
  {}

  lemma CountedTotals<C(!new)>(g: WGraph, m: map<Name, C>, done: set<Name>, inner: map<C, real>, total: map<C, real>)
    requires Counted(g, m, done, inner, total)
    ensures total.Keys == CommunitiesOf(m, done)
  {}

  lemma CountedIntro<C(!new)>(g: WGraph, m: map<Name, C>, done: set<Name>, inner: map<C, real>, total: map<C, real>)
    requires forall c: C :: At(inner, c) == Sum2(done, g.Keys, Select(BothIn(m, c), Adjacency(g)))
    requires forall c: C :: At(total, c) == Sum(done, MemberDegree(g, m, c))
    requires total.Keys == CommunitiesOf(m, done)
    ensures Counted(g, m, done, inner, total)
  {}

  lemma MemberAt<C(!new)>(g: WGraph, m: map<Name, C>, a: Name, c: C)
    requires a in m
    ensures MemberDegree(g, m, c)(a) == if m[a] == c then Degree(g, a) else 0.0
  {}

  lemma CountKeys<C(!new)>(m: map<Name, C>, done: set<Name>, a: Name, total: map<C, real>, total': map<C, real>)
    requires a in m && total.Keys == CommunitiesOf(m, done) && total'.Keys == total.Keys + {m[a]}
    ensures total'.Keys == CommunitiesOf(m, done + {a})
  {
    assert m[a] in CommunitiesOf(m, done + {a});
  }

  lemma CountMember<C(!new)>(g: WGraph, m: map<Name, C>, done: set<Name>, a: Name, inner: map<C, real>, total: map<C, real>,
                    inner': map<C, real>, total': map<C, real>)
    requires Counted(g, m, done, inner, total) && a !in done && a in m
    requires total' == total[m[a] := At(total, m[a]) + Degree(g, a)]
    requires inner' == inner[m[a] := At(inner, m[a]) + Sum(g.Keys, Row(Select(BothIn(m, m[a]), Adjacency(g)), a))]
    ensures Counted(g, m, done + {a}, inner', total')
  {
    hide *;
    CountedTotals(g, m, done, inner, total);
    CountKeys(m, done, a, total, total');
    forall c: C
      ensures At(inner', c) == Sum2(done + {a}, g.Keys, Select(BothIn(m, c), Adjacency(g)))
      ensures At(total', c) == Sum(done + {a}, MemberDegree(g, m, c))
    {
      CountedAt(g, m, done, inner, total, c);
      CountOne(g, m, done, a, c);
      MemberAt(g, m, a, c);
      AtUpdate(inner, m[a], At(inner, m[a]) + Sum(g.Keys, Row(Select(BothIn(m, m[a]), Adjacency(g)), a)), c);
      AtUpdate(total, m[a], At(total, m[a]) + Degree(g, a), c);
    }
    CountedIntro(g, m, done + {a}, inner', total');
  }

  lemma CountSkip<C(!new)>(g: WGraph, m: map<Name, C>, done: set<Name>, a: Name, inner: map<C, real>, total: map<C, real>)
    requires Counted(g, m, done, inner, total) && a !in done && a !in m
    ensures Counted(g, m, done + {a}, inner, total)
  {
    hide Degree;
    forall c: C
      ensures At(inner, c) == Sum2(done + {a}, g.Keys, Select(BothIn(m, c), Adjacency(g)))
      ensures At(total, c) == Sum(done + {a}, MemberDegree(g, m, c))
    {
      CountOne(g, m, done, a, c);
    }
  }

  lemma CountOne<C(!new)>(g: WGraph, m: map<Name, C>, done: set<Name>, a: Name, c: C)
    requires a !in done
    ensures Sum(done + {a}, MemberDegree(g, m, c)) == Sum(done, MemberDegree(g, m, c)) + MemberDegree(g, m, c)(a)
    ensures Sum2(done + {a}, g.Keys, Select(BothIn(m, c), Adjacency(g)))
         == Sum2(done, g.Keys, Select(BothIn(m, c), Adjacency(g)))
            + if a in m && m[a] == c then Sum(g.Keys, Row(Select(BothIn(m, c), Adjacency(g)), a)) else 0.0
  {
    assert done + {a} - {a} == done;
    SumPick(done + {a}, MemberDegree(g, m, c), a);
    SumPick(done + {a}, RowSums(g.Keys, Select(BothIn(m, c), Adjacency(g))), a);
    if !(a in m && m[a] == c) {
      SumZero(g.Keys, Row(Select(BothIn(m, c), Adjacency(g)), a));
    }
  }

  /** Counts one node into the tables, or leaves it out when it has no community. */
  method CountNode<C(==, !new)>(g: WGraph, membership: map<Name, C>, node: Name, inner: map<C, real>, total: map<C, real>, ghost done: set<Name>)
    returns (inner': map<C, real>, total': map<C, real>)
    requires WellFormed(g) && LoopFree(g) && node in g && node !in done
    requires Counted(g, membership, done, inner, total)
    ensures Counted(g, membership, done + {node}, inner', total')
  {
    hide *;
    if node !in membership {
      CountSkip(g, membership, done, node, inner, total);
      return inner, total;
    }
    var c := membership[node];
    var k := DegreeOf(g, node);
    var w := InnerOf(g, membership, node);
    total' := total[c := At(total, c) + k];
    inner' := inner[c := At(inner, c) + w];
    CountMember(g, membership, done, node, inner, total, inner', total');
  }

  lemma CountNone<C(!new)>(g: WGraph, m: map<Name, C>)
    ensures Counted(g, m, {}, map[], map[])
  {}

  /** Fills the two tables: inner weight and degree sum of each community. */
  method CountCommunities<C(==, !new)>(g: WGraph, membership: map<Name, C>) returns (inner: map<C, real>, total: map<C, real>)
    requires WellFormed(g) && LoopFree(g)
    ensures Counted(g, membership, g.Keys, inner, total)
  {
    hide *;
    inner, total := map[], map[];
    CountNone(g, membership);
    var left := g.Keys;
    WalkStart(g.Keys);
    while left != {}
      invariant left <= g.Keys
      invariant Counted(g, membership, Walked(g.Keys, left), inner, total)
      decreases |left|
    {
      var node :| node in left;
      WalkOne(g.Keys, left, node);
      inner, total := CountNode(g, membership, node, inner, total, Walked(g.Keys, left));
      left := left - {node};
    }
    WalkEnd(g.Keys);
  }

  lemma CountedTables<C(!new)>(g: WGraph, m: map<Name, C>, inner: map<C, real>, total: map<C, real>, m2: real, c: C)
    requires Counted(g, m, g.Keys, inner, total) && m2 != 0.0 && c in total
    ensures Contribution(At(inner, c), total[c], m2) == ModularityTerm(g, m, m2)(c)
  {}

  lemma CountedKeys<C(!new)>(g: WGraph, m: map<Name, C>, inner: map<C, real>, total: map<C, real>)
    requires Counted(g, m, g.Keys, inner, total)
    ensures total.Keys == Used(g, m)
  {}

  /** Modularity of the membership, nodes without one left out. */
  method ModularityOf<C(==, !new)>(g: WGraph, membership: map<Name, C>, m2: real) returns (q: real)
    requires WellFormed(g) && LoopFree(g)
    ensures q == ModularityValue(g, membership, m2)
  {
    hide *;
    ValueIsSum(g, membership, m2);
    if m2 == 0.0 { return 0.0; }
    var inner, total := CountCommunities(g, membership);
    CountedKeys(g, membership, inner, total);
    ghost var term := ModularityTerm(g, membership, m2);
    forall c: C | c in total ensures Contribution(At(inner, c), total[c], m2) == term(c) {
      CountedTables(g, membership, inner, total, m2, c);
    }
    q := 0.0;
    var left := total.Keys;
    while left != {}
      invariant left <= total.Keys
      invariant q + Sum(left, term) == Sum(total.Keys, term)
      decreases |left|
    {
      var c :| c in left;
      SumPick(left, term, c);
      q := q + Contribution(At(inner, c), total[c], m2);
      left := left - {c};
    }
    SumNone(term);
  }

  lemma ValueIsSum<C(!new)>(g: WGraph, m: map<Name, C>, m2: real)
    ensures ModularityValue(g, m, m2) == if m2 == 0.0 then 0.0 else Sum(Used(g, m), ModularityTerm(g, m, m2))
  {}
}
