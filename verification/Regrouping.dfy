/**
  What collapsing communities into nodes keeps. `IsAggregate` says what the
  collapsed graph is; the lemmas say it has the same degrees and the same
  modularity as the graph below, whatever grouping of it is asked about, and
  that collapsing twice is collapsing once under the composed labels, so that a
  level can always be read as a grouping of the base graph.
 */
module Regrouping {
  import opened Names
  import opened Sums
  import opened WeightedGraph
  import opened Modularity

  ghost function InBlock(c: map<Name, Name>, p: Name, q: Name): (Name, Name) -> bool {
    (a, b) => a in c && b in c && c[a] == p && c[b] == q
  }

  /** All of `f` between the members of `p` and the members of `q`. */
  ghost function Block(v: set<Name>, c: map<Name, Name>, f: Kernel, p: Name, q: Name): real {
    Sum2(v, v, Select(InBlock(c, p, q), f))
  }

  /** The labels of the nodes of `v`. */
  ghost function Labels(v: set<Name>, c: map<Name, Name>): set<Name> {
    set a | a in v && a in c :: c[a]
  }

  ghost predicate IsAggregate(g: WGraph, c: map<Name, Name>, out: WGraph) {
    && g.Keys == c.Keys
    && out.Keys == Labels(g.Keys, c)
    && forall p, q :: p in out && q in out ==> Adjacency(out)(p, q) == Block(g.Keys, c, Adjacency(g), p, q)
  }

  ghost function Compose<C(!new)>(c: map<Name, Name>, d: map<Name, C>): map<Name, C> {
    map a | a in c && c[a] in d :: d[c[a]]
  }

  // ---- regrouping a sum over pairs

  ghost function LabelOf(c: map<Name, Name>, a: Name): Name {
    if a in c then c[a] else a
  }

  ghost function LabelFn(c: map<Name, Name>): Name -> Name {
    a => LabelOf(c, a)
  }

  ghost function PairLabel(c: map<Name, Name>): ((Name, Name)) -> (Name, Name) {
    (ab: (Name, Name)) => (LabelOf(c, ab.0), LabelOf(c, ab.1))
  }

  /** One pair's part in the share of block `(p, q)`. */
  lemma PairShare(v: set<Name>, c: map<Name, Name>, f: Kernel, sel: (Name, Name) -> bool, below: (Name, Name) -> bool, p: Name, q: Name, ab: (Name, Name))
    requires v <= c.Keys && ab in Cross(v, v)
    requires forall a, b :: a in v && b in v ==> below(a, b) == sel(c[a], c[b])
    ensures Row(Labelled(PairLabel(c), OnPairs(Select(below, f))), (p, q))(ab)
         == if sel(p, q) then OnPairs(Select(InBlock(c, p, q), f))(ab) else 0.0
  {
    assert ab.0 in v && ab.1 in v;
  }

  /** One block's share of a selected sum is the block itself, or nothing. */
  lemma BlockShare(v: set<Name>, c: map<Name, Name>, f: Kernel, sel: (Name, Name) -> bool, below: (Name, Name) -> bool, p: Name, q: Name)
    requires v <= c.Keys
    requires forall a, b :: a in v && b in v ==> below(a, b) == sel(c[a], c[b])
    ensures Sum(Cross(v, v), Row(Labelled(PairLabel(c), OnPairs(Select(below, f))), (p, q)))
         == if sel(p, q) then Block(v, c, f, p, q) else 0.0
  {
    hide *;
    var share := Row(Labelled(PairLabel(c), OnPairs(Select(below, f))), (p, q));
    forall ab | ab in Cross(v, v)
      ensures share(ab) == if sel(p, q) then OnPairs(Select(InBlock(c, p, q), f))(ab) else 0.0
    {
      PairShare(v, c, f, sel, below, p, q, ab);
    }
    if sel(p, q) {
      SumEq(Cross(v, v), share, OnPairs(Select(InBlock(c, p, q), f)));
      BlockIsPairs(v, c, f, p, q);
    } else {
      SumZero(Cross(v, v), share);
    }
  }

  lemma BlockIsPairs(v: set<Name>, c: map<Name, Name>, f: Kernel, p: Name, q: Name)
    ensures Block(v, c, f, p, q) == Sum(Cross(v, v), OnPairs(Select(InBlock(c, p, q), f)))
  {
    SumCross(v, v, Select(InBlock(c, p, q), f));
  }

  /** A selected sum above is the same sum below, when the selection below follows the labels. */
  lemma Pushforward(v: set<Name>, w: set<Name>, c: map<Name, Name>, f: Kernel, above: Kernel,
                    sel: (Name, Name) -> bool, below: (Name, Name) -> bool)
    requires v <= c.Keys && Labels(v, c) <= w
    requires forall p, q :: p in w && q in w ==> above(p, q) == Block(v, c, f, p, q)
    requires forall a, b :: a in v && b in v ==> below(a, b) == sel(c[a], c[b])
    ensures Sum2(w, w, Select(sel, above)) == Sum2(v, v, Select(below, f))
  {
    var labelled := Labelled(PairLabel(c), OnPairs(Select(below, f)));
    forall ab | ab in Cross(v, v) ensures PairLabel(c)(ab) in Cross(w, w) {
      assert c[ab.0] in Labels(v, c) && c[ab.1] in Labels(v, c);
    }
    SumByLabel(Cross(v, v), Cross(w, w), PairLabel(c), OnPairs(Select(below, f)));
    forall pq | pq in Cross(w, w)
      ensures RowSums(Cross(v, v), labelled)(pq) == OnPairs(Select(sel, above))(pq)
    {
      BlockShare(v, c, f, sel, below, pq.0, pq.1);
    }
    SumEq(Cross(w, w), RowSums(Cross(v, v), labelled), OnPairs(Select(sel, above)));
    SumCross(w, w, Select(sel, above));
    SumCross(v, v, Select(below, f));
  }

  lemma RegroupPairSum<C(!new)>(v: set<Name>, w: set<Name>, c: map<Name, Name>, d: map<Name, C>, f: Kernel, above: Kernel)
    requires v == c.Keys && Labels(v, c) == w && w <= d.Keys
    requires forall p, q :: p in w && q in w ==> above(p, q) == Block(v, c, f, p, q)
    ensures PairSum(w, d, above) == PairSum(v, Compose(c, d), f)
  {
    forall a, b | a in v && b in v ensures Together(Compose(c, d))(a, b) == Together(d)(c[a], c[b]) {
      assert c[a] in w && c[b] in w;
    }
    Pushforward(v, w, c, f, above, Together(d), Together(Compose(c, d)));
  }

  // ---- degrees

  lemma AggregateAt(g: WGraph, c: map<Name, Name>, out: WGraph, p: Name, q: Name)
    requires IsAggregate(g, c, out) && p in out && q in out
    ensures Adjacency(out)(p, q) == Block(g.Keys, c, Adjacency(g), p, q)
  {}

  lemma AggregateLabels(g: WGraph, c: map<Name, Name>, out: WGraph)
    requires IsAggregate(g, c, out)
    ensures g.Keys == c.Keys && out.Keys == Labels(g.Keys, c)
    ensures forall b :: b in g.Keys ==> LabelFn(c)(b) in out.Keys
  {
    forall b | b in g.Keys ensures LabelFn(c)(b) in out.Keys { assert c[b] in Labels(g.Keys, c); }
  }

  /** `f` on the pairs whose first node is a member of `p`. */
  ghost function FromMembers(c: map<Name, Name>, p: Name, f: Kernel): Kernel {
    (a, b) => if a in c && c[a] == p then f(a, b) else 0.0
  }

  /** What all members of `p` send to each node. */
  ghost function FromCommunity(v: set<Name>, c: map<Name, Name>, p: Name, f: Kernel): Name -> real {
    RowSums(v, Flip(FromMembers(c, p, f)))
  }

  lemma ColumnShare(v: set<Name>, c: map<Name, Name>, f: Kernel, p: Name, q: Name, b: Name)
    requires v <= c.Keys && b in v
    ensures Sum(v, Row(Flip(Select(InBlock(c, p, q), f)), b)) == if c[b] == q then FromCommunity(v, c, p, f)(b) else 0.0
  {
    var column := Row(Flip(Select(InBlock(c, p, q), f)), b);
    if c[b] == q {
      SumEq(v, column, Row(Flip(FromMembers(c, p, f)), b));
    } else {
      SumZero(v, column);
    }
  }

  lemma BlockByColumn(v: set<Name>, c: map<Name, Name>, f: Kernel, p: Name, q: Name)
    requires v <= c.Keys
    ensures Block(v, c, f, p, q) == Sum(v, Row(Labelled(LabelFn(c), FromCommunity(v, c, p, f)), q))
  {
    hide FromCommunity;
    hide Select;
    var block := Select(InBlock(c, p, q), f);
    var share := Row(Labelled(LabelFn(c), FromCommunity(v, c, p, f)), q);
    Sum2Swap(v, v, block);
    forall b | b in v ensures RowSums(v, Flip(block))(b) == share(b) {
      ColumnShare(v, c, f, p, q, b);
    }
    SumEq(v, RowSums(v, Flip(block)), share);
  }

  lemma MembersSend(g: WGraph, c: map<Name, Name>, p: Name)
    requires g.Keys <= c.Keys
    ensures Sum(g.Keys, FromCommunity(g.Keys, c, p, Adjacency(g))) == Sum(g.Keys, MemberDegree(g, c, p))
  {
    var v := g.Keys;
    var into := FromMembers(c, p, Adjacency(g));
    Sum2Swap(v, v, into);
    forall a | a in v ensures RowSums(v, into)(a) == MemberDegree(g, c, p)(a) {
      if c[a] == p {
        SumEq(v, Row(into, a), Row(Adjacency(g), a));
      } else {
        SumZero(v, Row(into, a));
      }
    }
    SumEq(v, RowSums(v, into), MemberDegree(g, c, p));
  }

  /** A collapsed node has the degree of its members. */
  lemma AggregateDegree(g: WGraph, c: map<Name, Name>, out: WGraph, p: Name)
    requires IsAggregate(g, c, out) && p in out
    ensures Degree(out, p) == Sum(g.Keys, MemberDegree(g, c, p))
  {
    hide IsAggregate;
    AggregateLabels(g, c, out);
    var sent := FromCommunity(g.Keys, c, p, Adjacency(g));
    forall q | q in out.Keys
      ensures Row(Adjacency(out), p)(q) == RowSums(g.Keys, Labelled(LabelFn(c), sent))(q)
    {
      hide Block;
      AggregateAt(g, c, out, p, q);
      BlockByColumn(g.Keys, c, Adjacency(g), p, q);
    }
    SumEq(out.Keys, Row(Adjacency(out), p), RowSums(g.Keys, Labelled(LabelFn(c), sent)));
    SumByLabel(g.Keys, out.Keys, LabelFn(c), sent);
    MembersSend(g, c, p);
  }

  lemma DegreesByLabel(g: WGraph, c: map<Name, Name>, p: Name)
    requires g.Keys <= c.Keys
    ensures Sum(g.Keys, MemberDegree(g, c, p)) == RowSums(g.Keys, Labelled(LabelFn(c), DegreeFn(g)))(p)
  {
    hide Degree;
    SumEq(g.Keys, MemberDegree(g, c, p), Row(Labelled(LabelFn(c), DegreeFn(g)), p));
  }

  /** The total degree of the base graph stays valid at every level. */
  lemma AggregateTotalDegree(g: WGraph, c: map<Name, Name>, out: WGraph)
    requires IsAggregate(g, c, out)
    ensures TotalDegree(out) == TotalDegree(g)
  {
    hide IsAggregate;
    hide Degree;
    hide Labels;
    AggregateLabels(g, c, out);
    var byLabel := Labelled(LabelFn(c), DegreeFn(g));
    forall p | p in out.Keys ensures DegreeFn(out)(p) == RowSums(g.Keys, byLabel)(p) {
      AggregateDegree(g, c, out, p);
      DegreesByLabel(g, c, p);
    }
    SumEq(out.Keys, DegreeFn(out), RowSums(g.Keys, byLabel));
    SumByLabel(g.Keys, out.Keys, LabelFn(c), DegreeFn(g));
  }

  lemma BlockDegreeProduct(g: WGraph, c: map<Name, Name>, p: Name, q: Name)
    requires g.Keys <= c.Keys
    ensures Block(g.Keys, c, DegreeProduct(g), p, q)
         == Product(Sum(g.Keys, MemberDegree(g, c, p)), Sum(g.Keys, MemberDegree(g, c, q)))
  {
    hide Product;
    hide Degree;
    var block := Select(InBlock(c, p, q), DegreeProduct(g));
    forall a, b | a in g.Keys && b in g.Keys
      ensures block(a, b) == Product(MemberDegree(g, c, p)(a), MemberDegree(g, c, q)(b))
    {
      Distribute(Degree(g, a), 0.0, Degree(g, b));
      Distribute(Degree(g, b), 0.0, 0.0);
      Distribute(0.0, 0.0, Degree(g, b));
    }
    Sum2Product(g.Keys, g.Keys, MemberDegree(g, c, p), MemberDegree(g, c, q), block);
  }

  lemma AggregateDegreeProduct(g: WGraph, c: map<Name, Name>, out: WGraph, p: Name, q: Name)
    requires IsAggregate(g, c, out) && p in out && q in out
    ensures DegreeProduct(out)(p, q) == Block(g.Keys, c, DegreeProduct(g), p, q)
  {
    hide Product;
    hide IsAggregate;
    hide Degree;
    hide Block;
    AggregateLabels(g, c, out);
    AggregateDegree(g, c, out, p);
    AggregateDegree(g, c, out, q);
    BlockDegreeProduct(g, c, p, q);
  }

  // ---- what the levels of the clustering share

  /** Grouping the collapsed nodes scores the same as grouping the nodes below them. */
  lemma AggregateScore<C(!new)>(g: WGraph, c: map<Name, Name>, out: WGraph, d: map<Name, C>, m2: real)
    requires IsAggregate(g, c, out) && out.Keys <= d.Keys && m2 != 0.0
    ensures Score(out, d, m2) == Score(g, Compose(c, d), m2)
  {
    hide IsAggregate;
    hide Block;
    hide PairSum;
    hide DegreeProduct;
    AggregateLabels(g, c, out);
    forall p, q | p in out && q in out ensures Adjacency(out)(p, q) == Block(g.Keys, c, Adjacency(g), p, q) {
      AggregateAt(g, c, out, p, q);
    }
    forall p, q | p in out && q in out ensures DegreeProduct(out)(p, q) == Block(g.Keys, c, DegreeProduct(g), p, q) {
      AggregateDegreeProduct(g, c, out, p, q);
    }
    RegroupPairSum(g.Keys, out.Keys, c, d, Adjacency(g), Adjacency(out));
    RegroupPairSum(g.Keys, out.Keys, c, d, DegreeProduct(g), DegreeProduct(out));
  }

  /** Collapsing a collapsed graph is collapsing the base graph under the composed labels. */
  lemma AggregateCompose(g: WGraph, c: map<Name, Name>, level: WGraph, d: map<Name, Name>, out: WGraph)
    requires IsAggregate(g, c, level) && IsAggregate(level, d, out)
    ensures IsAggregate(g, Compose(c, d), out)
  {
    var cd := Compose(c, d);
    forall a | a in g ensures c[a] in d && a in cd { assert c[a] in Labels(g.Keys, c); }
    LabelsCompose(g.Keys, c, d);
    forall p, q | p in out && q in out
      ensures Adjacency(out)(p, q) == Block(g.Keys, cd, Adjacency(g), p, q)
    {
      Pushforward(g.Keys, level.Keys, c, Adjacency(g), Adjacency(level), InBlock(d, p, q), InBlock(cd, p, q));
    }
  }

  lemma LabelsCompose(v: set<Name>, c: map<Name, Name>, d: map<Name, Name>)
    requires v == c.Keys && Labels(v, c) == d.Keys
    ensures Labels(v, Compose(c, d)) == Labels(d.Keys, d)
  {
    forall l | l in Labels(d.Keys, d) ensures l in Labels(v, Compose(c, d)) {
      var p :| p in d && d[p] == l;
      var a :| a in v && c[a] == p;
      assert a in Compose(c, d) && Compose(c, d)[a] == l;
    }
  }

  ghost function Singletons(g: WGraph): map<Name, Name> {
    map a | a in g :: a
  }

  /** Every node alone is the graph itself. */
  lemma AggregateSingletons(g: WGraph)
    ensures IsAggregate(g, Singletons(g), g)
  {
    var id := Singletons(g);
    forall a | a in g ensures a in Labels(g.Keys, id) { assert id[a] == a; }
    forall p, q | p in g && q in g ensures Adjacency(g)(p, q) == Block(g.Keys, id, Adjacency(g), p, q) {
      var block := Select(InBlock(id, p, q), Adjacency(g));
      SumPoint(g.Keys, Row(block, p), q);
      forall a | a in g && a != p ensures RowSums(g.Keys, block)(a) == 0.0 { SumZero(g.Keys, Row(block, a)); }
      SumPoint(g.Keys, RowSums(g.Keys, block), p);
    }
  }
}
