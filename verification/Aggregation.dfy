/**
  `aggregate` of packages/curate/src/communities.ts: collapses each community
  into one node, internal weight becoming a self-loop. The rows are accumulated
  entry by entry, each internal edge in two halves; the result is the aggregate
  `Regrouping` speaks of, and again a well-formed graph.
 */
module Aggregation {
  import opened Names
  import opened Sums
  import opened WeightedGraph
  import opened Modularity
  import opened Regrouping

  /** Every internal edge is seen from both ends; a self-loop holds it once. */
  function Entry(g: WGraph, a: Name, b: Name, inside: bool): real {
    if inside && a != b then Weight(g, a, b) / 2.0 else Weight(g, a, b)
  }

  /** What one entry of the base graph adds to row `p`, column `q`. */
  ghost function Share(g: WGraph, c: map<Name, Name>, p: Name, q: Name): Kernel {
    (a, b) =>
      if a in c && b in c && c[a] == p && c[b] == q
      then Entry(g, a, b, p == q)
      else 0.0
  }

  /** `a` has a neighbour in `seen`, and the two are labelled `p` and `q`. */
  ghost predicate LinkedFrom(c: map<Name, Name>, a: Name, seen: set<Name>, p: Name, q: Name) {
    a in c && c[a] == p && exists b :: b in seen && b in c && c[b] == q
  }

  /** Some entry of the rows in `done` joins `p` to `q`. */
  ghost predicate Linked(g: WGraph, c: map<Name, Name>, done: set<Name>, p: Name, q: Name) {
    exists a :: a in done && a in g && LinkedFrom(c, a, g[a].Keys, p, q)
  }

  /** The collapsed graph after the rows in `done`. */
  ghost predicate Accumulated(g: WGraph, c: map<Name, Name>, done: set<Name>, out: WGraph) {
    && out.Keys == c.Values
    && (forall p, q :: Weight(out, p, q) == Sum2(done, g.Keys, Share(g, c, p, q)))
    && (forall p, q :: p in out ==> (q in out[p] <==> Linked(g, c, done, p, q)))
  }

  /** The collapsed graph in the middle of row `a`, after the neighbours in `seen`. */
  ghost predicate InRow(g: WGraph, c: map<Name, Name>, a: Name, seen: set<Name>, before: WGraph, out: WGraph) {
    && out.Keys == before.Keys
    && (forall p, q :: Weight(out, p, q) == Weight(before, p, q) + Sum(seen, Row(Share(g, c, p, q), a)))
    && (forall p, q :: p in before ==> (q in out[p] <==> q in before[p] || LinkedFrom(c, a, seen, p, q)))
  }

  lemma RowStart(g: WGraph, c: map<Name, Name>, a: Name, before: WGraph)
    ensures InRow(g, c, a, {}, before, before)
  {}

  lemma EntryWeight(g: WGraph, c: map<Name, Name>, a: Name, b: Name, seen: set<Name>, p: Name, q: Name)
    requires b !in seen
    ensures Sum(seen + {b}, Row(Share(g, c, p, q), a)) == Share(g, c, p, q)(a, b) + Sum(seen, Row(Share(g, c, p, q), a))
  {
    SumPick(seen + {b}, Row(Share(g, c, p, q), a), b);
    assert seen + {b} - {b} == seen;
  }

  lemma PointUpdate(out: WGraph, x: Name, y: Name, add: real, after: WGraph, p: Name, q: Name)
    requires x in out && after == out[x := out[x][y := Weight(out, x, y) + add]]
    ensures Weight(after, p, q) == Weight(out, p, q) + if p == x && q == y then add else 0.0
    ensures p in out ==> (q in after[p] <==> q in out[p] || (p == x && q == y))
  {}

  lemma EntryAdded(g: WGraph, c: map<Name, Name>, a: Name, b: Name, out: WGraph, seen: set<Name>, before: WGraph, after: WGraph)
    requires a in c && b in c && c[a] in out && b !in seen
    requires InRow(g, c, a, seen, before, out)
    requires after == out[c[a] := out[c[a]][c[b] := Weight(out, c[a], c[b]) + Entry(g, a, b, c[a] == c[b])]]
    ensures InRow(g, c, a, seen + {b}, before, after)
  {
    hide Entry;
    hide Weight;
    var add := Entry(g, a, b, c[a] == c[b]);
    forall p, q
      ensures Weight(after, p, q) == Weight(before, p, q) + Sum(seen + {b}, Row(Share(g, c, p, q), a))
    {
      EntryWeight(g, c, a, b, seen, p, q);
      PointUpdate(out, c[a], c[b], add, after, p, q);
    }
    forall p, q | p in before
      ensures q in after[p] <==> q in before[p] || LinkedFrom(c, a, seen + {b}, p, q)
    {
      PointUpdate(out, c[a], c[b], add, after, p, q);
      LinkedOneMore(c, a, b, seen, p, q);
    }
  }

  lemma LinkedOneMore(c: map<Name, Name>, a: Name, b: Name, seen: set<Name>, p: Name, q: Name)
    requires a in c && b in c
    ensures LinkedFrom(c, a, seen + {b}, p, q) <==> LinkedFrom(c, a, seen, p, q) || (p == c[a] && q == c[b])
  {
    assert b in seen + {b};
  }

  lemma RowDone(g: WGraph, c: map<Name, Name>, a: Name, done: set<Name>, before: WGraph, out: WGraph)
    requires WellFormed(g) && a in g && a !in done
    requires Accumulated(g, c, done, before) && InRow(g, c, a, g[a].Keys, before, out)
    ensures Accumulated(g, c, done + {a}, out)
  {
    forall p, q ensures Weight(out, p, q) == Sum2(done + {a}, g.Keys, Share(g, c, p, q)) {
      RowDoneWeight(g, c, a, done, p, q);
    }
    hide Weight;
    forall p, q | p in out ensures q in out[p] <==> Linked(g, c, done + {a}, p, q) {
      hide LinkedFrom;
      assert q in out[p] <==> Linked(g, c, done, p, q) || LinkedFrom(c, a, g[a].Keys, p, q);
      assert a in done + {a};
    }
  }

  lemma RowDoneWeight(g: WGraph, c: map<Name, Name>, a: Name, done: set<Name>, p: Name, q: Name)
    requires WellFormed(g) && a in g && a !in done
    ensures Sum2(done + {a}, g.Keys, Share(g, c, p, q))
         == Sum2(done, g.Keys, Share(g, c, p, q)) + Sum(g[a].Keys, Row(Share(g, c, p, q), a))
  {
    RowKeys(g, a);
    hide WellFormed;
    SumPick(done + {a}, RowSums(g.Keys, Share(g, c, p, q)), a);
    assert done + {a} - {a} == done;
    SumSupport(g[a].Keys, g.Keys, Row(Share(g, c, p, q), a));
  }

  /** Adds one entry to the row of its community. */
  method AddEntry(g: WGraph, c: map<Name, Name>, a: Name, b: Name, out: WGraph, ghost seen: set<Name>, ghost before: WGraph)
    returns (after: WGraph)
    requires a in c && b in c && c[a] in out && b !in seen
    requires out.Keys == before.Keys && InRow(g, c, a, seen, before, out)
    ensures after.Keys == before.Keys && InRow(g, c, a, seen + {b}, before, after)
  {
    hide InRow;
    hide Entry;
    hide Weight;
    var ca, cb := c[a], c[b];
    after := out[ca := out[ca][cb := Weight(out, ca, cb) + Entry(g, a, b, ca == cb)]];
    EntryAdded(g, c, a, b, out, seen, before, after);
  }

  /** Adds every entry of one row to the collapsed graph. */
  method AddRow(g: WGraph, c: map<Name, Name>, a: Name, before: WGraph) returns (out: WGraph)
    requires WellFormed(g) && g.Keys <= c.Keys && a in g && c[a] in before
    ensures InRow(g, c, a, g[a].Keys, before, out)
  {
    RowKeys(g, a);
    hide WellFormed;
    hide InRow;
    hide Weight;
    hide Entry;
    hide Walked;
    var row := g[a].Keys;
    out := before;
    var left := row;
    RowStart(g, c, a, before);
    WalkStart(row);
    while left != {}
      invariant left <= row
      invariant out.Keys == before.Keys && InRow(g, c, a, Walked(row, left), before, out)
      decreases |left|
    {
      var b :| b in left;
      WalkOne(row, left, b);
      out := AddEntry(g, c, a, b, out, Walked(row, left), before);
      left := left - {b};
    }
    WalkEnd(row);
  }

  lemma NothingAccumulated(g: WGraph, c: map<Name, Name>, out: WGraph)
    requires out.Keys == c.Values && forall l :: l in out ==> out[l] == map[]
    ensures Accumulated(g, c, {}, out)
  {}

  method EmptyRows(labels: set<Name>) returns (out: WGraph)
    ensures out.Keys == labels && forall l :: l in out ==> out[l] == map[]
  {
    out := map l | l in labels :: map[];
  }

  method Aggregate(g: WGraph, community: map<Name, Name>) returns (out: WGraph)
    requires WellFormed(g) && community.Keys == g.Keys
    ensures WellFormed(out) && IsAggregate(g, community, out)
  {
    out := EmptyRows(community.Values);
    NothingAccumulated(g, community, out);
    hide WellFormed;
    hide Accumulated;
    hide InRow;
    hide Walked;
    var left := g.Keys;
    WalkStart(g.Keys);
    while left != {}
      invariant left <= g.Keys
      invariant out.Keys == community.Values && Accumulated(g, community, Walked(g.Keys, left), out)
      decreases |left|
    {
      var a :| a in left;
      WalkOne(g.Keys, left, a);
      ghost var before := out;
      assert community[a] in community.Values;
      out := AddRow(g, community, a, out);
      RowDone(g, community, a, Walked(g.Keys, left), before, out);
      left := left - {a};
      AccumulatedKeys(g, community, Walked(g.Keys, left), out);
    }
    WalkEnd(g.Keys);
    AggregateDone(g, community, out);
  }

  lemma AccumulatedKeys(g: WGraph, c: map<Name, Name>, done: set<Name>, out: WGraph)
    requires Accumulated(g, c, done, out)
    ensures out.Keys == c.Values
  {}

  // ---- the finished graph

  lemma ShareMirrored(g: WGraph, c: map<Name, Name>, p: Name, q: Name, a: Name, b: Name)
    requires WellFormed(g)
    ensures Share(g, c, p, q)(a, b) == Share(g, c, q, p)(b, a) && Share(g, c, p, q)(a, b) >= 0.0
  {
    WeightMirrored(g, a, b);
  }

  lemma AggregateSymmetric(g: WGraph, c: map<Name, Name>, p: Name, q: Name)
    requires WellFormed(g)
    ensures Sum2(g.Keys, g.Keys, Share(g, c, p, q)) == Sum2(g.Keys, g.Keys, Share(g, c, q, p))
  {
    hide Share;
    hide WellFormed;
    var share := Share(g, c, p, q);
    Sum2Swap(g.Keys, g.Keys, share);
    forall a, b | a in g.Keys && b in g.Keys ensures Flip(share)(a, b) == Share(g, c, q, p)(a, b) {
      ShareMirrored(g, c, q, p, a, b);
    }
    Sum2Eq(g.Keys, g.Keys, Flip(share), Share(g, c, q, p));
  }

  lemma AggregateNonNegative(g: WGraph, c: map<Name, Name>, p: Name, q: Name)
    requires WellFormed(g)
    ensures Sum2(g.Keys, g.Keys, Share(g, c, p, q)) >= 0.0
  {
    hide Share;
    hide WellFormed;
    var share := Share(g, c, p, q);
    var nothing := (a: Name, b: Name) => 0.0;
    forall a, b | a in g.Keys && b in g.Keys ensures nothing(a, b) <= share(a, b) {
      ShareMirrored(g, c, p, q, a, b);
    }
    Sum2Zero(g.Keys, g.Keys, nothing);
    Sum2Le(g.Keys, g.Keys, nothing, share);
  }

  lemma AggregateWeights(g: WGraph, c: map<Name, Name>, out: WGraph, p: Name, q: Name)
    requires WellFormed(g) && Accumulated(g, c, g.Keys, out)
    ensures Weight(out, p, q) == Weight(out, q, p) && Weight(out, p, q) >= 0.0
  {
    AggregateSymmetric(g, c, p, q);
    AggregateNonNegative(g, c, p, q);
  }

  lemma LinkedSymmetric(g: WGraph, c: map<Name, Name>, p: Name, q: Name)
    requires WellFormed(g) && g.Keys <= c.Keys && Linked(g, c, g.Keys, p, q)
    ensures Linked(g, c, g.Keys, q, p) && q in c.Values
  {
    var a :| a in g && LinkedFrom(c, a, g[a].Keys, p, q);
    var b :| b in g[a].Keys && b in c && c[b] == q;
    assert LinkedFrom(c, b, g[b].Keys, q, p);
  }

  lemma AggregateWellFormed(g: WGraph, c: map<Name, Name>, out: WGraph)
    requires WellFormed(g) && g.Keys <= c.Keys && Accumulated(g, c, g.Keys, out)
    ensures WellFormed(out)
  {
    forall p, q | p in out && q in out[p]
      ensures Mirrored(out, p, q)
    {
      hide Linked;
      hide Share;
      hide WellFormed;
      AggregateWeights(g, c, out, p, q);
      LinkedSymmetric(g, c, p, q);
    }
  }

  /** Two halves make up an internal entry; any other entry is whole. */
  lemma ShareOfBlock(g: WGraph, c: map<Name, Name>, p: Name, q: Name, a: Name, b: Name)
    ensures Select(InBlock(c, p, q), Adjacency(g))(a, b)
         == if p == q then Share(g, c, p, q)(a, b) + Share(g, c, p, q)(a, b) else Share(g, c, p, q)(a, b)
  {}

  lemma AggregateBlock(g: WGraph, c: map<Name, Name>, out: WGraph, p: Name, q: Name)
    requires Weight(out, p, q) == Sum2(g.Keys, g.Keys, Share(g, c, p, q))
    ensures Adjacency(out)(p, q) == Block(g.Keys, c, Adjacency(g), p, q)
  {
    hide Share;
    hide Select;
    hide Weight;
    var block := Select(InBlock(c, p, q), Adjacency(g));
    var share := Share(g, c, p, q);
    forall a, b | a in g.Keys && b in g.Keys
      ensures block(a, b) == if p == q then share(a, b) + share(a, b) else share(a, b)
    {
      ShareOfBlock(g, c, p, q, a, b);
    }
    if p == q {
      Sum2Add(g.Keys, g.Keys, share, share, block);
    } else {
      Sum2Eq(g.Keys, g.Keys, share, block);
    }
  }

  lemma AggregateDone(g: WGraph, c: map<Name, Name>, out: WGraph)
    requires WellFormed(g) && g.Keys == c.Keys && Accumulated(g, c, g.Keys, out)
    ensures WellFormed(out) && IsAggregate(g, c, out)
  {
    AggregateWellFormed(g, c, out);
    forall p, q | p in out && q in out ensures Adjacency(out)(p, q) == Block(g.Keys, c, Adjacency(g), p, q) {
      AggregateBlock(g, c, out, p, q);
    }
    ValuesAreLabels(g.Keys, c);
  }

  lemma ValuesAreLabels(v: set<Name>, c: map<Name, Name>)
    requires v == c.Keys
    ensures c.Values == Labels(v, c)
  {}
}
