/**
  The weighted graph of packages/curate/src/communities.ts: one row per node,
  symmetric, with self-loops holding the weight collapsed into a node. A node's
  degree is the sum of its row, the self-loop once more.
 */
module WeightedGraph {
  import opened Names
  import opened Sums


  type WGraph = map<Name, map<Name, real>>

  /** A symmetric function of two nodes, summed over pairs. */
  type Kernel = (Name, Name) -> real

  function Weight(g: WGraph, a: Name, b: Name): real {
    if a in g && b in g[a] then g[a][b] else 0.0
  }

  /** An entry has its mirror image, with the same non-negative weight. */
  ghost predicate Mirrored(g: WGraph, a: Name, b: Name)
    requires a in g && b in g[a]
  {
    b in g && a in g[b] && g[a][b] == g[b][a] && g[a][b] >= 0.0
  }

  /** What `linkGraph` builds and `aggregate` keeps. */
  ghost predicate WellFormed(g: WGraph) {
    forall a, b :: a in g && b in g[a] ==> Mirrored(g, a, b)
  }

  lemma WeightMirrored(g: WGraph, a: Name, b: Name)
    requires WellFormed(g)
    ensures Weight(g, a, b) == Weight(g, b, a) && Weight(g, a, b) >= 0.0
  {
    if a in g && b in g[a] {
      assert Mirrored(g, a, b);
    }
  }

  lemma RowKeys(g: WGraph, a: Name)
    requires WellFormed(g) && a in g
    ensures g[a].Keys <= g.Keys
  {
    forall b | b in g[a] ensures b in g { assert Mirrored(g, a, b); }
  }

  ghost predicate LoopFree(g: WGraph) {
    forall a :: a in g ==> a !in g[a]
  }

  /** Adjacency as modularity reads it: a self-loop counts twice. */
  ghost function Adjacency(g: WGraph): Kernel {
    (a, b) => if a == b then Weight(g, a, b) + Weight(g, a, b) else Weight(g, a, b)
  }

  ghost function Degree(g: WGraph, a: Name): real {
    Sum(g.Keys, Row(Adjacency(g), a))
  }

  ghost function DegreeFn(g: WGraph): Name -> real {
    a => Degree(g, a)
  }

  /** The sum of all degrees, twice the total edge weight. */
  ghost function TotalDegree(g: WGraph): real {
    Sum(g.Keys, DegreeFn(g))
  }

  lemma DegreeNonNegative(g: WGraph, a: Name)
    requires WellFormed(g)
    ensures Degree(g, a) >= 0.0
  {
    SumNonNegative(g.Keys, Row(Adjacency(g), a));
  }

  lemma TotalDegreeNonNegative(g: WGraph)
    requires WellFormed(g)
    ensures TotalDegree(g) >= 0.0
  {
    forall a | a in g ensures DegreeFn(g)(a) >= 0.0 { DegreeNonNegative(g, a); }
    SumNonNegative(g.Keys, DegreeFn(g));
  }

  ghost function WeightRow(g: WGraph, a: Name): Name -> real {
    b => Weight(g, a, b)
  }

  /** The row's own keys already hold everything the degree sums. */
  lemma DegreeFromRow(g: WGraph, a: Name)
    requires WellFormed(g) && a in g
    ensures Degree(g, a) == Sum(g[a].Keys, WeightRow(g, a)) + Weight(g, a, a)
  {
    var once := WeightRow(g, a);
    var loop := (b: Name) => if b == a then Weight(g, a, a) else 0.0;
    SumSupport(g[a].Keys, g.Keys, once);
    SumAdd(g.Keys, once, loop, Row(Adjacency(g), a));
    SumPoint(g.Keys, loop, a);
  }

  method DegreeOf(g: WGraph, node: Name) returns (sum: real)
    requires WellFormed(g)
    ensures sum == if node in g then Degree(g, node) else 0.0
  {
    if node !in g { return 0.0; }
    sum := 0.0;
    var left := g[node].Keys;
    while left != {}
      invariant left <= g[node].Keys
      invariant sum + Sum(left, WeightRow(g, node)) == Sum(g[node].Keys, WeightRow(g, node))
      decreases |left|
    {
      var b :| b in left;
      SumPick(left, WeightRow(g, node), b);
      sum := sum + g[node][b];
      left := left - {b};
    }
    DegreeFromRow(g, node);
    sum := sum + if node in g[node] then g[node][node] else 0.0;
  }

  method TotalDegreeOf(g: WGraph) returns (m2: real)
    requires WellFormed(g)
    ensures m2 == TotalDegree(g)
  {
    m2 := 0.0;
    var left := g.Keys;
    while left != {}
      invariant left <= g.Keys
      invariant m2 + Sum(left, DegreeFn(g)) == TotalDegree(g)
      decreases |left|
    {
      var a :| a in left;
      SumPick(left, DegreeFn(g), a);
      var k := DegreeOf(g, a);
      m2 := m2 + k;
      left := left - {a};
    }
  }
}
