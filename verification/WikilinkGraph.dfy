/** `linkGraph` of packages/curate/src/communities.ts. */
module WikilinkGraph {
  // The wikilink graph with the notes that link everything held out. One link is
  // one edge, however many times and in whichever direction it was written.

  import opened Names
  import opened Sums
  import opened WeightedGraph

  type AdjacencyLists = map<Name, seq<Name>>

  datatype Link = Link(from: Name, to: Name)

  function ListOf(adjacency: AdjacencyLists, a: Name): seq<Name> {
    if a in adjacency then adjacency[a] else []
  }

  /** How often the edge puts `b` in the list of `a`: once for each end that is `a` with `b` at the other, never if an end is no note. */
  function Entries(nodes: set<Name>, e: Link, a: Name, b: Name): nat {
    if e.from in nodes && e.to in nodes
    then (if e.from == a && e.to == b then 1 else 0) + (if e.to == a && e.from == b then 1 else 0)
    else 0
  }

  function AllEntries(nodes: set<Name>, edges: seq<Link>, a: Name, b: Name): nat {
    if |edges| == 0 then 0 else AllEntries(nodes, edges[..|edges| - 1], a, b) + Entries(nodes, edges[|edges| - 1], a, b)
  }

  lemma EntriesMore(nodes: set<Name>, edges: seq<Link>, e: Link, a: Name, b: Name)
    ensures AllEntries(nodes, edges + [e], a, b) == AllEntries(nodes, edges, a, b) + Entries(nodes, e, a, b)
  {
    assert (edges + [e])[..|edges|] == edges;
  }

  /** Two notes are in each other's lists equally often. */
  lemma {:induction false} EntriesBothWays(nodes: set<Name>, edges: seq<Link>, a: Name, b: Name)
    ensures AllEntries(nodes, edges, a, b) == AllEntries(nodes, edges, b, a)
  {
    if |edges| > 0 { EntriesBothWays(nodes, edges[..|edges| - 1], a, b); }
  }

  ghost function Times(adjacency: AdjacencyLists, a: Name, b: Name): nat {
    multiset(ListOf(adjacency, a))[b]
  }

  /** Lists `b` under `a`. */
  method Add(adjacency: AdjacencyLists, a: Name, b: Name) returns (after: AdjacencyLists)
    ensures forall x, y :: Times(after, x, y) == Times(adjacency, x, y) + (if x == a && y == b then 1 else 0)
  {
    after := adjacency[a := ListOf(adjacency, a) + [b]];
  }

  /**
    `buildAdjacency` of packages/retrieval/src/graphrank.ts: undirected lists,
    one entry at each end per edge, edges to missing notes skipped.
   */
  method BuildAdjacency(nodes: set<Name>, edges: seq<Link>) returns (adjacency: AdjacencyLists)
    ensures forall a, b :: Times(adjacency, a, b) == AllEntries(nodes, edges, a, b)
  {
    hide Times, AllEntries;
    adjacency := map[];
    NoEntries(nodes);
    for i := 0 to |edges|
      invariant forall a, b :: Times(adjacency, a, b) == AllEntries(nodes, edges[..i], a, b)
    {
      var e := edges[i];
      assert edges[..i + 1] == edges[..i] + [e];
      forall a, b ensures AllEntries(nodes, edges[..i + 1], a, b) == AllEntries(nodes, edges[..i], a, b) + Entries(nodes, e, a, b) {
        EntriesMore(nodes, edges[..i], e, a, b);
      }
      if e.from in nodes && e.to in nodes {
        adjacency := Add(adjacency, e.from, e.to);
        adjacency := Add(adjacency, e.to, e.from);
      }
    }
    assert edges[..|edges|] == edges;
  }

  lemma NoEntries(nodes: set<Name>)
    ensures forall a, b :: Times(map[], a, b) == 0
    ensures forall edges: seq<Link>, a, b :: AllEntries(nodes, edges[..0], a, b) == 0
  {}

  /** `a` links `b`, or is linked by it. */
  predicate Joined(adjacency: AdjacencyLists, a: Name, b: Name) {
    (a in adjacency && b in adjacency[a]) || (b in adjacency && a in adjacency[b])
  }

  /** `g` has weight one on exactly the pairs in `links`. */
  ghost predicate Carries(g: WGraph, kept: set<Name>, links: set<(Name, Name)>) {
    && g.Keys == kept
    && (forall a, b :: a in g ==> (b in g[a] <==> (a, b) in links))
    && (forall a, b :: a in g && b in g[a] ==> g[a][b] == 1.0)
  }

  /** Links found in the rows of `done`, and in the first `i` entries of row `from`. */
  ghost predicate Found(adjacency: AdjacencyLists, done: set<Name>, from: Name, i: nat, a: Name, b: Name) {
    || (a in done && a in adjacency && b in adjacency[a])
    || (b in done && b in adjacency && a in adjacency[b])
    || (a == from && from in adjacency && i <= |adjacency[from]| && b in adjacency[from][..i])
    || (b == from && from in adjacency && i <= |adjacency[from]| && a in adjacency[from][..i])
  }

  ghost predicate Collected(adjacency: AdjacencyLists, kept: set<Name>, done: set<Name>, from: Name, i: nat, links: set<(Name, Name)>) {
    forall a, b :: (a, b) in links <==> a in kept && b in kept && a != b && Found(adjacency, done, from, i, a, b)
  }

  method AddLink(g: WGraph, from: Name, to: Name, ghost kept: set<Name>, ghost links: set<(Name, Name)>) returns (after: WGraph)
    requires Carries(g, kept, links) && from in g && to in g && from != to
    ensures Carries(after, kept, links + {(from, to), (to, from)})
  {
    after := g[from := g[from][to := 1.0]];
    after := after[to := after[to][from := 1.0]];
  }

  lemma CollectOne(adjacency: AdjacencyLists, kept: set<Name>, done: set<Name>, from: Name, i: nat, links: set<(Name, Name)>, after: set<(Name, Name)>)
    requires from in adjacency && i < |adjacency[from]| && from in kept
    requires Collected(adjacency, kept, done, from, i, links)
    requires var to := adjacency[from][i];
      after == if to == from || to !in kept then links else links + {(from, to), (to, from)}
    ensures Collected(adjacency, kept, done, from, i + 1, after)
  {
    var to := adjacency[from][i];
    assert adjacency[from][..i + 1] == adjacency[from][..i] + [to];
  }

  /** Adds the links of one row. */
  method AddLinks(adjacency: AdjacencyLists, g: WGraph, from: Name, ghost kept: set<Name>, ghost done: set<Name>, ghost links: set<(Name, Name)>)
    returns (after: WGraph, ghost more: set<(Name, Name)>)
    requires from in adjacency && from in kept && Carries(g, kept, links) && g.Keys == kept
    requires Collected(adjacency, kept, done, from, 0, links)
    ensures Carries(after, kept, more) && after.Keys == kept
    ensures Collected(adjacency, kept, done, from, |adjacency[from]|, more)
  {
    var tos := adjacency[from];
    after, more := g, links;
    for i := 0 to |tos|
      invariant Carries(after, kept, more) && after.Keys == kept
      invariant Collected(adjacency, kept, done, from, i, more)
    {
      hide Collected;
      var to := tos[i];
      if to == from || to !in after {
        CollectOne(adjacency, kept, done, from, i, more, more);
      } else {
        CollectOne(adjacency, kept, done, from, i, more, more + {(from, to), (to, from)});
        after := AddLink(after, from, to, kept, more);
        more := more + {(from, to), (to, from)};
      }
    }
  }

  lemma NextRow(adjacency: AdjacencyLists, kept: set<Name>, done: set<Name>, from: Name, i: nat, links: set<(Name, Name)>)
    requires from in adjacency
    requires from !in kept || i == |adjacency[from]|
    requires Collected(adjacency, kept, done, from, i, links)
    ensures Collected(adjacency, kept, done + {from}, from, 0, links)
  {
    if from in kept { assert adjacency[from][..i] == adjacency[from]; }
  }

  lemma AnyRow(adjacency: AdjacencyLists, kept: set<Name>, done: set<Name>, from: Name, next: Name, links: set<(Name, Name)>)
    requires Collected(adjacency, kept, done, from, 0, links)
    ensures Collected(adjacency, kept, done, next, 0, links)
  {}

  /** The graph has exactly the links between kept notes, each once, both ways, with weight one. */
  ghost predicate IsLinkGraph(adjacency: AdjacencyLists, kept: set<Name>, g: WGraph) {
    && g.Keys == kept
    && (forall a, b :: a in g ==> (b in g[a] <==> b in kept && a != b && Joined(adjacency, a, b)))
    && (forall a, b :: a in g && b in g[a] ==> g[a][b] == 1.0)
  }

  lemma AllCollected(adjacency: AdjacencyLists, kept: set<Name>, from: Name, g: WGraph, links: set<(Name, Name)>)
    requires Carries(g, kept, links) && Collected(adjacency, kept, adjacency.Keys, from, 0, links)
    ensures IsLinkGraph(adjacency, kept, g) && WellFormed(g) && LoopFree(g)
  {
    forall a, b | a in g && b in g[a] ensures Mirrored(g, a, b) {
      assert (a, b) in links && (b, a) in links;
    }
    forall a, b | a in g ensures b in g[a] <==> b in kept && a != b && Joined(adjacency, a, b) {
      assert Found(adjacency, adjacency.Keys, from, 0, a, b) <==> Joined(adjacency, a, b);
    }
  }

  method LinkGraph(adjacency: AdjacencyLists, kept: set<Name>) returns (g: WGraph)
    ensures IsLinkGraph(adjacency, kept, g) && WellFormed(g) && LoopFree(g)
  {
    ghost var any: Name := *;
    g := map n | n in kept :: map[];
    ghost var links: set<(Name, Name)> := {};
    var left := adjacency.Keys;
    while left != {}
      invariant left <= adjacency.Keys
      invariant Carries(g, kept, links) && g.Keys == kept
      invariant Collected(adjacency, kept, adjacency.Keys - left, any, 0, links)
      decreases |left|
    {
      var from :| from in left;
      ghost var done := adjacency.Keys - left;
      AnyRow(adjacency, kept, done, any, from, links);
      left := left - {from};
      ghost var i := 0;
      if from in g {
        i := |adjacency[from]|;
        g, links := AddLinks(adjacency, g, from, kept, done, links);
      }
      NextRow(adjacency, kept, done, from, i, links);
      AnyRow(adjacency, kept, done + {from}, from, any, links);
      assert adjacency.Keys - left == done + {from};
    }
    assert adjacency.Keys - left == adjacency.Keys;
    AllCollected(adjacency, kept, any, g, links);
  }

  /** The ordered pairs of linked nodes. */
  ghost function LinkedPairs(g: WGraph): set<(Name, Name)> {
    set a, b | a in g.Keys && b in g.Keys && b in g[a] :: (a, b)
  }

  lemma PairWeight(adjacency: AdjacencyLists, kept: set<Name>, g: WGraph, a: Name, b: Name)
    requires IsLinkGraph(adjacency, kept, g) && a in g && b in g
    ensures Adjacency(g)(a, b) == if (a, b) in LinkedPairs(g) then 1.0 else 0.0
  {}

  lemma TotalDegreeIsPairSum(g: WGraph)
    ensures TotalDegree(g) == Sum(Cross(g.Keys, g.Keys), OnPairs(Adjacency(g)))
  {
    SumEq(g.Keys, DegreeFn(g), RowSums(g.Keys, Adjacency(g)));
    SumCross(g.Keys, g.Keys, Adjacency(g));
  }

  /** The total degree counts every link from both ends. */
  lemma TotalDegreeCountsLinks(adjacency: AdjacencyLists, kept: set<Name>, g: WGraph)
    requires IsLinkGraph(adjacency, kept, g)
    ensures TotalDegree(g) == |LinkedPairs(g)| as real
  {
    hide TotalDegree;
    hide IsLinkGraph;
    hide Adjacency;
    var pairs, weights := Cross(g.Keys, g.Keys), OnPairs(Adjacency(g));
    TotalDegreeIsPairSum(g);
    forall ab | ab in pairs ensures weights(ab) == if ab in LinkedPairs(g) then 1.0 else 0.0 {
      PairWeight(adjacency, kept, g, ab.0, ab.1);
      assert ab == (ab.0, ab.1);
    }
    assert LinkedPairs(g) <= pairs;
    SumSupport(LinkedPairs(g), pairs, weights);
    SumOnes(LinkedPairs(g), weights);
  }
}
