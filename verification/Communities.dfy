/** `communities` of packages/curate/src/communities.ts. */
module Communities {
  // From the link graph to the report: cluster, cut every community into its
  // connected pieces, number the pieces, and count what the report counts.

  import opened Names
  import opened Sums
  import opened WeightedGraph
  import opened WikilinkGraph
  import opened Modularity
  import opened Quality
  import opened Regrouping
  import opened Splitting
  import opened Moving
  import opened Clustering

  // ---- grouping the nodes by label

  /** `groups` lists, for each label, the nodes of `done` that carry it, each once. */
  ghost predicate Grouped(mapping: map<Name, Name>, done: set<Name>, groups: map<Name, seq<Name>>) {
    && (forall l :: l in groups <==> exists n :: n in done && n in mapping && mapping[n] == l)
    && (forall l, n :: l in groups ==> (n in groups[l] <==> n in done && n in mapping && mapping[n] == l))
  }

  lemma GroupOne(mapping: map<Name, Name>, done: set<Name>, groups: map<Name, seq<Name>>, n: Name, after: map<Name, seq<Name>>)
    requires Grouped(mapping, done, groups) && n in mapping && n !in done
    requires after == groups[mapping[n] := (if mapping[n] in groups then groups[mapping[n]] else []) + [n]]
    ensures Grouped(mapping, done + {n}, after)
  {
    forall l ensures l in after <==> exists x :: x in done + {n} && x in mapping && mapping[x] == l {
      if l == mapping[n] {
        assert n in done + {n};
      } else if l in after {
        var x :| x in done && x in mapping && mapping[x] == l;
        assert x in done + {n};
      }
    }
  }

  method Group(mapping: map<Name, Name>) returns (groups: map<Name, seq<Name>>)
    ensures Grouped(mapping, mapping.Keys, groups)
  {
    groups := map[];
    var left := mapping.Keys;
    WalkStart(mapping.Keys);
    while left != {}
      invariant left <= mapping.Keys
      invariant Grouped(mapping, Walked(mapping.Keys, left), groups)
      decreases |left|
    {
      hide Grouped;
      hide Walked;
      var n :| n in left;
      WalkOne(mapping.Keys, left, n);
      ghost var before := groups;
      var l := mapping[n];
      groups := groups[l := (if l in groups then groups[l] else []) + [n]];
      GroupOne(mapping, Walked(mapping.Keys, left), before, n, groups);
      left := left - {n};
    }
    WalkEnd(mapping.Keys);
  }

  // ---- cutting every group into pieces

  ghost function Members(mapping: map<Name, Name>, l: Name): set<Name> {
    set n | n in mapping && mapping[n] == l
  }

  /** `part` is a connected piece of one community, with no edge to the rest of that community. */
  ghost predicate PieceOf(g: WGraph, mapping: map<Name, Name>, l: Name, part: seq<Name>) {
    Elements(part) <= Members(mapping, l) && Piece(g, Members(mapping, l), part)
  }

  ghost predicate SomePiece(g: WGraph, mapping: map<Name, Name>, part: seq<Name>) {
    exists l :: l in mapping.Values && PieceOf(g, mapping, l, part)
  }

  ghost function Within(mapping: map<Name, Name>, labels: set<Name>): set<Name> {
    set n | n in mapping && mapping[n] in labels
  }

  /** `parts` cuts the communities labelled in `labels` into pieces. */
  ghost predicate CutUp(g: WGraph, mapping: map<Name, Name>, labels: set<Name>, parts: seq<seq<Name>>) {
    && Apart(parts)
    && Covers(parts, Within(mapping, labels))
    && forall i :: 0 <= i < |parts| ==> SomePiece(g, mapping, parts[i])
  }

  lemma CutNone(g: WGraph, mapping: map<Name, Name>)
    ensures CutUp(g, mapping, {}, [])
  {}

  lemma CutOne(g: WGraph, mapping: map<Name, Name>, labels: set<Name>, parts: seq<seq<Name>>, l: Name, pieces: seq<seq<Name>>)
    requires CutUp(g, mapping, labels, parts) && l !in labels && l in mapping.Values
    requires IsSplit(g, Members(mapping, l), pieces)
    ensures CutUp(g, mapping, labels + {l}, parts + pieces)
  {
    CutOnePieces(g, mapping, l, pieces);
    assert Within(mapping, labels + {l}) == Within(mapping, labels) + Members(mapping, l);
    CoversConcat(parts, Within(mapping, labels), pieces, Members(mapping, l));
  }

  lemma CutOnePieces(g: WGraph, mapping: map<Name, Name>, l: Name, pieces: seq<seq<Name>>)
    requires l in mapping.Values && IsSplit(g, Members(mapping, l), pieces)
    ensures forall i :: 0 <= i < |pieces| ==> SomePiece(g, mapping, pieces[i])
  {
    forall i | 0 <= i < |pieces| ensures SomePiece(g, mapping, pieces[i]) {
      hide Piece;
      forall x | x in pieces[i] ensures x in Members(mapping, l) { assert Listed(pieces, x); }
      assert PieceOf(g, mapping, l, pieces[i]);
    }
  }

  /** Cuts every community into its connected pieces. */
  method SplitAll(g: WGraph, mapping: map<Name, Name>) returns (parts: seq<seq<Name>>)
    requires WellFormed(g) && mapping.Keys == g.Keys
    ensures CutUp(g, mapping, mapping.Values, parts)
  {
    hide *;
    var groups := Group(mapping);
    GroupFacts(g, mapping, groups);
    parts := [];
    var left := groups.Keys;
    WalkStart(groups.Keys);
    CutNone(g, mapping);
    while left != {}
      invariant left <= groups.Keys
      invariant CutUp(g, mapping, Walked(groups.Keys, left), parts)
      decreases |left|
    {
      var l :| l in left;
      WalkOne(groups.Keys, left, l);
      var pieces := SplitDisconnected(g, groups[l]);
      CutOne(g, mapping, Walked(groups.Keys, left), parts, l, pieces);
      parts := parts + pieces;
      left := left - {l};
    }
    WalkEnd(groups.Keys);
  }

  lemma GroupFacts(g: WGraph, mapping: map<Name, Name>, groups: map<Name, seq<Name>>)
    requires mapping.Keys == g.Keys && Grouped(mapping, mapping.Keys, groups)
    ensures groups.Keys == mapping.Values
    ensures forall l :: l in groups ==> Elements(groups[l]) == Members(mapping, l) && Elements(groups[l]) <= g.Keys
  {}

  // ---- numbering the pieces

  ghost predicate Numbered(parts: seq<seq<Name>>, i: nat, membership: map<Name, int>) {
    && i <= |parts|
    && (forall n :: n in membership <==> Listed(parts[..i], n))
    && (forall n :: n in membership ==> 0 <= membership[n] < i && n in parts[membership[n]])
  }

  /** The number of the piece each node is in. */
  method Number(parts: seq<seq<Name>>) returns (membership: map<Name, int>)
    requires Apart(parts)
    ensures Numbered(parts, |parts|, membership)
  {
    membership := map[];
    for i := 0 to |parts|
      invariant Numbered(parts, i, membership)
    {
      hide Numbered;
      var here := map n | n in parts[i] :: i;
      NumberOne(parts, i, membership, here);
      membership := membership + here;
    }
  }

  lemma NumberOne(parts: seq<seq<Name>>, i: nat, membership: map<Name, int>, here: map<Name, int>)
    requires i < |parts| && Numbered(parts, i, membership)
    requires here == map n | n in parts[i] :: i
    ensures Numbered(parts, i + 1, membership + here)
  {
    assert parts[..i + 1] == parts[..i] + [parts[i]];
    forall n ensures n in membership + here <==> Listed(parts[..i + 1], n) {
      ListedConcat(parts[..i], [parts[i]], n);
      CoversOne(parts[i]);
      assert Listed([parts[i]], n) <==> n in Elements(parts[i]);
    }
  }

  /** Everything the report's numbers rest on. */
  ghost predicate Cut(g: WGraph, mapping: map<Name, Name>, parts: seq<seq<Name>>, membership: map<Name, int>) {
    && mapping.Keys == g.Keys
    && CutUp(g, mapping, mapping.Values, parts)
    && Numbered(parts, |parts|, membership)
  }

  lemma CutKeys(g: WGraph, mapping: map<Name, Name>, parts: seq<seq<Name>>, membership: map<Name, int>)
    requires Cut(g, mapping, parts, membership)
    ensures membership.Keys == g.Keys
  {
    hide SomePiece;
    hide Apart;
    hide Listed;
    assert parts[..|parts|] == parts;
    forall n ensures n in membership <==> n in g {
      WithinAll(mapping, n);
    }
  }

  lemma WithinAll(mapping: map<Name, Name>, n: Name)
    ensures n in Within(mapping, mapping.Values) <==> n in mapping
  {
    assert n in mapping ==> mapping[n] in mapping.Values;
  }

  /** A node's piece is a piece of the node's own community. */
  lemma PieceAround(g: WGraph, mapping: map<Name, Name>, parts: seq<seq<Name>>, membership: map<Name, int>, a: Name)
    requires Cut(g, mapping, parts, membership) && a in g
    ensures a in membership && 0 <= membership[a] < |parts| && a in Elements(parts[membership[a]])
    ensures PieceOf(g, mapping, mapping[a], parts[membership[a]])
  {
    hide Cut;
    hide Piece;
    CutAt(g, mapping, parts, membership, a);
    var l :| l in mapping.Values && PieceOf(g, mapping, l, parts[membership[a]]);
    assert a in Members(mapping, l);
  }

  lemma CutAt(g: WGraph, mapping: map<Name, Name>, parts: seq<seq<Name>>, membership: map<Name, int>, a: Name)
    requires Cut(g, mapping, parts, membership) && a in g
    ensures a in membership && 0 <= membership[a] < |parts| && a in Elements(parts[membership[a]])
    ensures SomePiece(g, mapping, parts[membership[a]])
  {
    hide SomePiece;
    CutKeys(g, mapping, parts, membership);
  }

  /** Two nodes have the same number exactly when one is in the other's piece. */
  lemma SameNumber(g: WGraph, mapping: map<Name, Name>, parts: seq<seq<Name>>, membership: map<Name, int>, a: Name, b: Name)
    requires Cut(g, mapping, parts, membership) && a in g && b in g
    ensures a in membership && b in membership && 0 <= membership[a] < |parts|
    ensures membership[a] == membership[b] <==> b in Elements(parts[membership[a]])
  {
    hide PieceOf;
    PieceAround(g, mapping, parts, membership, a);
    PieceAround(g, mapping, parts, membership, b);
  }

  /** Nodes with the same number share a community; nodes of one community with different numbers share no edge. */
  lemma CutSeparates(g: WGraph, mapping: map<Name, Name>, parts: seq<seq<Name>>, membership: map<Name, int>, a: Name, b: Name)
    requires Cut(g, mapping, parts, membership) && a in g && b in g
    ensures Same(membership, a, b) ==> Same(mapping, a, b)
    ensures Same(mapping, a, b) && !Same(membership, a, b) ==> a != b && !Edge(g, a, b)
  {
    hide Cut;
    hide Elements;
    PieceAround(g, mapping, parts, membership, a);
    SameNumber(g, mapping, parts, membership, a, b);
    PieceKeepsIn(g, mapping, mapping[a], parts[membership[a]], a, b);
  }

  lemma PieceKeepsIn(g: WGraph, mapping: map<Name, Name>, l: Name, part: seq<Name>, a: Name, b: Name)
    requires PieceOf(g, mapping, l, part) && a in Elements(part)
    ensures a in mapping && mapping[a] == l
    ensures b in Elements(part) ==> b in mapping && mapping[b] == l
    ensures b in mapping && mapping[b] == l && Edge(g, a, b) ==> b in Elements(part)
  {
    assert a in Members(mapping, l);
    assert b in mapping && mapping[b] == l ==> b in Members(mapping, l);
    assert b in Elements(part) ==> b in Members(mapping, l);
  }

  /** Cutting communities into pieces never lowers the score. */
  lemma CutScore(g: WGraph, mapping: map<Name, Name>, parts: seq<seq<Name>>, membership: map<Name, int>, m2: real)
    requires WellFormed(g) && m2 > 0.0 && Cut(g, mapping, parts, membership)
    ensures Score(g, membership, m2) >= Score(g, mapping, m2)
  {
    hide Score;
    hide Cut;
    hide WellFormed;
    hide Edge;
    forall a, b | a in g && b in g
      ensures Same(membership, a, b) ==> Same(mapping, a, b)
      ensures Same(mapping, a, b) && !Same(membership, a, b) ==> Adjacency(g)(a, b) == 0.0
    {
      CutSeparates(g, mapping, parts, membership, a, b);
      NoEdgeNoWeight(g, a, b);
    }
    ScoreSplit(g, mapping, membership, m2);
  }

  lemma NoEdgeNoWeight(g: WGraph, a: Name, b: Name)
    ensures a != b && !Edge(g, a, b) ==> Adjacency(g)(a, b) == 0.0
  {}

  // ---- counting

  /** Every key of a row stands for a link. */
  ghost predicate RealLinks(g: WGraph) {
    forall a, b :: a in g && b in g[a] ==> g[a][b] == 1.0
  }

  /** The notes with no links at all. */
  ghost function Lonely(g: WGraph): set<Name> {
    set n | n in g.Keys && Degree(g, n) == 0.0
  }

  lemma EmptyRowDegree(g: WGraph, a: Name)
    requires a in g && g[a].Keys == {}
    ensures Degree(g, a) == 0.0
  {
    SumZero(g.Keys, Row(Adjacency(g), a));
  }

  lemma LinkedDegree(g: WGraph, a: Name, b: Name)
    requires WellFormed(g) && RealLinks(g) && a in g && b in g[a]
    ensures Degree(g, a) >= 1.0
  {
    hide Adjacency;
    hide WellFormed;
    hide RealLinks;
    RowKeys(g, a);
    LinkWeight(g, a, b);
    forall x ensures Row(Adjacency(g), a)(x) >= 0.0 { AdjacencyNonNegative(g, a, x); }
    SumTermLe(g.Keys, Row(Adjacency(g), a), b);
  }

  lemma LinkWeight(g: WGraph, a: Name, b: Name)
    requires RealLinks(g) && a in g && b in g[a]
    ensures Adjacency(g)(a, b) >= 1.0
  {}

  lemma AdjacencyNonNegative(g: WGraph, a: Name, b: Name)
    requires WellFormed(g)
    ensures Adjacency(g)(a, b) >= 0.0
  {
    WeightMirrored(g, a, b);
  }

  lemma LonelyRow(g: WGraph, a: Name)
    requires WellFormed(g) && RealLinks(g) && a in g
    ensures Degree(g, a) == 0.0 <==> g[a].Keys == {}
  {
    hide *;
    if b :| b in g[a] {
      LinkedDegree(g, a, b);
    } else {
      EmptyRowDegree(g, a);
    }
  }

  /** A note without links is a piece of its own. */
  lemma LonelyAlone(g: WGraph, part: seq<Name>, a: Name)
    requires a in g && g[a].Keys == {} && a in part && Distinct(part) && Connected(g, Elements(part))
    ensures part == [a]
  {
    if |part| > 1 {
      var b := if part[0] == a then part[1] else part[0];
      assert a in Elements(part) && b in Elements(part);
      assert a != b && Reach(g, Elements(part), a, b);
      forall p ensures !IsWalk(g, Elements(part), p, a, b) { NoWalkOut(g, Elements(part), p, a, b); }
    }
  }

  lemma NoWalkOut(g: WGraph, s: set<Name>, p: seq<Name>, a: Name, b: Name)
    requires a in g && g[a].Keys == {} && a != b
    ensures !IsWalk(g, s, p, a, b)
  {
    if |p| > 1 && p[0] == a { assert !Edge(g, p[0], p[1]); }
  }

  ghost function LonelyBefore(g: WGraph, membership: map<Name, int>, i: int): set<Name> {
    set n | n in Lonely(g) && n in membership && membership[n] < i
  }

  /** The piece numbered `i` holds exactly the nodes with that number. */
  lemma PieceNumber(g: WGraph, mapping: map<Name, Name>, parts: seq<seq<Name>>, membership: map<Name, int>, i: nat, n: Name)
    requires Cut(g, mapping, parts, membership) && i < |parts|
    ensures n in parts[i] <==> n in membership && membership[n] == i
    ensures n in parts[i] ==> n in g
  {
    hide SomePiece;
    CutKeys(g, mapping, parts, membership);
    if n in parts[i] {
      assert Listed(parts, n) && parts[..|parts|] == parts;
      var j := membership[n];
      assert n in Elements(parts[i]) && n in Elements(parts[j]);
    }
  }

  lemma PieceFacts(g: WGraph, mapping: map<Name, Name>, parts: seq<seq<Name>>, membership: map<Name, int>, i: nat)
    requires Cut(g, mapping, parts, membership) && i < |parts|
    ensures parts[i] != [] && Distinct(parts[i]) && Connected(g, Elements(parts[i]))
  {
    hide Connected;
    hide NoWayOut;
    assert SomePiece(g, mapping, parts[i]);
  }

  /** A note without links makes up its piece. */
  lemma LonelyPiece(g: WGraph, mapping: map<Name, Name>, parts: seq<seq<Name>>, membership: map<Name, int>, n: Name)
    requires WellFormed(g) && RealLinks(g) && Cut(g, mapping, parts, membership)
    requires n in g && Degree(g, n) == 0.0
    ensures n in membership && 0 <= membership[n] < |parts| && parts[membership[n]] == [n]
  {
    hide *;
    CutAt(g, mapping, parts, membership, n);
    LonelyRow(g, n);
    PieceFacts(g, mapping, parts, membership, membership[n]);
    InElements(parts[membership[n]], n);
    LonelyAlone(g, parts[membership[n]], n);
  }

  lemma InElements(part: seq<Name>, n: Name)
    ensures n in Elements(part) <==> n in part
  {}

  /** One piece adds its note to the count exactly when it is a single note without links. */
  lemma LonelyOneMore(g: WGraph, mapping: map<Name, Name>, parts: seq<seq<Name>>, membership: map<Name, int>, i: nat)
    requires WellFormed(g) && RealLinks(g) && Cut(g, mapping, parts, membership) && i < |parts|
    ensures parts[i] != [] && parts[i][0] in g
    ensures LonelyBefore(g, membership, i + 1)
         == if |parts[i]| == 1 && Degree(g, parts[i][0]) == 0.0
            then LonelyBefore(g, membership, i) + {parts[i][0]} else LonelyBefore(g, membership, i)
    ensures parts[i][0] !in LonelyBefore(g, membership, i)
  {
    hide Cut;
    hide Degree;
    hide Connected;
    hide WellFormed;
    hide RealLinks;
    PieceFacts(g, mapping, parts, membership, i);
    PieceNumber(g, mapping, parts, membership, i, parts[i][0]);
    forall n | n in Lonely(g) && n in membership && membership[n] == i ensures parts[i] == [n] {
      LonelyPiece(g, mapping, parts, membership, n);
    }
  }

  // ---- the links of one piece

  /** What one node sends into community `c`, and out of it. */
  ghost function Inward(g: WGraph, membership: map<Name, int>, c: int): Name -> real {
    RowSums(g.Keys, Select(BothIn(membership, c), Adjacency(g)))
  }

  ghost function Outward(g: WGraph, membership: map<Name, int>, c: int): Name -> real {
    RowSums(g.Keys, Select(OneIn(membership, c), Adjacency(g)))
  }

  lemma RowSplit(g: WGraph, membership: map<Name, int>, c: int, a: Name)
    requires WellFormed(g) && a in g
    ensures Inward(g, membership, c)(a) == Sum(g[a].Keys, Row(Select(BothIn(membership, c), Adjacency(g)), a))
    ensures Outward(g, membership, c)(a) == Sum(g[a].Keys, Row(Select(OneIn(membership, c), Adjacency(g)), a))
  {
    RowKeys(g, a);
    SumSupport(g[a].Keys, g.Keys, Row(Select(BothIn(membership, c), Adjacency(g)), a));
    SumSupport(g[a].Keys, g.Keys, Row(Select(OneIn(membership, c), Adjacency(g)), a));
  }

  lemma EntrySide(g: WGraph, membership: map<Name, int>, c: int, a: Name, b: Name)
    requires LoopFree(g) && a in g && b in g[a] && a in membership && membership[a] == c
    ensures Row(Select(BothIn(membership, c), Adjacency(g)), a)(b) == if b in membership && membership[b] == c then g[a][b] else 0.0
    ensures Row(Select(OneIn(membership, c), Adjacency(g)), a)(b) == if b in membership && membership[b] == c then 0.0 else g[a][b]
  {}

  /** One row's weight inside the piece and leaving it. */
  method RowLinks(g: WGraph, inside: set<Name>, a: Name, ghost membership: map<Name, int>, ghost c: int)
    returns (inner: real, outer: real)
    requires WellFormed(g) && LoopFree(g) && a in g && a in inside
    requires forall n :: n in inside <==> n in membership && membership[n] == c
    ensures inner == Inward(g, membership, c)(a) && outer == Outward(g, membership, c)(a)
  {
    hide *;
    var row := g[a].Keys;
    ghost var into := Row(Select(BothIn(membership, c), Adjacency(g)), a);
    ghost var out := Row(Select(OneIn(membership, c), Adjacency(g)), a);
    RowSplit(g, membership, c, a);
    inner, outer := 0.0, 0.0;
    var left := row;
    while left != {}
      invariant left <= row
      invariant inner + Sum(left, into) == Sum(row, into)
      invariant outer + Sum(left, out) == Sum(row, out)
      decreases |left|
    {
      var b :| b in left;
      SumPick(left, into, b);
      SumPick(left, out, b);
      EntrySide(g, membership, c, a, b);
      if b in inside {
        inner := inner + g[a][b];
      } else {
        outer := outer + g[a][b];
      }
      left := left - {b};
    }
    SumNone(into);
    SumNone(out);
  }

  lemma PieceSums(g: WGraph, part: seq<Name>, membership: map<Name, int>, c: int)
    requires Elements(part) <= g.Keys
    requires forall n :: n in part <==> n in membership && membership[n] == c
    ensures Sum(Elements(part), Inward(g, membership, c)) == Inside(g.Keys, membership, Adjacency(g), c)
    ensures Sum(Elements(part), Outward(g, membership, c)) == Leaving(g, membership, c)
  {
    forall a | a in g.Keys && a !in Elements(part)
      ensures Inward(g, membership, c)(a) == 0.0 && Outward(g, membership, c)(a) == 0.0
    {
      SumZero(g.Keys, Row(Select(BothIn(membership, c), Adjacency(g)), a));
      SumZero(g.Keys, Row(Select(OneIn(membership, c), Adjacency(g)), a));
    }
    SumSupport(Elements(part), g.Keys, Inward(g, membership, c));
    SumSupport(Elements(part), g.Keys, Outward(g, membership, c));
  }

  lemma OneMoreMember(part: seq<Name>, i: nat, f: Name -> real)
    requires Distinct(part) && i < |part|
    ensures Sum(Elements(part[..i + 1]), f) == Sum(Elements(part[..i]), f) + f(part[i])
  {
    assert Elements(part[..i + 1]) - {part[i]} == Elements(part[..i]);
    SumPick(Elements(part[..i + 1]), f, part[i]);
  }

  lemma ElementsNone(part: seq<Name>)
    ensures Elements(part[..0]) == {}
  {}

  /** The links with both ends in the piece, each counted once, and the links leaving it. */
  method CountLinks(g: WGraph, part: seq<Name>, ghost membership: map<Name, int>, ghost c: int)
    returns (internalEdges: real, externalEdges: real)
    requires WellFormed(g) && LoopFree(g) && Distinct(part) && Elements(part) <= g.Keys
    requires forall n :: n in part <==> n in membership && membership[n] == c
    ensures 2.0 * internalEdges == Inside(g.Keys, membership, Adjacency(g), c)
    ensures externalEdges == Leaving(g, membership, c)
  {
    hide *;
    var inside := set n | n in part;
    ghost var into, out := Inward(g, membership, c), Outward(g, membership, c);
    PieceSums(g, part, membership, c);
    assert part[..|part|] == part;
    ElementsNone(part);
    SumNone(into);
    SumNone(out);
    var internal := 0.0;
    externalEdges := 0.0;
    for i := 0 to |part|
      invariant internal == Sum(Elements(part[..i]), into)
      invariant externalEdges == Sum(Elements(part[..i]), out)
    {
      InElements(part, part[i]);
      OneMoreMember(part, i, into);
      OneMoreMember(part, i, out);
      var inner, outer := RowLinks(g, inside, part[i], membership, c);
      internal := internal + inner;
      externalEdges := externalEdges + outer;
    }
    internalEdges := internal / 2.0;
  }

  // ---- the report

  datatype Community = Community(id: int, members: seq<Name>, internalEdges: real, externalEdges: real)

  datatype Report = Report(communities: seq<Community>, modularity: real, isolated: nat, nodes: nat, edges: real)

  ghost predicate IsLonely(g: WGraph, part: seq<Name>) {
    |part| == 1 && Degree(g, part[0]) == 0.0
  }

  /** Whether the piece is told of: large enough, and not a single note without links. */
  ghost predicate Told(g: WGraph, part: seq<Name>, minSize: nat) {
    !IsLonely(g, part) && |part| >= minSize
  }

  /** The entry of piece `c.id`, with the links its members have inside and outside. */
  ghost predicate Faithful(g: WGraph, membership: map<Name, int>, parts: seq<seq<Name>>, minSize: nat, c: Community) {
    && 0 <= c.id < |parts| && c.members == parts[c.id] && Told(g, parts[c.id], minSize)
    && 2.0 * c.internalEdges == Inside(g.Keys, membership, Adjacency(g), c.id)
    && c.externalEdges == Leaving(g, membership, c.id)
  }

  /** One faithful entry for every piece below `i` that is told of, in order. */
  ghost predicate Listing(g: WGraph, membership: map<Name, int>, parts: seq<seq<Name>>, minSize: nat, i: int, out: seq<Community>) {
    && (forall k :: 0 <= k < |out| ==> Faithful(g, membership, parts, minSize, out[k]) && out[k].id < i)
    && (forall k, l :: 0 <= k < l < |out| ==> out[k].id < out[l].id)
    && (forall j :: 0 <= j < i && j < |parts| && Told(g, parts[j], minSize) ==> exists k :: 0 <= k < |out| && out[k].id == j)
  }

  lemma ListingSkip(g: WGraph, membership: map<Name, int>, parts: seq<seq<Name>>, minSize: nat, i: nat, out: seq<Community>)
    requires i < |parts| && Listing(g, membership, parts, minSize, i, out) && !Told(g, parts[i], minSize)
    ensures Listing(g, membership, parts, minSize, i + 1, out)
  {
    hide Told;
    hide Faithful;
  }

  lemma ListingAdd(g: WGraph, membership: map<Name, int>, parts: seq<seq<Name>>, minSize: nat, i: nat, out: seq<Community>, c: Community)
    requires i < |parts| && Listing(g, membership, parts, minSize, i, out)
    requires Faithful(g, membership, parts, minSize, c) && c.id == i
    ensures Listing(g, membership, parts, minSize, i + 1, out + [c])
  {
    hide Told;
    hide Faithful;
    var more := out + [c];
    forall j | 0 <= j < i + 1 && j < |parts| && Told(g, parts[j], minSize) ensures exists k :: 0 <= k < |more| && more[k].id == j {
      if j == i {
        assert more[|out|].id == j;
      } else {
        var k :| 0 <= k < |out| && out[k].id == j;
        assert more[k].id == j;
      }
    }
  }

  lemma FaithfulEntry(g: WGraph, membership: map<Name, int>, parts: seq<seq<Name>>, minSize: nat, c: Community)
    requires 0 <= c.id < |parts| && c.members == parts[c.id] && Told(g, parts[c.id], minSize)
    requires 2.0 * c.internalEdges == Inside(g.Keys, membership, Adjacency(g), c.id)
    requires c.externalEdges == Leaving(g, membership, c.id)
    ensures Faithful(g, membership, parts, minSize, c)
  {}

  /** Whether a piece is a single note without links. */
  method LonelyTest(g: WGraph, part: seq<Name>) returns (lonely: bool)
    requires WellFormed(g) && part != [] && part[0] in g
    ensures lonely == IsLonely(g, part)
  {
    lonely := false;
    if |part| == 1 {
      var k := DegreeOf(g, part[0]);
      lonely := k == 0.0;
    }
  }

  /** The entry of one piece that is told of. */
  method Tell(g: WGraph, parts: seq<seq<Name>>, minSize: nat, i: nat, ghost mapping: map<Name, Name>, ghost membership: map<Name, int>)
    returns (c: Community)
    requires WellFormed(g) && LoopFree(g) && Cut(g, mapping, parts, membership) && i < |parts| && Told(g, parts[i], minSize)
    ensures Faithful(g, membership, parts, minSize, c) && c.id == i
  {
    hide *;
    PieceFacts(g, mapping, parts, membership, i);
    forall n ensures (n in parts[i] <==> n in membership && membership[n] == i) && (n in parts[i] ==> n in g) {
      PieceNumber(g, mapping, parts, membership, i, n);
    }
    ElementsWithin(parts[i], g.Keys);
    var internalEdges, externalEdges := CountLinks(g, parts[i], membership, i);
    c := Community(i, parts[i], internalEdges, externalEdges);
    FaithfulEntry(g, membership, parts, minSize, c);
  }

  lemma ElementsWithin(part: seq<Name>, s: set<Name>)
    requires forall n :: n in part ==> n in s
    ensures Elements(part) <= s
  {}

  lemma LonelyCount(g: WGraph, mapping: map<Name, Name>, parts: seq<seq<Name>>, membership: map<Name, int>, i: nat)
    requires WellFormed(g) && RealLinks(g) && Cut(g, mapping, parts, membership) && i < |parts|
    ensures parts[i] != [] && parts[i][0] in g
    ensures |LonelyBefore(g, membership, i + 1)| == |LonelyBefore(g, membership, i)| + if IsLonely(g, parts[i]) then 1 else 0
  {
    hide Cut;
    hide WellFormed;
    hide RealLinks;
    hide LonelyBefore;
    LonelyOneMore(g, mapping, parts, membership, i);
  }

  lemma LonelyEnds(g: WGraph, mapping: map<Name, Name>, parts: seq<seq<Name>>, membership: map<Name, int>)
    requires Cut(g, mapping, parts, membership)
    ensures LonelyBefore(g, membership, 0) == {} && LonelyBefore(g, membership, |parts|) == Lonely(g)
  {
    hide CutUp;
    hide Degree;
    CutKeys(g, mapping, parts, membership);
  }

  lemma ListingNone(g: WGraph, membership: map<Name, int>, parts: seq<seq<Name>>, minSize: nat)
    ensures Listing(g, membership, parts, minSize, 0, [])
  {}

  lemma ToldIs(g: WGraph, part: seq<Name>, minSize: nat)
    ensures Told(g, part, minSize) <==> !IsLonely(g, part) && |part| >= minSize
  {}

  /** Goes through the pieces: counts the single notes without links, tells of the pieces of at least `minSize`. */
  method TellAll(g: WGraph, parts: seq<seq<Name>>, minSize: nat, ghost mapping: map<Name, Name>, ghost membership: map<Name, int>)
    returns (isolated: nat, out: seq<Community>)
    requires WellFormed(g) && LoopFree(g) && RealLinks(g) && Cut(g, mapping, parts, membership)
    ensures isolated == |Lonely(g)|
    ensures Listing(g, membership, parts, minSize, |parts|, out)
  {
    hide *;
    isolated, out := 0, [];
    LonelyEnds(g, mapping, parts, membership);
    ListingNone(g, membership, parts, minSize);
    for i := 0 to |parts|
      invariant isolated == |LonelyBefore(g, membership, i)|
      invariant Listing(g, membership, parts, minSize, i, out)
    {
      LonelyCount(g, mapping, parts, membership, i);
      ToldIs(g, parts[i], minSize);
      var lonely := LonelyTest(g, parts[i]);
      if lonely {
        isolated := isolated + 1;
        ListingSkip(g, membership, parts, minSize, i, out);
      } else if |parts[i]| < minSize {
        ListingSkip(g, membership, parts, minSize, i, out);
      } else {
        var c := Tell(g, parts, minSize, i, mapping, membership);
        ListingAdd(g, membership, parts, minSize, i, out, c);
        out := out + [c];
      }
    }
  }

  /** The reported modularity is that of the pieces, and no worse than leaving every note alone. */
  ghost predicate GoodPartition(g: WGraph, membership: map<Name, int>, q: real) {
    && membership.Keys == g.Keys
    && q == ModularityValue(g, membership, TotalDegree(g))
    && q >= ModularityValue(g, Singletons(g), TotalDegree(g))
    && (TotalDegree(g) > 0.0 ==> -0.5 <= q < 1.0)
    && (TotalDegree(g) == 0.0 ==> q == 0.0)
  }

  /** Passes and cut together never score below the singletons. */
  lemma NeverLosesGround(g: WGraph, mapping: map<Name, Name>, level: WGraph, passes: nat, parts: seq<seq<Name>>, membership: map<Name, int>)
    requires WellFormed(g) && TotalDegree(g) > 0.0
    requires AtPass(g, TotalDegree(g), mapping, level, passes) && Cut(g, mapping, parts, membership)
    ensures Score(g, membership, TotalDegree(g)) >= Score(g, Singletons(g), TotalDegree(g))
  {
    hide *;
    var m2 := TotalDegree(g);
    CutScore(g, mapping, parts, membership, m2);
    AtPassRises(g, m2, mapping, level, passes);
  }

  lemma AtPassRises(g: WGraph, m2: real, mapping: map<Name, Name>, level: WGraph, passes: nat)
    requires m2 > 0.0 && AtPass(g, m2, mapping, level, passes)
    ensures Score(g, mapping, m2) >= Score(g, Singletons(g), m2)
  {
    hide Score;
    hide IsAggregate;
    hide WellFormed;
  }

  lemma PartitionIsGood(g: WGraph, mapping: map<Name, Name>, level: WGraph, passes: nat, parts: seq<seq<Name>>, membership: map<Name, int>, q: real)
    requires WellFormed(g) && AtPass(g, TotalDegree(g), mapping, level, passes) && Cut(g, mapping, parts, membership)
    requires q == ModularityValue(g, membership, TotalDegree(g))
    ensures GoodPartition(g, membership, q)
  {
    hide AtPass;
    hide Cut;
    hide WellFormed;
    hide TotalDegree;
    hide ModularityValue;
    CutKeys(g, mapping, parts, membership);
    TotalDegreeNonNegative(g);
    if TotalDegree(g) > 0.0 {
      LinkedPartitionIsGood(g, mapping, level, passes, parts, membership);
    } else {
      ValueIsSum(g, membership, 0.0);
      ValueIsSum(g, Singletons(g), 0.0);
    }
  }

  lemma LinkedPartitionIsGood(g: WGraph, mapping: map<Name, Name>, level: WGraph, passes: nat, parts: seq<seq<Name>>, membership: map<Name, int>)
    requires WellFormed(g) && TotalDegree(g) > 0.0
    requires AtPass(g, TotalDegree(g), mapping, level, passes) && Cut(g, mapping, parts, membership)
    ensures ModularityValue(g, membership, TotalDegree(g)) >= ModularityValue(g, Singletons(g), TotalDegree(g))
    ensures -0.5 <= ModularityValue(g, membership, TotalDegree(g)) < 1.0
  {
    hide *;
    CutKeys(g, mapping, parts, membership);
    NeverLosesGround(g, mapping, level, passes, parts, membership);
    ValueIsScore(g, membership, TotalDegree(g));
    ValueIsScore(g, Singletons(g), TotalDegree(g));
    DivideLe(Score(g, Singletons(g), TotalDegree(g)), Score(g, membership, TotalDegree(g)), TotalDegree(g));
    ModularityLowerBound(g, membership);
    ModularityUpperBound(g, membership);
  }

  /** Merging two communities that share a link would lift the score by no more than noise. */
  ghost predicate NoMergeLifts(g: WGraph, mapping: map<Name, Name>) {
    forall a, b :: a in g && b in g[a] && a in mapping && b in mapping && mapping[a] != mapping[b] ==>
      && TotalDegree(g) != 0.0
      && Score(g, Merged(mapping, mapping[a], mapping[b]), TotalDegree(g)) <= Score(g, mapping, TotalDegree(g)) + 0.000000000002
  }

  lemma LinkedHasDegree(g: WGraph, a: Name, b: Name)
    requires WellFormed(g) && RealLinks(g) && a in g && b in g[a]
    ensures TotalDegree(g) > 0.0
  {
    hide Degree;
    LinkedDegree(g, a, b);
    forall n | n in g ensures DegreeFn(g)(n) >= 0.0 { DegreeNonNegative(g, n); }
    SumTermLe(g.Keys, DegreeFn(g), a);
  }

  lemma SettledMergesNothing(g: WGraph, mapping: map<Name, Name>, level: WGraph, passes: nat)
    requires WellFormed(g) && RealLinks(g) && AtPass(g, TotalDegree(g), mapping, level, passes)
    requires TotalDegree(g) != 0.0 ==> AllSettled(level, Singletons(level), TotalDegree(g))
    ensures NoMergeLifts(g, mapping)
  {
    hide AtPass;
    hide AllSettled;
    hide WellFormed;
    hide TotalDegree;
    hide Score;
    hide Merged;
    hide Singletons;
    forall a, b | a in g && b in g[a] && a in mapping && b in mapping && mapping[a] != mapping[b]
      ensures TotalDegree(g) != 0.0
      ensures Score(g, Merged(mapping, mapping[a], mapping[b]), TotalDegree(g)) <= Score(g, mapping, TotalDegree(g)) + 0.000000000002
    {
      LinkedHasDegree(g, a, b);
      NoMergeHelps(g, TotalDegree(g), mapping, level, passes, a, b);
    }
  }

  // ---- the links of a piece, counted

  /** The ordered pairs of linked notes with both ends in the part, and with the first end only. */
  ghost function PairsInside(g: WGraph, part: seq<Name>): set<(Name, Name)> {
    set p | p in LinkedPairs(g) && p.0 in part && p.1 in part
  }

  ghost function PairsLeaving(g: WGraph, part: seq<Name>): set<(Name, Name)> {
    set p | p in LinkedPairs(g) && p.0 in part && p.1 !in part
  }

  lemma CountPairs(g: WGraph, sel: (Name, Name) -> bool, counted: set<(Name, Name)>)
    requires RealLinks(g) && LoopFree(g)
    requires forall a, b :: (a, b) in counted <==> (a, b) in LinkedPairs(g) && sel(a, b)
    ensures Sum2(g.Keys, g.Keys, Select(sel, Adjacency(g))) == |counted| as real
  {
    hide Sum;
    hide Sum2;
    var pairs, weights := Cross(g.Keys, g.Keys), OnPairs(Select(sel, Adjacency(g)));
    SumCross(g.Keys, g.Keys, Select(sel, Adjacency(g)));
    forall ab | ab in pairs ensures weights(ab) == if ab in counted then 1.0 else 0.0 {
      OnePair(g, ab.0, ab.1);
      assert ab == (ab.0, ab.1);
    }
    forall ab | ab in counted ensures ab in pairs { assert ab == (ab.0, ab.1); }
    SumSupport(counted, pairs, weights);
    SumOnes(counted, weights);
  }

  lemma OnePair(g: WGraph, a: Name, b: Name)
    requires RealLinks(g) && LoopFree(g)
    ensures Adjacency(g)(a, b) == if (a, b) in LinkedPairs(g) || (a in g && b in g[a]) then 1.0 else 0.0
  {}

  /** What the report says of a part counts its links: those inside from both ends, those leaving once. */
  lemma PieceCounts(g: WGraph, membership: map<Name, int>, part: seq<Name>, c: int)
    requires RealLinks(g) && LoopFree(g) && WellFormed(g)
    requires forall n :: n in part <==> n in membership && membership[n] == c
    ensures Inside(g.Keys, membership, Adjacency(g), c) == |PairsInside(g, part)| as real
    ensures Leaving(g, membership, c) == |PairsLeaving(g, part)| as real
  {
    hide Sum2;
    hide LinkedPairs;
    hide RealLinks;
    hide WellFormed;
    CountPairs(g, BothIn(membership, c), PairsInside(g, part));
    CountPairs(g, OneIn(membership, c), PairsLeaving(g, part));
  }

  /** One entry, in order, for every part that is large enough and not a single note without links, and for no other. */
  ghost predicate TellsTheParts(g: WGraph, parts: seq<seq<Name>>, minSize: nat, out: seq<Community>) {
    && (forall j :: 0 <= j < |parts| ==>
          ((exists k :: 0 <= k < |out| && out[k].id == j)
            <==> |parts[j]| >= minSize && !(|parts[j]| == 1 && Degree(g, parts[j][0]) == 0.0)))
    && (forall k, l :: 0 <= k < l < |out| ==> out[k].id < out[l].id)
  }

  /** The entry has its part's members, the number of links among them, and the number of links leaving them. */
  ghost predicate CountsItsLinks(g: WGraph, parts: seq<seq<Name>>, c: Community) {
    && 0 <= c.id < |parts| && c.members == parts[c.id]
    && 2.0 * c.internalEdges == |PairsInside(g, c.members)| as real
    && c.externalEdges == |PairsLeaving(g, c.members)| as real
  }

  /**
    The report on the notes in `kept` and the links between them. The pieces it
    rests on are connected, share no edge with the rest of their community, and
    cover every note once.
   */
  method Communities(adjacency: AdjacencyLists, kept: set<Name>, minSize: nat)
    returns (r: Report, g: WGraph, parts: seq<seq<Name>>, ghost mapping: map<Name, Name>, ghost membership: map<Name, int>,
             ghost level: WGraph, ghost passes: nat, ghost trace: seq<map<Name, Name>>)
    ensures IsLinkGraph(adjacency, kept, g)
      // the communities are what the passes end with
    ensures passes <= 12 && AtPass(g, TotalDegree(g), mapping, level, passes)
    ensures |trace| == passes + 1 && trace[passes] == mapping && Ascent(g, TotalDegree(g), trace)
    ensures trace[0] == map n | n in kept :: n
    ensures passes < 12 ==> NoMergeLifts(g, mapping)
    ensures Cut(g, mapping, parts, membership)
    ensures GoodPartition(g, membership, r.modularity)
    ensures r.isolated == |Lonely(g)| && r.nodes == |kept|
    ensures r.edges == (|LinkedPairs(g)| as real) / 2.0
    ensures TellsTheParts(g, parts, minSize, r.communities)
    ensures forall c :: c in r.communities ==> CountsItsLinks(g, parts, c)
  {
    hide *;
    g := LinkGraph(adjacency, kept);
    LinkGraphFacts(adjacency, kept, g);
    TotalDegreeCountsLinks(adjacency, kept, g);
    var m2 := TotalDegreeOf(g);
    var labels;
    labels, level, passes, trace := Passes(g, m2);
    mapping := labels;
    PassLimit();
    AllAlone(g, kept);
    PassFacts(g, m2, labels, level, passes);
    if passes < 12 { SettledMergesNothing(g, labels, level, passes); }
    parts := SplitAll(g, labels);
    var numbers := NumberPieces(g, labels, parts);
    membership := numbers;
    var modularity := ModularityOf(g, numbers, m2);
    PartitionIsGood(g, labels, level, passes, parts, numbers, modularity);
    var isolated, out := TellAll(g, parts, minSize, labels, numbers);
    ListingInFull(g, labels, parts, numbers, minSize, out);
    r := Report(out, modularity, isolated, |g|, m2 / 2.0);
  }

  lemma AllAlone(g: WGraph, kept: set<Name>)
    requires g.Keys == kept
    ensures Singletons(g) == map n | n in kept :: n
  {}

  lemma PassLimit()
    ensures MAX_PASSES == 12
  {}

  /** What a full listing says, in terms of the parts and their links. */
  lemma ListingInFull(g: WGraph, mapping: map<Name, Name>, parts: seq<seq<Name>>, membership: map<Name, int>, minSize: nat, out: seq<Community>)
    requires WellFormed(g) && LoopFree(g) && RealLinks(g) && Cut(g, mapping, parts, membership)
    requires Listing(g, membership, parts, minSize, |parts|, out)
    ensures TellsTheParts(g, parts, minSize, out)
    ensures forall c :: c in out ==> CountsItsLinks(g, parts, c)
  {
    hide *;
    ListingParts(g, membership, parts, minSize, out);
    forall c | c in out ensures CountsItsLinks(g, parts, c) {
      ListingEntry(g, membership, parts, minSize, out, c);
      forall n ensures n in parts[c.id] <==> n in membership && membership[n] == c.id {
        PieceNumber(g, mapping, parts, membership, c.id, n);
      }
      PieceCounts(g, membership, parts[c.id], c.id);
      EntryCounts(g, membership, parts, c);
    }
  }

  lemma EntryCounts(g: WGraph, membership: map<Name, int>, parts: seq<seq<Name>>, c: Community)
    requires 0 <= c.id < |parts| && c.members == parts[c.id]
    requires 2.0 * c.internalEdges == |PairsInside(g, parts[c.id])| as real && c.externalEdges == |PairsLeaving(g, parts[c.id])| as real
    ensures CountsItsLinks(g, parts, c)
  {
    hide PairsInside;
    hide PairsLeaving;
  }

  lemma ListingParts(g: WGraph, membership: map<Name, int>, parts: seq<seq<Name>>, minSize: nat, out: seq<Community>)
    requires Listing(g, membership, parts, minSize, |parts|, out)
    ensures TellsTheParts(g, parts, minSize, out)
  {
    hide Degree;
    hide Inside;
    hide Leaving;
    forall j | 0 <= j < |parts|
      ensures (exists k :: 0 <= k < |out| && out[k].id == j) <==> |parts[j]| >= minSize && !(|parts[j]| == 1 && Degree(g, parts[j][0]) == 0.0)
    {
      if k :| 0 <= k < |out| && out[k].id == j { assert Faithful(g, membership, parts, minSize, out[k]); }
    }
  }

  lemma ListingEntry(g: WGraph, membership: map<Name, int>, parts: seq<seq<Name>>, minSize: nat, out: seq<Community>, c: Community)
    requires Listing(g, membership, parts, minSize, |parts|, out) && c in out
    ensures 0 <= c.id < |parts| && c.members == parts[c.id]
    ensures 2.0 * c.internalEdges == Inside(g.Keys, membership, Adjacency(g), c.id)
    ensures c.externalEdges == Leaving(g, membership, c.id)
  {
    hide Degree;
    hide Inside;
    hide Leaving;
    var k :| 0 <= k < |out| && out[k] == c;
    assert Faithful(g, membership, parts, minSize, out[k]);
  }

  lemma LinkGraphFacts(adjacency: AdjacencyLists, kept: set<Name>, g: WGraph)
    requires IsLinkGraph(adjacency, kept, g)
    ensures RealLinks(g) && |g| == |kept|
  {
    assert |g| == |g.Keys|;
  }

  /** Numbers the pieces of every community. */
  method NumberPieces(g: WGraph, mapping: map<Name, Name>, parts: seq<seq<Name>>) returns (membership: map<Name, int>)
    requires mapping.Keys == g.Keys && CutUp(g, mapping, mapping.Values, parts)
    ensures Cut(g, mapping, parts, membership)
  {
    hide Numbered;
    membership := Number(parts);
  }
}
