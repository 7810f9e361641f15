/**
  `localMoving` of packages/curate/src/communities.ts: every node starts alone,
  then each moves to the neighbouring community with the best gain, until
  nothing moves or thirty rounds have passed. Maps and sets are walked in any
  order here; the source fixes one.
 */
module Moving {
  import opened Names
  import opened Sums
  import opened WeightedGraph
  import opened Modularity
  import opened Regrouping

  /** What a gain must beat the best one by, so that noise never moves a node. */
  const EPSILON: real := 0.000000000001

  const MAX_ROUNDS: nat := 30

  /** The bookkeeping `localMoving` keeps up to date, one entry per label. */
  ghost predicate Consistent(g: WGraph, community: map<Name, Name>, communityDegree: map<Name, real>) {
    && community.Keys == g.Keys
    && communityDegree.Keys == g.Keys
    && community.Values <= g.Keys
    && forall c :: c in g ==> communityDegree[c] == Held(g, community, c)
  }

  /** The same bookkeeping while `x` is taken out of its community. */
  ghost predicate WithoutNode(g: WGraph, community: map<Name, Name>, communityDegree: map<Name, real>, x: Name) {
    && community.Keys == g.Keys
    && communityDegree.Keys == g.Keys
    && community.Values <= g.Keys
    && forall c :: c in g ==> communityDegree[c] == Others(g, community, x, c)
  }

  ghost predicate Neighbouring(g: WGraph, community: map<Name, Name>, x: Name, c: Name) {
    x in g && exists nb :: nb in g[x] && nb != x && nb in community && community[nb] == c
  }

  /** No neighbouring community would take `x` for a gain worth a move. */
  ghost predicate Settled(g: WGraph, community: map<Name, Name>, m2: real, x: Name)
    requires x in community && m2 != 0.0
  {
    forall c :: Neighbouring(g, community, x, c) ==>
      Gain(g, community, m2, x, c) <= Gain(g, community, m2, x, community[x]) + 0.000000000001
  }

  // ---- bookkeeping lemmas

  /** The degree held by label `c`: `x`'s own share, if it is a member, and that of the others. */
  ghost function Held(g: WGraph, community: map<Name, Name>, c: Name): real {
    Sum(g.Keys, MemberDegree(g, community, c))
  }

  lemma HeldSplit(g: WGraph, community: map<Name, Name>, x: Name, c: Name)
    requires x in g && x in community
    ensures Held(g, community, c) == (if community[x] == c then Degree(g, x) else 0.0) + Others(g, community, x, c)
  {
    hide Degree;
    SumPick(g.Keys, MemberDegree(g, community, c), x);
  }

  lemma OthersUnmoved(g: WGraph, community: map<Name, Name>, x: Name, best: Name, c: Name)
    ensures Others(g, community[x := best], x, c) == Others(g, community, x, c)
  {
    hide Degree;
    SumEq(g.Keys - {x}, MemberDegree(g, community[x := best], c), MemberDegree(g, community, c));
  }

  lemma TakeOut(g: WGraph, community: map<Name, Name>, communityDegree: map<Name, real>, x: Name, after: map<Name, real>)
    requires Consistent(g, community, communityDegree) && x in g
    requires after == communityDegree[community[x] := communityDegree[community[x]] - Degree(g, x)]
    ensures WithoutNode(g, community, after, x)
  {
    hide Degree;
    hide Held;
    hide Others;
    assert community[x] in community.Values;
    forall c | c in g ensures after[c] == Others(g, community, x, c) {
      HeldSplit(g, community, x, c);
    }
  }

  lemma PutIn(g: WGraph, community: map<Name, Name>, communityDegree: map<Name, real>, x: Name, best: Name, after: map<Name, real>)
    requires WithoutNode(g, community, communityDegree, x) && x in g && best in g
    requires after == communityDegree[best := communityDegree[best] + Degree(g, x)]
    ensures Consistent(g, community[x := best], after)
  {
    hide Degree;
    hide Held;
    hide Others;
    forall c | c in g ensures after[c] == Held(g, community[x := best], c) {
      HeldSplit(g, community[x := best], x, c);
      OthersUnmoved(g, community, x, best, c);
    }
  }

  // ---- one node

  /** `into` holds the weight from `x` into each community, over the neighbours in `done`. */
  ghost predicate Tallied(g: WGraph, community: map<Name, Name>, x: Name, done: set<Name>, into: map<Name, real>) {
    && (forall c :: At(into, c) == Sum(done, TowardTerm(community, x, c, Adjacency(g))))
    && (forall c :: c in into ==> exists nb :: nb in done && nb in community && community[nb] == c)
    && (forall nb :: nb in done && nb in community ==> community[nb] in into)
  }

  lemma TallyOneMore(g: WGraph, community: map<Name, Name>, x: Name, done: set<Name>, into: map<Name, real>, nb: Name, after: map<Name, real>)
    requires Tallied(g, community, x, done, into)
    requires nb !in done && nb != x && nb in community
    requires after == into[community[nb] := At(into, community[nb]) + Weight(g, x, nb)]
    ensures Tallied(g, community, x, done + {nb}, after)
  {
    forall c ensures At(after, c) == Sum(done + {nb}, TowardTerm(community, x, c, Adjacency(g))) {
      SumPick(done + {nb}, TowardTerm(community, x, c, Adjacency(g)), nb);
      assert done + {nb} - {nb} == done;
    }
    forall c | c in after ensures exists n :: n in done + {nb} && n in community && community[n] == c {
      if c == community[nb] {
        assert nb in done + {nb};
      } else {
        var n :| n in done && n in community && community[n] == c;
        assert n in done + {nb};
      }
    }
  }

  lemma TallyComplete(g: WGraph, community: map<Name, Name>, x: Name, into: map<Name, real>, c: Name)
    requires WellFormed(g) && x in g
    requires Tallied(g, community, x, g[x].Keys - {x}, into)
    ensures At(into, c) == Toward(g.Keys, community, x, c, Adjacency(g))
  {
    RowKeys(g, x);
    hide WellFormed;
    SumSupport(g[x].Keys - {x}, g.Keys - {x}, TowardTerm(community, x, c, Adjacency(g)));
  }

  lemma TallyKeys(g: WGraph, community: map<Name, Name>, x: Name, into: map<Name, real>, c: Name)
    requires x in g
    requires Tallied(g, community, x, g[x].Keys - {x}, into)
    ensures c in into <==> Neighbouring(g, community, x, c)
  {}

  /** What `localMoving` knows of a node's surroundings: its own community and every neighbouring one. */
  ghost predicate Surveyed(g: WGraph, community: map<Name, Name>, x: Name, into: map<Name, real>) {
    && x in community
    && (forall c :: c in into <==> c == community[x] || Neighbouring(g, community, x, c))
    && (forall c :: c in into ==> into[c] == Toward(g.Keys, community, x, c, Adjacency(g)))
  }

  lemma SurveyDone(g: WGraph, community: map<Name, Name>, x: Name, into: map<Name, real>, after: map<Name, real>)
    requires WellFormed(g) && x in g && x in community
    requires Tallied(g, community, x, g[x].Keys - {x}, into)
    requires after == if community[x] in into then into else into[community[x] := 0.0]
    ensures Surveyed(g, community, x, after)
  {
    hide Tallied;
    hide WellFormed;
    hide Toward;
    hide Neighbouring;
    forall c
      ensures At(into, c) == Toward(g.Keys, community, x, c, Adjacency(g))
      ensures c in into <==> Neighbouring(g, community, x, c)
    {
      TallyComplete(g, community, x, into, c);
      TallyKeys(g, community, x, into, c);
    }
  }

  /** The neighbours already added up, when `left` remain. */
  ghost function Seen(row: set<Name>, left: set<Name>, x: Name): set<Name> {
    row - left - {x}
  }

  lemma OneMore(row: set<Name>, left: set<Name>, x: Name, nb: Name)
    requires left <= row && nb in left
    ensures nb !in Seen(row, left, x)
    ensures Seen(row, left - {nb}, x) == if nb == x then Seen(row, left, x) else Seen(row, left, x) + {nb}
  {}

  lemma AllSeen(row: set<Name>, x: Name)
    ensures Seen(row, {}, x) == row - {x}
  {}

  lemma TallyNone(g: WGraph, community: map<Name, Name>, x: Name)
    requires x in g
    ensures Tallied(g, community, x, Seen(g[x].Keys, g[x].Keys, x), map[])
  {}

  /** Adds up the row of `node` by the community each neighbour is in. */
  method Tally(g: WGraph, community: map<Name, Name>, node: Name) returns (into: map<Name, real>)
    requires WellFormed(g) && g.Keys <= community.Keys && node in g
    ensures Tallied(g, community, node, g[node].Keys - {node}, into)
  {
    var row := g[node].Keys;
    RowKeys(g, node);
    hide WellFormed;
    hide Tallied;
    hide Seen;
    hide Weight;
    hide At;
    into := map[];
    var left := row;
    TallyNone(g, community, node);
    while left != {}
      invariant left <= row
      invariant Tallied(g, community, node, Seen(row, left, node), into)
      decreases |left|
    {
      var nb :| nb in left;
      OneMore(row, left, node, nb);
      ghost var seen := Seen(row, left, node);
      left := left - {nb};
      if nb == node { continue; }
      ghost var before := into;
      into := into[community[nb] := At(into, community[nb]) + Weight(g, node, nb)];
      TallyOneMore(g, community, node, seen, before, nb, into);
    }
    AllSeen(row, node);
  }

  /** Weight from `node` into each neighbouring community, `node` itself excluded. */
  method IntoCommunities(g: WGraph, community: map<Name, Name>, node: Name) returns (into: map<Name, real>)
    requires WellFormed(g) && community.Keys == g.Keys && node in g
    ensures Surveyed(g, community, node, into)
  {
    into := Tally(g, community, node);
    ghost var tally := into;
    if community[node] !in into {
      into := into[community[node] := 0.0];
    }
    hide Tallied;
    hide Surveyed;
    hide WellFormed;
    SurveyDone(g, community, node, tally, into);
  }

  lemma SurveyedKeys(g: WGraph, community: map<Name, Name>, x: Name, into: map<Name, real>)
    requires Surveyed(g, community, x, into)
    ensures forall c :: c in into <==> c == community[x] || Neighbouring(g, community, x, c)
  {}

  lemma GainIsGain(g: WGraph, m2: real, community: map<Name, Name>, communityDegree: map<Name, real>, x: Name, into: map<Name, real>, c: Name)
    requires m2 != 0.0 && x in g && c in into
    requires WithoutNode(g, community, communityDegree, x) && Surveyed(g, community, x, into)
    ensures c in communityDegree
    ensures into[c] - Product(communityDegree[c], Degree(g, x)) / m2 == Gain(g, community, m2, x, c)
  {
    hide Product;
    hide Others;
    hide Degree;
    hide Toward;
    assert c in community.Values;
  }

  /** The scan over the surveyed communities: keep the best so far, replace it only for a clear gain. */
  method ScanBest(own: Name, into: map<Name, real>, communityDegree: map<Name, real>, k: real, m2: real, ghost gain: Name -> real)
    returns (best: Name)
    requires own in into && into.Keys <= communityDegree.Keys && m2 != 0.0
    requires forall c :: c in into ==> into[c] - Product(communityDegree[c], k) / m2 == gain(c)
    ensures best in into
    ensures best != own ==> gain(best) > gain(own) + 0.000000000001
    ensures forall c :: c in into ==> gain(c) <= gain(best) + 0.000000000001
  {
    hide Product;
    best := own;
    var bestGain := into[own] - Product(communityDegree[own], k) / m2;
    var left := into.Keys;
    while left != {}
      invariant left <= into.Keys
      invariant best in into && bestGain == gain(best)
      invariant best == own || bestGain > gain(own) + 0.000000000001
      invariant forall c :: c in into && c !in left ==> gain(c) <= bestGain + 0.000000000001
      decreases |left|
    {
      var c :| c in left;
      left := left - {c};
      var candidate := into[c] - Product(communityDegree[c], k) / m2;
      if candidate > bestGain + EPSILON {
        bestGain := candidate;
        best := c;
      }
    }
  }

  ghost function GainFn(g: WGraph, community: map<Name, Name>, m2: real, x: Name): Name -> real
    requires m2 != 0.0
  {
    c => Gain(g, community, m2, x, c)
  }

  /** The best community to put `node` in: its own, unless another beats every one seen before it. */
  method BestCommunity(g: WGraph, m2: real, community: map<Name, Name>, communityDegree: map<Name, real>, node: Name, k: real)
    returns (best: Name)
    requires WellFormed(g) && m2 != 0.0 && node in g && k == Degree(g, node)
    requires WithoutNode(g, community, communityDegree, node)
    ensures best == community[node] || Neighbouring(g, community, node, best)
    ensures best != community[node] ==>
      Gain(g, community, m2, node, best) > Gain(g, community, m2, node, community[node]) + 0.000000000001
    ensures forall c :: Neighbouring(g, community, node, c) ==>
      Gain(g, community, m2, node, c) <= Gain(g, community, m2, node, best) + 0.000000000001
  {
    var into := IntoCommunities(g, community, node);
    SurveyedKeys(g, community, node, into);
    hide Surveyed;
    hide Neighbouring;
    hide Gain;
    hide Product;
    hide Others;
    hide WellFormed;
    forall c | c in into
      ensures c in communityDegree
      ensures into[c] - Product(communityDegree[c], k) / m2 == GainFn(g, community, m2, node)(c)
    {
      GainIsGain(g, m2, community, communityDegree, node, into, c);
    }
    best := ScanBest(community[node], into, communityDegree, k, m2, GainFn(g, community, m2, node));
    forall c | Neighbouring(g, community, node, c)
      ensures Gain(g, community, m2, node, c) <= Gain(g, community, m2, node, best) + 0.000000000001
    {
      assert GainFn(g, community, m2, node)(c) <= GainFn(g, community, m2, node)(best) + 0.000000000001;
    }
  }

  /** One step of the inner loop: take the node out, choose, put it in. */
  method MoveNode(g: WGraph, m2: real, degree: map<Name, real>, community: map<Name, Name>, communityDegree: map<Name, real>, node: Name)
    returns (community': map<Name, Name>, communityDegree': map<Name, real>, moved: bool)
    requires WellFormed(g) && m2 != 0.0 && node in g
    requires node in degree && degree[node] == Degree(g, node)
    requires Consistent(g, community, communityDegree)
    ensures Consistent(g, community', communityDegree')
    ensures node in community && node in community'
    ensures community' == community[node := community'[node]]
    ensures moved <==> community' != community
    ensures moved ==> Neighbouring(g, community, node, community'[node])
    ensures moved ==> Score(g, community', m2) > Score(g, community, m2) + 0.000000000002
    ensures !moved ==> Settled(g, community, m2, node)
  {
    hide Product;
    hide Gain;
    hide Score;
    hide Degree;
    hide Held;
    hide Others;
    hide WellFormed;
    var own := community[node];
    var k := degree[node];
    communityDegree' := communityDegree[own := communityDegree[own] - k];
    TakeOut(g, community, communityDegree, node, communityDegree');
    var best := BestCommunity(g, m2, community, communityDegree', node, k);
    ghost var without := communityDegree';
    communityDegree' := communityDegree'[best := communityDegree'[best] + k];
    PutIn(g, community, without, node, best, communityDegree');
    ScoreMove(g, community, m2, node, best);
    moved := best != own;
    community' := if moved then community[node := best] else community;
    assert community[node := own] == community;
  }

  // ---- rounds

  /** Some label has lost its last member. */
  ghost predicate Away(g: WGraph, community: map<Name, Name>) {
    community.Keys == g.Keys && community.Values < g.Keys
  }

  /** Either nobody has left home, or some label has lost its last member, for good. */
  ghost predicate Kept(g: WGraph, community: map<Name, Name>) {
    community == Singletons(g) || Away(g, community)
  }

  lemma MoveLeavesHome(g: WGraph, community: map<Name, Name>, x: Name, best: Name)
    requires Kept(g, community) && x in g && x in community && best != community[x]
    requires Neighbouring(g, community, x, best)
    ensures Away(g, community[x := best]) && Kept(g, community[x := best])
  {
    var after := community[x := best];
    var nb :| nb in g[x] && nb != x && nb in community && community[nb] == best;
    if community == Singletons(g) {
      assert forall b :: b in after ==> after[b] != x;
      assert x !in after.Values;
      assert after.Values <= g.Keys;
    } else {
      forall l | l in after.Values ensures l in community.Values {
        var b :| b in after && after[b] == l;
        assert if b == x then l == community[nb] else l == community[b];
      }
    }
  }

  lemma KeptCount(g: WGraph, community: map<Name, Name>)
    requires Kept(g, community)
    ensures community.Keys == g.Keys && community.Values <= g.Keys
    ensures |community.Values| <= |g|
    ensures |community.Values| == |g| <==> community == Singletons(g)
  {
    if community == Singletons(g) {
      forall a | a in g ensures a in community.Values { assert community[a] == a; }
      assert community.Values == g.Keys;
    } else {
      SubsetCount(community.Values, g.Keys);
    }
    assert |g| == |g.Keys|;
  }

  lemma SubsetCount<T>(s: set<T>, t: set<T>)
    requires s < t
    ensures |s| < |t|
  {
    assert t == s + (t - s);
  }

  ghost predicate AllSettled(g: WGraph, community: map<Name, Name>, m2: real)
    requires m2 != 0.0
  {
    g.Keys <= community.Keys && forall x :: x in g ==> Settled(g, community, m2, x)
  }

  ghost predicate SettledUpTo(g: WGraph, community: map<Name, Name>, m2: real, names: seq<Name>, i: nat)
    requires m2 != 0.0 && i <= |names|
  {
    forall j :: 0 <= j < i ==> names[j] in community && Settled(g, community, m2, names[j])
  }

  lemma SettledOneMore(g: WGraph, community: map<Name, Name>, m2: real, names: seq<Name>, i: nat)
    requires m2 != 0.0 && i < |names| && SettledUpTo(g, community, m2, names, i)
    requires names[i] in community && Settled(g, community, m2, names[i])
    ensures SettledUpTo(g, community, m2, names, i + 1)
  {}

  ghost predicate DegreesKnown(g: WGraph, degree: map<Name, real>) {
    degree.Keys == g.Keys && forall a :: a in g ==> degree[a] == Degree(g, a)
  }

  /** One pass over all nodes. */
  method MoveRound(g: WGraph, m2: real, degree: map<Name, real>, names: seq<Name>, community: map<Name, Name>, communityDegree: map<Name, real>)
    returns (community': map<Name, Name>, communityDegree': map<Name, real>, moved: bool)
    requires WellFormed(g) && m2 != 0.0 && DegreesKnown(g, degree)
    requires forall x :: x in names <==> x in g
    requires Consistent(g, community, communityDegree) && Kept(g, community)
    ensures Consistent(g, community', communityDegree') && Kept(g, community')
    ensures moved ==> Away(g, community') && Score(g, community', m2) > Score(g, community, m2) + 0.000000000002
    ensures !moved ==> community' == community && AllSettled(g, community, m2)
  {
    hide Consistent;
    hide Kept;
    hide Away;
    hide Score;
    hide Settled;
    hide WellFormed;
    hide Neighbouring;
    hide Degree;
    community', communityDegree', moved := community, communityDegree, false;
    for i := 0 to |names|
      invariant Consistent(g, community', communityDegree') && Kept(g, community')
      invariant moved ==> Away(g, community') && Score(g, community', m2) > Score(g, community, m2) + 0.000000000002
      invariant !moved ==> community' == community && SettledUpTo(g, community, m2, names, i)
    {
      hide SettledUpTo;
      ghost var before := community';
      var movedOne: bool;
      community', communityDegree', movedOne := MoveNode(g, m2, degree, community', communityDegree', names[i]);
      if movedOne {
        MoveLeavesHome(g, before, names[i], community'[names[i]]);
        moved := true;
      } else if !moved {
        SettledOneMore(g, community, m2, names, i);
      }
    }
  }

  /** The nodes, each listed once. */
  method Enumerate(s: set<Name>) returns (names: seq<Name>)
    ensures forall x :: x in names <==> x in s
    ensures forall i, j :: 0 <= i < j < |names| ==> names[i] != names[j]
  {
    names := [];
    var left := s;
    while left != {}
      invariant left <= s
      invariant forall x :: x in names <==> x in s - left
      invariant forall i, j :: 0 <= i < j < |names| ==> names[i] != names[j]
      decreases |left|
    {
      var x :| x in left;
      assert x !in names;
      assert forall y :: y in names + [x] <==> y in names || y == x;
      names := names + [x];
      left := left - {x};
    }
  }

  /** Every node alone, with its own degree. */
  method StartAlone(g: WGraph, names: seq<Name>)
    returns (community: map<Name, Name>, degree: map<Name, real>)
    requires WellFormed(g)
    requires forall x :: x in names <==> x in g
    ensures community == Singletons(g) && DegreesKnown(g, degree)
  {
    community, degree := map[], map[];
    for i := 0 to |names|
      invariant forall x :: x in community <==> x in names[..i]
      invariant forall x :: x in community ==> community[x] == x
      invariant degree.Keys == community.Keys
      invariant forall x :: x in degree ==> degree[x] == Degree(g, x)
    {
      hide Degree;
      hide WellFormed;
      var n := names[i];
      var k := DegreeOf(g, n);
      assert names[..i + 1] == names[..i] + [n];
      community := community[n := n];
      degree := degree[n := k];
    }
    assert names[..|names|] == names;
  }

  lemma AloneConsistent(g: WGraph, degree: map<Name, real>)
    requires DegreesKnown(g, degree)
    ensures Consistent(g, Singletons(g), degree)
  {
    forall c | c in g ensures degree[c] == Held(g, Singletons(g), c) {
      SumPoint(g.Keys, MemberDegree(g, Singletons(g), c), c);
    }
  }

  /** `n` rounds with a move in each have raised the score by more than `n` thresholds. */
  ghost predicate Climbed(start: real, score: real, n: nat) {
    if n == 0 then score == start else score > start + (n as real) * 0.000000000002
  }

  lemma ClimbFacts(start: real, score: real, n: nat)
    ensures Climbed(start, start, 0)
    ensures n > 0 && Climbed(start, score, n) ==> score > start + (n as real) * 0.000000000002
  {}

  lemma ClimbMore(start: real, before: real, after: real, n: nat)
    requires Climbed(start, before, n) && after > before + 0.000000000002
    ensures Climbed(start, after, n + 1) && (n > 0 ==> Climbed(start, after, n)) && Climbed(start, after, 1)
  {}

  /** The rounds themselves: until nothing moves, at most thirty. */
  method MoveRounds(g: WGraph, m2: real, degree: map<Name, real>, names: seq<Name>, alone: map<Name, Name>)
    returns (community: map<Name, Name>, moved: bool)
    requires WellFormed(g) && m2 != 0.0 && DegreesKnown(g, degree)
    requires forall x :: x in names <==> x in g
    requires alone == Singletons(g) && Consistent(g, alone, degree) && Kept(g, alone)
    ensures Kept(g, community)
    ensures !moved ==> AllSettled(g, community, m2)
    ensures moved ==> Climbed(Score(g, alone, m2), Score(g, community, m2), 30)
    ensures community == alone || Climbed(Score(g, alone, m2), Score(g, community, m2), 1)
  {
    hide Consistent;
    hide Kept;
    hide Score;
    hide Away;
    hide AllSettled;
    hide WellFormed;
    hide DegreesKnown;
    hide Singletons;
    hide Climbed;
    ghost var start := Score(g, alone, m2);
    community, moved := alone, true;
    var communityDegree := degree;
    var rounds := 0;
    ClimbFacts(start, start, 0);
    while moved && rounds < MAX_ROUNDS
      invariant rounds <= MAX_ROUNDS
      invariant Consistent(g, community, communityDegree) && Kept(g, community)
      invariant moved ==> Climbed(start, Score(g, community, m2), rounds)
      invariant !moved ==> AllSettled(g, community, m2)
      invariant community == alone || Climbed(start, Score(g, community, m2), 1)
      decreases MAX_ROUNDS - rounds
    {
      ghost var before := Score(g, community, m2);
      community, communityDegree, moved := MoveRound(g, m2, degree, names, community, communityDegree);
      if moved {
        ClimbMore(start, before, Score(g, community, m2), rounds);
      }
      rounds := rounds + 1;
    }
  }

  /**
    One Louvain pass. The result never scores below the singletons; it is the
    singletons exactly when it has as many labels as nodes; and either no node
    would gain by moving to a neighbouring community, or all thirty rounds were
    spent, each of them raising the score.
   */
  method LocalMoving(g: WGraph, m2: real) returns (community: map<Name, Name>, moved: bool)
    requires WellFormed(g)
    ensures community.Keys == g.Keys && community.Values <= g.Keys
    ensures |community.Values| <= |g|
    ensures |community.Values| == |g| <==> community == Singletons(g)
    ensures m2 == 0.0 ==> community == Singletons(g)
    ensures m2 != 0.0 && community != Singletons(g) ==> Climbed(Score(g, Singletons(g), m2), Score(g, community, m2), 1)
    ensures m2 != 0.0 && !moved ==> AllSettled(g, community, m2)
    ensures m2 != 0.0 && moved ==> Climbed(Score(g, Singletons(g), m2), Score(g, community, m2), 30)
  {
    hide *;
    var names := Enumerate(g.Keys);
    var degree;
    community, degree := StartAlone(g, names);
    moved := true;
    KeptAtStart(g);
    if m2 != 0.0 {
      AloneConsistent(g, degree);
      community, moved := MoveRounds(g, m2, degree, names, community);
    }
    KeptCount(g, community);
  }

  lemma KeptAtStart(g: WGraph)
    ensures Kept(g, Singletons(g))
  {}

  /** What settled means: no single move to a neighbouring community would lift the score by more than noise. */
  lemma SettledIsLocalOptimum(g: WGraph, community: map<Name, Name>, m2: real, x: Name, c: Name)
    requires WellFormed(g) && m2 != 0.0 && community.Keys == g.Keys
    requires AllSettled(g, community, m2) && Neighbouring(g, community, x, c)
    ensures Score(g, community[x := c], m2) <= Score(g, community, m2) + 0.000000000002
  {
    hide Gain;
    hide Score;
    hide WellFormed;
    assert Settled(g, community, m2, x);
    ScoreMove(g, community, m2, x, c);
  }
}
