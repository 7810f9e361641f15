/**
  The pass loop of `communities` in packages/curate/src/communities.ts: local
  moving, aggregation, repeat while the partition keeps changing. After every
  pass the level is the base graph collapsed under the labels so far; each pass
  that is kept leaves fewer nodes and a higher score, and when the loop stops
  early no merging of two neighbouring communities would help.
 */
module Clustering {
  import opened Names
  import opened Sums
  import opened WeightedGraph
  import opened Modularity
  import opened Regrouping
  import opened Moving
  import opened Aggregation

  const MAX_PASSES: nat := 12

  /** `level` is the base graph collapsed under `mapping`, and each pass so far has raised the score. */
  ghost predicate AtPass(g: WGraph, m2: real, mapping: map<Name, Name>, level: WGraph, passes: nat) {
    && |level| + passes <= |g|
    && Risen(g, m2, Singletons(g), mapping, passes)
    && TotalDegree(level) == m2
    && WellFormed(level)
    && IsAggregate(g, mapping, level)
  }

  /** `n` steps have each raised the score by more than the threshold; in a graph without links there are none. */
  ghost predicate Risen(g: WGraph, m2: real, before: map<Name, Name>, after: map<Name, Name>, n: nat) {
    if m2 == 0.0 then after == before else Climbed(Score(g, before, m2), Score(g, after, m2), n)
  }

  lemma FirstPass(g: WGraph, m2: real)
    requires WellFormed(g) && m2 == TotalDegree(g)
    ensures AtPass(g, m2, Singletons(g), g, 0)
  {
    AggregateSingletons(g);
  }

  /** A pass over `level` that merged something. */
  ghost predicate Merges(level: WGraph, m2: real, found: map<Name, Name>) {
    found.Keys == level.Keys && |found.Values| < |level| && m2 != 0.0 && Risen(level, m2, Singletons(level), found, 1)
  }

  /** A pass that merged something: the composed labels describe the next level, one pass higher. */
  lemma NextPass(g: WGraph, m2: real, mapping: map<Name, Name>, level: WGraph, passes: nat, found: map<Name, Name>, next: WGraph)
    requires Merges(level, m2, found) && WellFormed(next) && IsAggregate(level, found, next)
    requires AtPass(g, m2, mapping, level, passes)
    ensures AtPass(g, m2, Compose(mapping, found), next, passes + 1)
    ensures |next| < |level|
    ensures Score(g, Compose(mapping, found), m2) > Score(g, mapping, m2) + 0.000000000002
  {
    hide Score;
    hide IsAggregate;
    hide WellFormed;
    hide TotalDegree;
    hide Risen;
    hide Singletons;
    AggregateCompose(g, mapping, level, found, next);
    AggregateTotalDegree(level, found, next);
    LevelRises(g, m2, mapping, level, found, passes);
    LevelSize(level, found, next);
  }

  lemma LevelRises(g: WGraph, m2: real, mapping: map<Name, Name>, level: WGraph, found: map<Name, Name>, passes: nat)
    requires IsAggregate(g, mapping, level) && found.Keys == level.Keys && m2 != 0.0
    requires Risen(level, m2, Singletons(level), found, 1) && Risen(g, m2, Singletons(g), mapping, passes)
    ensures Risen(g, m2, Singletons(g), Compose(mapping, found), passes + 1)
    ensures Score(g, Compose(mapping, found), m2) > Score(g, mapping, m2) + 0.000000000002
  {
    hide Score;
    hide IsAggregate;
    hide Singletons;
    LevelScores(g, mapping, level, found, m2);
    ClimbMore(Score(g, Singletons(g), m2), Score(g, mapping, m2), Score(g, Compose(mapping, found), m2), passes);
  }

  lemma FoundRises(level: WGraph, m2: real, found: map<Name, Name>)
    requires m2 != 0.0 && Climbed(Score(level, Singletons(level), m2), Score(level, found, m2), 1)
    requires found.Keys == level.Keys && |found.Values| < |level|
    ensures Merges(level, m2, found)
  {
    hide Score;
    hide Climbed;
  }

  lemma LevelSize(level: WGraph, found: map<Name, Name>, next: WGraph)
    requires IsAggregate(level, found, next)
    ensures |next| == |found.Values|
  {
    ValuesAreLabels(level.Keys, found);
    assert |next| == |next.Keys|;
  }

  lemma LevelScores(g: WGraph, mapping: map<Name, Name>, level: WGraph, found: map<Name, Name>, m2: real)
    requires IsAggregate(g, mapping, level) && found.Keys == level.Keys && m2 != 0.0
    ensures Score(level, found, m2) == Score(g, Compose(mapping, found), m2)
    ensures Score(level, Singletons(level), m2) == Score(g, mapping, m2)
  {
    hide Score;
    AggregateScore(g, mapping, level, found, m2);
    AggregateScore(g, mapping, level, Singletons(level), m2);
    forall a | a in mapping ensures mapping[a] in level { assert mapping[a] in Labels(g.Keys, mapping); }
    assert Compose(mapping, Singletons(level)) == mapping;
  }

  /** A pass that found only singletons had nothing left to move. */
  lemma NothingMoved(level: WGraph, m2: real, found: map<Name, Name>, moved: bool)
    requires m2 != 0.0
    requires found == Singletons(level)
    requires !moved ==> AllSettled(level, found, m2)
    requires moved ==> Climbed(Score(level, Singletons(level), m2), Score(level, found, m2), 30)
    ensures AllSettled(level, Singletons(level), m2)
  {
    hide Score;
    hide AllSettled;
  }

  /** Each partition has strictly fewer communities than those before it and scores higher by more than the threshold. */
  ghost predicate Ascent(g: WGraph, m2: real, trace: seq<map<Name, Name>>) {
    forall i, j :: 0 <= i < j < |trace| ==>
      m2 != 0.0 && |trace[j].Values| < |trace[i].Values| && Score(g, trace[j], m2) > Score(g, trace[i], m2) + 0.000000000002
  }

  lemma AscentMore(g: WGraph, m2: real, trace: seq<map<Name, Name>>, before: map<Name, Name>, after: map<Name, Name>)
    requires m2 != 0.0 && Ascent(g, m2, trace) && |trace| > 0 && trace[|trace| - 1] == before
    requires |after.Values| < |before.Values| && Score(g, after, m2) > Score(g, before, m2) + 0.000000000002
    ensures Ascent(g, m2, trace + [after])
  {
    hide Score;
  }

  lemma AscentOne(g: WGraph, m2: real, mapping: map<Name, Name>)
    ensures Ascent(g, m2, [mapping])
  {}

  lemma AtPassSize(g: WGraph, m2: real, mapping: map<Name, Name>, level: WGraph, passes: nat)
    requires AtPass(g, m2, mapping, level, passes)
    ensures |mapping.Values| == |level|
  {
    ValuesAreLabels(g.Keys, mapping);
    assert |level| == |level.Keys|;
  }

  lemma MergesSome(level: WGraph, m2: real, found: map<Name, Name>)
    requires Merges(level, m2, found)
    ensures m2 != 0.0
  {}

  /**
    The passes. `level` ends as the base graph collapsed under `mapping`; `trace`
    holds the partition before the first pass and after each one that was kept,
    each with fewer communities and a higher score than the one before; and
    unless all twelve passes were spent, no collapsed node would gain by joining
    a neighbour.
   */
  method Passes(g: WGraph, m2: real) returns (mapping: map<Name, Name>, level: WGraph, passes: nat, ghost trace: seq<map<Name, Name>>)
    requires WellFormed(g) && m2 == TotalDegree(g)
    ensures passes <= MAX_PASSES && AtPass(g, m2, mapping, level, passes)
    ensures |trace| == passes + 1 && trace[0] == Singletons(g) && trace[passes] == mapping && Ascent(g, m2, trace)
    ensures passes < MAX_PASSES && m2 != 0.0 ==> AllSettled(level, Singletons(level), m2)
  {
    hide *;
    level := g;
    mapping := Alone(g);
    passes := 0;
    trace := [mapping];
    FirstPass(g, m2);
    AscentOne(g, m2, mapping);
    var pass := 0;
    while pass < MAX_PASSES
      invariant pass <= MAX_PASSES && passes == pass
      invariant AtPass(g, m2, mapping, level, passes)
      invariant |trace| == passes + 1 && trace[0] == Singletons(g) && trace[passes] == mapping && Ascent(g, m2, trace)
      decreases MAX_PASSES - pass
    {
      PassFacts(g, m2, mapping, level, passes);
      AtPassSize(g, m2, mapping, level, passes);
      var found, moved := LocalMoving(level, m2);
      if |found.Values| == |level| {
        if m2 != 0.0 { NothingMoved(level, m2, found, moved); }
        break;
      }
      FoundRises(level, m2, found);
      MergesSome(level, m2, found);
      var next := Aggregate(level, found);
      NextPass(g, m2, mapping, level, passes, found, next);
      AtPassSize(g, m2, Compose(mapping, found), next, passes + 1);
      AscentMore(g, m2, trace, mapping, Compose(mapping, found));
      mapping := Composed(mapping, found);
      trace := trace + [mapping];
      level := next;
      passes := passes + 1;
      pass := pass + 1;
    }
  }

  method Alone(g: WGraph) returns (mapping: map<Name, Name>)
    ensures mapping == Singletons(g)
  {
    mapping := map n | n in g :: n;
  }

  /** Rewrites every entry of the mapping by what its community was found to belong to. */
  method Composed(mapping: map<Name, Name>, found: map<Name, Name>) returns (after: map<Name, Name>)
    requires mapping.Values <= found.Keys
    ensures after == Compose(mapping, found)
  {
    after := map n | n in mapping :: if mapping[n] in found then found[mapping[n]] else mapping[n];
  }

  lemma PassFacts(g: WGraph, m2: real, mapping: map<Name, Name>, level: WGraph, passes: nat)
    requires AtPass(g, m2, mapping, level, passes)
    ensures WellFormed(level) && mapping.Values == level.Keys && mapping.Keys == g.Keys
  {
    ValuesAreLabels(g.Keys, mapping);
  }

  /** A link between two communities shows between their nodes one level up. */
  lemma LinkShowsAbove(g: WGraph, mapping: map<Name, Name>, level: WGraph, a: Name, b: Name)
    requires WellFormed(g) && IsAggregate(g, mapping, level)
    requires a in g && b in g[a] && g[a][b] > 0.0
    requires a in mapping && b in mapping && mapping[a] != mapping[b]
    ensures mapping[a] in level && mapping[b] in level && mapping[b] in level[mapping[a]]
  {
    hide WellFormed;
    hide IsAggregate;
    hide Block;
    var p, q := mapping[a], mapping[b];
    RowKeys(g, a);
    AggregateLabels(g, mapping, level);
    assert LabelFn(mapping)(a) in level.Keys && LabelFn(mapping)(b) in level.Keys;
    BlockAtLeast(g, mapping, a, b);
    AggregateAt(g, mapping, level, p, q);
  }

  lemma BlockAtLeast(g: WGraph, mapping: map<Name, Name>, a: Name, b: Name)
    requires WellFormed(g) && a in g && b in g && a in mapping && b in mapping
    ensures Block(g.Keys, mapping, Adjacency(g), mapping[a], mapping[b]) >= Adjacency(g)(a, b)
  {
    var block := Select(InBlock(mapping, mapping[a], mapping[b]), Adjacency(g));
    forall x, y ensures block(x, y) >= 0.0 { WeightMirrored(g, x, y); }
    forall x ensures RowSums(g.Keys, block)(x) >= 0.0 { SumNonNegative(g.Keys, Row(block, x)); }
    SumTermLe(g.Keys, Row(block, a), b);
    SumTermLe(g.Keys, RowSums(g.Keys, block), a);
  }

  /** Where the passes stop early, merging two linked communities would not lift the score by more than noise. */
  lemma NoMergeHelps(g: WGraph, m2: real, mapping: map<Name, Name>, level: WGraph, passes: nat, a: Name, b: Name)
    requires WellFormed(g) && AtPass(g, m2, mapping, level, passes) && m2 != 0.0
    requires AllSettled(level, Singletons(level), m2)
    requires a in g && b in g[a] && g[a][b] > 0.0
    requires a in mapping && b in mapping && mapping[a] != mapping[b]
    ensures Score(g, Merged(mapping, mapping[a], mapping[b]), m2) <= Score(g, mapping, m2) + 0.000000000002
  {
    hide Score;
    hide AllSettled;
    hide IsAggregate;
    hide WellFormed;
    hide Risen;
    hide TotalDegree;
    hide Neighbouring;
    var p, q := mapping[a], mapping[b];
    LinkShowsAbove(g, mapping, level, a, b);
    LinkedNeighbours(level, p, q);
    SettledIsLocalOptimum(level, Singletons(level), m2, p, q);
    var merge := Singletons(level)[p := q];
    LevelScores(g, mapping, level, merge, m2);
    MergedIsComposed(g, mapping, level, p, q);
  }

  lemma LinkedNeighbours(level: WGraph, p: Name, q: Name)
    requires p in level && q in level && q in level[p] && p != q
    ensures Neighbouring(level, Singletons(level), p, q)
  {
    assert Singletons(level)[q] == q;
  }

  /** Community `p` relabelled as `q`. */
  ghost function Merged(mapping: map<Name, Name>, p: Name, q: Name): map<Name, Name> {
    map a | a in mapping :: if mapping[a] == p then q else mapping[a]
  }

  lemma MergedIsComposed(g: WGraph, mapping: map<Name, Name>, level: WGraph, p: Name, q: Name)
    requires IsAggregate(g, mapping, level) && p in level
    ensures Compose(mapping, Singletons(level)[p := q]) == Merged(mapping, p, q)
  {
    forall a | a in mapping ensures mapping[a] in level { assert mapping[a] in Labels(g.Keys, mapping); }
  }
}
